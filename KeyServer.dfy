/** The key-name mapping and message format of the key relay: each polled
    key name is mapped to the name the panel expects, and a changed key set
    is sent as `KEYPRESS:` followed by the mapped names joined with `+`. */
module KeyServer {
  import opened Wrappers
  import opened Text

  /** `map_keycode`, on the key's debug name: digit keys become the digit,
      four numpad keys and the left/right modifiers are renamed, and every
      other name passes through. */
  function MapKeycode(name: string): (r: string)
    ensures r == [] <==> name == []
  {
    match name
    case "Key1" => "1"
    case "Key2" => "2"
    case "Key3" => "3"
    case "Key4" => "4"
    case "Key5" => "5"
    case "Key6" => "6"
    case "Key7" => "7"
    case "Key8" => "8"
    case "Key9" => "9"
    case "Key0" => "0"
    case "Numpad0" => "Numpad0"
    case "Numpad1" => "Numpad1"
    case "Numpad2" => "Numpad2"
    case "Numpad3" => "Numpad3"
    case "Numpad4" => "Numpad4"
    case "Numpad5" => "Numpad5"
    case "Numpad6" => "Numpad6"
    case "Numpad7" => "Numpad7"
    case "Numpad8" => "Numpad8"
    case "Numpad9" => "Numpad9"
    case "NumpadSlash" => "NumpadDivide"
    case "NumpadAsterisk" => "NumpadMultiply"
    case "NumpadMinus" => "NumpadSubtract"
    case "NumpadPlus" => "NumpadAdd"
    case "NumpadEnter" => "NumpadEnter"
    case "NumpadDot" => "NumpadDecimal"
    case "ControlLeft" => "LCtrl"
    case "ControlRight" => "RCtrl"
    case "AltLeft" => "LAlt"
    case "AltRight" => "RAlt"
    case "ShiftLeft" => "LShift"
    case "ShiftRight" => "RShift"
    case "MetaLeft" => "LCommand"
    case "MetaRight" => "RCommand"
    case _ => name
  }

  /** The names `map_keycode` renames; every other name passes through. */
  const RenamedKeys: set<string> := {
    "Key0", "Key1", "Key2", "Key3", "Key4", "Key5", "Key6", "Key7", "Key8", "Key9",
    "NumpadSlash", "NumpadAsterisk", "NumpadMinus", "NumpadPlus", "NumpadDot",
    "ControlLeft", "ControlRight", "AltLeft", "AltRight",
    "ShiftLeft", "ShiftRight", "MetaLeft", "MetaRight"}

  /** `Key0` .. `Key9` map to the single digits. */
  lemma DigitKeys(d: char)
    requires '0' <= d <= '9'
    ensures MapKeycode("Key" + [d]) == [d]
  {
    if d == '0' {
      assert "Key" + [d] == "Key0";
    } else if d == '1' {
      assert "Key" + [d] == "Key1";
    } else if d == '2' {
      assert "Key" + [d] == "Key2";
    } else if d == '3' {
      assert "Key" + [d] == "Key3";
    } else if d == '4' {
      assert "Key" + [d] == "Key4";
    } else if d == '5' {
      assert "Key" + [d] == "Key5";
    } else if d == '6' {
      assert "Key" + [d] == "Key6";
    } else if d == '7' {
      assert "Key" + [d] == "Key7";
    } else if d == '8' {
      assert "Key" + [d] == "Key8";
    } else {
      assert d == '9' && "Key" + [d] == "Key9";
    }
  }

  /** `Numpad0` .. `Numpad9` keep their names. */
  lemma NumpadDigitsUnchanged(d: char)
    requires '0' <= d <= '9'
    ensures MapKeycode("Numpad" + [d]) == "Numpad" + [d]
  {
    if d == '0' {
      assert "Numpad" + [d] == "Numpad0";
    } else if d == '1' {
      assert "Numpad" + [d] == "Numpad1";
    } else if d == '2' {
      assert "Numpad" + [d] == "Numpad2";
    } else if d == '3' {
      assert "Numpad" + [d] == "Numpad3";
    } else if d == '4' {
      assert "Numpad" + [d] == "Numpad4";
    } else if d == '5' {
      assert "Numpad" + [d] == "Numpad5";
    } else if d == '6' {
      assert "Numpad" + [d] == "Numpad6";
    } else if d == '7' {
      assert "Numpad" + [d] == "Numpad7";
    } else if d == '8' {
      assert "Numpad" + [d] == "Numpad8";
    } else {
      assert d == '9' && "Numpad" + [d] == "Numpad9";
    }
  }

  /** The numpad operator keys take the names the panel uses, and Enter
      keeps its name. */
  lemma NumpadOperators()
    ensures MapKeycode("NumpadSlash") == "NumpadDivide"
    ensures MapKeycode("NumpadAsterisk") == "NumpadMultiply"
    ensures MapKeycode("NumpadMinus") == "NumpadSubtract"
    ensures MapKeycode("NumpadPlus") == "NumpadAdd"
    ensures MapKeycode("NumpadDot") == "NumpadDecimal"
    ensures MapKeycode("NumpadEnter") == "NumpadEnter"
  {
  }

  /** The left and right modifier keys become `L…`/`R…` names, Meta
      becoming Command. */
  lemma Modifiers()
    ensures MapKeycode("ControlLeft") == "LCtrl" && MapKeycode("ControlRight") == "RCtrl"
    ensures MapKeycode("AltLeft") == "LAlt" && MapKeycode("AltRight") == "RAlt"
    ensures MapKeycode("ShiftLeft") == "LShift" && MapKeycode("ShiftRight") == "RShift"
    ensures MapKeycode("MetaLeft") == "LCommand" && MapKeycode("MetaRight") == "RCommand"
  {
    LeftModifiers();
    RightModifiers();
  }

  /** The four left-hand modifier renames. */
  lemma LeftModifiers()
    ensures MapKeycode("ControlLeft") == "LCtrl" && MapKeycode("AltLeft") == "LAlt"
    ensures MapKeycode("ShiftLeft") == "LShift" && MapKeycode("MetaLeft") == "LCommand"
  {
  }

  /** The four right-hand modifier renames. */
  lemma RightModifiers()
    ensures MapKeycode("ControlRight") == "RCtrl" && MapKeycode("AltRight") == "RAlt"
    ensures MapKeycode("ShiftRight") == "RShift" && MapKeycode("MetaRight") == "RCommand"
  {
  }

  /** A name outside the renamed ones passes through unchanged. */
  lemma PassThrough(name: string)
    requires name !in RenamedKeys
    ensures MapKeycode(name) == name
  {
  }

  /** A mapped name is free of `+` when the key name is. */
  lemma MappedNameWellFormed(name: string)
    requires '+' !in name
    ensures '+' !in MapKeycode(name)
  {
  }

  /** `keys.iter().map(map_keycode)`, the set's iteration order given. */
  function MapNames(keys: seq<string>): (r: seq<string>)
    ensures |r| == |keys|
    ensures forall i :: 0 <= i < |keys| ==> r[i] == MapKeycode(keys[i])
  {
    if keys == [] then [] else [MapKeycode(keys[0])] + MapNames(keys[1..])
  }

  const Prefix: string := "KEYPRESS:"

  /** The message for a key set: none for an empty combo, else
      `KEYPRESS:` and the mapped names joined with `+`. */
  function KeypressMessage(keys: seq<string>): (r: Option<string>)
    ensures keys == [] ==> r.None?
    ensures r.Some? ==> |r.value| > |Prefix| && r.value[..|Prefix|] == Prefix
  {
    var combo := Join(MapNames(keys), '+');
    if combo == [] then None else Some(Prefix + combo)
  }

  /** One poll: when the key set equals the last one nothing happens;
      otherwise the message for the new set (if any) is sent and the new set
      becomes the last one. */
  function Poll(last: set<string>, keys: seq<string>): (r: (Option<string>, set<string>))
    ensures r.1 == set k | k in keys
    ensures (set k | k in keys) == last ==> r.0.None?
    ensures (set k | k in keys) != last ==> r.0 == KeypressMessage(keys)
  {
    var current := set k | k in keys;
    if current == last then (None, last) else (KeypressMessage(keys), current)
  }

  /** A message starts with `KEYPRESS:`, and splitting the rest on `+`
      gives back the mapped names in order; no key set gives no message. */
  lemma {:induction false} MessageDecodes(keys: seq<string>)
    requires forall i :: 0 <= i < |keys| ==> keys[i] != [] && '+' !in keys[i]
    ensures keys == [] <==> KeypressMessage(keys).None?
    ensures KeypressMessage(keys).Some? ==>
      var m := KeypressMessage(keys).value;
      |m| >= |Prefix| && m[..|Prefix|] == Prefix && Split(m[|Prefix|..], '+') == MapNames(keys)
  {
    var names := MapNames(keys);
    forall i | 0 <= i < |names| ensures names[i] != [] && '+' !in names[i] {
      MappedNameWellFormed(keys[i]);
    }
    if keys != [] {
      SplitJoin(names, '+');
      var combo := Join(names, '+');
      assert combo != [] by {
        if |names| > 1 {
          assert combo == names[0] + ['+'] + Join(names[1..], '+');
        }
      }
      var m := Prefix + combo;
      assert m[..|Prefix|] == Prefix && m[|Prefix|..] == combo;
    }
  }
}
