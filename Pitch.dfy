/** The semitone-to-Transpose mapping of the Pitch Shifter effect: snap to
    the nearest half step, look the snapped value up in a fixed 25-entry
    table, and take the midpoint of the neighbouring entries for a half
    step. Both script variants carry the same function. */
module Pitch {
  import opened Wrappers

  /** The value the scripts fall back to, which is also the entry for 0. */
  const Fallback: real := 0.33333334326744

  /** The literal table, entry `k + 12` for the key `k` in `-12 .. 12`. */
  const Table: seq<real> := [
    0.0, 0.0198210477829, 0.04082067683339, 0.06306902319193,
    0.08664035797119, 0.11161327362061, 0.13807117938995, 0.16610236465931,
    0.19580034911633, 0.22726428508759, 0.26059913635254, 0.29591619968414,
    0.33333334326744, 0.37297543883324, 0.41497468948364, 0.45947137475014,
    0.5066140294075, 0.55655986070633, 0.60947567224503, 0.66553807258606,
    0.72493404150009, 0.78786188364029, 0.8545315861702, 0.9251657128334,
    1.0]

  /** `mapping[key]`: the entry when the table has the key. */
  function Lookup(key: int): (r: Option<real>)
    ensures r.Some? <==> -12 <= key <= 12
  {
    if -12 <= key <= 12 then Some(Table[key + 12]) else None
  }

  /** `mapping[key] || 0.33333334326744`: a missing entry and the falsy
      entry 0 both give the fallback. */
  function OrFallback(entry: Option<real>): real
  {
    match entry
    case Some(v) => if v != 0.0 then v else Fallback
    case None => Fallback
  }

  /** `Math.round(2 * s)`: the number of half steps nearest to `s`, a tie
      going up. */
  function HalfSteps(s: real): (h: int)
    ensures (h as real) / 2.0 - 0.25 <= s < (h as real) / 2.0 + 0.25
  {
    (2.0 * s + 0.5).Floor
  }

  /** The mapping of a snapped value `h / 2`. The key `h / 2` is in the
      table when `h` is even and within range; otherwise the floor is
      `h / 2` (division rounding down), the ceiling `(h + 1) / 2`, and the
      interpolation factor `(h % 2) / 2`, which is 0 or one half. */
  function RatioOfHalfSteps(h: int): real
  {
    if h % 2 == 0 && Lookup(h / 2).Some? then Lookup(h / 2).value
    else
      var lower := h / 2;
      var upper := (h + 1) / 2;
      var lowerRatio := OrFallback(Lookup(lower));
      var upperRatio := OrFallback(Lookup(upper));
      var factor := (h % 2) as real / 2.0;
      lowerRatio + (upperRatio - lowerRatio) * factor
  }

  /** An even half-step count within the table reads its entry; an odd one
      gives the midpoint of the fallback reads of its two neighbours. */
  lemma HalfStepCases(h: int)
    ensures h % 2 == 0 && -12 <= h / 2 <= 12 ==> Lookup(h / 2) == Some(RatioOfHalfSteps(h))
    ensures h % 2 == 1 ==>
      RatioOfHalfSteps(h) == (OrFallback(Lookup(h / 2)) + OrFallback(Lookup(h / 2 + 1))) / 2.0
  {
    if h % 2 == 1 {
      var lo := OrFallback(Lookup(h / 2));
      var hi := OrFallback(Lookup(h / 2 + 1));
      assert (h + 1) / 2 == h / 2 + 1;
      assert (h % 2) as real / 2.0 == 0.5;
      assert RatioOfHalfSteps(h) == lo + (hi - lo) * 0.5;
    }
  }

  /** `semitonesToTransposeRatio`. */
  function TransposeRatio(semitones: real): (r: real)
    ensures var h := HalfSteps(semitones);
      h % 2 == 0 && -12 <= h / 2 <= 12 ==> Lookup(h / 2) == Some(r)
    ensures var h := HalfSteps(semitones);
      h % 2 == 1 ==> r == (OrFallback(Lookup(h / 2)) + OrFallback(Lookup(h / 2 + 1))) / 2.0
  {
    HalfStepCases(HalfSteps(semitones));
    RatioOfHalfSteps(HalfSteps(semitones))
  }

  /** Snapping is idempotent: a multiple of a half step is its own nearest
      half step, so the ratio depends only on the snapped value. */
  lemma SnapIdempotent(s: real)
    ensures HalfSteps(HalfSteps(s) as real / 2.0) == HalfSteps(s)
    ensures TransposeRatio(HalfSteps(s) as real / 2.0) == TransposeRatio(s)
  {
    var h := HalfSteps(s);
    assert 2.0 * (h as real / 2.0) + 0.5 == h as real + 0.5;
  }

  /** An integer key of the table maps to its entry exactly. */
  lemma TableKeyExact(k: int)
    requires -12 <= k <= 12
    ensures TransposeRatio(k as real) == Table[k + 12]
  {
    var h := 2 * k;
    assert HalfSteps(k as real) == h by {
      assert 2.0 * (k as real) + 0.5 == h as real + 0.5;
    }
    assert h % 2 == 0 && h / 2 == k && (h + 1) / 2 == k;
  }

  /** The three anchor values: 12 gives 1, 0 gives 0.33333334326744 and
      -12 gives 0. */
  lemma Anchors()
    ensures TransposeRatio(12.0) == 1.0
    ensures TransposeRatio(0.0) == 0.33333334326744
    ensures TransposeRatio(-12.0) == 0.0
  {
    TableKeyExact(12);
    TableKeyExact(0);
    TableKeyExact(-12);
  }

  /** A half step between two keys gives the midpoint of their entries,
      each entry read through the `||` fallback. */
  lemma HalfStepMidpoint(k: int)
    ensures TransposeRatio(k as real + 0.5) == (OrFallback(Lookup(k)) + OrFallback(Lookup(k + 1))) / 2.0
  {
    var h := 2 * k + 1;
    assert HalfSteps(k as real + 0.5) == h by {
      assert 2.0 * (k as real + 0.5) + 0.5 == h as real + 0.5;
    }
    assert h % 2 == 1 && h / 2 == k;
    HalfStepCases(h);
  }

  /** -11.5 sits between -12, whose entry 0 is replaced by the fallback,
      and -11. */
  lemma MinusElevenAndAHalf()
    ensures TransposeRatio(-11.5) == (0.33333334326744 + 0.0198210477829) / 2.0
  {
    HalfStepMidpoint(-12);
  }

  /** 3.5 sits between the entries for 3 and 4. */
  lemma ThreeAndAHalf()
    ensures TransposeRatio(3.5) == (0.45947137475014 + 0.5066140294075) / 2.0
  {
    HalfStepMidpoint(3);
  }

  /** An integer outside the table gives the fallback. */
  lemma OutsideTable(k: int)
    requires k < -12 || k > 12
    ensures TransposeRatio(k as real) == Fallback
  {
    var h := 2 * k;
    assert HalfSteps(k as real) == h by {
      assert 2.0 * (k as real) + 0.5 == h as real + 0.5;
    }
    assert h % 2 == 0 && h / 2 == k && (h + 1) / 2 == k;
  }

  /** The entries strictly increase with the key. */
  lemma TableIncreasing(a: int, b: int)
    requires -12 <= a < b <= 12
    ensures Table[a + 12] < Table[b + 12]
  {
  }

  /** Every table entry, read through the fallback or not, lies in `[0, 1]`. */
  lemma EntryInUnitInterval(k: int)
    ensures Lookup(k).Some? ==> 0.0 <= Lookup(k).value <= 1.0
    ensures 0.0 <= OrFallback(Lookup(k)) <= 1.0
  {
    if -12 < k <= 12 { TableIncreasing(-12, k); }
    if -12 <= k < 12 { TableIncreasing(k, 12); }
  }

  /** Every ratio lies in `[0, 1]`. */
  lemma RatioInUnitInterval(s: real)
    ensures 0.0 <= TransposeRatio(s) <= 1.0
  {
    var h := HalfSteps(s);
    if h % 2 == 1 {
      EntryInUnitInterval(h / 2);
      EntryInUnitInterval(h / 2 + 1);
    } else if -12 <= h / 2 <= 12 {
      EntryInUnitInterval(h / 2);
    } else {
      assert (h + 1) / 2 == h / 2 && (h % 2) as real / 2.0 == 0.0;
      assert RatioOfHalfSteps(h) == Fallback;
    }
  }

  /** The strict table read in `applyPitchShifter`: only an integer key in
      `-12 .. 12` is found; any other pitch is "Invalid pitch value". The
      entry 0 for -12 is found, since the script tests for `undefined`. */
  function StrictTranspose(pitch: real): (r: Result<real, string>)
    ensures r.Success? <==> pitch == pitch.Floor as real && -12 <= pitch.Floor <= 12
    ensures r.Failure? ==> r.error == "Invalid pitch value"
  {
    if pitch == pitch.Floor as real && Lookup(pitch.Floor).Some? then Success(Lookup(pitch.Floor).value)
    else Failure("Invalid pitch value")
  }

  /** Where the strict read succeeds it agrees with the snapping mapping. */
  lemma StrictAgreesWithRatio(pitch: real)
    requires StrictTranspose(pitch).Success?
    ensures StrictTranspose(pitch).value == TransposeRatio(pitch)
  {
    TableKeyExact(pitch.Floor);
  }
}
