/** Splitting and joining strings on a one-character separator, as
    JavaScript's `String.prototype.split` and Rust's `join` do it. */
module Text {

  /** Number of occurrences of `c` in `s`. */
  function Count(s: string, c: char): nat
  {
    if s == [] then 0 else (if s[0] == c then 1 else 0) + Count(s[1..], c)
  }

  /** `s.split(c)`: the maximal runs of `s` between occurrences of `c`,
      in order; an empty string splits into one empty field. */
  function Split(s: string, c: char): (r: seq<string>)
    ensures |r| >= 1
  {
    if s == [] then [[]]
    else
      var rest := Split(s[1..], c);
      if s[0] == c then [[]] + rest
      else [[s[0]] + rest[0]] + rest[1..]
  }

  /** `parts.join(c)`: the parts with one `c` between neighbours. */
  function Join(parts: seq<string>, c: char): string
  {
    if |parts| == 0 then []
    else if |parts| == 1 then parts[0]
    else parts[0] + [c] + Join(parts[1..], c)
  }

  /** The last field of a split, as `split(c).pop()` returns it. */
  function LastField(s: string, c: char): string
  {
    var parts := Split(s, c);
    parts[|parts| - 1]
  }

  /** A split has one more field than the string has separators. */
  lemma {:induction false} SplitCount(s: string, c: char)
    ensures |Split(s, c)| == Count(s, c) + 1
  {
    if s != [] {
      SplitCount(s[1..], c);
    }
  }

  /** No field of a split contains the separator. */
  lemma {:induction false} SplitFieldsFree(s: string, c: char)
    ensures forall i :: 0 <= i < |Split(s, c)| ==> c !in Split(s, c)[i]
  {
    if s != [] {
      SplitFieldsFree(s[1..], c);
      var rest := Split(s[1..], c);
      if s[0] != c {
        assert c !in rest[0];
        assert c !in [s[0]] + rest[0];
      }
    }
  }

  /** Joining the fields of a split gives back the string. */
  lemma {:induction false} JoinSplit(s: string, c: char)
    ensures Join(Split(s, c), c) == s
  {
    if s != [] {
      JoinSplit(s[1..], c);
      var rest := Split(s[1..], c);
      if s[0] == c {
        assert Split(s, c) == [[]] + rest;
      } else {
        var parts := Split(s, c);
        assert parts == [[s[0]] + rest[0]] + rest[1..];
        if |rest| == 1 {
          assert Join(rest, c) == rest[0];
        } else {
          assert parts[1..] == rest[1..];
          assert Join(rest, c) == rest[0] + [c] + Join(rest[1..], c);
        }
      }
    }
  }

  /** One step of a split from the front: the first character either ends
      the first field (a separator) or joins it, and the last field is the
      whole string only when the rest has no separator. */
  lemma SplitStep(s: string, c: char)
    requires s != []
    ensures |Split(s, c)| == if s[0] == c then |Split(s[1..], c)| + 1 else |Split(s[1..], c)|
    ensures LastField(s, c) ==
      if s[0] != c && |Split(s[1..], c)| == 1 then s else LastField(s[1..], c)
  {
    var rest := Split(s[1..], c);
    var parts := Split(s, c);
    if s[0] == c {
      assert parts == [[]] + rest;
      assert parts[|parts| - 1] == rest[|rest| - 1];
    } else {
      assert parts == [[s[0]] + rest[0]] + rest[1..];
      if |rest| == 1 {
        JoinSplit(s[1..], c);
        assert rest[0] == s[1..];
        assert [s[0]] + s[1..] == s;
      } else {
        assert parts[|parts| - 1] == rest[|rest| - 1];
      }
    }
  }

  /** The last field of a split is a suffix of the string. */
  lemma {:induction false} LastFieldIsSuffix(s: string, c: char)
    ensures |LastField(s, c)| <= |s|
    ensures LastField(s, c) == s[|s| - |LastField(s, c)|..]
  {
    if s != [] {
      SplitStep(s, c);
      if s[0] != c && |Split(s[1..], c)| == 1 {
        assert LastField(s, c) == s;
        assert s[|s| - |s|..] == s;
      } else {
        var last := LastField(s[1..], c);
        LastFieldIsSuffix(s[1..], c);
        var k := |s| - 1 - |last|;
        calc {
          s[|s| - |LastField(s, c)|..];
        ==
          s[k + 1..];
        == { assert s[1..][k..] == s[k + 1..]; }
          s[1..][k..];
        ==
          LastField(s, c);
        }
      }
    }
  }

  /** The last field of a split is the whole string when the string has no
      separator, and otherwise starts right after a separator. */
  lemma {:induction false} LastFieldBoundary(s: string, c: char)
    ensures |Split(s, c)| == 1 ==> LastField(s, c) == s
    ensures |Split(s, c)| > 1 ==>
      |LastField(s, c)| < |s| && s[|s| - |LastField(s, c)| - 1] == c
  {
    if s != [] {
      SplitStep(s, c);
      LastFieldBoundary(s[1..], c);
      var last := LastField(s[1..], c);
      if |Split(s[1..], c)| > 1 {
        assert s[1..][|s| - 1 - |last| - 1] == s[|s| - |last| - 1];
      }
    }
  }

  /** What `split(c).pop()` returns: a separator-free suffix that is the
      whole string or follows a separator. */
  lemma LastFieldFacts(s: string, c: char)
    ensures c !in LastField(s, c)
    ensures |LastField(s, c)| <= |s| && LastField(s, c) == s[|s| - |LastField(s, c)|..]
    ensures |LastField(s, c)| == |s| || s[|s| - |LastField(s, c)| - 1] == c
  {
    SplitFieldsFree(s, c);
    LastFieldIsSuffix(s, c);
    LastFieldBoundary(s, c);
  }

  /** A leading character other than the separator joins the first field. */
  lemma SplitConsFree(x: char, s: string, c: char)
    requires x != c
    ensures Split([x] + s, c) == [[x] + Split(s, c)[0]] + Split(s, c)[1..]
  {
    assert ([x] + s)[0] == x && ([x] + s)[1..] == s;
  }

  /** Splitting a separator-free prefix followed by `t` glues the prefix
      onto the first field of `t`. */
  lemma {:induction false} SplitAfterFreePrefix(p: string, t: string, c: char)
    requires c !in p
    ensures Split(p + t, c) == [p + Split(t, c)[0]] + Split(t, c)[1..]
  {
    var r := Split(t, c);
    if p != [] {
      var rest := Split(p[1..] + t, c);
      calc {
        Split(p + t, c);
      == { assert p + t == [p[0]] + (p[1..] + t); }
        Split([p[0]] + (p[1..] + t), c);
      == { SplitConsFree(p[0], p[1..] + t, c); }
        [[p[0]] + rest[0]] + rest[1..];
      == { SplitAfterFreePrefix(p[1..], t, c); }
        [[p[0]] + (p[1..] + r[0])] + r[1..];
      == { assert [p[0]] + (p[1..] + r[0]) == p + r[0]; }
        [p + r[0]] + r[1..];
      }
    } else {
      assert p + t == t && p + r[0] == r[0];
      assert r == [r[0]] + r[1..];
    }
  }

  /** Splitting a join of separator-free parts recovers the parts. */
  lemma {:induction false} SplitJoin(parts: seq<string>, c: char)
    requires |parts| >= 1
    requires forall i :: 0 <= i < |parts| ==> c !in parts[i]
    ensures Split(Join(parts, c), c) == parts
  {
    if |parts| == 1 {
      SplitAfterFreePrefix(parts[0], [], c);
      assert parts[0] + [] == parts[0];
    } else {
      var tail := Join(parts[1..], c);
      SplitJoin(parts[1..], c);
      assert Join(parts, c) == parts[0] + ([c] + tail);
      SplitAfterFreePrefix(parts[0], [c] + tail, c);
      assert ([c] + tail)[1..] == tail;
      assert Split([c] + tail, c) == [[]] + parts[1..];
      assert parts[0] + [] == parts[0];
    }
  }
}
