/** The pure steps of `importAudioToTrack`: reading the media duration out
    of the `MediaDuration` metadata field, and normalising the 1-based
    track index the panel sends. */
module ImportAudio {
  import opened Wrappers
  import opened Text

  /** Ticks per frame in the duration field's last part. */
  const TicksPerFrame: nat := 1602

  datatype DurationError =
    | DurationNotFound  // "Unable to determine audio duration from metadata"
    | NotDecimal        // a field the script would hand to parseInt's coercion

  predicate IsDigit(c: char)
  {
    '0' <= c <= '9'
  }

  function DigitValue(c: char): nat
    requires IsDigit(c)
  {
    c as int - '0' as int
  }

  /** The value of a string of decimal digits, most significant first. */
  function DigitsValue(s: string): nat
    requires forall i :: 0 <= i < |s| ==> IsDigit(s[i])
  {
    if s == [] then 0
    else DigitsValue(s[..|s| - 1]) * 10 + DigitValue(s[|s| - 1])
  }

  /** `parseInt` on a field made only of digits; anything else is outside
      the model. */
  function ParseDecimal(s: string): Option<nat>
  {
    if s != [] && forall i :: 0 <= i < |s| ==> IsDigit(s[i]) then Some(DigitsValue(s)) else None
  }

  /** The decimal spelling of `n`, without leading zeros. */
  function DecimalString(n: nat): (s: string)
    ensures s != [] && forall i :: 0 <= i < |s| ==> IsDigit(s[i])
  {
    var digit := ['0' + (n % 10) as char];
    if n < 10 then digit else DecimalString(n / 10) + digit
  }

  /** Reading back the decimal spelling of a number gives the number. */
  lemma {:induction false} DecimalRoundTrip(n: nat)
    ensures ParseDecimal(DecimalString(n)) == Some(n)
  {
    var s := DecimalString(n);
    var digit := '0' + (n % 10) as char;
    assert DigitValue(digit) == n % 10;
    assert s[|s| - 1] == digit;
    assert DigitsValue(s) == DigitsValue(s[..|s| - 1]) * 10 + n % 10;
    if n >= 10 {
      DecimalRoundTrip(n / 10);
      assert s[..|s| - 1] == DecimalString(n / 10);
    } else {
      assert n % 10 == n;
      assert s[..|s| - 1] == [];
    }
  }

  /** The duration of four `:`-separated fields: `H*3600 + M*60 + S`
      seconds plus `T / 1602` frames at `fps` frames a second. */
  function DurationOfFields(parts: seq<string>, fps: nat): (r: Result<real, DurationError>)
    requires |parts| == 4 && fps > 0
    ensures r.Success? <==> forall i :: 0 <= i < 4 ==> ParseDecimal(parts[i]).Some?
    ensures r.Failure? ==> r.error == NotDecimal
    ensures r.Success? ==> r.value >= 0.0
  {
    match (ParseDecimal(parts[0]), ParseDecimal(parts[1]), ParseDecimal(parts[2]), ParseDecimal(parts[3]))
    case (Some(hours), Some(minutes), Some(seconds), Some(ticks)) =>
      var frames := ticks as real / TicksPerFrame as real;
      Success((hours * 3600 + minutes * 60 + seconds) as real + frames / fps as real)
    case _ => Failure(NotDecimal)
  }

  /** The duration in seconds read from the captured field text (`None`
      when the metadata has no such field), given the sequence's whole frame
      rate. An empty capture counts as missing; a field count other than
      four leaves the duration at 0 without an error. */
  function ParseDuration(tag: Option<string>, fps: nat): (r: Result<real, DurationError>)
    requires fps > 0
    ensures tag.None? || tag == Some([]) ==> r == Failure(DurationNotFound)
  {
    match tag
    case None => Failure(DurationNotFound)
    case Some(text) =>
      if text == [] then Failure(DurationNotFound)
      else
        var parts := Split(text, ':');
        if |parts| != 4 then Success(0.0) else DurationOfFields(parts, fps)
  }

  /** A decimal spelling holds no colon. */
  lemma DecimalHasNoColon(n: nat)
    ensures ':' !in DecimalString(n)
  {
    var s := DecimalString(n);
    assert forall j :: 0 <= j < |s| ==> IsDigit(s[j]);
  }

  /** Four decimal spellings joined with colons split back into themselves. */
  lemma WrittenFieldsSplit(a: string, b: string, c: string, d: string)
    requires a != []
    requires ':' !in a && ':' !in b && ':' !in c && ':' !in d
    ensures var parts := [a, b, c, d];
      Join(parts, ':') != [] && Split(Join(parts, ':'), ':') == parts
  {
    var parts := [a, b, c, d];
    assert forall i :: 0 <= i < 4 ==> parts[i] in {a, b, c, d};
    SplitJoin(parts, ':');
    assert Join(parts, ':') == parts[0] + [':'] + Join(parts[1..], ':');
  }

  lemma ParsedFieldsDuration(text: string, parts: seq<string>, hours: nat, minutes: nat, seconds: nat, ticks: nat, fps: nat)
    requires fps > 0 && text != [] && Split(text, ':') == parts && |parts| == 4
    requires ParseDecimal(parts[0]) == Some(hours) && ParseDecimal(parts[1]) == Some(minutes)
    requires ParseDecimal(parts[2]) == Some(seconds) && ParseDecimal(parts[3]) == Some(ticks)
    ensures ParseDuration(Some(text), fps)
         == Success((hours * 3600 + minutes * 60 + seconds) as real + (ticks as real / 1602.0) / fps as real)
  {
    assert ParseDuration(Some(text), fps) == DurationOfFields(parts, fps);
  }

  /** A duration written as `H:M:S:T` reads as `H*3600 + M*60 + S` seconds
      plus `T / 1602` frames at the frame rate. */
  lemma DurationOfWrittenFields(hours: nat, minutes: nat, seconds: nat, ticks: nat, fps: nat)
    requires fps > 0
    ensures ParseDuration(Some(Join([DecimalString(hours), DecimalString(minutes),
                                     DecimalString(seconds), DecimalString(ticks)], ':')), fps)
         == Success((hours * 3600 + minutes * 60 + seconds) as real + (ticks as real / 1602.0) / fps as real)
  {
    var parts := [DecimalString(hours), DecimalString(minutes), DecimalString(seconds), DecimalString(ticks)];
    DecimalHasNoColon(hours);
    DecimalHasNoColon(minutes);
    DecimalHasNoColon(seconds);
    DecimalHasNoColon(ticks);
    WrittenFieldsSplit(parts[0], parts[1], parts[2], parts[3]);
    DecimalRoundTrip(hours);
    DecimalRoundTrip(minutes);
    DecimalRoundTrip(seconds);
    DecimalRoundTrip(ticks);
    ParsedFieldsDuration(Join(parts, ':'), parts, hours, minutes, seconds, ticks, fps);
  }

  /** A non-empty capture whose colons do not number exactly three gives a
      duration of 0 and no error. */
  lemma OtherFieldCountIsZero(text: string, fps: nat)
    requires fps > 0
    requires text != [] && Count(text, ':') != 3
    ensures ParseDuration(Some(text), fps) == Success(0.0)
  {
    SplitCount(text, ':');
  }

  /** `parseInt(initialTrackIndex)`, with `None` for NaN, made 1 when it is
      NaN or below 1. */
  function NormalizeTrackIndex(parsed: Option<int>): (index: int)
    ensures index >= 1
    ensures parsed.Some? && parsed.value >= 1 ==> index == parsed.value
    ensures parsed.None? || parsed.value < 1 ==> index == 1
  {
    if parsed.None? || parsed.value < 1 then 1 else parsed.value
  }

  /** The 0-based index the placement search starts from. */
  function SearchStartIndex(parsed: Option<int>): (start: nat)
    ensures parsed.Some? && parsed.value >= 1 ==> start == parsed.value - 1
    ensures parsed.None? || parsed.value < 1 ==> start == 0
  {
    NormalizeTrackIndex(parsed) - 1
  }
}
