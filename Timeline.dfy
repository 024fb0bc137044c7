/** The timeline data shared by both script variants: clips, tracks and the
    half-open overlap test. Times are whole hundredths of a second, so the
    scripts' 0.1 s step and 0.01 s buffer are exact. */
module Timeline {
  import opened Wrappers

  /** The occupied span `[start, end)` of a clip on a track. */
  datatype Clip = Clip(start: int, end: int)

  /** An audio track: its lock state, its clips in the host's order, and
      the host's `track.end` time when the host reports one. */
  datatype Track = Track(locked: bool, clips: seq<Clip>, end: Option<int>)

  /** Where a clip is to be inserted. */
  datatype Placement = Placement(trackIndex: nat, time: int)

  /** A clip conflicts with `[s, e)` when it starts before `e` and ends after
      `s`; spans that only touch do not conflict. */
  predicate Overlaps(c: Clip, s: int, e: int)
  {
    c.start < e && c.end > s
  }

  /** No clip of the track conflicts with `[s, e)`. */
  predicate Free(clips: seq<Clip>, s: int, e: int)
  {
    forall i :: 0 <= i < |clips| ==> !Overlaps(clips[i], s, e)
  }

  /** `track.end ? track.end.seconds : 0`. */
  function TrackEnd(t: Track): int
  {
    match t.end
    case Some(e) => e
    case None => 0
  }

  /** The track the host appends: unlocked and empty. */
  function NewTrack(): Track
  {
    Track(false, [], None)
  }

  /** Spans that only touch a clip at either end do not conflict with it,
      and a track without clips is free everywhere. */
  lemma TouchingIsFree(c: Clip, s: int, e: int)
    ensures Free([c], c.end, e) && Free([c], s, c.start)
    ensures Free([], s, e)
  {
  }
}
