/** The placement search of the source script variant: the per-track search
    walks the clips keeping the running maximum of their ends and tries that
    running end as a start whenever a clip begins more than 0.01 s after it;
    the track search never creates a track and reports "nothing" instead. */
module SrcPlacement {
  import opened Wrappers
  import opened Timeline

  /** The gap a clip start must exceed the running end by: 0.01 s. */
  const Buffer: int := 1

  function Max(a: int, b: int): int
  {
    if a >= b then a else b
  }

  /** `isSpaceFree`: a scan for a clip that conflicts with `[s, e)`. */
  method IsSpaceFree(track: Track, s: int, e: int) returns (free: bool)
    ensures free <==> Free(track.clips, s, e)
  {
    for i := 0 to |track.clips|
      invariant forall j :: 0 <= j < i ==> !Overlaps(track.clips[j], s, e)
    {
      var clip := track.clips[i];
      if clip.start < e && clip.end > s {
        return false;
      }
    }
    return true;
  }

  /** The running end before clip `k`: the playhead and the ends of clips
      `0 .. k-1`, whichever is latest. */
  function RunningEnd(clips: seq<Clip>, k: nat, playhead: int): (r: int)
    requires k <= |clips|
    ensures r >= playhead
    ensures forall j :: 0 <= j < k ==> r >= clips[j].end
    ensures r == playhead || exists j :: 0 <= j < k && r == clips[j].end
  {
    if k == 0 then playhead
    else Max(RunningEnd(clips, k - 1, playhead), clips[k - 1].end)
  }

  /** The running end never decreases from one clip to a later one. */
  lemma {:induction false} RunningEndMonotone(clips: seq<Clip>, i: nat, j: nat, playhead: int)
    requires i <= j <= |clips|
    ensures RunningEnd(clips, i, playhead) <= RunningEnd(clips, j, playhead)
    decreases j - i
  {
    if i < j {
      RunningEndMonotone(clips, i, j - 1, playhead);
    }
  }

  /** The gap scan from clip `k` with running end `candidate`: the first
      candidate that a clip starts more than 0.01 s after and for which
      `[candidate, endTime)` is free. `endTime` stays the playhead plus the
      duration, as the script computed it before the scan. */
  function GapScan(clips: seq<Clip>, k: nat, candidate: int, endTime: int): (r: Option<int>)
    requires k <= |clips|
    ensures r.Some? ==>
      r.value >= candidate && exists j :: k <= j < |clips| && clips[j].start > r.value + Buffer
    decreases |clips| - k
  {
    if k == |clips| then None
    else if clips[k].start > candidate + Buffer && Free(clips, candidate, endTime) then Some(candidate)
    else GapScan(clips, k + 1, Max(candidate, clips[k].end), endTime)
  }

  /** The per-track search as the script has it: the playhead when
      `[playhead, playhead + dur)` is free, else the gap scan. */
  function FindSpace(track: Track, playhead: int, dur: int): (r: Option<int>)
    ensures r.Some? ==> r.value >= playhead
    ensures Free(track.clips, playhead, playhead + dur) ==> r == Some(playhead)
  {
    var endTime := playhead + dur;
    if Free(track.clips, playhead, endTime) then Some(playhead)
    else GapScan(track.clips, 0, playhead, endTime)
  }

  /** Clip `j` opens a gap after the running end before it, and that running
      end passes the (stale) free test. */
  predicate Passes(clips: seq<Clip>, j: nat, playhead: int, endTime: int)
    requires j < |clips|
  {
    var candidate := RunningEnd(clips, j, playhead);
    clips[j].start > candidate + Buffer && Free(clips, candidate, endTime)
  }

  /** One step of the gap scan from the running end: clip `k` either passes
      and its running end is returned, or the scan goes on from clip `k + 1`. */
  lemma GapScanStep(clips: seq<Clip>, k: nat, playhead: int, endTime: int)
    requires k < |clips|
    ensures GapScan(clips, k, RunningEnd(clips, k, playhead), endTime) ==
      if Passes(clips, k, playhead, endTime) then Some(RunningEnd(clips, k, playhead))
      else GapScan(clips, k + 1, RunningEnd(clips, k + 1, playhead), endTime)
  {
    assert RunningEnd(clips, k + 1, playhead) == Max(RunningEnd(clips, k, playhead), clips[k].end);
  }

  /** The gap scan finds nothing exactly when no clip from `k` on passes. */
  lemma {:induction false} GapScanNone(clips: seq<Clip>, k: nat, playhead: int, endTime: int)
    requires k <= |clips|
    ensures GapScan(clips, k, RunningEnd(clips, k, playhead), endTime).None? <==>
      forall j :: k <= j < |clips| ==> !Passes(clips, j, playhead, endTime)
    decreases |clips| - k
  {
    if k < |clips| {
      GapScanStep(clips, k, playhead, endTime);
      GapScanNone(clips, k + 1, playhead, endTime);
      assert (forall j :: k <= j < |clips| ==> !Passes(clips, j, playhead, endTime)) <==>
        !Passes(clips, k, playhead, endTime) &&
        forall j :: k + 1 <= j < |clips| ==> !Passes(clips, j, playhead, endTime);
    }
  }

  /** A start the gap scan finds is the running end before a passing clip
      with no passing clip between `k` and it. */
  lemma {:induction false} GapScanFound(clips: seq<Clip>, k: nat, playhead: int, endTime: int)
    requires k <= |clips|
    ensures var r := GapScan(clips, k, RunningEnd(clips, k, playhead), endTime);
      r.Some? ==> exists j :: k <= j < |clips| && Passes(clips, j, playhead, endTime) &&
                    r.value == RunningEnd(clips, j, playhead) &&
                    forall i :: k <= i < j ==> !Passes(clips, i, playhead, endTime)
    decreases |clips| - k
  {
    if k < |clips| {
      GapScanStep(clips, k, playhead, endTime);
      if Passes(clips, k, playhead, endTime) {
        assert GapScan(clips, k, RunningEnd(clips, k, playhead), endTime) == Some(RunningEnd(clips, k, playhead));
      } else {
        GapScanFound(clips, k + 1, playhead, endTime);
        var r := GapScan(clips, k + 1, RunningEnd(clips, k + 1, playhead), endTime);
        if r.Some? {
          var j :| k + 1 <= j < |clips| && Passes(clips, j, playhead, endTime) &&
            r.value == RunningEnd(clips, j, playhead) &&
            forall i :: k + 1 <= i < j ==> !Passes(clips, i, playhead, endTime);
          assert forall i :: k <= i < j ==> !Passes(clips, i, playhead, endTime);
        }
      }
    }
  }

  /** The gap scan returns the running end before the first passing clip,
      and nothing exactly when no clip from `k` on passes. */
  lemma GapScanFirstPass(clips: seq<Clip>, k: nat, playhead: int, endTime: int)
    requires k <= |clips|
    ensures var r := GapScan(clips, k, RunningEnd(clips, k, playhead), endTime);
      (r.None? <==> forall j :: k <= j < |clips| ==> !Passes(clips, j, playhead, endTime)) &&
      (r.Some? ==> exists j :: k <= j < |clips| && Passes(clips, j, playhead, endTime) &&
                    r.value == RunningEnd(clips, j, playhead) &&
                    forall i :: k <= i < j ==> !Passes(clips, i, playhead, endTime))
  {
    GapScanNone(clips, k, playhead, endTime);
    GapScanFound(clips, k, playhead, endTime);
  }

  /** What the script's search returns is at or after the playhead and is
      free up to the playhead plus the duration, and no more is promised. */
  lemma FindSpaceStaleGuarantee(track: Track, playhead: int, dur: int)
    ensures FindSpace(track, playhead, dur).Some? ==>
      var t := FindSpace(track, playhead, dur).value;
      t >= playhead && Free(track.clips, t, playhead + dur)
  {
    var clips := track.clips;
    var endTime := playhead + dur;
    if !Free(clips, playhead, endTime) {
      GapScanFirstPass(clips, 0, playhead, endTime);
    }
  }

  /** A clip over `[0 s, 1 s)` and one over `[1.5 s, 3 s)`, a 1 s clip
      requested at 0.5 s: the script returns 1 s, where the new clip would
      overlap the clip at 1.5 s. */
  lemma StaleEndTimeOverlap()
    ensures var track := Track(false, [Clip(0, 100), Clip(150, 300)], None);
      FindSpace(track, 50, 100) == Some(100) &&
      !Free(track.clips, 100, 100 + 100)
  {
    var track := Track(false, [Clip(0, 100), Clip(150, 300)], None);
    assert Overlaps(track.clips[0], 50, 150);
    assert Overlaps(track.clips[1], 100, 200);
  }

  /** The gap scan as evidently intended: each candidate is checked over the
      whole duration, `[candidate, candidate + dur)`. */
  function GapScanIntended(clips: seq<Clip>, k: nat, candidate: int, dur: int): Option<int>
    requires k <= |clips|
    decreases |clips| - k
  {
    if k == |clips| then None
    else if clips[k].start > candidate + Buffer && Free(clips, candidate, candidate + dur) then Some(candidate)
    else GapScanIntended(clips, k + 1, Max(candidate, clips[k].end), dur)
  }

  /** The per-track search with the intended gap test. */
  function FindSpaceIntended(track: Track, playhead: int, dur: int): Option<int>
  {
    if Free(track.clips, playhead, playhead + dur) then Some(playhead)
    else GapScanIntended(track.clips, 0, playhead, dur)
  }

  lemma {:induction false} GapScanIntendedSound(clips: seq<Clip>, k: nat, candidate: int, dur: int)
    requires k <= |clips|
    ensures GapScanIntended(clips, k, candidate, dur).Some? ==>
      var t := GapScanIntended(clips, k, candidate, dur).value;
      t >= candidate && Free(clips, t, t + dur)
    decreases |clips| - k
  {
    if k < |clips| {
      GapScanIntendedSound(clips, k + 1, Max(candidate, clips[k].end), dur);
    }
  }

  /** With the intended test, a returned start is at or after the playhead
      and the whole new clip `[t, t + dur)` is free. */
  lemma FindSpaceIntendedSound(track: Track, playhead: int, dur: int)
    ensures FindSpaceIntended(track, playhead, dur).Some? ==>
      var t := FindSpaceIntended(track, playhead, dur).value;
      t >= playhead && Free(track.clips, t, t + dur)
  {
    GapScanIntendedSound(track.clips, 0, playhead, dur);
  }

  /** `findSpaceOnTrack`, as written. */
  method FindSpaceOnTrack(track: Track, playhead: int, dur: int) returns (space: Option<int>)
    ensures space == FindSpace(track, playhead, dur)
    ensures Free(track.clips, playhead, playhead + dur) ==> space == Some(playhead)
    ensures space.Some? ==> space.value >= playhead && Free(track.clips, space.value, playhead + dur)
  {
    FindSpaceStaleGuarantee(track, playhead, dur);
    var endTime := playhead + dur;
    var free := IsSpaceFree(track, playhead, endTime);
    if free {
      return Some(playhead);
    }
    var lastClipEnd := playhead;
    for i := 0 to |track.clips|
      invariant GapScan(track.clips, i, lastClipEnd, endTime) == GapScan(track.clips, 0, playhead, endTime)
    {
      var clip := track.clips[i];
      if clip.start > lastClipEnd + Buffer {
        free := IsSpaceFree(track, lastClipEnd, endTime);
        if free {
          return Some(lastClipEnd);
        }
      }
      lastClipEnd := Max(lastClipEnd, clip.end);
    }
    return None;
  }

  /** First fit over the tracks from index `i` with the script's per-track
      search. */
  function FirstFit(tracks: seq<Track>, i: nat, playhead: int, dur: int): (r: Option<Placement>)
    ensures r.Some? ==> i <= r.value.trackIndex < |tracks| && !tracks[r.value.trackIndex].locked
    decreases |tracks| - i
  {
    if i >= |tracks| then None
    else if !tracks[i].locked && FindSpace(tracks[i], playhead, dur).Some? then
      Some(Placement(i, FindSpace(tracks[i], playhead, dur).value))
    else FirstFit(tracks, i + 1, playhead, dur)
  }

  /** What first fit returns is the first unlocked track from `i` with
      room; nothing means every track from `i` is locked or has no room. */
  lemma {:induction false} FirstFitIsFirst(tracks: seq<Track>, i: nat, playhead: int, dur: int)
    ensures FirstFit(tracks, i, playhead, dur).None? <==>
      forall j :: i <= j < |tracks| ==> tracks[j].locked || FindSpace(tracks[j], playhead, dur).None?
    ensures FirstFit(tracks, i, playhead, dur).Some? ==>
      var p := FirstFit(tracks, i, playhead, dur).value;
      i <= p.trackIndex < |tracks| && !tracks[p.trackIndex].locked &&
      FindSpace(tracks[p.trackIndex], playhead, dur) == Some(p.time) &&
      forall j :: i <= j < p.trackIndex ==> tracks[j].locked || FindSpace(tracks[j], playhead, dur).None?
    decreases |tracks| - i
  {
    if i < |tracks| {
      FirstFitIsFirst(tracks, i + 1, playhead, dur);
    }
  }

  /** `findPlacementLocation`: reads the track list and never changes it;
      `None` stands for the all-null result. A negative start index is
      excluded: the importer normalises it to at least 0. */
  method FindPlacementLocation(tracks: seq<Track>, startIndex: nat, playhead: int, dur: int)
    returns (r: Option<Placement>)
    ensures r == FirstFit(tracks, startIndex, playhead, dur)
    ensures r.Some? ==> startIndex <= r.value.trackIndex < |tracks| && !tracks[r.value.trackIndex].locked
    ensures r.Some? ==> r.value.time >= playhead
  {
    FirstFitIsFirst(tracks, startIndex, playhead, dur);
    ghost var fit := FirstFit(tracks, startIndex, playhead, dur);
    if fit.Some? {
      FindSpaceStaleGuarantee(tracks[fit.value.trackIndex], playhead, dur);
    }
    var i := startIndex;
    while i < |tracks|
      invariant FirstFit(tracks, i, playhead, dur) == FirstFit(tracks, startIndex, playhead, dur)
      decreases |tracks| - i
    {
      var track := tracks[i];
      if !track.locked {
        var space := FindSpaceOnTrack(track, playhead, dur);
        if space.Some? {
          return Some(Placement(i, space.value));
        }
      }
      i := i + 1;
    }
    return None;
  }

  /** A track that holds one clip over `[0 s, 10 s)` and a 3 s clip
      requested at 5 s: the scan never finds a clip starting after the
      running end, so the track reports no space and, with no other track,
      the placement is all-null. */
  lemma SingleBlockingClipNoPlacement()
    ensures var track := Track(false, [Clip(0, 1000)], Some(1000));
      FindSpace(track, 500, 300) == None && FirstFit([track], 0, 500, 300) == None
  {
    var track := Track(false, [Clip(0, 1000)], Some(1000));
    assert Overlaps(track.clips[0], 500, 800);
  }
}
