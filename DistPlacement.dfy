/** The placement search of the built script variant: the per-track search
    jumps the cursor to the next clip start, or steps it by 0.1 s, until the
    track end; when no track from the start index has room, a new track is
    appended. */
module DistPlacement {
  import opened Wrappers
  import opened Timeline

  /** The cursor step used when no clip starts after the cursor: 0.1 s. */
  const Step: int := 10

  /** `isSpaceFree`: a scan for a clip that conflicts with `[s, e)`. */
  method IsSpaceFree(track: Track, s: int, e: int) returns (free: bool)
    ensures free <==> Free(track.clips, s, e)
    ensures |track.clips| == 0 ==> free
  {
    if |track.clips| == 0 {
      return true;
    }
    var i := 0;
    while i < |track.clips|
      invariant 0 <= i <= |track.clips|
      invariant forall j :: 0 <= j < i ==> !Overlaps(track.clips[j], s, e)
    {
      var clip := track.clips[i];
      if clip.start < e && clip.end > s {
        return false;
      }
      i := i + 1;
    }
    return true;
  }

  /** The smallest clip start strictly after `cursor`, or none when no clip
      starts after it. */
  function NextStartAfter(clips: seq<Clip>, cursor: int): (r: Option<int>)
    ensures r.Some? ==> r.value > cursor
    ensures r.Some? ==> exists i :: 0 <= i < |clips| && clips[i].start == r.value
    ensures r.Some? ==> forall i :: 0 <= i < |clips| && clips[i].start > cursor ==> r.value <= clips[i].start
    ensures r.None? <==> forall i :: 0 <= i < |clips| ==> clips[i].start <= cursor
  {
    if clips == [] then None
    else
      var prefix := clips[..|clips| - 1];
      var last := clips[|clips| - 1];
      var best := NextStartAfter(prefix, cursor);
      assert forall i :: 0 <= i < |prefix| ==> prefix[i] == clips[i];
      if last.start > cursor && (best.None? || last.start < best.value) then Some(last.start)
      else best
  }

  /** Extending the scanned prefix by clip `i` keeps the smaller start. */
  lemma NextStartAfterStep(clips: seq<Clip>, i: nat, cursor: int)
    requires i < |clips|
    ensures NextStartAfter(clips[..i + 1], cursor) ==
      var best := NextStartAfter(clips[..i], cursor);
      if clips[i].start > cursor && (best.None? || clips[i].start < best.value) then Some(clips[i].start)
      else best
  {
    var p := clips[..i + 1];
    assert p[..|p| - 1] == clips[..i] && p[|p| - 1] == clips[i];
  }

  /** `findNextClipStart`: the loop that keeps the least later start seen. */
  method FindNextClipStart(track: Track, cursor: int) returns (next: Option<int>)
    ensures next == NextStartAfter(track.clips, cursor)
  {
    if |track.clips| == 0 {
      return None;
    }
    next := None;
    var i := 0;
    while i < |track.clips|
      invariant 0 <= i <= |track.clips|
      invariant next == NextStartAfter(track.clips[..i], cursor)
    {
      var clip := track.clips[i];
      NextStartAfterStep(track.clips, i, cursor);
      if clip.start > cursor {
        if next.None? || clip.start < next.value {
          next := Some(clip.start);
        }
      }
      i := i + 1;
    }
    assert track.clips[..i] == track.clips;
  }

  /** Where the cursor goes after a failed probe: the next clip start, or
      0.1 s further; it always moves strictly forward. */
  function Advance(track: Track, cursor: int): (r: int)
    ensures r > cursor
    ensures r == cursor + Step || exists i :: 0 <= i < |track.clips| && track.clips[i].start == r
  {
    match NextStartAfter(track.clips, cursor)
    case Some(n) => n
    case None => cursor + Step
  }

  /** The cursor walk of `findSpaceOnTrack` from `cursor` on: the first
      cursor below the track end at which `[cursor, cursor + dur)` is free. */
  function Probe(track: Track, cursor: int, dur: int): (r: Option<int>)
    ensures r.Some? ==> cursor <= r.value < TrackEnd(track)
    decreases TrackEnd(track) - cursor
  {
    if cursor >= TrackEnd(track) then None
    else if Free(track.clips, cursor, cursor + dur) then Some(cursor)
    else Probe(track, Advance(track, cursor), dur)
  }

  /** The per-track search: the requested start when it is free, else the
      cursor walk from there. */
  function FindSpace(track: Track, start: int, dur: int): (r: Option<int>)
    ensures r.Some? ==> r.value >= start
    ensures Free(track.clips, start, start + dur) ==> r == Some(start)
  {
    if Free(track.clips, start, start + dur) then Some(start) else Probe(track, start, dur)
  }

  /** Whatever the cursor walk finds is at or after where it began, below
      the track end, and free for the whole duration. */
  lemma {:induction false} ProbeSound(track: Track, cursor: int, dur: int)
    ensures Probe(track, cursor, dur).Some? ==>
      var t := Probe(track, cursor, dur).value;
      cursor <= t < TrackEnd(track) && Free(track.clips, t, t + dur)
    decreases TrackEnd(track) - cursor
  {
    if cursor < TrackEnd(track) && !Free(track.clips, cursor, cursor + dur) {
      ProbeSound(track, Advance(track, cursor), dur);
    }
  }

  /** Any start the per-track search returns is no earlier than requested
      and leaves `[t, t + dur)` free. */
  lemma FindSpaceSound(track: Track, start: int, dur: int)
    ensures FindSpace(track, start, dur).Some? ==>
      var t := FindSpace(track, start, dur).value;
      t >= start && Free(track.clips, t, t + dur)
  {
    ProbeSound(track, start, dur);
  }

  /** Searching again from a start the search returned returns it again. */
  lemma FindSpaceIdempotent(track: Track, start: int, dur: int)
    requires FindSpace(track, start, dur).Some?
    ensures FindSpace(track, FindSpace(track, start, dur).value, dur) == FindSpace(track, start, dur)
  {
    FindSpaceSound(track, start, dur);
  }

  /** Once every clip starts at or before the cursor and one of them reaches
      the track end, the walk only steps by 0.1 s and finds nothing: the
      gap after the last clip is never tried. */
  lemma {:induction false} ProbeFailsPastLastStart(track: Track, cursor: int, dur: int, k: nat)
    requires dur > 0
    requires forall i :: 0 <= i < |track.clips| ==> track.clips[i].start <= cursor
    requires k < |track.clips| && track.clips[k].end >= TrackEnd(track)
    ensures Probe(track, cursor, dur) == None
    decreases TrackEnd(track) - cursor
  {
    if cursor < TrackEnd(track) {
      assert Overlaps(track.clips[k], cursor, cursor + dur);
      assert NextStartAfter(track.clips, cursor).None?;
      ProbeFailsPastLastStart(track, cursor + Step, dur, k);
    }
  }

  /** `findSpaceOnTrack`. */
  method FindSpaceOnTrack(track: Track, start: int, dur: int) returns (space: Option<int>)
    ensures space == FindSpace(track, start, dur)
    ensures Free(track.clips, start, start + dur) ==> space == Some(start)
    ensures space.Some? ==> space.value >= start && Free(track.clips, space.value, space.value + dur)
    ensures !Free(track.clips, start, start + dur) && start >= TrackEnd(track) ==> space == None
  {
    FindSpaceSound(track, start, dur);
    var free := IsSpaceFree(track, start, start + dur);
    if free {
      return Some(start);
    }
    var trackDuration := TrackEnd(track);
    var current := start;
    while current < trackDuration
      invariant Probe(track, current, dur) == Probe(track, start, dur)
      decreases trackDuration - current
    {
      free := IsSpaceFree(track, current, current + dur);
      if free {
        return Some(current);
      }
      var next := FindNextClipStart(track, current);
      ghost var before := current;
      if next.Some? {
        current := next.value;
      } else {
        current := current + Step;
      }
      assert current == Advance(track, before);
      assert Probe(track, before, dur) == Probe(track, current, dur);
    }
    assert Probe(track, current, dur) == None;
    return None;
  }

  /** First fit over the existing tracks from index `i`: the first unlocked
      track on which the per-track search succeeds. */
  function FirstFit(tracks: seq<Track>, i: nat, playhead: int, dur: int): (r: Option<Placement>)
    ensures r.Some? ==> i <= r.value.trackIndex < |tracks| && !tracks[r.value.trackIndex].locked
    decreases |tracks| - i
  {
    if i >= |tracks| then None
    else if !tracks[i].locked && FindSpace(tracks[i], playhead, dur).Some? then
      Some(Placement(i, FindSpace(tracks[i], playhead, dur).value))
    else FirstFit(tracks, i + 1, playhead, dur)
  }

  /** A track is passed over when it is locked or has no room. */
  predicate PassedOver(t: Track, playhead: int, dur: int)
  {
    t.locked || FindSpace(t, playhead, dur).None?
  }

  /** What first fit returns is the first track from `i` that is unlocked
      and has room, at the start its search found; every earlier track from
      `i` is passed over. */
  lemma {:induction false} FirstFitFound(tracks: seq<Track>, i: nat, playhead: int, dur: int)
    requires FirstFit(tracks, i, playhead, dur).Some?
    ensures var p := FirstFit(tracks, i, playhead, dur).value;
      i <= p.trackIndex < |tracks| && !tracks[p.trackIndex].locked &&
      FindSpace(tracks[p.trackIndex], playhead, dur) == Some(p.time) &&
      forall j :: i <= j < p.trackIndex ==> PassedOver(tracks[j], playhead, dur)
    decreases |tracks| - i
  {
    if !(!tracks[i].locked && FindSpace(tracks[i], playhead, dur).Some?) {
      FirstFitFound(tracks, i + 1, playhead, dur);
    }
  }

  /** First fit finds nothing exactly when every track from `i` is passed
      over. */
  lemma {:induction false} FirstFitNone(tracks: seq<Track>, i: nat, playhead: int, dur: int)
    ensures FirstFit(tracks, i, playhead, dur).None? <==>
      forall j :: i <= j < |tracks| ==> PassedOver(tracks[j], playhead, dur)
    decreases |tracks| - i
  {
    if i < |tracks| {
      FirstFitNone(tracks, i + 1, playhead, dur);
    }
  }

  /** The sequence of the host, whose audio track list the placement search
      reads and may append one track to. */
  class Sequence {
    var tracks: seq<Track>

    constructor (tracks: seq<Track>)
      ensures this.tracks == tracks
    {
      this.tracks := tracks;
    }

    /** `findPlacementLocation`. A negative start index makes the script read
        a missing track and land in its `catch`, which returns nulls. */
    method FindPlacementLocation(startIndex: int, playhead: int, dur: int) returns (r: Option<Placement>)
      modifies this
      ensures startIndex < 0 ==> r == None && tracks == old(tracks)
      ensures startIndex >= 0 && FirstFit(old(tracks), startIndex, playhead, dur).Some? ==>
        r == FirstFit(old(tracks), startIndex, playhead, dur) && tracks == old(tracks)
      ensures startIndex >= 0 && FirstFit(old(tracks), startIndex, playhead, dur).None? ==>
        tracks == old(tracks) + [NewTrack()] && r == Some(Placement(|old(tracks)|, playhead))
    {
      if startIndex < 0 {
        return None;
      }
      var i: nat := startIndex;
      while i < |tracks|
        invariant tracks == old(tracks)
        invariant FirstFit(tracks, i, playhead, dur) == FirstFit(tracks, startIndex, playhead, dur)
        decreases |tracks| - i
      {
        var track := tracks[i];
        if !track.locked {
          var space := FindSpaceOnTrack(track, playhead, dur);
          if space.Some? {
            return Some(Placement(i, space.value));
          }
        }
        i := i + 1;
      }
      var newTrackIndex := |tracks|;
      tracks := tracks + [NewTrack()];
      return Some(Placement(newTrackIndex, playhead));
    }
  }

  /** The result of a search from a normalised (non-negative) index is
      always a placement: an unlocked track with room, at or after the
      playhead and free for the whole duration, or the appended track at the
      playhead. */
  lemma PlacementAlwaysFree(tracks: seq<Track>, startIndex: nat, playhead: int, dur: int)
    ensures match FirstFit(tracks, startIndex, playhead, dur)
      case Some(p) =>
        startIndex <= p.trackIndex < |tracks| && !tracks[p.trackIndex].locked &&
        p.time >= playhead && Free(tracks[p.trackIndex].clips, p.time, p.time + dur)
      case None =>
        Free(NewTrack().clips, playhead, playhead + dur)
  {
    if FirstFit(tracks, startIndex, playhead, dur).Some? {
      FirstFitFound(tracks, startIndex, playhead, dur);
      var p := FirstFit(tracks, startIndex, playhead, dur).value;
      FindSpaceSound(tracks[p.trackIndex], playhead, dur);
    }
  }

  /** A sequence whose tracks from the start index are all locked gets a new
      track. */
  lemma AllLockedMeansNewTrack(tracks: seq<Track>, startIndex: nat, playhead: int, dur: int)
    requires forall j :: startIndex <= j < |tracks| ==> tracks[j].locked
    ensures FirstFit(tracks, startIndex, playhead, dur) == None
  {
    FirstFitNone(tracks, startIndex, playhead, dur);
  }

  /** One unlocked track holding a clip over `[0 s, 10 s)` that ends the
      track, and a 3 s clip requested at 5 s: the script never tries 10 s,
      so the clip goes to a new track at 5 s rather than to 10 s. */
  lemma SingleBlockingClipGetsNewTrack()
    ensures var track := Track(false, [Clip(0, 1000)], Some(1000));
      FindSpace(track, 500, 300) == None &&
      FirstFit([track], 0, 500, 300) == None
  {
    var track := Track(false, [Clip(0, 1000)], Some(1000));
    assert Overlaps(track.clips[0], 500, 800);
    ProbeFailsPastLastStart(track, 500, 300, 0);
  }
}
