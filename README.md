# Audio importer placement and pitch mapping, in Dafny

This project models the logic core of an audio importer for a multi-track
video editor: the panel script imports an audio file, finds a place for it
on the timeline, inserts it, and sets its volume and pitch. The model covers
the parts of the two script variants (the built `dist/cep/jsx/importAudio.jsx`
and the source `src/jsx/importAudio.jsx`) that compute something, plus the
key-name table of the Rust key relay (`src/js/main/server.rs`).

- **Timeline placement** (`Timeline`, `DistPlacement`, `SrcPlacement`). A
  track is a lock flag, its clips as `[start, end)` spans and an optional
  end time; times are whole hundredths of a second, so the 0.1 s cursor step
  and the 0.01 s gap buffer are exact. The two variants are kept apart:
  - the built variant jumps its cursor to the next clip start, or steps it
    by 0.1 s, while the cursor is below the track end, and when no track from
    the start index has room it appends a new track (`DistPlacement.Sequence`,
    a class whose track list the placement method may extend);
  - the source variant walks the clips with a running maximum of their ends,
    tries that running end when a clip starts more than 0.01 s after it, and
    reports nothing (all-null) instead of creating a track.
  Each overlap scan (`IsSpaceFree`) is a method proved equivalent to the
  quantified predicate `Timeline.Free`; every other loop is a method proved
  equal to a recursive specification function. The properties (first fit,
  locked tracks never chosen, the exact shape of the failure cases) are
  lemmas about those functions. Results free of conflicts are proved for the
  built variant and for the corrected source scan; the source search as
  written promises only that `[t, playhead+dur)` is free
  (`SrcPlacement.FindSpaceStaleGuarantee`).
- **Pitch mapping** (`Pitch`). `semitonesToTransposeRatio` snaps to the
  nearest half step with ties going up (`Math.round`), reads the 25-entry
  literal table, and otherwise takes the midpoint of the floor and ceiling
  entries, each read through `|| 0.33333334326744` — which also replaces the
  table's own 0 at -12. The strict table read of `applyPitchShifter` accepts
  only integer keys in -12 .. 12. Values are Dafny `real`s.
- **Import helpers** (`ProjectBin`, `ImportAudio`). The file name of a path
  (last segment after `\` and then `/`), the depth-first search of the
  project's bins for a clip of that name, the `H:M:S:ticks` duration field,
  and the normalisation of the 1-based track index.
- **Key relay** (`KeyServer`). `map_keycode` on the key's debug name and the
  `KEYPRESS:` message built from a changed key set.

The scripts compare times exactly, with no tolerance, and do not validate
intervals. The built variant's walk runs only while the cursor is below the
track end (`dist/cep/jsx/importAudio.jsx:673`), so the start right after a
clip that ends the track is never tested. The comment at
`dist/cep/jsx/importAudio.jsx:683` says the cursor moves to the next clip end,
but the code jumps to the next clip start; the model follows the code. The
source variant tries a running end only when a later clip starts more than
0.01 s after it (`src/jsx/importAudio.jsx:371`), so it never tries the gap
after the last clip either. A single blocking clip therefore sends the new
clip to a new track in the built variant
(`DistPlacement.SingleBlockingClipGetsNewTrack`) and gives no placement in
the source variant (`SrcPlacement.SingleBlockingClipNoPlacement`), which
never creates a track.

## Model

| member | source | states |
|---|---|---|
| `Timeline.TouchingIsFree` | dist/cep/jsx/importAudio.jsx:698-709 | spans that only touch a clip do not conflict with it; a track without clips is free |
| `DistPlacement.IsSpaceFree` | dist/cep/jsx/importAudio.jsx:698-709 | the result is true iff no clip has `start < e` and `end > s`; true for a track without clips |
| `DistPlacement.NextStartAfter` | dist/cep/jsx/importAudio.jsx:711-725 | the result is a clip start strictly after the cursor and no later than any clip start after the cursor; none iff every clip starts at or before the cursor |
| `DistPlacement.FindNextClipStart` | dist/cep/jsx/importAudio.jsx:711-725 | the loop keeping the least later start computes that minimum |
| `DistPlacement.Advance` | dist/cep/jsx/importAudio.jsx:683-691 | the cursor moves strictly forward, to a clip start or by 0.1 s, so the search loop terminates |
| `DistPlacement.Probe` | dist/cep/jsx/importAudio.jsx:669-692 | the cursor walk of `findSpaceOnTrack`: a start it finds is at or after the cursor and below the track end; `ProbeSound` adds that the span is free, `ProbeFailsPastLastStart` when it finds nothing |
| `DistPlacement.ProbeSound` | dist/cep/jsx/importAudio.jsx:669-692 | a start found by the cursor walk is at or after the cursor, below the track end (0 when absent) and free for the whole duration |
| `DistPlacement.FindSpace` | dist/cep/jsx/importAudio.jsx:655-696 | the per-track search: a free requested start is returned as is, and any result is at or after it; `FindSpaceSound` and `FindSpaceIdempotent` state the rest |
| `DistPlacement.FindSpaceSound` | dist/cep/jsx/importAudio.jsx:655-696 | any start the per-track search returns is no earlier than requested and `[t, t+dur)` is free |
| `DistPlacement.FindSpaceIdempotent` | dist/cep/jsx/importAudio.jsx:655-696 | searching again from a returned start returns that start |
| `DistPlacement.ProbeFailsPastLastStart` | dist/cep/jsx/importAudio.jsx:669-695 | once every clip starts at or before the cursor and one reaches the track end, the walk only steps by 0.1 s and returns null |
| `DistPlacement.FindSpaceOnTrack` | dist/cep/jsx/importAudio.jsx:655-696 | returns the requested start when it is free; any result is at or after it and free; null when the start is blocked and at or past the track end |
| `DistPlacement.FirstFit` | dist/cep/jsx/importAudio.jsx:615-637 | the loop over the existing tracks from the start index: a placement it finds names an unlocked track at or after that index; `FirstFitFound` and `FirstFitNone` state that it is the first fitting track |
| `DistPlacement.FirstFitFound` | dist/cep/jsx/importAudio.jsx:615-637 | a found placement is the first unlocked track from the start index whose search succeeds, at that search's start; every track before it is locked or full |
| `DistPlacement.FirstFitNone` | dist/cep/jsx/importAudio.jsx:615-639 | no existing track fits exactly when every track from the start index is locked or full |
| `DistPlacement.Sequence.FindPlacementLocation` | dist/cep/jsx/importAudio.jsx:594-653 | a negative index gives the all-null result; otherwise the first fit with the track list unchanged, or exactly one new track appended and `(old track count, playhead)` returned |
| `DistPlacement.PlacementAlwaysFree` | dist/cep/jsx/importAudio.jsx:615-645 | from a non-negative index the placement is an unlocked existing track at or after the playhead with the span free, or the appended empty track |
| `DistPlacement.AllLockedMeansNewTrack` | dist/cep/jsx/importAudio.jsx:615-645 | when every track from the start index is locked, a new track is created |
| `DistPlacement.SingleBlockingClipGetsNewTrack` | dist/cep/jsx/importAudio.jsx:669-695 | with one clip over `[0 s, 10 s)` ending the track, a 3 s clip at 5 s finds no space and goes to a new track |
| `SrcPlacement.IsSpaceFree` | src/jsx/importAudio.jsx:385-393 | the result is true iff no clip has `start < e` and `end > s` |
| `SrcPlacement.RunningEnd` | src/jsx/importAudio.jsx:368-378 | the candidate before clip `k` is at least the playhead and every earlier clip end, and is one of them |
| `SrcPlacement.RunningEndMonotone` | src/jsx/importAudio.jsx:368-378 | the candidate never decreases along the clips |
| `SrcPlacement.GapScan` | src/jsx/importAudio.jsx:369-382 | the running-end scan over the clips: a returned start is at or after the candidate and some later clip starts more than 0.01 s after it; `GapScanFirstPass` pins down which start |
| `SrcPlacement.FindSpace` | src/jsx/importAudio.jsx:358-383 | the per-track search: a free playhead span returns the playhead, and any result is at or after the playhead; `FindSpaceStaleGuarantee` and `StaleEndTimeOverlap` state what is free |
| `SrcPlacement.GapScanFirstPass` | src/jsx/importAudio.jsx:369-382 | the scan returns the running end before the first clip that starts more than 0.01 s after it and passes the free test, and null exactly when no clip does |
| `SrcPlacement.FindSpaceStaleGuarantee` | src/jsx/importAudio.jsx:358-383 | a returned start is at or after the playhead and only `[t, playhead+dur)` is known free |
| `SrcPlacement.StaleEndTimeOverlap` | src/jsx/importAudio.jsx:371-376 | clips over `[0 s, 1 s)` and `[1.5 s, 3 s)`, a 1 s clip at 0.5 s: the search returns 1 s, where the new clip overlaps the second clip |
| `SrcPlacement.GapScanIntendedSound` | src/jsx/importAudio.jsx:369-379 | with each candidate checked over the whole duration, a returned start is at or after the candidate and `[t, t+dur)` is free |
| `SrcPlacement.FindSpaceIntendedSound` | src/jsx/importAudio.jsx:358-383 | the intended per-track search returns a start at or after the playhead with `[t, t+dur)` free |
| `SrcPlacement.FindSpaceOnTrack` | src/jsx/importAudio.jsx:358-383 | returns the playhead when `[playhead, playhead+dur)` is free; the running-end loop computes the gap scan |
| `SrcPlacement.FirstFit` | src/jsx/importAudio.jsx:338-353 | the loop over the tracks from the start index: a placement it finds names an unlocked track at or after that index; `FirstFitIsFirst` states that it is the first fitting track |
| `SrcPlacement.FirstFitIsFirst` | src/jsx/importAudio.jsx:338-353 | a found placement is the first unlocked track from the start index whose search succeeds; none exactly when every such track is locked or full |
| `SrcPlacement.FindPlacementLocation` | src/jsx/importAudio.jsx:336-356 | first fit over unlocked tracks from the start index, at or after the playhead, never adding a track; null when nothing fits |
| `SrcPlacement.SingleBlockingClipNoPlacement` | src/jsx/importAudio.jsx:358-383 | with one clip over `[0 s, 10 s)`, a 3 s clip at 5 s finds no space and the placement is all-null |
| `Pitch.Lookup` | dist/cep/jsx/importAudio.jsx:367-376 | the table has an entry exactly for the integer keys -12 .. 12 |
| `Pitch.HalfSteps` | dist/cep/jsx/importAudio.jsx:379 | the snapped value `h/2` is within a quarter step below or at `s`, less than a quarter above: nearest half step, ties up |
| `Pitch.TransposeRatio` | dist/cep/jsx/importAudio.jsx:366-396 | `semitonesToTransposeRatio`: after snapping to the nearest half step, an integer key in the table gives its entry and a half step the midpoint of its neighbours; `TableKeyExact`, `HalfStepMidpoint`, `OutsideTable` and `RatioInUnitInterval` state the rest |
| `Pitch.SnapIdempotent` | dist/cep/jsx/importAudio.jsx:379 | snapping a snapped value changes nothing, and the ratio depends only on the snapped value |
| `Pitch.TableKeyExact` | dist/cep/jsx/importAudio.jsx:381-384 | an integer key in -12 .. 12 returns its table entry exactly |
| `Pitch.Anchors` | dist/cep/jsx/importAudio.jsx:367-384 | 12 gives 1, 0 gives 0.33333334326744, -12 gives 0 |
| `Pitch.HalfStepMidpoint` | dist/cep/jsx/importAudio.jsx:386-395 | `k + 0.5` gives the midpoint of the entries for `k` and `k+1`, each read through the `||` fallback |
| `Pitch.MinusElevenAndAHalf` | dist/cep/jsx/importAudio.jsx:389-395 | -11.5 gives the midpoint of 0.33333334326744 (the replaced 0 at -12) and 0.0198210477829 |
| `Pitch.ThreeAndAHalf` | src/jsx/importAudio.jsx:317-326 | 3.5 gives the midpoint of 0.45947137475014 and 0.5066140294075 |
| `Pitch.OutsideTable` | dist/cep/jsx/importAudio.jsx:386-395 | an integer outside -12 .. 12 gives 0.33333334326744 |
| `Pitch.TableIncreasing` | dist/cep/jsx/importAudio.jsx:367-376 | the table strictly increases with the key |
| `Pitch.EntryInUnitInterval` | dist/cep/jsx/importAudio.jsx:387-390 | every entry and every fallback read lies in `[0, 1]` |
| `Pitch.RatioInUnitInterval` | dist/cep/jsx/importAudio.jsx:366-396 | every result lies in `[0, 1]` |
| `Pitch.StrictTranspose` | src/jsx/importAudio.jsx:259-274 | succeeds iff the pitch is an integer in -12 .. 12; otherwise "Invalid pitch value" |
| `Pitch.StrictAgreesWithRatio` | src/jsx/importAudio.jsx:259-274 | where the strict read succeeds it equals the snapping mapping |
| `ProjectBin.FileNameOf` | dist/cep/jsx/importAudio.jsx:200 | the name holds neither `\` nor `/`, is a suffix of the path, and is either the whole path or preceded by a `\` or `/`: it is the last segment |
| `ProjectBin.SearchInBin` | dist/cep/jsx/importAudio.jsx:202-213 | `searchInBin`: an item it returns is a clip with exactly the wanted name; `SearchIsFirstInPreOrder` states which one |
| `ProjectBin.FindExistingAudioItem` | dist/cep/jsx/importAudio.jsx:198-216 | `findExistingAudioItem`: an item it returns is a clip named as the path's last segment; `FindExistingIsFirstClip` states which one and when none is found |
| `ProjectBin.SearchIsFirstInPreOrder` | dist/cep/jsx/importAudio.jsx:202-213 | the bin search equals the first match in the depth-first pre-order listing of the tree |
| `ProjectBin.FindExistingIsFirstClip` | dist/cep/jsx/importAudio.jsx:198-216 | the result is a clip named as the path's last segment, the first in pre-order; null iff the tree holds no such clip |
| `ImportAudio.ParseDuration` | src/jsx/importAudio.jsx:47-66 | a missing or empty duration field is the error "Unable to determine audio duration" |
| `ImportAudio.DurationOfFields` | src/jsx/importAudio.jsx:50-61 | four `:`-separated fields give a duration exactly when all four parse as decimals, that duration is never negative, and a failure is `NotDecimal`, the model's stand-in for `parseInt` coercion |
| `ImportAudio.DurationOfWrittenFields` | src/jsx/importAudio.jsx:50-61 | `H:M:S:T` reads as `H*3600 + M*60 + S + (T/1602)/fps` seconds |
| `ImportAudio.OtherFieldCountIsZero` | src/jsx/importAudio.jsx:51-62 | a field with other than four `:`-separated parts gives 0 without an error |
| `ImportAudio.NormalizeTrackIndex` | src/jsx/importAudio.jsx:74-77 | the index is at least 1; a number of at least 1 is kept; NaN or below 1 becomes 1 |
| `ImportAudio.SearchStartIndex` | src/jsx/importAudio.jsx:74-80 | the placement search starts at the normalised index minus one, which is never negative |
| `KeyServer.MapKeycode` | src/js/main/server.rs:20-58 | `map_keycode`: a mapped name is empty exactly when the key name is; `DigitKeys`, `NumpadDigitsUnchanged`, `NumpadOperators` and `Modifiers` state each renaming, and `PassThrough` that every other name is kept |
| `KeyServer.DigitKeys` | src/js/main/server.rs:22-31 | `Key0` .. `Key9` map to "0" .. "9" |
| `KeyServer.NumpadDigitsUnchanged` | src/js/main/server.rs:32-41 | `Numpad0` .. `Numpad9` keep their names |
| `KeyServer.NumpadOperators` | src/js/main/server.rs:42-47 | Slash, Asterisk, Minus, Plus, Dot become Divide, Multiply, Subtract, Add, Decimal; Enter is kept |
| `KeyServer.Modifiers` | src/js/main/server.rs:48-55 | left/right Control, Alt, Shift, Meta become LCtrl/RCtrl, LAlt/RAlt, LShift/RShift, LCommand/RCommand |
| `KeyServer.PassThrough` | src/js/main/server.rs:56 | any other name passes through unchanged |
| `KeyServer.MapNames` | src/js/main/server.rs:77-79 | each name of the combo is the mapped key name at the same position |
| `KeyServer.KeypressMessage` | src/js/main/server.rs:77-85 | no keys give no message, and a message starts with `KEYPRESS:` followed by a non-empty combo; `MessageDecodes` states that the combo splits back into the mapped names |
| `KeyServer.Poll` | src/js/main/server.rs:73-92 | the last key set becomes the current one; an unchanged set sends nothing, and a changed set sends exactly the message for the new keys |
| `KeyServer.MessageDecodes` | src/js/main/server.rs:76-91 | no keys give no message; a message is `KEYPRESS:` and a `+`-join that splits back into the mapped names |

## Findings

| source | as written | input that shows it | evidently intended | confidence | as-written member | corrected member |
|---|---|---|---|---|---|---|
| src/jsx/importAudio.jsx:371-376 | a gap candidate is checked with `isSpaceFree(track, spaceStart, endTime)` while `endTime` is still the playhead plus the duration | clips over `[0 s, 1 s)` and `[1.5 s, 3 s)`, a 1 s clip requested at 0.5 s: 1 s is returned and the clip would overlap `[1.5 s, 3 s)` | check `[candidate, candidate + duration)` | not executed; the overlap follows from the code as written | `SrcPlacement.StaleEndTimeOverlap` | `SrcPlacement.FindSpaceIntendedSound` |

The placement search of the source variant (`SrcPlacement.FindSpaceOnTrack`,
`SrcPlacement.FindPlacementLocation`) is kept as written, since it models
what the script does; the corrected scan is `SrcPlacement.FindSpaceIntended`.

## Left out

- The editor's scripting API: importing files, `insertClip`, selection, the QE DOM, adding effects and walking component and property trees (`applyPitchShifterToImportedAudio`, `setClipVolume`, `clipHasPitchShifter`, `findQEClip`, `selectClipUsingQE`, `logComponentProperties`, `logEffectProperties`). Tracks and clips are plain data instead.
- The flow of `importAudioToTrack` between the modelled steps (the host calls, the search for the inserted clip afterwards, the JSON result): it is a sequence of calls into the editor.
- `dbToDecibel` (`10^((x - 15) / 20)`) and `Math.round(1 / frameRate)`: transcendental and floating-point arithmetic; the frame rate is a given positive whole number.
- Floating-point time: times are whole hundredths of a second, so repeated 0.1 s steps do not accumulate rounding error in the model.
- `ImportAudio.DurationOfFields`: a field that is not all digits gives `NotDecimal` instead of the value `parseInt` would coerce it to, as for `ImportAudio.ParseDuration` below.
- `ImportAudio.DurationOfFields`: assumes that every all-digit field, including one with a leading zero such as `08` or `010`, is read as decimal. `parseInt` is called without a radix, and under ECMA-262 3rd edition, section 15.1.2.2, an implementation may read a leading-zero field as octal; that reading is not modelled.
- `ImportAudio.ParseDuration`: only fields made of digits are read; a four-field value with any other field gives `NotDecimal`, where the script would use `parseInt`'s coercion (a digit prefix or NaN). The metadata regular expression is reduced to "field present with this text, or absent".
- `Pitch.TransposeRatio`: the semitone value is a `real`; `Number()` coercion of non-numeric input and NaN are not modelled.
- `Pitch.StrictTranspose`: the pitch is a number; string keys such as "03" and the effect's Transpose property write are not modelled. `applyPitchShifter` is never called by the scripts, and the call to the undefined `setPitchShifter` is not modelled.
- `SrcPlacement.FindPlacementLocation`: the start index is a natural number; a negative index would make the script read a missing track and throw, which the importer never does since it normalises the index first.
- `DistPlacement.Sequence.FindPlacementLocation`: the "Sequence or audioTracks is undefined" error is not modelled; a sequence is always present.
- Debug-log strings, `$.writeln`, `alert` and `$.sleep`.
- The key relay's runtime: the websocket server, the 10 ms polling loop, the mutex, device queries and send errors. The hash set's iteration order is a given sequence of key names.
- The settings script (process spawning, file checks) and the build configuration: I/O and tooling without logic.
