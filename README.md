# Kakinada traffic backend: the video analysis core in Dafny

This project models the analysis path of a traffic-surveillance backend. A
client uploads a video to `/analyze`. The upload's extension is checked,
the video is opened, and every frame is read in order. Each frame goes to a
vehicle tracker, which keeps only the five road-user classes (person, car,
motorcycle, bus, truck). Every kept track is checked for a missing helmet
(motorcycles only, on a crop of the frame) and for a weapon (on the whole
frame). An event fuser turns the findings into `helmet_violation` and
`weapon_detected` events. Every event's box is drawn on the frame. An event
is written to the CSV log only when the process-wide deduplicator allows
its key `"<track id>-<event type>"`. A key is allowed when it has never
been allowed, or when strictly more than the cooldown (5 seconds by
default) has passed since it was last allowed. Each frame is written to the
output video after its events are drawn.

Modules:

- `Detection` (detection.dfy): the shared value types. These are BGR
  pixels, frames as rows of pixels, boxes, and the list-of-results shape
  the detection models return. It also holds the "has boxes" test and the
  "first box" access that both checks use.
- `Dedup` (dedup.dfy): the deduplicator class `EventDeduplicator`, its
  decision `Admits`, and the cache it leaves, `Record`. It also replays
  call sequences (`Replay`, `Verdicts`) and proves the cooldown
  guarantees.
- `EventManager` (event_manager.dfy): the fuser.
- `VehicleTracker` (vehicle_tracker.dfy): the class filter. It has a
  loop, `ProcessFrame`, proved equal to the function `Tracks`.
- `HelmetDetector` and `WeaponDetector` (helmet_detector.dfy,
  weapon_detector.dfy): the two checks. This includes Python's `int()`
  truncation and slice semantics for the crop.
- `AlertKeys` (alert_keys.dfy): the deduplication key that app.py:142
  builds, and proof that it is injective.
- `App` (app.dfy): the extension check, the frame-rate fallback and the
  request.
  - The request is written as imperative methods that mirror the source's
    nested loops (`AnalyzeVideo`, `ScanFrames`, `HandleFrame`,
    `HandleTracks`, `HandleTrack`, `HandleEvents`, `HandleEvent`) over an
    `EventDeduplicator` object.
  - The methods are proved equal to the functional specification
    `Analyze`. `Analyze` first collects every attempt of the video
    (`ScanVideo`), then offers the attempts to the deduplicator in order
    (`Feed`).

The detection models, the fight detector, the box-drawing routine and the
wall clock are parameters (`Externals`, `clock`). `clock(k)` is the clock
reading at the `k`-th `allow` call of a request.

Points where the code behaves in a way one might not expect:

- A key is allowed again only when strictly more than the cooldown has
  passed. A call exactly one cooldown later is still suppressed
  (utils/dedup.py:10; `BoundaryCallSuppressed`).
- The weapon check never reads the track: it scans the whole frame it is
  given. So two tracks checked on the same frame get the same finding
  (`SameFindingForEveryTrack`), and each logs its weapon event under its
  own key. Within one frame, though, a later track is checked on the frame
  as already drawn (see the last point). Its finding may therefore differ
  from an earlier track's.
- The fuser reports any weapon finding without reading its `weapon` flag
  (`WeaponFlagNotRead`).
- All tracks without a tracker id get id -1 and share one key per event
  type (`EventKeyInjective`).
- Boxes are drawn into the frame in place. So the helmet and weapon models
  for a later track see the boxes already drawn for earlier tracks of the
  same frame (`TrackEvents`, `ScanTracks`).

## Model

| member | source | states |
|---|---|---|
| Dedup.EventDeduplicator.constructor | utils/dedup.py:4-6 | the deduplicator starts with the given cooldown (default 5) and an empty cache |
| Dedup.EventDeduplicator.Allow | utils/dedup.py:8-13 | returns true exactly when the key is absent or strictly more than the cooldown has passed since its stored time; on true the key's time becomes `now`, on false the cache is unchanged |
| Dedup.Admits | utils/dedup.py:10 | defines the decision of one call: the key is absent, or strictly more than the cooldown has passed since its stored time |
| Dedup.Record | utils/dedup.py:10-13 | the cache after one call gains the key, refreshes it only when admitted, and leaves every other key's time as it was |
| Dedup.Replay | utils/dedup.py:8-13 | defines the cache after a sequence of calls, each recorded in turn from the starting cache |
| Dedup.Verdicts | utils/dedup.py:8-13 | a sequence of calls yields exactly one true/false answer per call |
| Dedup.VerdictsExtend | utils/dedup.py:8-13 | one more call appends its own answer and leaves every earlier answer unchanged |
| Dedup.VerdictsPrefix | utils/dedup.py:8-13 | an answer depends only on the calls up to it, so later calls never change it |
| Dedup.CallsFor | utils/dedup.py:8-13 | the calls kept for one key are no more than the calls, and each of them is a call made with that key |
| Dedup.KeyPositions | utils/dedup.py:8-13 | defines the positions, in call order, of the calls made with one key |
| Dedup.KeyPositionsIncreasing | utils/dedup.py:8-13 | those positions lie inside the calls and strictly increase |
| Dedup.CallsForIsSelection | utils/dedup.py:8-13 | the k-th call kept for a key is the call at the k-th position with that key, and a position is among them iff its call is made with that key; with the increasing positions this makes the kept calls the in-order subsequence of that key's calls |
| Dedup.CallsForComplete | utils/dedup.py:8-13 | no call made with the key is missing from the calls kept for it |
| Dedup.BoundaryCallSuppressed | utils/dedup.py:10 | a call exactly one cooldown after the last allowed call is suppressed and leaves the cache as it was |
| Dedup.ReplayKeepsKeys | utils/dedup.py:10-11 | the cache never forgets a key; every key called is in it, and it holds no key that was neither there at the start nor called |
| Dedup.Entry | utils/dedup.py:10 | a key has an entry exactly when it is in the cache |
| Dedup.RecordEntry | utils/dedup.py:10-11 | what one call does to a key's entry depends only on that entry, and a call for another key leaves it alone |
| Dedup.KeysDoNotInterfere | utils/dedup.py:10-11 | a key's entry after any interleaving of calls equals its entry after only that key's calls |
| Dedup.VerdictDependsOnlyOnOwnKey | utils/dedup.py:10 | whether a call is allowed is decided by the earlier calls with the same key alone |
| Dedup.EntryAfterAllowed | utils/dedup.py:10-11 | when the clock does not go backwards, after an allowed call the key's stored time is at least that call's time |
| Dedup.RecordKeepsEntryAtLeast | utils/dedup.py:10-11 | one call never lowers a stored time below a bound that the call's own time also meets |
| Dedup.AllowedCallsSpacedByCooldown | utils/dedup.py:10-12 | when the clock does not go backwards, two allowed calls for one key are strictly more than the cooldown apart |
| EventManager.EventType.Name | pipeline/event_manager.py:7-16 | defines the type strings `helmet_violation` and `weapon_detected`, which go into the key and the CSV row |
| EventManager.Fuse | pipeline/event_manager.py:2-23 | a track gives at most two events |
| EventManager.FuseEvents | pipeline/event_manager.py:5-21 | a `helmet_violation` event exists iff the helmet finding says no helmet; a `weapon_detected` event exists iff there is a weapon finding; each carries its finding's confidence, fixed label and details, and red; the violation comes first |
| EventManager.FuseIgnoresTrackAndFight | pipeline/event_manager.py:2-23 | the events depend on neither the track nor the fight finding |
| EventManager.HelmetWornNoWeaponIsQuiet | pipeline/event_manager.py:5-14 | a helmeted rider in a frame without a weapon gives no event |
| EventManager.WeaponFlagNotRead | pipeline/event_manager.py:14 | a weapon finding is reported whatever its `weapon` flag says |
| AlertKeys.DigitChar | app.py:142 | a digit below ten is spelled as a character from '0' to '9' |
| AlertKeys.NatToString | app.py:142 | the decimal spelling of a natural number is never empty |
| AlertKeys.NatToStringDigits | app.py:142 | the spelling is all digits, and a single digit exactly for numbers below ten |
| AlertKeys.IntToString | app.py:142 | the spelling of an integer is never empty |
| AlertKeys.IntToStringSign | app.py:142 | a spelling starts with '-' exactly for negative integers |
| AlertKeys.EventKey | app.py:142 | defines the key: the track id in decimal, a dash, and the event type's name (injective by `EventKeyInjective`) |
| AlertKeys.NatToStringInjective | app.py:142 | different natural numbers have different spellings |
| AlertKeys.IntToStringInjective | app.py:142 | different integers have different spellings |
| AlertKeys.EventKeyInjective | app.py:142 | two alerts share a key iff they have the same track id and the same event type |
| HelmetDetector.Trunc | pipeline/helmet_detector.py:12 | `int()` of a float truncates toward zero: within one below a non-negative value, within one above a negative one |
| HelmetDetector.SliceBound | pipeline/helmet_detector.py:13 | a slice bound lands inside the sequence, and an in-range bound is kept as is |
| HelmetDetector.PySlice | pipeline/helmet_detector.py:13 | a slice is never longer than the sequence |
| HelmetDetector.PySliceContents | pipeline/helmet_detector.py:13 | with non-negative bounds, a slice is exactly the part of `lo..hi` inside the sequence: its length is `max(0, min(hi, n) - min(lo, n))`, at most `hi - lo`, and its k-th element is element `lo + k` of the sequence |
| HelmetDetector.Crop | pipeline/helmet_detector.py:12-13 | defines `frame[y1:y2, x1:x2]` on the truncated coordinates: the rows sliced first, then each row's columns |
| HelmetDetector.CropInsideBox | pipeline/helmet_detector.py:12-13 | for a box with non-negative coordinates, the crop is exactly the part of the truncated box inside the frame: it has `max(0, min(y2, rows) - min(y1, rows))` rows, each row has the box's columns that that frame row has, and every crop pixel is the frame pixel at the same offset from the truncated corner |
| HelmetDetector.Check | pipeline/helmet_detector.py:8-25 | not a motorcycle gives None; otherwise a finding exists iff the crop's result has boxes, and it says helmet iff the first box has class 0, with that box's confidence |
| HelmetDetector.NonMotorcycleSkipsModel | pipeline/helmet_detector.py:9-10 | for a non-motorcycle every model gives None |
| HelmetDetector.LaterBoxesIgnored | pipeline/helmet_detector.py:19-24 | only the crop result's first box decides the finding |
| Detection.HasBoxes | pipeline/helmet_detector.py:16 | defines the test `res and res[0].boxes` that both checks use (also pipeline/weapon_detector.py:10): a first result exists, it has boxes, and there is at least one |
| Detection.FirstBox | pipeline/helmet_detector.py:19-20 | defines `res[0].boxes[0]`, the first box of the first result (also pipeline/weapon_detector.py:13) |
| WeaponDetector.Check | pipeline/weapon_detector.py:8-17 | a finding exists iff the whole frame's result has boxes; it is flagged as a weapon, with the first box's confidence |
| WeaponDetector.SameFindingForEveryTrack | pipeline/weapon_detector.py:8-17 | `check` never reads the track: two tracks checked on the same frame get the same finding (within one frame of the loop, a later track is checked on the frame as already drawn, so its frame may differ) |
| VehicleTracker.ObjectClass.Name | pipeline/vehicle_tracker.py:4 | defines the class names stored in a track's "class" entry |
| VehicleTracker.ClassNamesDistinct | pipeline/helmet_detector.py:9 | class names are equal iff the classes are, and a name is "motorcycle" iff the class is `Motorcycle`; so the string test at that line is the class test the model makes |
| VehicleTracker.TrackOf | pipeline/vehicle_tracker.py:22-26 | a kept box becomes a track with the table's class name, the box's rectangle, and its tracker id or -1 |
| VehicleTracker.Accepted | pipeline/vehicle_tracker.py:17-28 | defines the tracks made from a list of boxes: in box order, one per box whose class id is in the road-user table of pipeline/vehicle_tracker.py:4 |
| VehicleTracker.Selected | pipeline/vehicle_tracker.py:17-28 | defines the indices of the boxes that the filter keeps |
| VehicleTracker.Tracks | pipeline/vehicle_tracker.py:11-28 | an empty result list or a first result without boxes gives no tracks; otherwise the first result's kept boxes |
| VehicleTracker.AcceptedIsOrderedSelection | pipeline/vehicle_tracker.py:17-28 | the k-th track is made from the k-th kept box, and a box is kept iff its class id is in the road-user table |
| VehicleTracker.SelectedIncreasing | pipeline/vehicle_tracker.py:17-28 | the kept boxes' indices increase, so the tracks keep the boxes' order |
| VehicleTracker.RejectedClassNeverTracked | pipeline/vehicle_tracker.py:19-20 | a box whose class is not in the table gives no track, so there are fewer tracks than boxes |
| VehicleTracker.ProcessFrame | pipeline/vehicle_tracker.py:10-28 | the loop returns exactly the tracks of `Tracks` |
| App.LowerChar | app.py:90 | `lower()` on one character: a capital A-Z becomes the small letter at the same place in the alphabet, every other character is unchanged, and no capital is left (ASCII) |
| App.Lower | app.py:90 | `lower()` works character by character: the length is kept, the i-th character is the i-th lower-cased, and no capital is left |
| App.LowerConcat | app.py:90 | lower-casing a concatenation lower-cases each part |
| App.EndsWith | app.py:90-92 | defines `endswith` for one suffix: the suffix fits and the tail of the string equals it |
| App.IsVideoFilename | app.py:90-93 | defines the upload check: the lower-cased name ends with one of `.mp4`, `.avi`, `.mov`, `.mkv`, `.webm` |
| App.ExtensionSuffixAccepted | app.py:90-93 | any name ending in one of the five extensions is accepted |
| App.ExtensionAnyCaseAccepted | app.py:90-93 | any name ending in one of the five extensions written in any mix of cases is accepted, whatever comes before it |
| App.ExtensionCheckIgnoresCase | app.py:90-92 | a name and its lower-cased form are judged alike |
| App.InnerExtensionRefused | app.py:90-93 | "clip.mp4.txt" is refused and "CLIP.MP4" is accepted |
| App.OutputFps | app.py:109-110 | the output frame rate is positive: the reported rate when positive, otherwise 25 |
| App.AttemptFor | app.py:141-142 | defines one event's attempt: its frame number, its track, the event, and the key built from the track id and the event type |
| App.RowOf | app.py:145-153 | defines the logged row: frame number, event type, track id, confidence and details |
| App.AttemptsOf | app.py:141-142 | a track makes one deduplication attempt per event |
| App.TrackEvents | app.py:135-139 | defines the events of one track: the helmet, weapon and fight checks on the frame as drawn so far, fused |
| App.DrawEvents | app.py:141-156 | defines the frame after drawing each event's box and label in turn |
| App.ScanTracks | app.py:134-156 | defines the attempts of a frame's tracks, in order, and the frame after all their drawing; each track is checked on the frame as the earlier tracks left it |
| App.ScanFrame | app.py:131-156 | defines the scan of one frame: its tracks from the tracker, then `ScanTracks` |
| App.ScanPrefix | app.py:126-158 | defines the run over the first n frames: every attempt in order and every frame as written, frames numbered from 1 |
| App.ScanVideo | app.py:123-158 | defines the run over every frame read |
| App.Calls | app.py:144 | a run makes one `allow` call per attempt |
| App.Step | app.py:144-154 | defines one attempt at time `now`: when its key is admitted, the cache is refreshed and its row logged; otherwise nothing changes |
| App.Feed | app.py:144-154 | defines the attempts offered in turn, the i-th at `clock(start + i)` |
| App.FeedAppendsRows | app.py:144-154 | the log only grows, by at most one row per attempt, and rows already written stay as they are |
| App.Analyze | app.py:90-158 | a refused extension gives a 400 error and a video that fails to open gives a 500 error, both leaving the cache untouched; otherwise the video is analysed |
| App.AnalyzedShape | app.py:109-158 | an analysed video has the reported or fallback frame rate and one written frame per frame read; its log starts with the header and has at most one row per attempt after it |
| App.AttemptsStep | app.py:141-142 | handling one more event of a track appends exactly its attempt |
| App.DrawStep | app.py:156 | handling one more event draws one more box over the frame |
| App.TrackStep | app.py:134-156 | handling one more track appends its attempts and draws its events over the frame drawn so far |
| App.ScanStep | app.py:126-158 | reading one more frame appends its attempts and its written frame to the run |
| App.FeedAppend | app.py:141-154 | offering two runs of attempts in turn is offering their concatenation |
| App.FeedSnoc | app.py:144-154 | offering one more attempt is one more deduplicate-and-log step |
| App.FeedLast | app.py:144-154 | the state after a non-empty run is one step past the state after all but its last attempt |
| App.FeedOneMore | app.py:144-154 | the gate state reached one attempt at a time equals the state after the whole run |
| App.FeedInTwoLegs | app.py:144-154 | the gate state reached in two legs equals the state after the whole run |
| App.HandleEvent | app.py:142-156 | one event: its key is offered to the deduplicator, its row is logged iff allowed, and its box is drawn regardless |
| App.HandleEvents | app.py:141-156 | the loop over a track's events offers each event in turn at successive clock readings and draws every event |
| App.HandleTrack | app.py:135-156 | one track: the helmet and weapon checks on the current frame, the fuser, then its events |
| App.HandleTracks | app.py:134-156 | the loop over a frame's tracks gives that frame's attempts and drawn frame |
| App.HandleFrame | app.py:131-156 | one pass of the frame loop: the tracker, then the tracks |
| App.ScanFrames | app.py:123-158 | the frame loop's cache and log are those left by offering the video's attempts in order; the written frames are the video's drawn frames |
| App.AnalyzeVideo | app.py:86-158 | the request returns the response and leaves the shared deduplicator's cache exactly as `Analyze` says |
| App.LoggedRowsInFrameOrder | app.py:126-154 | attempts in frame order log event rows in frame order, none later than the last attempt's frame |
| App.ReplayExtend | app.py:144 | the last attempt's call records its key at its clock reading on the replayed cache |
| App.LoggedRowsExtend | app.py:144-154 | the last attempt logs its row exactly when its `allow` call returns true |
| App.FeedCacheIsReplay | app.py:144 | the loop's cache is the deduplicator's replay of every `allow` call |
| App.FeedRowsAreLogged | app.py:144-154 | below the rows it started with, the loop logs exactly the attempts whose `allow` call returned true, in order |
| App.FeedMatchesDedup | app.py:144-154 | the cache is the replay of every call, and the log is the starting rows followed by the rows of the allowed attempts |
| App.FrameAttemptsKeyed | app.py:131-142 | every attempt of a frame carries that frame's number and the key of its track id and event type |
| App.AttemptsInFrameOrder | app.py:126-131 | the attempts of the first n frames carry frame numbers from 1 to n, in non-decreasing order |
| App.AttemptsKeyed | app.py:142 | every attempt of the first n frames carries the key of its track and event |
| App.FrameScannerKeyed | app.py:131-142 | the loop body numbers each attempt with its frame and keys it by its track and event |
| App.WrittenCount | app.py:158 | after n frames, n frames have been written |
| App.WrittenFrame | app.py:158 | the i-th written frame is the i-th frame read, as drawn |
| App.OneWrittenFramePerFrame | app.py:126-158 | exactly one frame is written per frame read, each being that frame after all its tracks' boxes are drawn |
| App.AnalyzeLogsAllowedAttempts | app.py:122-154 | an analysed video's log is the header followed by the rows of the attempts whose `allow` call returned true, in order, and the cache afterwards is the replay of all its calls |
| App.AnalyzeLogsInFrameOrder | app.py:122-154 | the rows below the header are event rows in non-decreasing frame order |
| App.SameAlertSpacedByCooldown | app.py:142-154 | when the clock does not go backwards, two logged attempts for the same track id and event type are strictly more than the cooldown apart |
| App.BurstLoggedOnce | app.py:144-154 | a burst of attempts with one admissible key, all within one cooldown of the first, logs the first and suppresses the rest |
| App.QuietWithinCooldown | app.py:144 | attempts for a key refreshed at t that all come within one cooldown of t change nothing |

## Left out

- The HTTP layer is not modelled. This covers the FastAPI app, CORS, the health endpoint, the download endpoints, run ids, saving the upload and the file paths (app.py:37-81, 95-103, 163-186). A successful request returns the written frames and the CSV rows instead of the JSON with download paths.
- Exceptions the models or OpenCV may raise are not modelled. For example, a model might raise on an empty crop.
- The OpenCV reader is not modelled. It becomes a `Capture` value: whether it opened, its frame rate, and the frames read before the first failed read.
- The OpenCV writer is not modelled. The output video is the sequence of frames written. Width and height are carried but not checked.
- The YOLO models are not modelled; they are function parameters. The tracker's cross-frame identity memory (`persist=True`) is captured only as the tracker result's dependence on the 1-based frame number.
- The fight detector module and utils/drawing.py are not part of this model. The fight check and `draw_box` are opaque function parameters.
- File I/O in utils/csv_logger.py is not modelled. The log is a sequence of rows, starting with the header row that `init_csv` writes.
- utils/config.py is not modelled. It only holds paths and creates directories.
- `time.time()` is not modelled. The clock is the parameter `now` of `Allow`; in a request it is `clock(k)` at the k-th `allow` call. The cooldown guarantees assume a clock that does not go backwards.
- Floating point is not modelled. Confidences, box coordinates, the frame rate and clock readings are reals, with no rounding, NaN or infinity. `fps and fps > 0` is modelled as `fps > 0`.
- `str.lower()` is modelled for ASCII letters only.
- Concurrent requests are not modelled. Concurrent requests share the one deduplicator (app.py:71). The model treats requests one at a time: the cache is passed into a request and handed back.
- The cache's growth without eviction is not modelled as a resource concern.
- CropInsideBox: states the crop's extent and contents only for boxes with non-negative coordinates. Negative coordinates, which count from the end in Python slicing, are covered only by `Crop` itself and by `PySlice`'s length bound. The tracker reports non-negative pixel coordinates.
- Fuse: its own contract is only the length bound. The exact events are stated in `FuseEvents`.
- NatToString, IntToString: their own contracts are only non-emptiness. The digit shape and the sign are stated in `NatToStringDigits` and `IntToStringSign`.
- The lemmas about the frame loop (`ScanFrames`, `FrameScannerKeyed`, `OneWrittenFramePerFrame`) are stated for any scanner that agrees with the loop body on every frame (`IsFrameScanner`). `FrameScanner(ext)` is such a scanner.
