/**
 * The `/analyze` request: the upload's extension is checked, then every
 * frame read from the video is tracked, each track is checked for helmet
 * and weapon findings, the findings are fused into events, every event is
 * drawn on the frame, and an event is written to the CSV log only when the
 * shared deduplicator allows its key. Each frame is written out after its
 * events are drawn.
 *
 * The models, the fight detector, the drawing routine and the clock are
 * parameters. `clock(k)` is the wall-clock reading at the k-th `allow`
 * call of the request. The tracker result is a function of the 1-based
 * frame number and the frame, which leaves room for its cross-frame
 * identity memory.
 */
module App {

  import opened Detection
  import opened VehicleTracker
  import HelmetDetector
  import WeaponDetector
  import opened EventManager
  import opened Dedup
  import opened AlertKeys

  // ---------------------------------------------------------------- upload

  /** The accepted upload extensions, in lower case. */
  const VideoExtensions: seq<string> := [".mp4", ".avi", ".mov", ".mkv", ".webm"]

  /**
   * `str.lower()` on one character (ASCII letters only): a capital becomes
   * the small letter at the same place in the alphabet, nothing else changes.
   */
  function LowerChar(c: char): (r: char)
    ensures 'A' <= c <= 'Z' ==> 'a' <= r <= 'z' && r as int - 'a' as int == c as int - 'A' as int
    ensures !('A' <= c <= 'Z') ==> r == c
    ensures !('A' <= r <= 'Z')
  {
    if 'A' <= c <= 'Z' then (c as int + 32) as char else c
  }

  /** `str.lower()`: character by character, so the length is kept and no capital is left. */
  function Lower(s: string): (r: string)
    ensures |r| == |s|
    ensures forall i :: 0 <= i < |s| ==> r[i] == LowerChar(s[i])
    ensures forall i :: 0 <= i < |r| ==> !('A' <= r[i] <= 'Z')
  {
    seq(|s|, i requires 0 <= i < |s| => LowerChar(s[i]))
  }

  /** Lower-casing a concatenation lower-cases each part. */
  lemma LowerConcat(a: string, b: string)
    ensures Lower(a + b) == Lower(a) + Lower(b)
  {
    assert forall i :: 0 <= i < |a + b| ==> Lower(a + b)[i] == (Lower(a) + Lower(b))[i];
  }

  predicate EndsWith(s: string, suffix: string)
  {
    |suffix| <= |s| && s[|s| - |suffix|..] == suffix
  }

  /** The upload check: the lower-cased name ends with one of the video extensions. */
  predicate IsVideoFilename(name: string)
  {
    exists e :: e in VideoExtensions && EndsWith(Lower(name), e)
  }

  /** Any name ending in an accepted extension is accepted, whatever comes before it. */
  lemma ExtensionSuffixAccepted(base: string, ext: string)
    requires ext in VideoExtensions
    ensures IsVideoFilename(base + ext)
  {
    var name := base + ext;
    assert Lower(ext) == ext;
    assert Lower(name)[|name| - |ext|..] == Lower(ext);
  }

  /**
   * Any name ending in an accepted extension written in any mix of upper
   * and lower case is accepted, whatever comes before it.
   */
  lemma ExtensionAnyCaseAccepted(base: string, e: string)
    requires Lower(e) in VideoExtensions
    ensures IsVideoFilename(base + e)
  {
    LowerConcat(base, e);
    assert Lower(base + e)[|base + e| - |Lower(e)|..] == Lower(e);
  }

  /** The check ignores letter case: a name and its lower-cased form are judged alike. */
  lemma ExtensionCheckIgnoresCase(name: string)
    ensures IsVideoFilename(Lower(name)) == IsVideoFilename(name)
  {
    assert Lower(Lower(name)) == Lower(name);
  }

  /** A name that only contains an extension before another suffix is refused. */
  lemma InnerExtensionRefused()
    ensures !IsVideoFilename("clip.mp4.txt")
    ensures IsVideoFilename("CLIP.MP4")
  {
    var lower := Lower("clip.mp4.txt");
    assert lower == "clip.mp4.txt";
    assert Lower("CLIP.MP4") == "clip.mp4";
    assert EndsWith(Lower("CLIP.MP4"), ".mp4");
  }

  /** The frame rate used when the container reports none. */
  const FallbackFps: real := 25.0

  /** The output frame rate: the reported one when positive, otherwise the fallback. */
  function OutputFps(reported: real): (fps: real)
    ensures fps > 0.0
    ensures reported > 0.0 ==> fps == reported
    ensures reported <= 0.0 ==> fps == FallbackFps
  {
    if reported > 0.0 then reported else FallbackFps
  }

  // ------------------------------------------------------------ collaborators

  /** The external calls the frame loop makes. */
  datatype Externals = Externals(
    tracker: (nat, Frame) -> ModelOutput,
    helmetModel: Frame -> ModelOutput,
    weaponModel: Frame -> ModelOutput,
    fight: (Frame, Track) -> Option<FightFinding>,
    draw: (Frame, BBox, string, Bgr) -> Frame)

  /** What the video reader gives: whether it opened, its properties, and the frames it reads before the first failed read. */
  datatype Capture = Capture(isOpened: bool, fps: real, width: int, height: int, frames: seq<Frame>)

  /** The column names written by the CSV header. */
  const HeaderColumns: seq<string> := ["frame", "event", "track_id", "confidence", "details"]

  datatype CsvRow =
    | Header(columns: seq<string>)
    | EventRow(frame: nat, event: EventType, trackId: int, confidence: real, details: string)

  datatype Response =
    | Rejected(status: int, detail: string)
    | Analyzed(fps: real, width: int, height: int, video: seq<Frame>, csv: seq<CsvRow>)

  // ------------------------------------------------------------ the frame loop

  /** One event of one track in one frame, offered to the deduplicator and drawn. */
  datatype Attempt = Attempt(frameId: nat, track: Track, event: Event, key: string)

  /** The attempt for event `e` of track `t`, keyed by the track id and the event type. */
  function AttemptFor(frameId: nat, t: Track, e: Event): Attempt
  {
    Attempt(frameId, t, e, EventKey(t.trackId, e.kind))
  }

  /** The CSV row logged for an allowed attempt. */
  function RowOf(a: Attempt): CsvRow
  {
    EventRow(a.frameId, a.event.kind, a.track.trackId, a.event.confidence, a.event.details)
  }

  /** The events of one track, checked on the frame as it stands (earlier tracks' boxes already drawn). */
  function TrackEvents(ext: Externals, frame: Frame, t: Track): seq<Event>
  {
    Fuse(t, HelmetDetector.Check(frame, t, ext.helmetModel), WeaponDetector.Check(frame, t, ext.weaponModel),
         ext.fight(frame, t))
  }

  /** The frame after drawing each event's box and label, in order. */
  function DrawEvents(ext: Externals, frame: Frame, bbox: BBox, events: seq<Event>): Frame
    decreases |events|
  {
    if events == [] then frame
    else
      var e := events[|events| - 1];
      ext.draw(DrawEvents(ext, frame, bbox, events[..|events| - 1]), bbox, e.labelText, e.color)
  }

  function AttemptsOf(frameId: nat, t: Track, events: seq<Event>): (r: seq<Attempt>)
    ensures |r| == |events|
  {
    seq(|events|, k requires 0 <= k < |events| => AttemptFor(frameId, t, events[k]))
  }

  /** The attempts of one frame so far, and the frame as drawn so far. */
  datatype FrameScan = FrameScan(attempts: seq<Attempt>, frame: Frame)

  function ScanTracks(ext: Externals, frameId: nat, tracks: seq<Track>, frame: Frame): FrameScan
    decreases |tracks|
  {
    if tracks == [] then FrameScan([], frame)
    else
      var s := ScanTracks(ext, frameId, tracks[..|tracks| - 1], frame);
      var t := tracks[|tracks| - 1];
      var events := TrackEvents(ext, s.frame, t);
      FrameScan(s.attempts + AttemptsOf(frameId, t, events), DrawEvents(ext, s.frame, t.bbox, events))
  }

  function ScanFrame(ext: Externals, frameId: nat, frame: Frame): FrameScan
  {
    ScanTracks(ext, frameId, Tracks(ext.tracker(frameId, frame)), frame)
  }

  /** Every attempt of the video, in order, and every frame as written. Neither depends on the deduplicator. */
  datatype Run = Run(attempts: seq<Attempt>, written: seq<Frame>)

  /** The scan of one frame as a value: what the loop body does with a frame number and a frame. */
  function FrameScanner(ext: Externals): (nat, Frame) -> FrameScan
  {
    (frameId: nat, frame: Frame) => ScanFrame(ext, frameId, frame)
  }

  /** The run over the first `n` frames, each scanned by `scan`; frames are numbered from 1. */
  function ScanPrefix(scan: (nat, Frame) -> FrameScan, frames: seq<Frame>, n: nat): Run
    requires n <= |frames|
    decreases n
  {
    if n == 0 then Run([], [])
    else
      var prev := ScanPrefix(scan, frames, n - 1);
      var s := scan(n, frames[n - 1]);
      Run(prev.attempts + s.attempts, prev.written + [s.frame])
  }

  function ScanVideo(ext: Externals, frames: seq<Frame>): Run
  {
    ScanPrefix(FrameScanner(ext), frames, |frames|)
  }

  /** `scan` agrees with the scan of a frame on every frame number and frame. */
  ghost predicate IsFrameScanner(scan: (nat, Frame) -> FrameScan, ext: Externals)
  {
    forall frameId: nat, frame: Frame {:trigger ScanFrame(ext, frameId, frame)} ::
      scan(frameId, frame) == ScanFrame(ext, frameId, frame)
  }

  /** The `allow` calls of a run: each attempt's key, at the clock reading of its turn. */
  function Calls(attempts: seq<Attempt>, clock: nat -> real): (calls: seq<Call>)
    ensures |calls| == |attempts|
  {
    seq(|attempts|, j requires 0 <= j < |attempts| => Call(attempts[j].key, clock(j)))
  }

  // ------------------------------------------------------------ dedup and log

  /** The deduplicator's cache and the CSV rows written so far. */
  datatype Gate = Gate(cache: map<string, real>, rows: seq<CsvRow>)

  /** One attempt at time `now`: its key is offered to the deduplicator, and its row is logged when admitted. */
  function Step(g: Gate, cooldown: real, a: Attempt, now: real): Gate
  {
    if Admits(g.cache, cooldown, a.key, now) then Gate(g.cache[a.key := now], g.rows + [RowOf(a)]) else g
  }

  /** The attempts offered in turn from `g`, the i-th at the clock reading `clock(start + i)`. */
  function Feed(g: Gate, cooldown: real, attempts: seq<Attempt>, clock: nat -> real, start: nat): Gate
    decreases |attempts|
  {
    if attempts == [] then g
    else Feed(Step(g, cooldown, attempts[0], clock(start)), cooldown, attempts[1..], clock, start + 1)
  }

  /** The log only grows, by at most one row per attempt: the rows already written stay as they are. */
  lemma {:induction false} FeedAppendsRows(g: Gate, cooldown: real, attempts: seq<Attempt>, clock: nat -> real, start: nat)
    ensures var r := Feed(g, cooldown, attempts, clock, start);
            |g.rows| <= |r.rows| <= |g.rows| + |attempts| && r.rows[..|g.rows|] == g.rows
    decreases |attempts|
  {
    if attempts != [] {
      var g1 := Step(g, cooldown, attempts[0], clock(start));
      FeedAppendsRows(g1, cooldown, attempts[1..], clock, start + 1);
      var r := Feed(g1, cooldown, attempts[1..], clock, start + 1);
      assert r.rows[..|g.rows|] == r.rows[..|g1.rows|][..|g.rows|];
    }
  }

  /**
   * The whole request, given the deduplicator's cache and cooldown on entry:
   * the response and the cache afterwards.
   */
  function Analyze(filename: string, capture: Capture, ext: Externals, clock: nat -> real,
                   cache0: map<string, real>, cooldown: real): (out: (Response, map<string, real>))
    ensures !IsVideoFilename(filename) ==> out == (Rejected(400, "Unsupported video format"), cache0)
    ensures IsVideoFilename(filename) && !capture.isOpened ==> out == (Rejected(500, "Failed to open video"), cache0)
    ensures out.0.Analyzed? <==> IsVideoFilename(filename) && capture.isOpened
  {
    if !IsVideoFilename(filename) then (Rejected(400, "Unsupported video format"), cache0)
    else if !capture.isOpened then (Rejected(500, "Failed to open video"), cache0)
    else
      var run := ScanVideo(ext, capture.frames);
      var gate := Feed(Gate(cache0, [Header(HeaderColumns)]), cooldown, run.attempts, clock, 0);
      (Analyzed(OutputFps(capture.fps), capture.width, capture.height, run.written, gate.rows), gate.cache)
  }

  /**
   * An analysed video has the reported frame rate (or the fallback), one
   * written frame per frame read, and a CSV log that starts with the header
   * and has at most one row per attempt after it.
   */
  lemma AnalyzedShape(filename: string, capture: Capture, ext: Externals, clock: nat -> real,
                      cache0: map<string, real>, cooldown: real)
    requires IsVideoFilename(filename) && capture.isOpened
    ensures var r := Analyze(filename, capture, ext, clock, cache0, cooldown).0;
            var run := ScanVideo(ext, capture.frames);
            && r.fps == OutputFps(capture.fps)
            && r.video == run.written
            && 1 <= |r.csv| <= 1 + |run.attempts|
            && r.csv[0] == Header(HeaderColumns)
  {
    var run := ScanVideo(ext, capture.frames);
    var g0 := Gate(cache0, [Header(HeaderColumns)]);
    FeedAppendsRows(g0, cooldown, run.attempts, clock, 0);
    var rows := Feed(g0, cooldown, run.attempts, clock, 0).rows;
    assert rows[..1] == [Header(HeaderColumns)];
    assert rows[0] == rows[..1][0];
  }

  /** Handling one more event of a track extends its attempts by one. */
  lemma AttemptsStep(frameId: nat, t: Track, events: seq<Event>, k: nat)
    requires k < |events|
    ensures AttemptsOf(frameId, t, events[..k + 1]) == AttemptsOf(frameId, t, events[..k]) + [AttemptFor(frameId, t, events[k])]
  {
    var xs := AttemptsOf(frameId, t, events[..k + 1]);
    var ys := AttemptsOf(frameId, t, events[..k]) + [AttemptFor(frameId, t, events[k])];
    forall m | 0 <= m < k + 1
      ensures xs[m] == ys[m]
    {
      assert events[..k + 1][m] == events[m];
      if m < k {
        assert events[..k][m] == events[m];
      }
    }
  }

  /** Handling one more event of a track draws one more box over the frame. */
  lemma DrawStep(ext: Externals, frame: Frame, bbox: BBox, events: seq<Event>, k: nat)
    requires k < |events|
    ensures DrawEvents(ext, frame, bbox, events[..k + 1]) ==
            ext.draw(DrawEvents(ext, frame, bbox, events[..k]), bbox, events[k].labelText, events[k].color)
  {
    assert events[..k + 1][..k] == events[..k];
  }

  /** Handling one more track appends its attempts and its drawing to the frame's scan. */
  lemma TrackStep(ext: Externals, frameId: nat, tracks: seq<Track>, frame: Frame, j: nat, drawn: Frame)
    requires j < |tracks|
    requires drawn == ScanTracks(ext, frameId, tracks[..j], frame).frame
    ensures var events := TrackEvents(ext, drawn, tracks[j]);
            ScanTracks(ext, frameId, tracks[..j + 1], frame) ==
            FrameScan(ScanTracks(ext, frameId, tracks[..j], frame).attempts + AttemptsOf(frameId, tracks[j], events),
                      DrawEvents(ext, drawn, tracks[j].bbox, events))
  {
    assert tracks[..j + 1][..j] == tracks[..j];
  }

  /** Scanning one more frame appends its attempts and its written frame to the run. */
  lemma ScanStep(scan: (nat, Frame) -> FrameScan, frames: seq<Frame>, n: nat, run: Run, s: FrameScan)
    requires 0 < n <= |frames|
    requires run == ScanPrefix(scan, frames, n - 1)
    requires s == scan(n, frames[n - 1])
    ensures ScanPrefix(scan, frames, n) == Run(run.attempts + s.attempts, run.written + [s.frame])
  {
  }

  /** Offering two runs of attempts one after the other is offering their concatenation. */
  lemma {:induction false} FeedAppend(g: Gate, cooldown: real, xs: seq<Attempt>, ys: seq<Attempt>, clock: nat -> real, start: nat)
    ensures Feed(g, cooldown, xs + ys, clock, start) ==
            Feed(Feed(g, cooldown, xs, clock, start), cooldown, ys, clock, start + |xs|)
    decreases |xs|
  {
    if xs == [] {
      assert xs + ys == ys;
    } else {
      assert (xs + ys)[0] == xs[0];
      assert (xs + ys)[1..] == xs[1..] + ys;
      FeedAppend(Step(g, cooldown, xs[0], clock(start)), cooldown, xs[1..], ys, clock, start + 1);
    }
  }

  /** Offering one more attempt is one more step. */
  lemma FeedSnoc(g: Gate, cooldown: real, attempts: seq<Attempt>, a: Attempt, clock: nat -> real, start: nat)
    ensures Feed(g, cooldown, attempts + [a], clock, start) ==
            Step(Feed(g, cooldown, attempts, clock, start), cooldown, a, clock(start + |attempts|))
  {
    FeedAppend(g, cooldown, attempts, [a], clock, start);
  }

  /** The state after a non-empty run is one step past the state after all but its last attempt. */
  lemma FeedLast(g: Gate, cooldown: real, attempts: seq<Attempt>, clock: nat -> real, start: nat)
    requires attempts != []
    ensures var n := |attempts| - 1;
            Feed(g, cooldown, attempts, clock, start) ==
            Step(Feed(g, cooldown, attempts[..n], clock, start), cooldown, attempts[n], clock(start + n))
  {
    var n := |attempts| - 1;
    FeedSnoc(g, cooldown, attempts[..n], attempts[n], clock, start);
    assert attempts[..n] + [attempts[n]] == attempts;
  }

  /** The state after `zs` is one step past the state after `xs`, when `zs` is `xs` followed by `a`. */
  lemma FeedOneMore(g: Gate, cooldown: real, clock: nat -> real, start: nat, midStart: nat,
                    xs: seq<Attempt>, a: Attempt, zs: seq<Attempt>, mid: Gate, out: Gate)
    requires zs == xs + [a]
    requires midStart == start + |xs|
    requires mid == Feed(g, cooldown, xs, clock, start)
    requires out == Step(mid, cooldown, a, clock(midStart))
    ensures out == Feed(g, cooldown, zs, clock, start)
  {
    FeedSnoc(g, cooldown, xs, a, clock, start);
  }

  /** The state after `zs` is reached in two legs, when `zs` is `xs` followed by `ys`. */
  lemma FeedInTwoLegs(g: Gate, cooldown: real, clock: nat -> real, start: nat, midStart: nat,
                      xs: seq<Attempt>, ys: seq<Attempt>, zs: seq<Attempt>, mid: Gate, out: Gate)
    requires zs == xs + ys
    requires midStart == start + |xs|
    requires mid == Feed(g, cooldown, xs, clock, start)
    requires out == Feed(mid, cooldown, ys, clock, midStart)
    ensures out == Feed(g, cooldown, zs, clock, start)
  {
    FeedAppend(g, cooldown, xs, ys, clock, start);
  }

  /** One event of one track: offer its key to the deduplicator, log it if allowed, draw it always. */
  method HandleEvent(ext: Externals, clock: nat -> real, dedup: EventDeduplicator,
                     frameId: nat, t: Track, ev: Event, frame: Frame, rows: seq<CsvRow>, calls: nat)
    returns (frameOut: Frame, rowsOut: seq<CsvRow>, callsOut: nat)
    modifies dedup`cache
    ensures Gate(dedup.cache, rowsOut) == Step(Gate(old(dedup.cache), rows), dedup.cooldown, AttemptFor(frameId, t, ev), clock(calls))
    ensures callsOut == calls + 1
    ensures frameOut == ext.draw(frame, t.bbox, ev.labelText, ev.color)
  {
    var key := EventKey(t.trackId, ev.kind);
    var allowed := dedup.Allow(key, clock(calls));
    rowsOut := rows;
    if allowed {
      rowsOut := rowsOut + [EventRow(frameId, ev.kind, t.trackId, ev.confidence, ev.details)];
    }
    frameOut := ext.draw(frame, t.bbox, ev.labelText, ev.color);
    callsOut := calls + 1;
  }

  /** The loop over one track's events. */
  method HandleEvents(ext: Externals, clock: nat -> real, dedup: EventDeduplicator,
                      frameId: nat, t: Track, events: seq<Event>, frame: Frame, rows: seq<CsvRow>, calls: nat)
    returns (frameOut: Frame, rowsOut: seq<CsvRow>, callsOut: nat)
    modifies dedup`cache
    ensures Gate(dedup.cache, rowsOut) ==
            Feed(Gate(old(dedup.cache), rows), dedup.cooldown, AttemptsOf(frameId, t, events), clock, calls)
    ensures callsOut == calls + |events|
    ensures frameOut == DrawEvents(ext, frame, t.bbox, events)
  {
    ghost var g0 := Gate(dedup.cache, rows);
    frameOut, rowsOut, callsOut := frame, rows, calls;
    var k := 0;
    while k < |events|
      invariant 0 <= k <= |events|
      invariant Gate(dedup.cache, rowsOut) == Feed(g0, dedup.cooldown, AttemptsOf(frameId, t, events[..k]), clock, calls)
      invariant callsOut == calls + k
      invariant frameOut == DrawEvents(ext, frame, t.bbox, events[..k])
    {
      ghost var mid, callsIn := Gate(dedup.cache, rowsOut), callsOut;
      AttemptsStep(frameId, t, events, k);
      DrawStep(ext, frame, t.bbox, events, k);
      frameOut, rowsOut, callsOut := HandleEvent(ext, clock, dedup, frameId, t, events[k], frameOut, rowsOut, callsOut);
      FeedOneMore(g0, dedup.cooldown, clock, calls, callsIn, AttemptsOf(frameId, t, events[..k]),
                  AttemptFor(frameId, t, events[k]), AttemptsOf(frameId, t, events[..k + 1]), mid, Gate(dedup.cache, rowsOut));
      k := k + 1;
    }
    assert events[..k] == events;
  }

  /** One track of a frame: check, fuse, then handle the track's events in turn. */
  method HandleTrack(ext: Externals, clock: nat -> real, dedup: EventDeduplicator,
                     frameId: nat, t: Track, frame: Frame, rows: seq<CsvRow>, calls: nat)
    returns (frameOut: Frame, rowsOut: seq<CsvRow>, callsOut: nat)
    modifies dedup`cache
    ensures var events := TrackEvents(ext, frame, t);
            && Gate(dedup.cache, rowsOut) ==
               Feed(Gate(old(dedup.cache), rows), dedup.cooldown, AttemptsOf(frameId, t, events), clock, calls)
            && callsOut == calls + |events|
            && frameOut == DrawEvents(ext, frame, t.bbox, events)
  {
    var helmet := HelmetDetector.Check(frame, t, ext.helmetModel);
    var weapon := WeaponDetector.Check(frame, t, ext.weaponModel);
    var fight := ext.fight(frame, t);
    var events := Fuse(t, helmet, weapon, fight);
    frameOut, rowsOut, callsOut := HandleEvents(ext, clock, dedup, frameId, t, events, frame, rows, calls);
  }

  /** The loop over one frame's tracks. */
  method HandleTracks(ext: Externals, clock: nat -> real, dedup: EventDeduplicator,
                      frameId: nat, tracks: seq<Track>, frame: Frame, rows: seq<CsvRow>, calls: nat)
    returns (frameOut: Frame, rowsOut: seq<CsvRow>, callsOut: nat)
    modifies dedup`cache
    ensures var scan := ScanTracks(ext, frameId, tracks, frame);
            && Gate(dedup.cache, rowsOut) == Feed(Gate(old(dedup.cache), rows), dedup.cooldown, scan.attempts, clock, calls)
            && callsOut == calls + |scan.attempts|
            && frameOut == scan.frame
  {
    ghost var g0 := Gate(dedup.cache, rows);
    frameOut, rowsOut, callsOut := frame, rows, calls;
    var j := 0;
    while j < |tracks|
      invariant 0 <= j <= |tracks|
      invariant var scan := ScanTracks(ext, frameId, tracks[..j], frame);
                && Gate(dedup.cache, rowsOut) == Feed(g0, dedup.cooldown, scan.attempts, clock, calls)
                && callsOut == calls + |scan.attempts|
                && frameOut == scan.frame
    {
      ghost var mid, frameIn, callsIn := Gate(dedup.cache, rowsOut), frameOut, callsOut;
      TrackStep(ext, frameId, tracks, frame, j, frameIn);
      frameOut, rowsOut, callsOut := HandleTrack(ext, clock, dedup, frameId, tracks[j], frameOut, rowsOut, callsOut);
      FeedInTwoLegs(g0, dedup.cooldown, clock, calls, callsIn, ScanTracks(ext, frameId, tracks[..j], frame).attempts,
                    AttemptsOf(frameId, tracks[j], TrackEvents(ext, frameIn, tracks[j])),
                    ScanTracks(ext, frameId, tracks[..j + 1], frame).attempts, mid, Gate(dedup.cache, rowsOut));
      j := j + 1;
    }
    assert tracks[..j] == tracks;
  }

  /** One pass of the frame loop: track the frame, then handle its tracks. */
  method HandleFrame(ext: Externals, ghost scan: (nat, Frame) -> FrameScan, clock: nat -> real, dedup: EventDeduplicator,
                     frameId: nat, frame: Frame, rows: seq<CsvRow>, calls: nat)
    returns (frameOut: Frame, rowsOut: seq<CsvRow>, callsOut: nat)
    requires IsFrameScanner(scan, ext)
    modifies dedup`cache
    ensures var s := scan(frameId, frame);
            && Gate(dedup.cache, rowsOut) == Feed(Gate(old(dedup.cache), rows), dedup.cooldown, s.attempts, clock, calls)
            && callsOut == calls + |s.attempts|
            && frameOut == s.frame
  {
    assert scan(frameId, frame) == ScanFrame(ext, frameId, frame);
    var tracks := ProcessFrame(ext.tracker(frameId, frame));
    frameOut, rowsOut, callsOut := HandleTracks(ext, clock, dedup, frameId, tracks, frame, rows, calls);
  }

  /**
   * The frame loop: read every frame, handle its tracks, write the drawn
   * frame. The log and the cache end as offering the video's attempts to the
   * gate in order leaves them; the written frames are the video's drawn frames.
   */
  method ScanFrames(ext: Externals, ghost scan: (nat, Frame) -> FrameScan, clock: nat -> real, dedup: EventDeduplicator,
                    frames: seq<Frame>, rows0: seq<CsvRow>)
    returns (written: seq<Frame>, rows: seq<CsvRow>)
    requires IsFrameScanner(scan, ext)
    modifies dedup`cache
    ensures var run := ScanPrefix(scan, frames, |frames|);
            && Gate(dedup.cache, rows) == Feed(Gate(old(dedup.cache), rows0), dedup.cooldown, run.attempts, clock, 0)
            && written == run.written
  {
    rows, written := rows0, [];
    ghost var g0 := Gate(dedup.cache, rows);
    ghost var run := Run([], []);
    var calls := 0;
    var frameId := 0;
    while frameId < |frames|
      invariant 0 <= frameId <= |frames|
      invariant run == ScanPrefix(scan, frames, frameId)
      invariant Gate(dedup.cache, rows) == Feed(g0, dedup.cooldown, run.attempts, clock, 0)
      invariant calls == |run.attempts|
      invariant written == run.written
    {
      ghost var mid := Gate(dedup.cache, rows);
      var frame := frames[frameId];
      frameId := frameId + 1;
      ghost var s := scan(frameId, frame);
      var drawn;
      drawn, rows, calls := HandleFrame(ext, scan, clock, dedup, frameId, frame, rows, calls);
      ScanStep(scan, frames, frameId, run, s);
      FeedInTwoLegs(g0, dedup.cooldown, clock, 0, |run.attempts|, run.attempts, s.attempts,
                    run.attempts + s.attempts, mid, Gate(dedup.cache, rows));
      run := Run(run.attempts + s.attempts, run.written + [s.frame]);
      written := written + [drawn];
    }
  }

  /** `analyze_video`. `dedup` is the one deduplicator of the process, shared by all requests. */
  method AnalyzeVideo(filename: string, capture: Capture, ext: Externals, clock: nat -> real,
                      dedup: EventDeduplicator) returns (response: Response)
    modifies dedup`cache
    ensures (response, dedup.cache) ==
            Analyze(filename, capture, ext, clock, old(dedup.cache), dedup.cooldown)
  {
    if !IsVideoFilename(filename) {
      return Rejected(400, "Unsupported video format");
    }
    if !capture.isOpened {
      return Rejected(500, "Failed to open video");
    }
    var fps := if capture.fps > 0.0 then capture.fps else FallbackFps;
    var written, rows := ScanFrames(ext, FrameScanner(ext), clock, dedup, capture.frames, [Header(HeaderColumns)]);
    response := Analyzed(fps, capture.width, capture.height, written, rows);
  }


  // ------------------------------------------------------------ properties

  /** The rows of the attempts whose `allow` call returned true, in order. */
  function LoggedRows(attempts: seq<Attempt>, verdicts: seq<bool>): seq<CsvRow>
    requires |verdicts| == |attempts|
    decreases |attempts|
  {
    if attempts == [] then []
    else
      var n := |attempts| - 1;
      LoggedRows(attempts[..n], verdicts[..n]) + if verdicts[n] then [RowOf(attempts[n])] else []
  }

  /**
   * Attempts offered in frame order log their rows in frame order: every
   * logged row is an event row no later than the last attempt's frame, and
   * the frame numbers of the rows never decrease.
   */
  lemma {:induction false} LoggedRowsInFrameOrder(attempts: seq<Attempt>, verdicts: seq<bool>)
    requires |verdicts| == |attempts|
    requires forall p, q :: 0 <= p <= q < |attempts| ==> attempts[p].frameId <= attempts[q].frameId
    ensures var rows := LoggedRows(attempts, verdicts);
            && |rows| <= |attempts|
            && (forall p :: 0 <= p < |rows| ==> rows[p].EventRow? && rows[p].frame <= attempts[|attempts| - 1].frameId)
            && (forall p, q :: 0 <= p <= q < |rows| ==> rows[p].frame <= rows[q].frame)
    decreases |attempts|
  {
    if attempts != [] {
      var n := |attempts| - 1;
      var init := attempts[..n];
      LoggedRowsInFrameOrder(init, verdicts[..n]);
      var prev := LoggedRows(init, verdicts[..n]);
      var last := if verdicts[n] then [RowOf(attempts[n])] else [];
      var rows := prev + last;
      assert LoggedRows(attempts, verdicts) == rows;
      forall p | 0 <= p < |prev|
        ensures prev[p].EventRow? && prev[p].frame <= attempts[n].frameId
      {
        assert init[n - 1] == attempts[n - 1];
      }
      forall p | 0 <= p < |rows|
        ensures rows[p].EventRow? && rows[p].frame <= attempts[n].frameId
      {
        if p >= |prev| {
          assert rows[p] == RowOf(attempts[n]);
        }
      }
      forall p, q | 0 <= p <= q < |rows|
        ensures rows[p].frame <= rows[q].frame
      {
        if q >= |prev| {
          assert rows[q] == RowOf(attempts[n]);
        }
      }
    }
  }

  /** The last attempt replays one more call: the cache is recorded with its key at its clock reading. */
  lemma ReplayExtend(cache0: map<string, real>, cooldown: real, attempts: seq<Attempt>, clock: nat -> real)
    requires attempts != []
    ensures var n := |attempts| - 1;
            Replay(cache0, cooldown, Calls(attempts, clock)) ==
            Record(Replay(cache0, cooldown, Calls(attempts[..n], clock)), cooldown, attempts[n].key, clock(n))
  {
    var n := |attempts| - 1;
    assert Calls(attempts, clock)[..n] == Calls(attempts[..n], clock);
  }

  /** The last attempt logs its row exactly when its `allow` call returns true on the replayed cache. */
  lemma LoggedRowsExtend(cache0: map<string, real>, cooldown: real, attempts: seq<Attempt>, clock: nat -> real)
    requires attempts != []
    ensures var n := |attempts| - 1;
            var calls := Calls(attempts[..n], clock);
            LoggedRows(attempts, Verdicts(cache0, cooldown, Calls(attempts, clock))) ==
            LoggedRows(attempts[..n], Verdicts(cache0, cooldown, calls)) +
            (if Admits(Replay(cache0, cooldown, calls), cooldown, attempts[n].key, clock(n)) then [RowOf(attempts[n])] else [])
  {
    var n := |attempts| - 1;
    var calls, c := Calls(attempts[..n], clock), Call(attempts[n].key, clock(n));
    assert Calls(attempts, clock) == calls + [c];
    VerdictsExtend(cache0, cooldown, calls, c);
    var v := Verdicts(cache0, cooldown, calls + [c]);
    assert v[..n] == Verdicts(cache0, cooldown, calls);
  }

  /** The loop's cache is the deduplicator's replay of every `allow` call. */
  lemma {:induction false} FeedCacheIsReplay(g: Gate, cooldown: real, attempts: seq<Attempt>, clock: nat -> real)
    ensures Feed(g, cooldown, attempts, clock, 0).cache == Replay(g.cache, cooldown, Calls(attempts, clock))
    decreases |attempts|
  {
    if attempts != [] {
      var n := |attempts| - 1;
      var prev, a := attempts[..n], attempts[n];
      FeedCacheIsReplay(g, cooldown, prev, clock);
      FeedLast(g, cooldown, attempts, clock, 0);
      ReplayExtend(g.cache, cooldown, attempts, clock);
    }
  }

  /** Below the rows the loop started with, it logs exactly the attempts whose `allow` call returned true. */
  lemma {:induction false} FeedRowsAreLogged(g: Gate, cooldown: real, attempts: seq<Attempt>, clock: nat -> real)
    ensures Feed(g, cooldown, attempts, clock, 0).rows ==
            g.rows + LoggedRows(attempts, Verdicts(g.cache, cooldown, Calls(attempts, clock)))
    decreases |attempts|
  {
    if attempts != [] {
      var n := |attempts| - 1;
      var prev, a := attempts[..n], attempts[n];
      var logged := LoggedRows(prev, Verdicts(g.cache, cooldown, Calls(prev, clock)));
      var fed := Feed(g, cooldown, prev, clock, 0);
      FeedRowsAreLogged(g, cooldown, prev, clock);
      FeedCacheIsReplay(g, cooldown, prev, clock);
      FeedLast(g, cooldown, attempts, clock, 0);
      LoggedRowsExtend(g.cache, cooldown, attempts, clock);
      if Admits(fed.cache, cooldown, a.key, clock(n)) {
        assert (g.rows + logged) + [RowOf(a)] == g.rows + (logged + [RowOf(a)]);
      } else {
        assert logged + [] == logged;
      }
    }
  }

  /**
   * The loop's cache and log are the deduplicator's own account of the
   * calls: the cache is the replay of every `allow` call, and the rows
   * below the header are exactly the attempts whose call returned true.
   */
  lemma FeedMatchesDedup(cache0: map<string, real>, rows0: seq<CsvRow>, cooldown: real,
                         attempts: seq<Attempt>, clock: nat -> real)
    ensures var calls := Calls(attempts, clock);
            Feed(Gate(cache0, rows0), cooldown, attempts, clock, 0) ==
            Gate(Replay(cache0, cooldown, calls), rows0 + LoggedRows(attempts, Verdicts(cache0, cooldown, calls)))
  {
    FeedCacheIsReplay(Gate(cache0, rows0), cooldown, attempts, clock);
    FeedRowsAreLogged(Gate(cache0, rows0), cooldown, attempts, clock);
  }

  /** The attempt was built from its track and event: its key is the track id and the event type. */
  predicate Keyed(a: Attempt)
  {
    a.key == EventKey(a.track.trackId, a.event.kind)
  }

  /** Every attempt of a frame carries that frame's number and the key of its track and event. */
  lemma {:induction false} FrameAttemptsKeyed(ext: Externals, frameId: nat, tracks: seq<Track>, frame: Frame)
    ensures forall a :: a in ScanTracks(ext, frameId, tracks, frame).attempts ==> a.frameId == frameId && Keyed(a)
    decreases |tracks|
  {
    if tracks != [] {
      var n := |tracks| - 1;
      FrameAttemptsKeyed(ext, frameId, tracks[..n], frame);
      var s := ScanTracks(ext, frameId, tracks[..n], frame);
      var more := AttemptsOf(frameId, tracks[n], TrackEvents(ext, s.frame, tracks[n]));
      assert forall a :: a in more ==> a.frameId == frameId && Keyed(a);
    }
  }

  /** Every attempt of a frame's scan carries that frame's number. */
  ghost predicate NumberedScanner(scan: (nat, Frame) -> FrameScan)
  {
    forall frameId: nat, frame: Frame, a :: a in scan(frameId, frame).attempts ==> a.frameId == frameId
  }

  /** Every attempt of a frame's scan carries the key of its track and event. */
  ghost predicate KeyedScanner(scan: (nat, Frame) -> FrameScan)
  {
    forall frameId: nat, frame: Frame, a :: a in scan(frameId, frame).attempts ==> Keyed(a)
  }

  /**
   * With a scanner whose attempts carry their frame's number, the attempts of
   * the first `n` frames carry a number between 1 and `n` and come in frame order.
   */
  lemma {:induction false} AttemptsInFrameOrder(scan: (nat, Frame) -> FrameScan, frames: seq<Frame>, n: nat)
    requires n <= |frames|
    requires NumberedScanner(scan)
    ensures var attempts := ScanPrefix(scan, frames, n).attempts;
            && (forall a :: a in attempts ==> 1 <= a.frameId <= n)
            && (forall p, q :: 0 <= p <= q < |attempts| ==> attempts[p].frameId <= attempts[q].frameId)
    decreases n
  {
    if n > 0 {
      AttemptsInFrameOrder(scan, frames, n - 1);
      var prev := ScanPrefix(scan, frames, n - 1).attempts;
      var s := scan(n, frames[n - 1]).attempts;
      assert forall a :: a in s ==> a.frameId == n;
      var all := prev + s;
      assert ScanPrefix(scan, frames, n).attempts == all;
      forall p, q | 0 <= p <= q < |all|
        ensures all[p].frameId <= all[q].frameId
      {
        if q >= |prev| {
          assert all[q] in s;
          if p < |prev| {
            assert all[p] in prev;
          } else {
            assert all[p] in s;
          }
        }
      }
    }
  }

  /** With a scanner whose attempts are keyed, every attempt of the first `n` frames is keyed. */
  lemma {:induction false} AttemptsKeyed(scan: (nat, Frame) -> FrameScan, frames: seq<Frame>, n: nat)
    requires n <= |frames|
    requires KeyedScanner(scan)
    ensures forall a :: a in ScanPrefix(scan, frames, n).attempts ==> Keyed(a)
    decreases n
  {
    if n > 0 {
      AttemptsKeyed(scan, frames, n - 1);
      assert ScanPrefix(scan, frames, n).attempts ==
             ScanPrefix(scan, frames, n - 1).attempts + scan(n, frames[n - 1]).attempts;
    }
  }

  /**
   * The scan of each frame numbers its attempts with that frame and keys
   * them by their track and event; so, by `AttemptsInFrameOrder` and
   * `AttemptsKeyed`, the attempts of a video come in frame order and are keyed.
   */
  lemma FrameScannerKeyed(scan: (nat, Frame) -> FrameScan, ext: Externals)
    requires IsFrameScanner(scan, ext)
    ensures NumberedScanner(scan) && KeyedScanner(scan)
  {
    forall frameId: nat, frame: Frame, a | a in scan(frameId, frame).attempts
      ensures a.frameId == frameId && Keyed(a)
    {
      assert scan(frameId, frame) == ScanFrame(ext, frameId, frame);
      FrameAttemptsKeyed(ext, frameId, Tracks(ext.tracker(frameId, frame)), frame);
    }
  }

  /** One frame is written per frame read. */
  lemma {:induction false} WrittenCount(scan: (nat, Frame) -> FrameScan, frames: seq<Frame>, n: nat)
    requires n <= |frames|
    ensures |ScanPrefix(scan, frames, n).written| == n
    decreases n
  {
    if n > 0 {
      WrittenCount(scan, frames, n - 1);
    }
  }

  /** Among the first `n` frames, the `i`-th written is the frame `scan` makes of the `i`-th read. */
  lemma {:induction false} WrittenFrame(scan: (nat, Frame) -> FrameScan, frames: seq<Frame>, n: nat, i: nat)
    requires i < n <= |frames|
    ensures |ScanPrefix(scan, frames, n).written| == n
    ensures ScanPrefix(scan, frames, n).written[i] == scan(i + 1, frames[i]).frame
    decreases n
  {
    WrittenCount(scan, frames, n - 1);
    if i < n - 1 {
      WrittenFrame(scan, frames, n - 1, i);
    }
  }

  /**
   * Exactly one frame is written per frame read, each the frame as drawn
   * after all of its tracks, for any scanner that scans frames as the loop
   * body does (`FrameScanner(ext)`, the one `ScanVideo` uses, is one).
   */
  lemma OneWrittenFramePerFrame(scan: (nat, Frame) -> FrameScan, ext: Externals, frames: seq<Frame>)
    requires IsFrameScanner(scan, ext)
    ensures var written := ScanPrefix(scan, frames, |frames|).written;
            && |written| == |frames|
            && (forall i :: 0 <= i < |frames| ==> written[i] == ScanFrame(ext, i + 1, frames[i]).frame)
  {
    WrittenCount(scan, frames, |frames|);
    forall i | 0 <= i < |frames|
      ensures ScanPrefix(scan, frames, |frames|).written[i] == ScanFrame(ext, i + 1, frames[i]).frame
    {
      WrittenFrame(scan, frames, |frames|, i);
    }
  }

  /**
   * The request's outcome in the deduplicator's terms: the CSV log is the
   * header followed by the row of every attempt whose `allow` call
   * returned true, in order, and the cache afterwards is the replay of
   * all the calls.
   */
  lemma AnalyzeLogsAllowedAttempts(filename: string, capture: Capture, ext: Externals, clock: nat -> real,
                                   cache0: map<string, real>, cooldown: real)
    requires IsVideoFilename(filename) && capture.isOpened
    ensures var attempts := ScanVideo(ext, capture.frames).attempts;
            var calls := Calls(attempts, clock);
            var out := Analyze(filename, capture, ext, clock, cache0, cooldown);
            && out.0.csv == [Header(HeaderColumns)] + LoggedRows(attempts, Verdicts(cache0, cooldown, calls))
            && out.1 == Replay(cache0, cooldown, calls)
  {
    FeedMatchesDedup(cache0, [Header(HeaderColumns)], cooldown, ScanVideo(ext, capture.frames).attempts, clock);
  }

  /** The rows of an analysed video's CSV log, below the header, are event rows in non-decreasing frame order. */
  lemma AnalyzeLogsInFrameOrder(filename: string, capture: Capture, ext: Externals, clock: nat -> real,
                                cache0: map<string, real>, cooldown: real)
    requires IsVideoFilename(filename) && capture.isOpened
    ensures var csv := Analyze(filename, capture, ext, clock, cache0, cooldown).0.csv;
            forall p, q :: 1 <= p <= q < |csv| ==> csv[p].EventRow? && csv[q].EventRow? && csv[p].frame <= csv[q].frame
  {
    var frames := capture.frames;
    var attempts := ScanVideo(ext, frames).attempts;
    var verdicts := Verdicts(cache0, cooldown, Calls(attempts, clock));
    assert forall p, q :: 0 <= p <= q < |attempts| ==> attempts[p].frameId <= attempts[q].frameId by {
      FrameScannerKeyed(FrameScanner(ext), ext);
      AttemptsInFrameOrder(FrameScanner(ext), frames, |frames|);
    }
    LoggedRowsInFrameOrder(attempts, verdicts);
    AnalyzeLogsAllowedAttempts(filename, capture, ext, clock, cache0, cooldown);
    RowsBelowHeader(LoggedRows(attempts, verdicts));
  }

  /** Rows in frame order stay in frame order below the header. */
  lemma RowsBelowHeader(rows: seq<CsvRow>)
    requires forall p, q :: 0 <= p <= q < |rows| ==> rows[p].EventRow? && rows[q].EventRow? && rows[p].frame <= rows[q].frame
    ensures var csv := [Header(HeaderColumns)] + rows;
            forall p, q :: 1 <= p <= q < |csv| ==> csv[p].EventRow? && csv[q].EventRow? && csv[p].frame <= csv[q].frame
  {
    var csv := [Header(HeaderColumns)] + rows;
    forall p, q | 1 <= p <= q < |csv|
      ensures csv[p].EventRow? && csv[q].EventRow? && csv[p].frame <= csv[q].frame
    {
      assert csv[p] == rows[p - 1] && csv[q] == rows[q - 1];
    }
  }

  /**
   * The same event type for the same track id is never logged twice within
   * one cooldown: when the clock does not go backwards, two allowed
   * attempts for one track id and one event type are strictly more than
   * the cooldown apart. The attempts of a video are keyed (see
   * `FrameScannerKeyed`).
   */
  lemma SameAlertSpacedByCooldown(attempts: seq<Attempt>, clock: nat -> real, cache0: map<string, real>,
                                  cooldown: real, i: nat, j: nat)
    requires i < j < |attempts|
    requires Keyed(attempts[i]) && Keyed(attempts[j])
    requires attempts[i].track.trackId == attempts[j].track.trackId && attempts[i].event.kind == attempts[j].event.kind
    requires forall p, q :: 0 <= p <= q <= j ==> clock(p) <= clock(q)
    requires Verdicts(cache0, cooldown, Calls(attempts, clock))[i] && Verdicts(cache0, cooldown, Calls(attempts, clock))[j]
    ensures clock(j) - clock(i) > cooldown
  {
    var calls := Calls(attempts, clock);
    assert attempts[i].key == attempts[j].key;
    assert calls[i].key == calls[j].key;
    forall p, q | 0 <= p <= q < j + 1 && q < |calls|
      ensures calls[p].now <= calls[q].now
    {
      assert calls[p].now == clock(p) && calls[q].now == clock(q);
    }
    AllowedCallsSpacedByCooldown(cache0, cooldown, calls, i, j);
  }

  /**
   * A burst of attempts with one key, all within one cooldown of the first,
   * is logged once: when the key is not held or has expired, the first
   * attempt is logged and refreshes the key, and every later one is
   * suppressed and changes nothing.
   */
  lemma BurstLoggedOnce(g: Gate, cooldown: real, attempts: seq<Attempt>, clock: nat -> real, start: nat)
    requires |attempts| >= 1
    requires forall k :: 0 <= k < |attempts| ==> attempts[k].key == attempts[0].key
    requires Admits(g.cache, cooldown, attempts[0].key, clock(start))
    requires forall k :: start < k < start + |attempts| ==> clock(k) - clock(start) <= cooldown
    ensures Feed(g, cooldown, attempts, clock, start) ==
            Gate(g.cache[attempts[0].key := clock(start)], g.rows + [RowOf(attempts[0])])
  {
    var g1 := Step(g, cooldown, attempts[0], clock(start));
    QuietWithinCooldown(g1, cooldown, attempts[1..], clock, start + 1, attempts[0].key, clock(start));
  }

  /** Attempts with a key refreshed at `t` that all come within one cooldown of `t` change nothing. */
  lemma {:induction false} QuietWithinCooldown(g: Gate, cooldown: real, attempts: seq<Attempt>, clock: nat -> real,
                                               start: nat, key: string, t: real)
    requires key in g.cache && g.cache[key] == t
    requires forall k :: 0 <= k < |attempts| ==> attempts[k].key == key
    requires forall k :: start <= k < start + |attempts| ==> clock(k) - t <= cooldown
    ensures Feed(g, cooldown, attempts, clock, start) == g
    decreases |attempts|
  {
    if attempts != [] {
      assert Step(g, cooldown, attempts[0], clock(start)) == g;
      QuietWithinCooldown(g, cooldown, attempts[1..], clock, start + 1, key, t);
    }
  }
}
