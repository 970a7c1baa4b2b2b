/**
 * The helmet check: only motorcycles are examined; the frame is cut to the
 * track's rectangle (coordinates truncated to integers, then sliced the
 * way Python slices), the helmet model is run on the crop, and the first
 * box decides: class 0 means a helmet is worn.
 */
module HelmetDetector {

  import opened Detection
  import opened VehicleTracker

  /** The class id the helmet model uses for "helmet". */
  const HelmetClass: int := 0

  datatype HelmetFinding = HelmetFinding(helmet: bool, confidence: real)

  /** Python's `int(x)` on a float: truncation toward zero. */
  function Trunc(x: real): (r: int)
    ensures 0.0 <= x ==> 0 <= r && r as real <= x < r as real + 1.0
    ensures x < 0.0 ==> r <= 0 && r as real - 1.0 < x <= r as real
  {
    if x >= 0.0 then x.Floor else -((-x).Floor)
  }

  /** Where a Python slice bound `i` lands in a sequence of length `n`. */
  function SliceBound(i: int, n: nat): (b: nat)
    ensures b <= n
    ensures 0 <= i <= n ==> b == i
  {
    if i < 0 then (if i + n < 0 then 0 else i + n)
    else if i > n then n
    else i
  }

  /** Python's `s[lo:hi]`: negative bounds count from the end, bounds are clamped, crossed bounds give nothing. */
  function PySlice<T>(s: seq<T>, lo: int, hi: int): (r: seq<T>)
    ensures |r| <= |s|
  {
    var a, b := SliceBound(lo, |s|), SliceBound(hi, |s|);
    if a < b then s[a..b] else []
  }

  /** The smaller of two integers. */
  function Min(a: int, b: int): int
  {
    if a <= b then a else b
  }

  /** A difference clamped at zero. */
  function Max0(d: int): nat
  {
    if d < 0 then 0 else d
  }

  /**
   * With non-negative bounds, the slice is exactly the part of `lo..hi` that
   * lies inside the sequence: its length is that part's, and the k-th
   * element is `s[lo + k]`.
   */
  lemma PySliceContents<T>(s: seq<T>, lo: int, hi: int)
    requires 0 <= lo && 0 <= hi
    ensures var r := PySlice(s, lo, hi);
            && |r| == Max0(Min(hi, |s|) - Min(lo, |s|))
            && |r| <= Max0(hi - lo)
            && forall k :: 0 <= k < |r| ==> lo + k < hi && lo + k < |s| && r[k] == s[lo + k]
  {
  }

  /** `frame[y1:y2, x1:x2]` with the rectangle's coordinates truncated to integers. */
  function Crop(frame: Frame, bbox: BBox): Frame
  {
    var x1, y1, x2, y2 := Trunc(bbox.x1), Trunc(bbox.y1), Trunc(bbox.x2), Trunc(bbox.y2);
    var rows := PySlice(frame, y1, y2);
    seq(|rows|, i requires 0 <= i < |rows| => PySlice(rows[i], x1, x2))
  }

  /**
   * For a rectangle with non-negative coordinates (as the tracker reports them),
   * the crop is exactly the part of the truncated rectangle inside the frame:
   * it has the rows of the rectangle that the frame has, each row has the
   * rectangle's columns that that frame row has, and every pixel of the crop
   * is the frame pixel at the same offset from the truncated top-left corner.
   */
  lemma CropInsideBox(frame: Frame, bbox: BBox)
    requires 0.0 <= bbox.x1 && 0.0 <= bbox.y1 && 0.0 <= bbox.x2 && 0.0 <= bbox.y2
    ensures var crop := Crop(frame, bbox);
            var x1, y1, x2, y2 := Trunc(bbox.x1), Trunc(bbox.y1), Trunc(bbox.x2), Trunc(bbox.y2);
            |crop| == Max0(Min(y2, |frame|) - Min(y1, |frame|))
    ensures var crop := Crop(frame, bbox);
            var x1, y1, x2, y2 := Trunc(bbox.x1), Trunc(bbox.y1), Trunc(bbox.x2), Trunc(bbox.y2);
            forall i :: 0 <= i < |crop| ==>
              y1 + i < |frame| && |crop[i]| == Max0(Min(x2, |frame[y1 + i]|) - Min(x1, |frame[y1 + i]|))
    ensures var crop := Crop(frame, bbox);
            var x1, y1, x2, y2 := Trunc(bbox.x1), Trunc(bbox.y1), Trunc(bbox.x2), Trunc(bbox.y2);
            forall i, j :: 0 <= i < |crop| && 0 <= j < |crop[i]| ==>
              y1 + i < y2 && x1 + j < x2 &&
              y1 + i < |frame| && x1 + j < |frame[y1 + i]| &&
              crop[i][j] == frame[y1 + i][x1 + j]
  {
    var x1, y1, x2, y2 := Trunc(bbox.x1), Trunc(bbox.y1), Trunc(bbox.x2), Trunc(bbox.y2);
    var rows := PySlice(frame, y1, y2);
    PySliceContents(frame, y1, y2);
    forall i | 0 <= i < |rows|
      ensures var r := PySlice(rows[i], x1, x2);
              && |r| == Max0(Min(x2, |rows[i]|) - Min(x1, |rows[i]|))
              && forall j :: 0 <= j < |r| ==> x1 + j < x2 && x1 + j < |rows[i]| && r[j] == rows[i][x1 + j]
    {
      PySliceContents(rows[i], x1, x2);
    }
  }

  /** `check`: the helmet finding for one track of one frame, or None. */
  function Check(frame: Frame, track: Track, model: Frame -> ModelOutput): (r: Option<HelmetFinding>)
    ensures track.cls != Motorcycle ==> r == None
    ensures r.Some? <==> track.cls == Motorcycle && HasBoxes(model(Crop(frame, track.bbox)))
    ensures r.Some? ==> var top := FirstBox(model(Crop(frame, track.bbox)));
                        r.value.helmet == (top.cls == HelmetClass) && r.value.confidence == top.conf
  {
    if track.cls != Motorcycle then None
    else
      var res := model(Crop(frame, track.bbox));
      if !HasBoxes(res) then None
      else
        var top := FirstBox(res);
        Some(HelmetFinding(top.cls == HelmetClass, top.conf))
  }

  /** For any track that is not a motorcycle the model is never consulted: every model gives None. */
  lemma NonMotorcycleSkipsModel(frame: Frame, track: Track, m1: Frame -> ModelOutput, m2: Frame -> ModelOutput)
    requires track.cls != Motorcycle
    ensures Check(frame, track, m1) == Check(frame, track, m2) == None
  {
  }

  /** Only the first box of the crop's result counts: boxes after it never change the finding. */
  lemma LaterBoxesIgnored(frame: Frame, track: Track, m1: Frame -> ModelOutput, m2: Frame -> ModelOutput)
    requires track.cls == Motorcycle
    requires var r1, r2 := m1(Crop(frame, track.bbox)), m2(Crop(frame, track.bbox));
             HasBoxes(r1) && HasBoxes(r2) && FirstBox(r1) == FirstBox(r2)
    ensures Check(frame, track, m1) == Check(frame, track, m2)
    ensures Check(frame, track, m1).Some?
  {
  }
}
