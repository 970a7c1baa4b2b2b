/**
 * The tracker's class filter: the boxes of the first tracking result are
 * kept when their COCO class id is one of the five road-user classes, and
 * each kept box becomes a tracked instance with a class name and a track
 * id (-1 when the tracker gave the box no id).
 */
module VehicleTracker {

  import opened Detection

  datatype ObjectClass = Person | Car | Motorcycle | Bus | Truck {
    /** The name the pipeline stores in a track's "class" entry. */
    function Name(): string {
      match this
      case Person => "person"
      case Car => "car"
      case Motorcycle => "motorcycle"
      case Bus => "bus"
      case Truck => "truck"
    }
  }

  /**
   * The class names tell the classes apart (their first letters differ),
   * so testing a track's class name against "motorcycle" is testing its
   * class against `Motorcycle`.
   */
  lemma ClassNamesDistinct(c1: ObjectClass, c2: ObjectClass)
    ensures c1.Name() == c2.Name() <==> c1 == c2
    ensures c1.Name() == "motorcycle" <==> c1 == Motorcycle
  {
    if c1 != c2 {
      assert c1.Name()[0] != c2.Name()[0];
    }
  }

  /** COCO class ids of the road users the pipeline follows. */
  const VehicleClasses: map<int, ObjectClass> :=
    map[0 := Person, 2 := Car, 3 := Motorcycle, 5 := Bus, 7 := Truck]

  /** The track id of a box that the tracker could not associate. */
  const Unresolved: int := -1

  datatype Track = Track(trackId: int, cls: ObjectClass, bbox: BBox)

  /** The record made from one kept box. */
  function TrackOf(b: Box): (t: Track)
    requires b.cls in VehicleClasses
    ensures t.trackId == (if b.id.Some? then b.id.value else Unresolved)
    ensures t.cls == VehicleClasses[b.cls] && t.bbox == b.xyxy
  {
    Track(if b.id.Some? then b.id.value else Unresolved, VehicleClasses[b.cls], b.xyxy)
  }

  /** The tracks made from a list of boxes, in box order. */
  function Accepted(boxes: seq<Box>): seq<Track>
    decreases |boxes|
  {
    if boxes == [] then []
    else
      var b := boxes[|boxes| - 1];
      Accepted(boxes[..|boxes| - 1]) + (if b.cls in VehicleClasses then [TrackOf(b)] else [])
  }

  /** The indices of the boxes that the filter keeps, in increasing order. */
  function Selected(boxes: seq<Box>): seq<nat>
    decreases |boxes|
  {
    if boxes == [] then []
    else
      var n := |boxes| - 1;
      Selected(boxes[..n]) + (if boxes[n].cls in VehicleClasses then [n] else [])
  }

  /** The tracks of one frame, given the tracker's result list. */
  function Tracks(results: ModelOutput): (tracks: seq<Track>)
    ensures |results| == 0 || results[0].None? ==> tracks == []
    ensures |results| > 0 && results[0].Some? ==> tracks == Accepted(results[0].value)
  {
    if |results| == 0 || results[0].None? then [] else Accepted(results[0].value)
  }

  /**
   * The output is exactly the kept boxes, in order: the k-th track is made
   * from the k-th kept box, and a box is kept iff its class id is in the table.
   */
  lemma {:induction false} AcceptedIsOrderedSelection(boxes: seq<Box>)
    ensures |Selected(boxes)| == |Accepted(boxes)| <= |boxes|
    ensures forall k :: 0 <= k < |Selected(boxes)| ==>
              Selected(boxes)[k] < |boxes| &&
              boxes[Selected(boxes)[k]].cls in VehicleClasses &&
              Accepted(boxes)[k] == TrackOf(boxes[Selected(boxes)[k]])
    ensures forall i :: 0 <= i < |boxes| ==> (i in Selected(boxes) <==> boxes[i].cls in VehicleClasses)
    decreases |boxes|
  {
    if boxes != [] {
      var n := |boxes| - 1;
      var prev := boxes[..n];
      AcceptedIsOrderedSelection(prev);
      assert forall i :: 0 <= i < n ==> prev[i] == boxes[i];
    }
  }

  /** The kept indices increase, so the tracks keep the order of their boxes. */
  lemma {:induction false} SelectedIncreasing(boxes: seq<Box>)
    ensures forall k :: 0 <= k < |Selected(boxes)| ==> Selected(boxes)[k] < |boxes|
    ensures forall k, l :: 0 <= k < l < |Selected(boxes)| ==> Selected(boxes)[k] < Selected(boxes)[l]
    decreases |boxes|
  {
    if boxes != [] {
      var n := |boxes| - 1;
      SelectedIncreasing(boxes[..n]);
    }
  }

  /** A box whose class id is not in the table never contributes a track, so fewer tracks than boxes come out. */
  lemma {:induction false} RejectedClassNeverTracked(boxes: seq<Box>, i: nat)
    requires i < |boxes| && boxes[i].cls !in VehicleClasses
    ensures i !in Selected(boxes)
    ensures |Accepted(boxes)| < |boxes|
    decreases |boxes|
  {
    AcceptedIsOrderedSelection(boxes);
    var n := |boxes| - 1;
    var prev := boxes[..n];
    AcceptedIsOrderedSelection(prev);
    if i < n {
      assert prev[i] == boxes[i];
      RejectedClassNeverTracked(prev, i);
    }
  }

  /** `process_frame`: filter the tracker's boxes and turn each kept one into a track. */
  method ProcessFrame(results: ModelOutput) returns (tracks: seq<Track>)
    ensures tracks == Tracks(results)
  {
    tracks := [];
    if |results| == 0 || results[0].None? {
      return;
    }
    var boxes := results[0].value;
    var i := 0;
    while i < |boxes|
      invariant 0 <= i <= |boxes|
      invariant tracks == Accepted(boxes[..i])
    {
      var b := boxes[i];
      assert boxes[..i + 1][..i] == boxes[..i];
      i := i + 1;
      if b.cls !in VehicleClasses {
        continue;
      }
      tracks := tracks + [TrackOf(b)];
    }
    assert boxes[..i] == boxes;
  }
}
