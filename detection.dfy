/**
 * The boundary to the pretrained models and to the video frames.
 *
 * Every YOLO call of the pipeline is abstracted as a function that returns
 * a list of per-image results, each of which may or may not carry an
 * ordered list of boxes. Frames are pixel grids; confidences are opaque
 * reals on which the pipeline does no arithmetic.
 */
module Detection {

  datatype Option<+T> = None | Some(value: T)

  /** A blue-green-red triple, as OpenCV stores pixels and colours. */
  datatype Bgr = Bgr(b: int, g: int, r: int)

  /** A decoded video frame: rows of pixels. */
  type Frame = seq<seq<Bgr>>

  /** An axis-aligned rectangle in pixel coordinates, as YOLO's `xyxy`. */
  datatype BBox = BBox(x1: real, y1: real, x2: real, y2: real)

  /** One detected box: class id, confidence, optional tracker id, rectangle. */
  datatype Box = Box(cls: int, conf: real, id: Option<int>, xyxy: BBox)

  /** The list of results of one model call; each result's `boxes` may be missing. */
  type ModelOutput = seq<Option<seq<Box>>>

  /**
   * Python truthiness of `res and res[0].boxes`: there is a first result,
   * it has boxes, and there is at least one of them.
   */
  predicate HasBoxes(res: ModelOutput) {
    |res| > 0 && res[0].Some? && |res[0].value| > 0
  }

  /** `res[0].boxes[0]`, the top-ranked box of the first result. */
  function FirstBox(res: ModelOutput): Box
    requires HasBoxes(res)
  {
    res[0].value[0]
  }
}
