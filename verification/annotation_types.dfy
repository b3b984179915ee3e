/** The value types that the annotation editor, the logger and the interpolator
    exchange: Qt's integer point and rectangle, the annotation mode, and the three
    annotation structs. */
module AnnotationTypes {

  /** Qt's `QPoint`: an integer position, `x` the column and `y` the row. */
  datatype Point = Point(x: int, y: int)

  /** Qt's `QRect`, kept as its two stored corners `(x1, y1)` and `(x2, y2)`, which
      are what `getCoords` hands back. */
  datatype Rect = Rect(x1: int, y1: int, x2: int, y2: int)

  /** `QRect()`: Qt's null rectangle, whose bottom-right corner lies one before its
      top-left corner. */
  function NullRect(): (r: Rect)
    ensures r.x1 == 0 && r.y1 == 0 && r.x2 == r.x1 - 1 && r.y2 == r.y1 - 1
  {
    Rect(0, 0, -1, -1)
  }

  /** `QRect(QPoint topLeft, QPoint bottomRight)`. */
  function RectFromCorners(tl: Point, br: Point): (r: Rect)
    ensures r.x1 == tl.x && r.y1 == tl.y && r.x2 == br.x && r.y2 == br.y
  {
    Rect(tl.x, tl.y, br.x, br.y)
  }

  /** `QRect(QPoint topLeft, QSize(width, height))`: Qt stores the last column and
      row covered, `x + width - 1` and `y + height - 1`. */
  function RectFromSize(tl: Point, width: int, height: int): (r: Rect)
    ensures r.x1 == tl.x && r.y1 == tl.y
    ensures r.x2 - r.x1 + 1 == width && r.y2 - r.y1 + 1 == height
  {
    Rect(tl.x, tl.y, tl.x + width - 1, tl.y + height - 1)
  }

  /** `ANNOTATION_MODE`: `SEGMENTATION = 0`, then `BOUNDINGBOX`. */
  datatype AnnotationMode = Segmentation | BoundingBox

  /** The integer value of each enumerator. */
  function ModeValue(m: AnnotationMode): (v: int)
    ensures v == 0 <==> m == Segmentation
    ensures v == 1 <==> m == BoundingBox
  {
    match m
    case Segmentation => 0
    case BoundingBox => 1
  }

  /** `BoundingBoxMD`: a rectangle and the instance it belongs to. */
  datatype BoundingBoxMD = BoundingBoxMD(bbox: Rect, instanceId: int)

  /** `BoundingBoxMD()`: a null rectangle with instance id 0. */
  function DefaultBoundingBoxMD(): (b: BoundingBoxMD)
    ensures b.instanceId == 0 && b.bbox == NullRect()
  {
    BoundingBoxMD(NullRect(), 0)
  }

  /** `PixelLabelMB`: the points of one segmentation instance. */
  datatype PixelLabelMB = PixelLabelMB(smask: seq<Point>, instanceId: int)

  /** `PixelLabelMB()`: no points, instance id 0. */
  function DefaultPixelLabelMB(): (p: PixelLabelMB)
    ensures p.instanceId == 0 && p.smask == []
  {
    PixelLabelMB([], 0)
  }

  /** `FrameAnnotations`: everything the user entered for one frame. */
  datatype FrameAnnotations = FrameAnnotations(bboxes: seq<BoundingBoxMD>, segmPoints: seq<PixelLabelMB>)
}
