/** `FrameScene`: the editing state of the frame on screen. Segmentation strokes
    stamp square brushes of points into the current mask; bounding boxes are
    drawn, selected and moved with the mouse; undo and redo move the latest items
    between a live list and a "limbo" list. Painting, the scene graph and mouse
    coordinates before rounding are not part of the model: a click is the
    already-rounded point `(x = column, y = row)`. */
module FrameScenes {
  import opened Wrappers
  import opened Numeric
  import opened AnnotationTypes
  import opened MaskCodec

  /** `s` in reverse order. */
  function Reversed<T>(s: seq<T>): (r: seq<T>)
    ensures |r| == |s|
    ensures forall i :: 0 <= i < |s| ==> r[i] == s[|s| - 1 - i]
  {
    if s == [] then [] else [s[|s| - 1]] + Reversed(s[..|s| - 1])
  }

  /** How many elements `point_un_redo(src, dst, numTimes)` moves: one per round
      while `src` is not empty. */
  function MoveCount(srcLen: nat, numTimes: int): (k: nat)
    ensures k <= srcLen
    ensures numTimes <= 0 ==> k == 0
    ensures 0 <= numTimes <= srcLen ==> k == numTimes
    ensures srcLen <= numTimes ==> k == srcLen
  {
    Min(Max(numTimes, 0), srcLen)
  }

  /** The two lists after `point_un_redo(src, dst, numTimes)`: the last `k` elements
      of `src` leave it and arrive at the back of `dst`, last one first. */
  function MoveBack<T>(src: seq<T>, dst: seq<T>, numTimes: int): (r: (seq<T>, seq<T>))
    ensures |r.0| + |r.1| == |src| + |dst|
    ensures |r.1| == |dst| + MoveCount(|src|, numTimes)
  {
    var k := MoveCount(|src|, numTimes);
    (src[..|src| - k], dst + Reversed(src[|src| - k..]))
  }

  lemma MoveBackOne<T>(src: seq<T>, dst: seq<T>, k: nat)
    requires k < |src|
    ensures MoveBack(src, dst, k + 1) ==
            (MoveBack(src, dst, k).0[..|src| - k - 1], MoveBack(src, dst, k).1 + [src[|src| - k - 1]])
  {
    var m := |src| - k;
    var longer, shorter := Reversed(src[m - 1..]), Reversed(src[m..]);
    assert forall i :: 0 <= i < k ==> longer[i] == src[|src| - 1 - i] == shorter[i];
    assert longer[k] == src[m - 1];
    assert longer == shorter + [src[m - 1]];
    assert src[..m][..m - 1] == src[..m - 1];
    assert MoveCount(|src|, k) == k && MoveCount(|src|, k + 1) == k + 1;
    assert dst + longer == (dst + shorter) + [src[m - 1]];
  }

  /** `utils::point_un_redo`: `numTimes` rounds, each moving the last element of
      `src`, if there is one, to the back of `dst`. */
  method PointUnRedo<T>(src: seq<T>, dst: seq<T>, numTimes: int) returns (src': seq<T>, dst': seq<T>)
    ensures (src', dst') == MoveBack(src, dst, numTimes)
  {
    src', dst' := src, dst;
    var i := 0;
    assert src[..|src|] == src && src[|src|..] == [];
    assert dst + Reversed([]) == dst;
    while i < numTimes
      invariant 0 <= i <= Max(numTimes, 0)
      invariant (src', dst') == MoveBack(src, dst, Min(i, |src|))
    {
      if |src'| > 0 {
        MoveBackOne(src, dst, i);
        var invPoint := src'[|src'| - 1];
        src' := src'[..|src'| - 1];
        dst' := dst' + [invPoint];
      }
      i := i + 1;
    }
    assert MoveCount(|src|, Min(i, |src|)) == MoveCount(|src|, numTimes);
  }

  /** Moving elements keeps the others in place and loses none: `src` keeps its
      front, `dst` keeps all it had, and the moved ones are the back of `src`. */
  lemma MoveBackKeepsElements<T>(src: seq<T>, dst: seq<T>, numTimes: int)
    ensures var r := MoveBack(src, dst, numTimes);
            r.0 == src[..|r.0|] && r.1[..|dst|] == dst &&
            multiset(r.0) + multiset(r.1) == multiset(src) + multiset(dst)
  {
    var k := MoveCount(|src|, numTimes);
    var rev := Reversed(src[|src| - k..]);
    ReversedSameElements(src[|src| - k..]);
    assert src == src[..|src| - k] + src[|src| - k..];
    assert (dst + rev)[..|dst|] == dst;
  }

  lemma {:induction false} ReversedSameElements<T>(s: seq<T>)
    ensures multiset(Reversed(s)) == multiset(s)
  {
    if s != [] {
      ReversedSameElements(s[..|s| - 1]);
      assert s == s[..|s| - 1] + [s[|s| - 1]];
    }
  }

  /** Undoing one item and redoing one item gives back both lists exactly when
      there was something to undo or nothing waiting in limbo. */
  lemma UndoRedoOneRestores<T>(live: seq<T>, limbo: seq<T>)
    ensures var u := MoveBack(live, limbo, 1);
            var r := MoveBack(u.1, u.0, 1);
            (r.1 == live && r.0 == limbo) <==> (|live| > 0 || limbo == [])
  {
    var u := MoveBack(live, limbo, 1);
    var r := MoveBack(u.1, u.0, 1);
    if |live| > 0 {
      assert u.1 == limbo + [live[|live| - 1]];
      assert r.1 == live[..|live| - 1] + [live[|live| - 1]];
      assert live == live[..|live| - 1] + [live[|live| - 1]];
    } else if limbo != [] {
      assert |r.1| == 1;
    }
  }

  /** With a brush of several points, undo takes back a whole stamp but redo
      brings back a single point: the mask ends one point past where undo left it. */
  lemma UndoRedoBrushAsymmetry(mask: seq<Point>, limbo: seq<Point>, brushsz: int)
    requires |mask| >= 1 && brushsz * brushsz >= 1
    ensures var k := MoveCount(|mask|, brushsz * brushsz);
            var u := MoveBack(mask, limbo, brushsz * brushsz);
            var r := MoveBack(u.1, u.0, 1);
            r.1 == mask[..|mask| - k + 1] && |r.1| == |mask| - k + 1
  {
    var k := MoveCount(|mask|, brushsz * brushsz);
    var u := MoveBack(mask, limbo, brushsz * brushsz);
    var rev := Reversed(mask[|mask| - k..]);
    assert u.1[|u.1| - 1] == rev[k - 1] == mask[|mask| - k];
    assert mask[..|mask| - k + 1] == mask[..|mask| - k] + [mask[|mask| - k]];
  }

  /** The colours of `Qt::GlobalColor` the palette uses. */
  datatype QtColor = White | Black | Red | DarkRed | Green | DarkGreen | Blue | DarkBlue | Cyan | DarkCyan
                   | Magenta | DarkMagenta | Yellow | DarkYellow | Gray | DarkGray | LightGray

  const NUM_COLORS: int := 17

  /** The annotation palette, in order. */
  const ANNOTATION_COLORS: seq<QtColor> :=
    [White, Black, Red, DarkRed, Green, DarkGreen, Blue, DarkBlue, Cyan, DarkCyan,
     Magenta, DarkMagenta, Yellow, DarkYellow, Gray, DarkGray, LightGray]

  /** `utils::get_qt_color`: the palette entry at `id % 17`. C++'s `%` keeps the sign
      of `id`, so a negative id is only in range when it is a multiple of 17. */
  function GetQtColor(id: int): (c: QtColor)
    requires 0 <= CRem(id, NUM_COLORS)
    ensures id >= 0 ==> c == ANNOTATION_COLORS[id % NUM_COLORS]
    ensures id < 0 ==> c == White
  {
    ANNOTATION_COLORS[CRem(id, NUM_COLORS)]
  }

  /** Colours repeat with period 17 over the non-negative ids. */
  lemma ColorPeriodic(id: int)
    requires id >= 0
    ensures GetQtColor(id + NUM_COLORS) == GetQtColor(id)
  {
    assert (id + NUM_COLORS) % NUM_COLORS == id % NUM_COLORS;
  }

  /** Within one period the colours differ, so ids `i` and `j` share a colour
      exactly when they agree modulo 17. */
  lemma ColorsShared(i: int, j: int)
    requires i >= 0 && j >= 0
    ensures GetQtColor(i) == GetQtColor(j) <==> i % NUM_COLORS == j % NUM_COLORS
  {
    var a, b := i % NUM_COLORS, j % NUM_COLORS;
    assert forall m, n :: 0 <= m < n < 17 ==> ANNOTATION_COLORS[m] != ANNOTATION_COLORS[n];
    if a < b {
      assert ANNOTATION_COLORS[a] != ANNOTATION_COLORS[b];
    } else if b < a {
      assert ANNOTATION_COLORS[b] != ANNOTATION_COLORS[a];
    }
  }

  /** The `m` first points of one brush row at `x`: `y` runs from `y0 - brushsz/2`. */
  function BrushRow(x: int, y0: int, brushsz: int, m: nat): (r: seq<Point>)
    ensures |r| == m
  {
    if m == 0 then [] else BrushRow(x, y0, brushsz, m - 1) + [Point(x, y0 + (m - 1) - brushsz / 2)]
  }

  /** The `n` first rows of a brush stamp, each of `brushsz` points; row `i` has
      `x = x0 + i - brushsz/2`. */
  function BrushRows(x0: int, y0: int, brushsz: nat, n: nat): seq<Point>
  {
    if n == 0 then [] else BrushRows(x0, y0, brushsz, n - 1) + BrushRow(x0 + (n - 1) - brushsz / 2, y0, brushsz, brushsz)
  }

  /** The points `add_segbrush_pixels(mask, x0, y0, brushsz)` appends: none for
      `brushsz <= 0`, otherwise the square of side `brushsz` around `(x0, y0)`. */
  function BrushPoints(x0: int, y0: int, brushsz: int): seq<Point> {
    if brushsz <= 0 then [] else BrushRows(x0, y0, brushsz, brushsz)
  }

  lemma {:induction false} BrushRowAt(x: int, y0: int, brushsz: int, m: nat, j: nat)
    requires j < m
    ensures BrushRow(x, y0, brushsz, m)[j] == Point(x, y0 + j - brushsz / 2)
  {
    if j < m - 1 {
      BrushRowAt(x, y0, brushsz, m - 1, j);
    }
  }

  lemma {:induction false} BrushRowsLength(x0: int, y0: int, brushsz: nat, n: nat)
    ensures |BrushRows(x0, y0, brushsz, n)| == n * brushsz
  {
    if n > 0 {
      BrushRowsLength(x0, y0, brushsz, n - 1);
      assert (n - 1) * brushsz + brushsz == n * brushsz;
    }
  }

  /** The position of point `(i, j)` of a stamp: row `i` of `brushsz` points, then
      `j` points into it. */
  function StampIndex(i: int, j: int, brushsz: int): int {
    i * brushsz + j
  }

  lemma StampIndexBound(i: nat, j: nat, brushsz: nat, n: nat)
    requires i < n && j < brushsz
    ensures StampIndex(i, j, brushsz) < n * brushsz
    ensures i < n - 1 ==> StampIndex(i, j, brushsz) < (n - 1) * brushsz
    ensures i == n - 1 ==> StampIndex(i, j, brushsz) == (n - 1) * brushsz + j
  {
    var m := n - 1;
    assert n * brushsz == m * brushsz + brushsz;
    assert (i + 1) * brushsz == i * brushsz + brushsz;
    MulLe(i, m, brushsz);
    if i < m {
      MulLe(i + 1, m, brushsz);
    }
  }

  lemma MulLe(a: nat, c: nat, b: nat)
    requires a <= c
    ensures a * b <= c * b
  {
    var d := c - a;
    assert c * b == a * b + d * b;
  }

  lemma {:induction false} BrushRowsAt(x0: int, y0: int, brushsz: nat, n: nat, i: nat, j: nat)
    requires i < n && j < brushsz
    ensures StampIndex(i, j, brushsz) < |BrushRows(x0, y0, brushsz, n)|
    ensures BrushRows(x0, y0, brushsz, n)[StampIndex(i, j, brushsz)] == Point(x0 + i - brushsz / 2, y0 + j - brushsz / 2)
  {
    BrushRowsLength(x0, y0, brushsz, n - 1);
    BrushRowsLength(x0, y0, brushsz, n);
    StampIndexBound(i, j, brushsz, n);
    var prev := BrushRows(x0, y0, brushsz, n - 1);
    var row := BrushRow(x0 + (n - 1) - brushsz / 2, y0, brushsz, brushsz);
    assert BrushRows(x0, y0, brushsz, n) == prev + row;
    if i < n - 1 {
      BrushRowsAt(x0, y0, brushsz, n - 1, i, j);
    } else {
      BrushRowAt(x0 + (n - 1) - brushsz / 2, y0, brushsz, brushsz, j);
    }
  }

  /** A stamp holds exactly `brushsz²` points (none for `brushsz <= 0`), and point
      `(i, j)` is offset by `i - brushsz/2` in `x` and `j - brushsz/2` in `y`: the
      rows of the square come one after another, in order. */
  lemma BrushShape(x0: int, y0: int, brushsz: int)
    ensures brushsz <= 0 ==> BrushPoints(x0, y0, brushsz) == []
    ensures brushsz > 0 ==> |BrushPoints(x0, y0, brushsz)| == brushsz * brushsz
    ensures brushsz > 0 ==> forall i, j :: 0 <= i < brushsz && 0 <= j < brushsz ==>
      StampIndex(i, j, brushsz) < |BrushPoints(x0, y0, brushsz)| &&
      BrushPoints(x0, y0, brushsz)[StampIndex(i, j, brushsz)] == Point(x0 + i - brushsz / 2, y0 + j - brushsz / 2)
  {
    if brushsz > 0 {
      BrushRowsLength(x0, y0, brushsz, brushsz);
      forall i, j | 0 <= i < brushsz && 0 <= j < brushsz
        ensures StampIndex(i, j, brushsz) < |BrushPoints(x0, y0, brushsz)| &&
                BrushPoints(x0, y0, brushsz)[StampIndex(i, j, brushsz)] == Point(x0 + i - brushsz / 2, y0 + j - brushsz / 2)
      {
        BrushRowsAt(x0, y0, brushsz, brushsz, i, j);
      }
    }
  }

  /** `utils::add_segbrush_pixels`: for each row offset, for each column offset,
      append the stamped point; the points already in the mask stay as they are. */
  method AddSegbrushPixels(currentMask: seq<Point>, rowpos: int, colpos: int, brushsz: int) returns (mask: seq<Point>)
    ensures mask == currentMask + BrushPoints(rowpos, colpos, brushsz)
  {
    mask := currentMask;
    var rowOffset := 0;
    while rowOffset < brushsz
      invariant 0 <= rowOffset && (brushsz > 0 ==> rowOffset <= brushsz)
      invariant brushsz > 0 ==> mask == currentMask + BrushRows(rowpos, colpos, brushsz, rowOffset)
      invariant brushsz <= 0 ==> mask == currentMask
    {
      var rowOffsetFactor := rowOffset - brushsz / 2;
      var rowposPx := rowpos + rowOffsetFactor;
      var colOffset := 0;
      ghost var before := mask;
      while colOffset < brushsz
        invariant 0 <= colOffset <= brushsz
        invariant mask == before + BrushRow(rowposPx, colpos, brushsz, colOffset)
      {
        var colOffsetFactor := colOffset - brushsz / 2;
        mask := mask + [Point(rowposPx, colpos + colOffsetFactor)];
        colOffset := colOffset + 1;
      }
      rowOffset := rowOffset + 1;
    }
  }

  /** With the default brush of 8, a press whose clamped column is within 3 of the
      right edge stamps a point outside the frame: clamping the click does not keep
      the stroke inside the `width` columns. */
  lemma PressAtRightEdgeStampsOutsideFrame(col: int, row: int, height: int, width: int)
    requires 0 <= height && 0 <= width && width - 3 <= col
    ensures exists p :: p in BrushPoints(Clip(col, 0, width), Clip(row, 0, height), 8) && !InFrame(p, height, width)
  {
    var x0, y0 := Clip(col, 0, width), Clip(row, 0, height);
    BrushRowsAt(x0, y0, 8, 8, 7, 0);
    var p := BrushPoints(x0, y0, 8)[StampIndex(7, 0, 8)];
    assert p.x == x0 + 3;
    assert !InFrame(p, height, width);
  }

  /** The index of the first element satisfying `hit`, or -1 when there is none. */
  function FirstHit<T>(s: seq<T>, hit: T -> bool): (r: int)
    ensures -1 <= r < |s|
    ensures r == -1 <==> forall i :: 0 <= i < |s| ==> !hit(s[i])
    ensures r >= 0 ==> hit(s[r]) && forall i :: 0 <= i < r ==> !hit(s[i])
  {
    if s == [] then -1
    else if hit(s[0]) then 0
    else
      var r := FirstHit(s[1..], hit);
      assert forall i :: 1 <= i < |s| ==> s[i] == s[1..][i - 1];
      if r == -1 then -1 else r + 1
  }

  /** `QRect::setBottomRight`. */
  function WithBottomRight(r: Rect, p: Point): (q: Rect)
    ensures q.x1 == r.x1 && q.y1 == r.y1 && q.x2 == p.x && q.y2 == p.y
  {
    Rect(r.x1, r.y1, p.x, p.y)
  }

  /** `QRect::translate`: both corners moved by `d`. */
  function Translated(r: Rect, d: Point): (q: Rect)
    ensures q.x2 - q.x1 == r.x2 - r.x1 && q.y2 - q.y1 == r.y2 - r.y1
    ensures q.x1 == r.x1 + d.x && q.y1 == r.y1 + d.y
  {
    Rect(r.x1 + d.x, r.y1 + d.y, r.x2 + d.x, r.y2 + d.y)
  }

  class FrameScene {
    var mode: AnnotationMode
    /** The finished segmentation instances of the frame. */
    var annotationLocations: seq<PixelLabelMB>
    /** Points taken back by undo, waiting for redo. */
    var limboPoints: seq<Point>
    /** The points of the instance being painted. */
    var currentMask: seq<Point>
    var boundingboxLocations: seq<BoundingBoxMD>
    var limboBboxes: seq<BoundingBoxMD>
    /** The box being drawn, if any. */
    var currentBbox: Option<BoundingBoxMD>
    /** The index of the box picked by the last press, or -1. */
    var selectedBbox: int
    var annotationBrushsz: int
    var drawingAnnotations: bool
    var emitBbox: bool
    var currentId: int
    /** The size of the frame on screen. */
    var frameHeight: int
    var frameWidth: int
    /** The rectangles and ids sent with the `bounding_box_created` signal. */
    var createdBboxes: seq<(Rect, int)>
    /** Clicks are clamped to `[0, allowableHeight] × [0, allowableWidth]`, the size of
        the first frame. */
    const allowableHeight: int
    const allowableWidth: int
    /** `BoundingBoxViz::intersects_bbox_frame(click, brushsz)`, whose definition is
        not part of this model. */
    const intersectsBboxFrame: (BoundingBoxMD, Point, int) -> bool
    /** `selected_bbox_pt` is never assigned, so it stays the origin. */
    const selectedBboxPt: Point

    ghost predicate Valid()
      reads this
    {
      0 <= allowableHeight && 0 <= allowableWidth && selectedBboxPt == Point(0, 0)
    }

    /** A scene showing a `height × width` first frame: nothing annotated, brush 8,
        bounding-box mode, nothing selected, instance id 0. */
    constructor(height: int, width: int, intersects: (BoundingBoxMD, Point, int) -> bool)
      requires 0 <= height && 0 <= width
      ensures Valid()
      ensures annotationLocations == [] && limboPoints == [] && currentMask == []
      ensures boundingboxLocations == [] && limboBboxes == [] && currentBbox == None
      ensures annotationBrushsz == 8 && mode == BoundingBox && selectedBbox == -1 && currentId == 0
      ensures !drawingAnnotations && !emitBbox && createdBboxes == []
      ensures frameHeight == allowableHeight == height && frameWidth == allowableWidth == width
      ensures intersectsBboxFrame == intersects
    {
      drawingAnnotations := false;
      annotationBrushsz := 8;
      annotationLocations := [];
      limboPoints := [];
      currentMask := [];
      boundingboxLocations := [];
      limboBboxes := [];
      currentBbox := None;
      frameHeight, frameWidth := height, width;
      mode := BoundingBox;
      selectedBbox := -1;
      emitBbox := false;
      currentId := 0;
      createdBboxes := [];
      allowableHeight := height;
      allowableWidth := width;
      intersectsBboxFrame := intersects;
      selectedBboxPt := Point(0, 0);
    }

    /** `set_instance_id`: the current mask becomes a finished instance with the old
        id, the mask starts empty and the new id is current. */
    method SetInstanceId(id: int)
      modifies this
      ensures annotationLocations == old(annotationLocations) + [PixelLabelMB(old(currentMask), old(currentId))]
      ensures currentMask == [] && currentId == id
      ensures |annotationLocations| == |old(annotationLocations)| + 1
      ensures annotationLocations[..|old(annotationLocations)|] == old(annotationLocations)
      ensures mode == old(mode) && limboPoints == old(limboPoints) && annotationBrushsz == old(annotationBrushsz)
      ensures boundingboxLocations == old(boundingboxLocations) && limboBboxes == old(limboBboxes)
      ensures currentBbox == old(currentBbox) && selectedBbox == old(selectedBbox)
      ensures drawingAnnotations == old(drawingAnnotations) && emitBbox == old(emitBbox)
      ensures frameHeight == old(frameHeight) && frameWidth == old(frameWidth) && createdBboxes == old(createdBboxes)
    {
      annotationLocations := annotationLocations + [PixelLabelMB(currentMask, currentId)];
      currentMask := [];
      currentId := id;
    }

    /** `set_brushsz`. */
    method SetBrushsz(brushsz: int)
      modifies this
      ensures GetBrushsz() == brushsz
      ensures mode == old(mode) && currentMask == old(currentMask) && limboPoints == old(limboPoints)
      ensures annotationLocations == old(annotationLocations) && currentId == old(currentId)
      ensures boundingboxLocations == old(boundingboxLocations) && limboBboxes == old(limboBboxes)
      ensures currentBbox == old(currentBbox) && selectedBbox == old(selectedBbox)
      ensures drawingAnnotations == old(drawingAnnotations) && emitBbox == old(emitBbox)
      ensures frameHeight == old(frameHeight) && frameWidth == old(frameWidth) && createdBboxes == old(createdBboxes)
    {
      annotationBrushsz := brushsz;
    }

    /** `get_brushsz`. */
    function GetBrushsz(): (b: int)
      reads this
      ensures b == annotationBrushsz
    {
      annotationBrushsz
    }

    /** `get_frame_width` and `get_frame_height`. */
    function GetFrameWidth(): (w: int)
      reads this
      ensures w == frameWidth
    {
      frameWidth
    }

    function GetFrameHeight(): (h: int)
      reads this
      ensures h == frameHeight
    {
      frameHeight
    }

    /** `get_bounding_boxes`: the boxes of the frame, as stored. */
    function GetBoundingBoxes(): (boxes: seq<BoundingBoxMD>)
      reads this
      ensures boxes == boundingboxLocations
    {
      boundingboxLocations
    }

    /** `get_frame_annotations`: the finished instances of the frame, as stored. */
    function GetFrameAnnotations(): (insts: seq<PixelLabelMB>)
      reads this
      ensures insts == annotationLocations
    {
      annotationLocations
    }

    /** `set_metadata`: the loaded boxes and instances go after the existing ones. */
    method SetMetadata(metadata: FrameAnnotations)
      modifies this
      ensures boundingboxLocations == old(boundingboxLocations) + metadata.bboxes
      ensures annotationLocations == old(annotationLocations) + metadata.segmPoints
      ensures mode == old(mode) && currentMask == old(currentMask) && limboPoints == old(limboPoints)
      ensures limboBboxes == old(limboBboxes) && currentId == old(currentId) && annotationBrushsz == old(annotationBrushsz)
      ensures currentBbox == old(currentBbox) && selectedBbox == old(selectedBbox)
      ensures drawingAnnotations == old(drawingAnnotations) && emitBbox == old(emitBbox)
      ensures frameHeight == old(frameHeight) && frameWidth == old(frameWidth) && createdBboxes == old(createdBboxes)
    {
      boundingboxLocations := boundingboxLocations + metadata.bboxes;
      annotationLocations := annotationLocations + metadata.segmPoints;
    }

    /** `display_frame`: in segmentation mode the current mask is first closed as an
        instance; then the frame's instances, boxes and both limbo lists are
        cleared. The box being drawn and the selection are left as they were. */
    method DisplayFrame(height: int, width: int)
      modifies this
      ensures annotationLocations == [] && limboPoints == [] && boundingboxLocations == [] && limboBboxes == []
      ensures old(mode) == Segmentation ==> currentMask == []
      ensures old(mode) == BoundingBox ==> currentMask == old(currentMask)
      ensures frameHeight == height && frameWidth == width
      ensures mode == old(mode) && currentId == old(currentId) && annotationBrushsz == old(annotationBrushsz)
      ensures currentBbox == old(currentBbox) && selectedBbox == old(selectedBbox)
      ensures drawingAnnotations == old(drawingAnnotations) && emitBbox == old(emitBbox)
      ensures createdBboxes == old(createdBboxes)
    {
      if mode == Segmentation {
        SetInstanceId(currentId);
      }
      frameHeight, frameWidth := height, width;
      annotationLocations := [];
      limboPoints := [];
      boundingboxLocations := [];
      limboBboxes := [];
    }

    /** `undo_label`: in segmentation mode up to `brushsz²` points go from the mask
        to limbo; in bounding-box mode the last box goes to limbo. */
    method UndoLabel()
      modifies this
      ensures mode == Segmentation ==>
        (currentMask, limboPoints) == MoveBack(old(currentMask), old(limboPoints), annotationBrushsz * annotationBrushsz) &&
        boundingboxLocations == old(boundingboxLocations) && limboBboxes == old(limboBboxes)
      ensures mode == BoundingBox ==>
        (boundingboxLocations, limboBboxes) == MoveBack(old(boundingboxLocations), old(limboBboxes), 1) &&
        currentMask == old(currentMask) && limboPoints == old(limboPoints)
      ensures mode == old(mode) && annotationLocations == old(annotationLocations) && currentId == old(currentId)
      ensures annotationBrushsz == old(annotationBrushsz) && currentBbox == old(currentBbox) && selectedBbox == old(selectedBbox)
      ensures drawingAnnotations == old(drawingAnnotations) && emitBbox == old(emitBbox)
      ensures frameHeight == old(frameHeight) && frameWidth == old(frameWidth) && createdBboxes == old(createdBboxes)
    {
      if mode == Segmentation {
        var numPtsRemove := annotationBrushsz * annotationBrushsz;
        currentMask, limboPoints := PointUnRedo(currentMask, limboPoints, numPtsRemove);
      } else {
        boundingboxLocations, limboBboxes := PointUnRedo(boundingboxLocations, limboBboxes, 1);
      }
    }

    /** `redo_label`: one point, or one box, comes back from limbo. */
    method RedoLabel()
      modifies this
      ensures mode == Segmentation ==>
        (limboPoints, currentMask) == MoveBack(old(limboPoints), old(currentMask), 1) &&
        boundingboxLocations == old(boundingboxLocations) && limboBboxes == old(limboBboxes)
      ensures mode == BoundingBox ==>
        (limboBboxes, boundingboxLocations) == MoveBack(old(limboBboxes), old(boundingboxLocations), 1) &&
        currentMask == old(currentMask) && limboPoints == old(limboPoints)
      ensures mode == old(mode) && annotationLocations == old(annotationLocations) && currentId == old(currentId)
      ensures annotationBrushsz == old(annotationBrushsz) && currentBbox == old(currentBbox) && selectedBbox == old(selectedBbox)
      ensures drawingAnnotations == old(drawingAnnotations) && emitBbox == old(emitBbox)
      ensures frameHeight == old(frameHeight) && frameWidth == old(frameWidth) && createdBboxes == old(createdBboxes)
    {
      if mode == Segmentation {
        limboPoints, currentMask := PointUnRedo(limboPoints, currentMask, 1);
      } else {
        limboBboxes, boundingboxLocations := PointUnRedo(limboBboxes, boundingboxLocations, 1);
      }
    }

    /** The index the box-selection loop of a press picks for `click`. */
    function SelectedFor(click: Point): (r: int)
      reads this
      ensures -1 <= r < |boundingboxLocations|
      ensures r == -1 <==> forall i :: 0 <= i < |boundingboxLocations| ==>
        !intersectsBboxFrame(boundingboxLocations[i], click, annotationBrushsz)
      ensures r >= 0 ==> intersectsBboxFrame(boundingboxLocations[r], click, annotationBrushsz)
      ensures r >= 0 ==> forall i :: 0 <= i < r ==> !intersectsBboxFrame(boundingboxLocations[i], click, annotationBrushsz)
    {
      var brushsz := annotationBrushsz;
      FirstHit(boundingboxLocations, b => intersectsBboxFrame(b, click, brushsz))
    }

    /** `mousePressEvent` at `click`. The click is clamped to the allowable frame. In
        segmentation mode the brush is stamped there. In bounding-box mode the first
        box the click touches is selected; if none is, a new empty box starts at the
        clamped click with the current id. */
    method MousePressEvent(click: Point)
      requires Valid()
      modifies this
      ensures Valid() && drawingAnnotations
      ensures var row := Clip(click.y, 0, allowableHeight);
              var col := Clip(click.x, 0, allowableWidth);
              mode == Segmentation ==>
                currentMask == old(currentMask) + BrushPoints(col, row, annotationBrushsz) &&
                selectedBbox == old(selectedBbox) && currentBbox == old(currentBbox)
      ensures mode == BoundingBox ==> selectedBbox == old(SelectedFor(click)) && currentMask == old(currentMask)
      ensures mode == BoundingBox && selectedBbox >= 0 ==> currentBbox == None
      ensures mode == BoundingBox && selectedBbox == -1 ==>
        currentBbox == Some(BoundingBoxMD(RectFromSize(Point(Clip(click.x, 0, allowableWidth), Clip(click.y, 0, allowableHeight)), 0, 0), currentId))
      ensures mode == old(mode) && annotationLocations == old(annotationLocations) && limboPoints == old(limboPoints)
      ensures boundingboxLocations == old(boundingboxLocations) && limboBboxes == old(limboBboxes)
      ensures currentId == old(currentId) && annotationBrushsz == old(annotationBrushsz) && emitBbox == old(emitBbox)
      ensures frameHeight == old(frameHeight) && frameWidth == old(frameWidth) && createdBboxes == old(createdBboxes)
    {
      var rowposClick := click.y;
      var colposClick := click.x;
      var selectedRowpos := Max(0, Min(rowposClick, allowableHeight));
      var selectedColpos := Max(0, Min(colposClick, allowableWidth));
      if mode == Segmentation {
        currentMask := AddSegbrushPixels(currentMask, selectedColpos, selectedRowpos, annotationBrushsz);
      } else {
        selectedBbox := -1;
        var bboxIdx := 0;
        while bboxIdx < |boundingboxLocations|
          invariant 0 <= bboxIdx <= |boundingboxLocations|
          invariant forall i :: 0 <= i < bboxIdx ==> !intersectsBboxFrame(boundingboxLocations[i], click, annotationBrushsz)
        {
          if intersectsBboxFrame(boundingboxLocations[bboxIdx], click, annotationBrushsz) {
            selectedBbox := bboxIdx;
            break;
          }
          bboxIdx := bboxIdx + 1;
        }
        if selectedBbox >= 0 {
          currentBbox := None;
        } else {
          var currentBboxRect := RectFromSize(Point(selectedColpos, selectedRowpos), 0, 0);
          currentBbox := Some(BoundingBoxMD(currentBboxRect, currentId));
          selectedBbox := -1;
        }
      }
      drawingAnnotations := true;
    }

    /** `mouseMoveEvent` at `pos`, while drawing: segmentation stamps the brush at
        the unclamped position; a box being drawn (nothing selected) gets its
        bottom-right corner there. */
    method MouseMoveEvent(pos: Point)
      modifies this
      ensures !old(drawingAnnotations) ==> currentMask == old(currentMask) && currentBbox == old(currentBbox)
      ensures old(drawingAnnotations) && mode == Segmentation ==>
        currentMask == old(currentMask) + BrushPoints(pos.x, pos.y, annotationBrushsz) && currentBbox == old(currentBbox)
      ensures old(drawingAnnotations) && mode == BoundingBox ==> currentMask == old(currentMask)
      ensures old(drawingAnnotations) && mode == BoundingBox && selectedBbox < 0 && old(currentBbox).Some? ==>
        currentBbox == Some(old(currentBbox).value.(bbox := WithBottomRight(old(currentBbox).value.bbox, pos)))
      ensures mode == BoundingBox && (selectedBbox >= 0 || old(currentBbox).None?) ==> currentBbox == old(currentBbox)
      ensures mode == old(mode) && annotationLocations == old(annotationLocations) && limboPoints == old(limboPoints)
      ensures boundingboxLocations == old(boundingboxLocations) && limboBboxes == old(limboBboxes)
      ensures currentId == old(currentId) && annotationBrushsz == old(annotationBrushsz) && selectedBbox == old(selectedBbox)
      ensures drawingAnnotations == old(drawingAnnotations) && emitBbox == old(emitBbox)
      ensures frameHeight == old(frameHeight) && frameWidth == old(frameWidth) && createdBboxes == old(createdBboxes)
    {
      if drawingAnnotations {
        if mode == Segmentation {
          currentMask := AddSegbrushPixels(currentMask, pos.x, pos.y, annotationBrushsz);
        } else if selectedBbox < 0 && currentBbox.Some? {
          currentBbox := Some(currentBbox.value.(bbox := WithBottomRight(currentBbox.value.bbox, pos)));
        }
      }
    }

    /** `mouseReleaseEvent` at `pos`. Segmentation stamps the brush once more. In
        bounding-box mode a selected box is moved by `pos - selected_bbox_pt`, and
        otherwise the box being drawn gets its bottom-right corner at `pos` and the
        current id, and is added to the frame's boxes (and signalled, once, when
        `emit_bbox` is set). */
    method MouseReleaseEvent(pos: Point)
      requires Valid()
      requires mode == BoundingBox ==> selectedBbox < |boundingboxLocations|
      modifies this
      ensures Valid() && !drawingAnnotations
      ensures mode == old(mode) && selectedBbox == old(selectedBbox)
      ensures mode == Segmentation ==>
        currentMask == old(currentMask) + BrushPoints(pos.x, pos.y, annotationBrushsz) &&
        boundingboxLocations == old(boundingboxLocations) && currentBbox == old(currentBbox)
      ensures mode == BoundingBox && selectedBbox >= 0 ==>
        boundingboxLocations == old(boundingboxLocations)[selectedBbox :=
          old(boundingboxLocations)[selectedBbox].(bbox := Translated(old(boundingboxLocations)[selectedBbox].bbox, pos))] &&
        currentBbox == old(currentBbox)
      ensures mode == BoundingBox && selectedBbox < 0 && old(currentBbox).Some? ==>
        var made := BoundingBoxMD(WithBottomRight(old(currentBbox).value.bbox, pos), currentId);
        currentBbox == Some(made) && boundingboxLocations == old(boundingboxLocations) + [made] &&
        createdBboxes == old(createdBboxes) + (if old(emitBbox) then [(made.bbox, currentId)] else []) && !emitBbox
      ensures mode == BoundingBox && selectedBbox < 0 && old(currentBbox).None? ==>
        boundingboxLocations == old(boundingboxLocations) && currentBbox == None
      ensures !(mode == BoundingBox && selectedBbox < 0 && old(currentBbox).Some?) ==>
        createdBboxes == old(createdBboxes) && emitBbox == old(emitBbox)
      ensures mode == BoundingBox ==> currentMask == old(currentMask)
      ensures annotationLocations == old(annotationLocations) && limboPoints == old(limboPoints)
      ensures limboBboxes == old(limboBboxes) && currentId == old(currentId) && annotationBrushsz == old(annotationBrushsz)
      ensures frameHeight == old(frameHeight) && frameWidth == old(frameWidth)
    {
      if mode == Segmentation {
        currentMask := AddSegbrushPixels(currentMask, pos.x, pos.y, annotationBrushsz);
      } else {
        if selectedBbox >= 0 {
          var bboxMovement := Point(pos.x - selectedBboxPt.x, pos.y - selectedBboxPt.y);
          var moved := boundingboxLocations[selectedBbox];
          boundingboxLocations := boundingboxLocations[selectedBbox := moved.(bbox := Translated(moved.bbox, bboxMovement))];
        } else if currentBbox.Some? {
          var made := BoundingBoxMD(WithBottomRight(currentBbox.value.bbox, pos), currentId);
          currentBbox := Some(made);
          boundingboxLocations := boundingboxLocations + [made];
          if emitBbox {
            createdBboxes := createdBboxes + [(made.bbox, currentId)];
            emitBbox := false;
          }
        }
      }
      drawingAnnotations := false;
    }
  }

  /** A box started by a press lies at the clamped click: its top-left corner is
      inside `[0, allowableWidth] × [0, allowableHeight]`. */
  lemma NewBoxAtClampedClick(click: Point, allowableHeight: int, allowableWidth: int, id: int)
    requires 0 <= allowableHeight && 0 <= allowableWidth
    ensures var b := RectFromSize(Point(Clip(click.x, 0, allowableWidth), Clip(click.y, 0, allowableHeight)), 0, 0);
            0 <= b.x1 <= allowableWidth && 0 <= b.y1 <= allowableHeight &&
            b.x2 == b.x1 - 1 && b.y2 == b.y1 - 1 &&
            (0 <= click.x <= allowableWidth ==> b.x1 == click.x) &&
            (0 <= click.y <= allowableHeight ==> b.y1 == click.y)
  {
  }
}
