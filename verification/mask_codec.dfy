/** The label image that segmentation masks are logged as: instance `id` is drawn
    with the value `id + 1` (as a `uint8_t`), 0 is background; reading the image
    back groups the pixels of each value into one instance. */
module MaskCodec {
  import opened Numeric
  import opened AnnotationTypes

  /** A single-channel 8-bit image, row by row. */
  type Grid = seq<seq<int>>

  predicate IsLabelImage(g: Grid, rows: nat, cols: nat) {
    |g| == rows &&
    forall r :: 0 <= r < rows ==> |g[r]| == cols && forall c :: 0 <= c < cols ==> 0 <= g[r][c] < 256
  }

  /** Every pixel fits a `uint8_t`, as for any image read with `CV_LOAD_IMAGE_GRAYSCALE`. */
  predicate IsByteImage(g: Grid) {
    forall r, c :: 0 <= r < |g| && 0 <= c < |g[r]| ==> 0 <= g[r][c] < 256
  }

  /** A point `(x = col, y = row)` inside a `rows × cols` image. */
  predicate InFrame(p: Point, rows: int, cols: int) {
    0 <= p.y < rows && 0 <= p.x < cols
  }

  /** The pixel value instance `id` is logged with: `instance_id + 1` stored in a
      `uint8_t`. */
  function InstanceLabel(id: int): (v: int)
    ensures 0 <= v < 256
    ensures 0 <= id < 255 ==> v == id + 1 && v != 0
  {
    ToUint8(id + 1)
  }

  /** The value pixel `(row, col)` ends with once every instance has been drawn in
      order: the label of the last instance holding the point, or the background 0. */
  function LabelAt(insts: seq<PixelLabelMB>, row: int, col: int): (v: int)
    ensures 0 <= v < 256
  {
    if insts == [] then 0
    else
      var last := insts[|insts| - 1];
      if Point(col, row) in last.smask then InstanceLabel(last.instanceId)
      else LabelAt(insts[..|insts| - 1], row, col)
  }

  /** Later instances overwrite earlier ones: the pixel carries the label of the
      last instance that holds the point. */
  lemma {:induction false} LabelIsLastCover(insts: seq<PixelLabelMB>, row: int, col: int, k: nat)
    requires k < |insts| && Point(col, row) in insts[k].smask
    requires forall j :: k < j < |insts| ==> Point(col, row) !in insts[j].smask
    ensures LabelAt(insts, row, col) == InstanceLabel(insts[k].instanceId)
  {
    if k < |insts| - 1 {
      var init := insts[..|insts| - 1];
      assert init[k] == insts[k];
      LabelIsLastCover(init, row, col, k);
    }
  }

  /** A pixel no instance holds stays background. */
  lemma {:induction false} LabelZeroWhenUncovered(insts: seq<PixelLabelMB>, row: int, col: int)
    requires forall j :: 0 <= j < |insts| ==> Point(col, row) !in insts[j].smask
    ensures LabelAt(insts, row, col) == 0
  {
    if insts != [] {
      var init := insts[..|insts| - 1];
      assert forall j :: 0 <= j < |init| ==> init[j] == insts[j];
      LabelZeroWhenUncovered(init, row, col);
    }
  }

  /** The image `write_annotations` logs for a `height × width` frame. */
  function RasterGrid(insts: seq<PixelLabelMB>, height: nat, width: nat): (g: Grid)
    ensures IsLabelImage(g, height, width) && IsByteImage(g)
  {
    seq(height, r => seq(width, c => LabelAt(insts, r, c)))
  }

  /** The source draws a point with `at<uint8_t>(row, col)` and no bounds check; on
      the continuous `height × width` matrix that is element `row * width + col`
      of the pixel buffer. */
  function UncheckedOffset(p: Point, width: int): int {
    p.y * width + p.x
  }

  /** A point just past the right edge of row `y` is written into the next row: the
      unchecked write changes a pixel the instance does not hold. */
  lemma UncheckedWriteHitsNextRow(p: Point, height: int, width: int)
    requires width >= 1 && 0 <= p.y && p.y + 1 < height && width <= p.x < 2 * width
    ensures !InFrame(p, height, width)
    ensures InFrame(Point(p.x - width, p.y + 1), height, width)
    ensures UncheckedOffset(p, width) == UncheckedOffset(Point(p.x - width, p.y + 1), width)
  {
  }

  /** The drawing loop as written, on the `height × width` pixel buffer: each point
      is stored at its unchecked offset. An offset outside the whole buffer is
      undefined behaviour in the source and is left out here (no write). */
  function DrawUnchecked(buf: seq<int>, pts: seq<Point>, pxValue: int, width: int): (r: seq<int>)
    ensures |r| == |buf|
  {
    if pts == [] then buf
    else
      var before := DrawUnchecked(buf, pts[..|pts| - 1], pxValue, width);
      var off := UncheckedOffset(pts[|pts| - 1], width);
      if 0 <= off < |before| then before[off := pxValue] else before
  }

  /** `write_annotations` as written: a zero buffer, then every instance drawn in
      order without a bounds check. */
  function UncheckedRaster(insts: seq<PixelLabelMB>, height: nat, width: nat): (buf: seq<int>)
    ensures |buf| == height * width
  {
    if insts == [] then seq(height * width, _ => 0)
    else
      var last := insts[|insts| - 1];
      DrawUnchecked(UncheckedRaster(insts[..|insts| - 1], height, width), last.smask, InstanceLabel(last.instanceId), width)
  }

  /** One instance holding only the point just past the right end of row 0 of a
      two-row image: as written, the pixel at row 1, column 0, which the instance
      does not hold, is labelled 1; the guarded rasterisation leaves it background. */
  lemma UncheckedRasterMislabels(width: nat)
    requires width >= 1
    ensures var insts := [PixelLabelMB([Point(width, 0)], 0)];
            Point(0, 1) !in insts[0].smask &&
            UncheckedRaster(insts, 2, width)[UncheckedOffset(Point(0, 1), width)] == 1 &&
            RasterGrid(insts, 2, width)[1][0] == 0
  {
    UncheckedPointPastRowZero(width);
    GuardedPointPastRowZero(width);
  }

  lemma UncheckedPointPastRowZero(width: nat)
    requires width >= 1
    ensures UncheckedRaster([PixelLabelMB([Point(width, 0)], 0)], 2, width)[width] == 1
  {
    var pts := [Point(width, 0)];
    var insts := [PixelLabelMB(pts, 0)];
    var zero := UncheckedRaster([], 2, width);
    assert |zero| == 2 * width;
    assert insts[..0] == [] && pts[..0] == [];
    assert UncheckedRaster(insts, 2, width) == DrawUnchecked(zero, pts, 1, width);
    assert DrawUnchecked(zero, [], 1, width) == zero;
    assert UncheckedOffset(Point(width, 0), width) == width;
    assert DrawUnchecked(zero, pts, 1, width) == zero[width := 1];
  }

  lemma GuardedPointPastRowZero(width: nat)
    requires width >= 1
    ensures RasterGrid([PixelLabelMB([Point(width, 0)], 0)], 2, width)[1][0] == 0
  {
    var insts := [PixelLabelMB([Point(width, 0)], 0)];
    assert Point(0, 1) != Point(width, 0);
    assert insts[..0] == [];
    assert LabelAt(insts, 1, 0) == LabelAt([], 1, 0);
  }

  /** The points of value `v` among the first `n` pixels of row `row`, left to right. */
  function RowPoints(g: Grid, v: int, row: nat, n: nat): seq<Point>
    requires row < |g| && n <= |g[row]|
  {
    if n == 0 then []
    else RowPoints(g, v, row, n - 1) + (if g[row][n - 1] == v then [Point(n - 1, row)] else [])
  }

  /** The points of value `v` in the first `rows` rows, in row-major scan order. */
  function ScanPoints(g: Grid, v: int, rows: nat): seq<Point>
    requires rows <= |g|
  {
    if rows == 0 then []
    else ScanPoints(g, v, rows - 1) + RowPoints(g, v, rows - 1, |g[rows - 1]|)
  }

  lemma {:induction false} RowPointsMembers(g: Grid, v: int, row: nat, n: nat, p: Point)
    requires row < |g| && n <= |g[row]|
    ensures p in RowPoints(g, v, row, n) <==> p.y == row && 0 <= p.x < n && g[row][p.x] == v
  {
    if n > 0 {
      RowPointsMembers(g, v, row, n - 1, p);
    }
  }

  /** Scanning finds exactly the pixels of value `v`. */
  lemma {:induction false} ScanPointsMembers(g: Grid, v: int, rows: nat, p: Point)
    requires rows <= |g|
    ensures p in ScanPoints(g, v, rows) <==> 0 <= p.y < rows && 0 <= p.x < |g[p.y]| && g[p.y][p.x] == v
  {
    if rows > 0 {
      ScanPointsMembers(g, v, rows - 1, p);
      RowPointsMembers(g, v, rows - 1, |g[rows - 1]|, p);
    }
  }

  /** Every pixel of value `v`, in scan order. */
  function ScanAll(g: Grid, v: int): seq<Point> {
    ScanPoints(g, v, |g|)
  }

  /** The instances whose label is below `n + 1`, in ascending id order: pixel value
      `v` becomes instance `v - 1`, holding its pixels in scan order, and a value no
      pixel has gives no instance. */
  function Instances(g: Grid, n: nat): (d: seq<PixelLabelMB>)
  {
    if n == 0 then []
    else
      var pts := ScanAll(g, n);
      Instances(g, n - 1) + (if pts != [] then [PixelLabelMB(pts, n - 1)] else [])
  }

  /** Every decoded instance is a label present in the image, carrying all its
      pixels, and the ids ascend. */
  lemma {:induction false} InstancesSound(g: Grid, n: nat)
    ensures forall i :: 0 <= i < |Instances(g, n)| ==>
      0 <= Instances(g, n)[i].instanceId < n && Instances(g, n)[i].smask != [] &&
      Instances(g, n)[i].smask == ScanAll(g, Instances(g, n)[i].instanceId + 1)
    ensures forall i, j :: 0 <= i < j < |Instances(g, n)| ==>
      Instances(g, n)[i].instanceId < Instances(g, n)[j].instanceId
  {
    if n > 0 {
      InstancesSound(g, n - 1);
      var prev := Instances(g, n - 1);
      var d := Instances(g, n);
      assert forall i :: 0 <= i < |prev| ==> d[i] == prev[i];
    }
  }

  /** No label present in the image is missed. */
  lemma {:induction false} InstancesComplete(g: Grid, n: nat, v: int) returns (i: nat)
    requires 1 <= v <= n && ScanAll(g, v) != []
    ensures i < |Instances(g, n)| && Instances(g, n)[i].instanceId == v - 1
  {
    var prev := Instances(g, n - 1);
    var pts := ScanAll(g, n);
    var tail := if pts != [] then [PixelLabelMB(pts, n - 1)] else [];
    assert Instances(g, n) == prev + tail;
    if v == n {
      i := |prev|;
    } else {
      i := InstancesComplete(g, n - 1, v);
    }
  }

  /** What `get_annotations` returns for a logged image: one instance per label
      value 1..255 present. */
  function DecodeMask(g: Grid): seq<PixelLabelMB> {
    Instances(g, 255)
  }

  /** Reading back a logged mask: an in-frame pixel belongs to decoded instance `k`
      exactly when the last instance drawn over it was logged with label `k + 1`. */
  lemma MaskRoundTrip(insts: seq<PixelLabelMB>, height: nat, width: nat, p: Point, k: int)
    requires InFrame(p, height, width) && 0 <= k < 255
    ensures p in ScanAll(RasterGrid(insts, height, width), k + 1) <==> LabelAt(insts, p.y, p.x) == k + 1
  {
    var g := RasterGrid(insts, height, width);
    ScanPointsMembers(g, k + 1, |g|, p);
  }

  /** The full round trip: an in-frame pixel lies in the decoded instance with id
      `k` exactly when the last instance drawn over it had label `k + 1`. */
  lemma DecodedPixelOwner(insts: seq<PixelLabelMB>, height: nat, width: nat, p: Point, k: int)
    requires InFrame(p, height, width) && 0 <= k < 255
    ensures (exists i :: 0 <= i < |DecodeMask(RasterGrid(insts, height, width))| &&
               DecodeMask(RasterGrid(insts, height, width))[i].instanceId == k &&
               p in DecodeMask(RasterGrid(insts, height, width))[i].smask)
            <==> LabelAt(insts, p.y, p.x) == k + 1
  {
    var g := RasterGrid(insts, height, width);
    var d := DecodeMask(g);
    MaskRoundTrip(insts, height, width, p, k);
    InstancesSound(g, 255);
    if LabelAt(insts, p.y, p.x) == k + 1 {
      var i := InstancesComplete(g, 255, k + 1);
      assert p in d[i].smask;
    }
  }

  /** The drawing loops of `write_annotations`: start from an all-zero
      `height × width` matrix and, instance after instance and point after point,
      store the instance's label at `(row = y, col = x)`. Points outside the matrix
      are skipped (the source writes them unchecked, see `UncheckedWriteHitsNextRow`). */
  method Rasterise(insts: seq<PixelLabelMB>, height: nat, width: nat) returns (g: Grid)
    ensures g == RasterGrid(insts, height, width)
  {
    var mat := new int[height, width]((r, c) => 0);
    for i := 0 to |insts|
      invariant forall r, c :: 0 <= r < height && 0 <= c < width ==> mat[r, c] == LabelAt(insts[..i], r, c)
    {
      var inst := insts[i];
      var pxValue := InstanceLabel(inst.instanceId);
      assert (insts[..i] + [PixelLabelMB([], inst.instanceId)])[..i] == insts[..i];
      for j := 0 to |inst.smask|
        invariant forall r, c :: 0 <= r < height && 0 <= c < width ==>
          mat[r, c] == LabelAt(insts[..i] + [PixelLabelMB(inst.smask[..j], inst.instanceId)], r, c)
      {
        var p := inst.smask[j];
        ghost var before := insts[..i] + [PixelLabelMB(inst.smask[..j], inst.instanceId)];
        ghost var after := insts[..i] + [PixelLabelMB(inst.smask[..j + 1], inst.instanceId)];
        assert after[..i] == before[..i] == insts[..i];
        assert inst.smask[..j + 1] == inst.smask[..j] + [p];
        if InFrame(p, height, width) {
          mat[p.y, p.x] := pxValue;
        }
      }
      assert inst.smask[..|inst.smask|] == inst.smask;
      assert insts[..i + 1] == insts[..i] + [PixelLabelMB(inst.smask[..|inst.smask|], inst.instanceId)];
    }
    assert insts[..|insts|] == insts;
    g := seq(height, r requires 0 <= r < height reads mat =>
           seq(width, c requires 0 <= c < width reads mat => mat[r, c]));
    forall r | 0 <= r < height
      ensures g[r] == RasterGrid(insts, height, width)[r]
    {
      assert forall c :: 0 <= c < width ==> g[r][c] == LabelAt(insts, r, c);
    }
  }

  /** The pixels of value `v` met by the scan before position `(row, col)`. */
  function ScannedBefore(g: Grid, v: int, row: nat, col: nat): seq<Point>
    requires row < |g| && col <= |g[row]|
  {
    ScanPoints(g, v, row) + RowPoints(g, v, row, col)
  }

  /** The point lists the scan holds at `(row, col)`: key `k` is present exactly
      when a pixel of value `k + 1` was met, and then lists those pixels. */
  ghost predicate SegmentsAt(g: Grid, segs: map<int, seq<Point>>, row: nat, col: nat)
    requires row < |g| && col <= |g[row]|
  {
    forall k :: (k in segs <==> 0 <= k < 255 && ScannedBefore(g, k + 1, row, col) != []) &&
                (k in segs ==> segs[k] == ScannedBefore(g, k + 1, row, col))
  }

  /** One pixel of the scan keeps `SegmentsAt`. */
  lemma ScanStep(g: Grid, segs: map<int, seq<Point>>, row: nat, col: nat)
    requires row < |g| && col < |g[row]| && 0 <= g[row][col] < 256
    requires SegmentsAt(g, segs, row, col)
    ensures SegmentsAt(g, ScanPixel(segs, g[row][col], Point(col, row)), row, col + 1)
  {
    var px := g[row][col];
    var segs' := ScanPixel(segs, px, Point(col, row));
    forall k
      ensures (k in segs' <==> 0 <= k < 255 && ScannedBefore(g, k + 1, row, col + 1) != []) &&
              (k in segs' ==> segs'[k] == ScannedBefore(g, k + 1, row, col + 1))
    {
      ScannedBeforeStep(g, k + 1, row, col);
      if px == k + 1 && px > 0 {
        assert k in segs' && segs'[k] == (if k in segs then segs[k] else []) + [Point(col, row)];
      } else {
        assert k in segs' <==> k in segs;
        assert k in segs ==> segs'[k] == segs[k];
      }
    }
  }

  /** The scan moves one pixel on: the pixel joins the list of its value. */
  lemma ScannedBeforeStep(g: Grid, v: int, row: nat, col: nat)
    requires row < |g| && col < |g[row]|
    ensures ScannedBefore(g, v, row, col + 1) ==
            ScannedBefore(g, v, row, col) + (if g[row][col] == v then [Point(col, row)] else [])
  {
  }

  /** The point lists the scan holds once `rows` whole rows are done. */
  ghost predicate SegmentsBeforeRow(g: Grid, segs: map<int, seq<Point>>, rows: nat)
    requires rows <= |g|
  {
    forall k :: (k in segs <==> 0 <= k < 255 && ScanPoints(g, k + 1, rows) != []) &&
                (k in segs ==> segs[k] == ScanPoints(g, k + 1, rows))
  }

  lemma RowDone(g: Grid, segs: map<int, seq<Point>>, row: nat)
    requires row < |g| && SegmentsAt(g, segs, row, |g[row]|)
    ensures SegmentsBeforeRow(g, segs, row + 1)
  {
    forall k
      ensures (k in segs <==> 0 <= k < 255 && ScanPoints(g, k + 1, row + 1) != []) &&
              (k in segs ==> segs[k] == ScanPoints(g, k + 1, row + 1))
    {
      assert ScannedBefore(g, k + 1, row, |g[row]|) == ScanPoints(g, k + 1, row + 1);
    }
  }

  lemma RowStart(g: Grid, segs: map<int, seq<Point>>, row: nat)
    requires row < |g| && SegmentsBeforeRow(g, segs, row)
    ensures SegmentsAt(g, segs, row, 0)
  {
    forall k
      ensures (k in segs <==> 0 <= k < 255 && ScannedBefore(g, k + 1, row, 0) != []) &&
              (k in segs ==> segs[k] == ScannedBefore(g, k + 1, row, 0))
    {
      assert ScannedBefore(g, k + 1, row, 0) == ScanPoints(g, k + 1, row);
    }
  }

  /** The emitting loop: keys in ascending order give `Instances`. */
  lemma EmitStep(g: Grid, segs: map<int, seq<Point>>, k: nat)
    requires k < 255 && SegmentsBeforeRow(g, segs, |g|)
    ensures Instances(g, k + 1) ==
      Instances(g, k) + (if k in segs then [PixelLabelMB(segs[k], k)] else [])
  {
    assert k in segs <==> ScanAll(g, k + 1) != [];
  }

  /** The body of the inner scan loop. */
  function ScanPixel(segs: map<int, seq<Point>>, px: int, p: Point): map<int, seq<Point>>
  {
    if px > 0 then
      var key := px - 1;
      if key in segs then segs[key := segs[key] + [p]] else segs[key := [p]]
    else segs
  }

  /** The reading loops of `get_annotations`: scan the image row by row, append
      each pixel of value `v > 0` to the point list kept under key `v - 1`, then
      emit one instance per key in ascending key order. */
  method DecodeLabelImage(g: Grid) returns (d: seq<PixelLabelMB>)
    requires IsByteImage(g)
    ensures d == DecodeMask(g)
  {
    var segs: map<int, seq<Point>> := map[];
    for row := 0 to |g|
      invariant SegmentsBeforeRow(g, segs, row)
    {
      RowStart(g, segs, row);
      for col := 0 to |g[row]|
        invariant SegmentsAt(g, segs, row, col)
      {
        ScanStep(g, segs, row, col);
        segs := ScanPixel(segs, g[row][col], Point(col, row));
      }
      RowDone(g, segs, row);
    }
    d := [];
    for k := 0 to 255
      invariant d == Instances(g, k)
    {
      EmitStep(g, segs, k);
      if k in segs {
        d := d + [PixelLabelMB(segs[k], k)];
      }
    }
  }
}
