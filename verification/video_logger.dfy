/** `VideoLogger`: where and how the annotations of each frame are kept on disk.
    Bounding boxes go to `<base>/Detections/<frame>.txt` as `id, x1, y1, x2, y2`
    lines, segmentation masks to `<base>/Annotations/<frame>.png` as label images,
    and free text to `<base>/Metadata/<frame>.txt`. The disk is two maps from a
    path to the text or the 8-bit image stored there. */
module VideoLogging {
  import opened Wrappers
  import opened Numeric
  import opened AnnotationTypes
  import opened TextFormat
  import opened MaskCodec

  /** A path as its list of components. */
  type Path = seq<string>

  const ANNOTATION_DIRNAME: string := "Annotations"
  const BBOX_DIRNAME: string := "Detections"
  const TEXT_DIRNAME: string := "Metadata"

  /** `make_filepath(ldir, fname, ext)`: `ldir / fname`, then `ext` appended to that
      last component. */
  function MakeFilepath(ldir: Path, fname: string, ext: string): (p: Path)
    ensures |p| == |ldir| + 1 && p[..|ldir|] == ldir && p[|ldir|] == fname + ext
  {
    ldir + [fname + ext]
  }

  /** Two frames of one directory and extension never share a file. */
  lemma MakeFilepathInjective(ldir: Path, f: string, g: string, ext: string)
    requires f != g
    ensures MakeFilepath(ldir, f, ext) != MakeFilepath(ldir, g, ext)
  {
    var a, b := f + ext, g + ext;
    if |f| == |g| {
      assert a[..|f|] == f && b[..|g|] == g;
    }
    assert a != b;
    assert MakeFilepath(ldir, f, ext)[|ldir|] == a && MakeFilepath(ldir, g, ext)[|ldir|] == b;
  }

  /** A `.png` file and a `.txt` file are never the same file. */
  lemma PngNotTxt(d1: Path, f: string, d2: Path, g: string)
    ensures MakeFilepath(d1, f, ".png") != MakeFilepath(d2, g, ".txt")
  {
    if |d1| == |d2| {
      var a, b := f + ".png", g + ".txt";
      assert a[|a| - 1] == 'g' && b[|b| - 1] == 't';
      assert MakeFilepath(d1, f, ".png")[|d1|] == a;
      assert MakeFilepath(d2, g, ".txt")[|d1|] == b;
    }
  }

  /** The bounding-box and metadata files of any two frames are different files,
      since they sit in different sub-directories of the base directory. */
  lemma BboxAndTextFilesDistinct(base: Path, f: string, g: string)
    ensures MakeFilepath(base + [BBOX_DIRNAME], f, ".txt") != MakeFilepath(base + [TEXT_DIRNAME], g, ".txt")
  {
    assert MakeFilepath(base + [BBOX_DIRNAME], f, ".txt")[|base|] == BBOX_DIRNAME;
    assert MakeFilepath(base + [TEXT_DIRNAME], g, ".txt")[|base|] == TEXT_DIRNAME;
    assert BBOX_DIRNAME[0] != TEXT_DIRNAME[0];
  }

  /** `boost::filesystem::create_directory` when needed: an existing directory is
      kept, a missing one is made if the file system allows it (`creatable`), and
      otherwise the directory is reported as the one that could not be made. */
  function EnsureDirectory(existing: set<Path>, creatable: set<Path>, d: Path): (r: Result<set<Path>, Path>)
    ensures r.Success? <==> d in existing || d in creatable
    ensures r.Success? ==> r.value == existing + {d}
    ensures r.Failure? ==> r.error == d
  {
    if d in existing then Success(existing)
    else if d in creatable then Success(existing + {d})
    else Failure(d)
  }

  /** The directories the constructor makes sure of, in the order it handles them. */
  function Logdirs(base: Path): seq<Path> {
    [base, base + [ANNOTATION_DIRNAME], base + [BBOX_DIRNAME], base + [TEXT_DIRNAME]]
  }

  function EnsureAll(existing: set<Path>, creatable: set<Path>, dirs: seq<Path>): (r: Result<set<Path>, Path>)
    ensures r.Success? <==> forall i :: 0 <= i < |dirs| ==> dirs[i] in existing || dirs[i] in creatable
    ensures r.Success? ==> r.value == existing + set i | 0 <= i < |dirs| :: dirs[i]
    ensures r.Failure? ==> exists i :: 0 <= i < |dirs| && r.error == dirs[i] &&
                                     dirs[i] !in existing && dirs[i] !in creatable &&
                                     forall j :: 0 <= j < i ==> dirs[j] in existing || dirs[j] in creatable
    decreases |dirs|
  {
    if dirs == [] then Success(existing)
    else
      match EnsureDirectory(existing, creatable, dirs[0])
      case Failure(d) => Failure(d)
      case Success(now) =>
        var r := EnsureAll(now, creatable, dirs[1..]);
        assert forall i :: 0 <= i < |dirs[1..]| ==> dirs[1..][i] == dirs[i + 1];
        assert r.Success? ==> (set i | 0 <= i < |dirs| :: dirs[i]) == {dirs[0]} + set i | 0 <= i < |dirs[1..]| :: dirs[1..][i];
        if r.Failure? then
          var i :| 0 <= i < |dirs[1..]| && r.error == dirs[1..][i] &&
                   dirs[1..][i] !in now && dirs[1..][i] !in creatable &&
                   forall j :: 0 <= j < i ==> dirs[1..][j] in now || dirs[1..][j] in creatable;
          assert r.error == dirs[i + 1];
          r
        else r
  }

  /** What constructing a `VideoLogger` does to the directories: the base directory
      and its `Annotations`, `Detections` and `Metadata` sub-directories all exist
      afterwards, or construction throws (`Failure`) naming the first one that was
      missing and could not be created. */
  function PrepareLogdirs(existing: set<Path>, creatable: set<Path>, base: Path): (r: Result<set<Path>, Path>)
    ensures r.Success? <==> forall d :: d in Logdirs(base) ==> d in existing || d in creatable
    ensures r.Success? ==> r.value == existing + {base, base + [ANNOTATION_DIRNAME], base + [BBOX_DIRNAME], base + [TEXT_DIRNAME]}
    ensures r.Failure? ==> r.error in Logdirs(base) && r.error !in existing && r.error !in creatable
  {
    var dirs := Logdirs(base);
    var r := EnsureAll(existing, creatable, dirs);
    assert (set i | 0 <= i < |dirs| :: dirs[i]) == {base, base + [ANNOTATION_DIRNAME], base + [BBOX_DIRNAME], base + [TEXT_DIRNAME]} by {
      assert dirs[0] == base && dirs[1] == base + [ANNOTATION_DIRNAME];
      assert dirs[2] == base + [BBOX_DIRNAME] && dirs[3] == base + [TEXT_DIRNAME];
    }
    r
  }

  /** The box `write_bboxes` logs: corners swapped so that `x1 <= x2` and
      `y1 <= y2`, then each coordinate clipped to `[0, width]` or `[0, height]`. */
  function NormalizeBox(b: BoundingBoxMD, height: int, width: int): (n: BoundingBoxMD)
    ensures n.instanceId == b.instanceId
    ensures 0 <= width ==> 0 <= n.bbox.x1 <= n.bbox.x2 <= width
    ensures 0 <= height ==> 0 <= n.bbox.y1 <= n.bbox.y2 <= height
  {
    var r := b.bbox;
    var lowX := Min(r.x1, r.x2);
    var highX := Max(r.x1, r.x2);
    var lowY := Min(r.y1, r.y2);
    var highY := Max(r.y1, r.y2);
    ClipMonotone(lowX, highX, 0, width);
    ClipMonotone(lowY, highY, 0, height);
    BoundingBoxMD(Rect(Clip(lowX, 0, width), Clip(lowY, 0, height), Clip(highX, 0, width), Clip(highY, 0, height)),
                  b.instanceId)
  }

  /** Every box of a list normalised, in order. */
  function NormalizeAll(boxes: seq<BoundingBoxMD>, height: int, width: int): (ns: seq<BoundingBoxMD>)
    ensures |ns| == |boxes|
    ensures forall i :: 0 <= i < |boxes| ==> ns[i] == NormalizeBox(boxes[i], height, width)
  {
    if boxes == [] then [] else [NormalizeBox(boxes[0], height, width)] + NormalizeAll(boxes[1..], height, width)
  }

  /** A box that is already ordered and inside the frame is logged unchanged. */
  lemma NormalizeKeepsFramedBox(b: BoundingBoxMD, height: int, width: int)
    requires 0 <= b.bbox.x1 <= b.bbox.x2 <= width && 0 <= b.bbox.y1 <= b.bbox.y2 <= height
    ensures NormalizeBox(b, height, width) == b
  {
  }

  /** Normalising twice changes nothing more. */
  lemma NormalizeIdempotent(b: BoundingBoxMD, height: int, width: int)
    requires 0 <= height && 0 <= width
    ensures NormalizeBox(NormalizeBox(b, height, width), height, width) == NormalizeBox(b, height, width)
  {
    NormalizeKeepsFramedBox(NormalizeBox(b, height, width), height, width);
  }

  /** The order in which the two corners were given does not matter. */
  lemma NormalizeIgnoresCornerOrder(id: int, x1: int, y1: int, x2: int, y2: int, height: int, width: int)
    ensures NormalizeBox(BoundingBoxMD(Rect(x1, y1, x2, y2), id), height, width) ==
            NormalizeBox(BoundingBoxMD(Rect(x2, y2, x1, y1), id), height, width)
    ensures NormalizeBox(BoundingBoxMD(Rect(x1, y1, x2, y2), id), height, width) ==
            NormalizeBox(BoundingBoxMD(Rect(x1, y2, x2, y1), id), height, width)
  {
  }

  /** The five numbers of a logged line, in file order. */
  function BboxFields(b: BoundingBoxMD): seq<int> {
    [b.instanceId, b.bbox.x1, b.bbox.y1, b.bbox.x2, b.bbox.y2]
  }

  function FieldTokens(fields: seq<int>): (ts: seq<string>)
    ensures |ts| == |fields|
    ensures forall i :: 0 <= i < |ts| ==> ts[i] == IntToString(fields[i])
  {
    seq(|fields|, i requires 0 <= i < |fields| => IntToString(fields[i]))
  }

  /** `id << ", " << tl_x << ", " << tl_y << ", " << br_x << ", " << br_y`. */
  function BboxLine(b: BoundingBoxMD): (line: string)
    ensures '\n' !in line
  {
    var ts := FieldTokens(BboxFields(b));
    NoNewlineInJoin(ts, ", ");
    Join(ts, ", ")
  }

  lemma {:induction false} NoNewlineInJoin(ts: seq<string>, sep: string)
    requires |ts| >= 1 && '\n' !in sep
    requires forall i :: 0 <= i < |ts| ==> '\n' !in ts[i]
    ensures '\n' !in Join(ts, sep)
  {
    if |ts| > 1 {
      NoNewlineInJoin(ts[1..], sep);
    }
  }

  /** The lines logged for a list of boxes: one per box, in input order. */
  function BboxLines(boxes: seq<BoundingBoxMD>, height: int, width: int): (ls: seq<string>)
    ensures |ls| == |boxes|
    ensures forall i :: 0 <= i < |ls| ==> '\n' !in ls[i]
  {
    seq(|boxes|, i requires 0 <= i < |boxes| => BboxLine(NormalizeBox(boxes[i], height, width)))
  }

  /** The contents of the detection file: every line ended by `"\n"`. */
  function BboxText(boxes: seq<BoundingBoxMD>, height: int, width: int): string {
    Unlines(BboxLines(boxes, height, width))
  }

  /** The file holds exactly one line per box, in input order, each the normalised
      box with its id unchanged. */
  lemma BboxTextLines(boxes: seq<BoundingBoxMD>, height: int, width: int)
    ensures Lines(BboxText(boxes, height, width)) == BboxLines(boxes, height, width)
    ensures forall i :: 0 <= i < |boxes| ==>
      Lines(BboxText(boxes, height, width))[i] == BboxLine(NormalizeBox(boxes[i], height, width))
  {
    LinesUnlines(BboxLines(boxes, height, width));
  }

  /** Why reading a line fails: the `assert` on the token count, or the
      `bad_lexical_cast` thrown for a token that is not an `int`. */
  datatype ReadError = TokenCountNotMultipleOfFive | BadLexicalCast

  /** The tokens of one line of `get_boundingboxes`: remove the spaces, trim the
      end, split on `','`. */
  function LineTokens(line: string): (tokens: seq<string>)
    ensures |tokens| >= 1
  {
    Split(TrimRight(RemoveSpaces(line)), ',')
  }

  /** The first five tokens cast to `int`: the id and the two corners. */
  function BoxOfTokens(tokens: seq<string>): (r: Result<BoundingBoxMD, ReadError>)
    requires |tokens| >= 5
    ensures r.Success? <==> forall i :: 0 <= i < 5 ==> ParseInt(tokens[i]).Some?
  {
    var id, x1, y1 := ParseInt(tokens[0]), ParseInt(tokens[1]), ParseInt(tokens[2]);
    var x2, y2 := ParseInt(tokens[3]), ParseInt(tokens[4]);
    if id.None? || x1.None? || y1.None? || x2.None? || y2.None? then Failure(BadLexicalCast)
    else Success(BoundingBoxMD(RectFromCorners(Point(x1.value, y1.value), Point(x2.value, y2.value)), id.value))
  }

  /** One line of `get_boundingboxes`: the token count must be a multiple of 5 (so
      at least 5), and the first five tokens make the box. */
  function ParseBboxLine(line: string): (r: Result<BoundingBoxMD, ReadError>)
    ensures r == Failure(TokenCountNotMultipleOfFive) <==> |LineTokens(line)| % 5 != 0
    ensures r.Success? ==> InInt32(r.value.instanceId)
  {
    var tokens := LineTokens(line);
    if |tokens| % 5 != 0 then Failure(TokenCountNotMultipleOfFive) else BoxOfTokens(tokens)
  }

  /** Removing the spaces of a written line leaves the five numbers joined by
      `','`. */
  lemma SqueezedLine(b: BoundingBoxMD)
    ensures RemoveSpaces(BboxLine(b)) == Join(FieldTokens(BboxFields(b)), ",")
  {
    var ts := FieldTokens(BboxFields(b));
    assert BboxLine(b) == Join(ts, ", ");
    RemoveSpacesJoin(ts, ", ");
    assert ", " == "," + " ";
    RemoveSpacesAppend(",", " ");
    assert RemoveSpaces(",") == ",";
    assert RemoveSpaces(" ") == "";
  }

  /** Trimming and splitting a squeezed line gives back the printed numbers. */
  lemma SplitSqueezedLine(ts: seq<string>)
    requires |ts| >= 1
    requires forall i :: 0 <= i < |ts| ==> |ts[i]| >= 1 && ',' !in ts[i] && IsDigit(ts[i][|ts[i]| - 1])
    ensures Split(TrimRight(Join(ts, ",")), ',') == ts
  {
    var joined := Join(ts, ",");
    JoinLast(ts, ",");
    assert IsDigit(joined[|joined| - 1]);
    TrimRightKeeps(joined);
    SplitJoin(ts, ',');
  }

  /** A line whose five tokens cast to five `int`s reads as that box. */
  lemma ParseFiveTokens(line: string, fields: seq<int>)
    requires |fields| == 5 && LineTokens(line) == FieldTokens(fields)
    requires forall i :: 0 <= i < 5 ==> ParseInt(FieldTokens(fields)[i]) == Some(fields[i])
    ensures ParseBboxLine(line) == Success(BoundingBoxMD(Rect(fields[1], fields[2], fields[3], fields[4]), fields[0]))
  {
    var ts := LineTokens(line);
    assert |ts| % 5 == 0;
    assert ParseInt(ts[0]) == Some(fields[0]) && ParseInt(ts[1]) == Some(fields[1]);
    assert ParseInt(ts[2]) == Some(fields[2]) && ParseInt(ts[3]) == Some(fields[3]);
    assert ParseInt(ts[4]) == Some(fields[4]);
  }

  /** A line as written reads back as the box it was written from. */
  lemma BboxLineRoundTrip(b: BoundingBoxMD)
    requires forall i :: 0 <= i < 5 ==> InInt32(BboxFields(b)[i])
    ensures ParseBboxLine(BboxLine(b)) == Success(b)
  {
    var fields := BboxFields(b);
    var ts := FieldTokens(fields);
    SqueezedLine(b);
    SplitSqueezedLine(ts);
    forall i | 0 <= i < 5
      ensures ParseInt(ts[i]) == Some(fields[i])
    {
      ParseIntToString(fields[i]);
    }
    ParseFiveTokens(BboxLine(b), fields);
  }

  /** Every line of a file, in file order; the first line that fails ends the read
      with its error. */
  function ParseBboxLines(ls: seq<string>): Result<seq<BoundingBoxMD>, ReadError>
  {
    if ls == [] then Success([])
    else
      match ParseBboxLine(ls[0])
      case Failure(e) => Failure(e)
      case Success(b) => PrependBox(b, ParseBboxLines(ls[1..]))
  }

  function PrependBox(b: BoundingBoxMD, r: Result<seq<BoundingBoxMD>, ReadError>): Result<seq<BoundingBoxMD>, ReadError> {
    match r
    case Failure(e) => Failure(e)
    case Success(bs) => Success([b] + bs)
  }

  function PrependAll(acc: seq<BoundingBoxMD>, r: Result<seq<BoundingBoxMD>, ReadError>): Result<seq<BoundingBoxMD>, ReadError> {
    match r
    case Failure(e) => Failure(e)
    case Success(bs) => Success(acc + bs)
  }

  /** What `get_boundingboxes` returns for the text of an existing file. */
  function ParseBboxFile(text: string): Result<seq<BoundingBoxMD>, ReadError> {
    ParseBboxLines(Lines(text))
  }

  lemma {:induction false} ParseBboxLinesOfWritten(boxes: seq<BoundingBoxMD>, height: int, width: int)
    requires forall i :: 0 <= i < |boxes| ==> InInt32(boxes[i].instanceId)
    requires 0 <= height <= INT32_MAX && 0 <= width <= INT32_MAX
    ensures ParseBboxLines(BboxLines(boxes, height, width)) ==
            Success(NormalizeAll(boxes, height, width))
  {
    if boxes != [] {
      var n := NormalizeBox(boxes[0], height, width);
      var ls := BboxLines(boxes, height, width);
      BboxLinesHead(boxes, height, width);
      BboxLineRoundTrip(n);
      ParseBboxLinesOfWritten(boxes[1..], height, width);
      ParseBboxLinesStep(ls, 0);
      assert ls[0..] == ls;
      assert NormalizeAll(boxes, height, width) == [n] + NormalizeAll(boxes[1..], height, width);
    } else {
      assert BboxLines(boxes, height, width) == [];
    }
  }

  lemma BboxLinesHead(boxes: seq<BoundingBoxMD>, height: int, width: int)
    requires boxes != []
    ensures BboxLines(boxes, height, width)[0] == BboxLine(NormalizeBox(boxes[0], height, width))
    ensures BboxLines(boxes, height, width)[1..] == BboxLines(boxes[1..], height, width)
  {
    var ls := BboxLines(boxes, height, width);
    var rest := BboxLines(boxes[1..], height, width);
    forall i | 0 <= i < |rest|
      ensures ls[1..][i] == rest[i]
    {
      assert boxes[1..][i] == boxes[i + 1];
    }
  }

  /** Writing boxes and reading the file back gives the normalised boxes, in order
      and with their ids (`int` ids and a frame size that fits an `int`). */
  lemma BboxFileRoundTrip(boxes: seq<BoundingBoxMD>, height: int, width: int)
    requires forall i :: 0 <= i < |boxes| ==> InInt32(boxes[i].instanceId)
    requires 0 <= height <= INT32_MAX && 0 <= width <= INT32_MAX
    ensures ParseBboxFile(BboxText(boxes, height, width)) ==
            Success(NormalizeAll(boxes, height, width))
  {
    BboxTextLines(boxes, height, width);
    ParseBboxLinesOfWritten(boxes, height, width);
  }

  /** A line that does not split into a multiple of five tokens stops the read. */
  lemma EmptyLineStopsRead(before: seq<string>, after: seq<string>)
    requires ParseBboxLines(before).Success?
    ensures ParseBboxLines(before + [""] + after) == Failure(TokenCountNotMultipleOfFive)
  {
    EmptyLineFails();
    FailingLineStopsRead(before, "", after);
  }

  /** The read stops at the first line that fails, with that line's error. */
  lemma {:induction false} FailingLineStopsRead(before: seq<string>, line: string, after: seq<string>)
    requires ParseBboxLines(before).Success? && ParseBboxLine(line).Failure?
    ensures ParseBboxLines(before + [line] + after) == Failure(ParseBboxLine(line).error)
  {
    var ls := before + [line] + after;
    InsertedLine(before, line, after);
    if before != [] {
      FailingLineStopsRead(before[1..], line, after);
    }
  }

  lemma InsertedLine(before: seq<string>, line: string, after: seq<string>)
    ensures var ls := before + [line] + after;
            |ls| > 0 && ls[0] == (if before == [] then line else before[0]) &&
            (before != [] ==> ls[1..] == before[1..] + [line] + after)
  {
    var ls := before + [line] + after;
    if before != [] {
      assert ls[1..] == before[1..] + [line] + after;
    }
  }

  /** An empty line splits into a single empty token. */
  lemma EmptyLineFails()
    ensures ParseBboxLine("") == Failure(TokenCountNotMultipleOfFive)
  {
    assert RemoveSpaces("") == "" && TrimRight("") == "";
    assert Split("", ',') == [""];
  }

  lemma BboxLinesSnoc(boxes: seq<BoundingBoxMD>, i: nat, height: int, width: int)
    requires i < |boxes|
    ensures BboxText(boxes[..i + 1], height, width) ==
            BboxText(boxes[..i], height, width) + BboxLine(NormalizeBox(boxes[i], height, width)) + "\n"
  {
    var line := BboxLine(NormalizeBox(boxes[i], height, width));
    assert BboxLines(boxes[..i + 1], height, width) == BboxLines(boxes[..i], height, width) + [line];
    UnlinesSnoc(BboxLines(boxes[..i], height, width), line);
  }

  /** The swap-then-clip steps of `write_bboxes` compute `NormalizeBox`. */
  lemma SwapClipIsNormalize(b: BoundingBoxMD, height: int, width: int, tlX: int, tlY: int, brX: int, brY: int)
    requires tlX == (if b.bbox.x1 > b.bbox.x2 then b.bbox.x2 else b.bbox.x1)
    requires brX == (if b.bbox.x1 > b.bbox.x2 then b.bbox.x1 else b.bbox.x2)
    requires tlY == (if b.bbox.y1 > b.bbox.y2 then b.bbox.y2 else b.bbox.y1)
    requires brY == (if b.bbox.y1 > b.bbox.y2 then b.bbox.y1 else b.bbox.y2)
    ensures NormalizeBox(b, height, width) ==
            BoundingBoxMD(Rect(Clip(tlX, 0, width), Clip(tlY, 0, height), Clip(brX, 0, width), Clip(brY, 0, height)),
                          b.instanceId)
  {
  }

  /** The text `write_bboxes` streams to the file: for each box, swap its corners
      into order, clip them, and print the id and the corners. */
  method FormatBboxes(bboxRects: seq<BoundingBoxMD>, height: int, width: int) returns (text: string)
    ensures text == BboxText(bboxRects, height, width)
  {
    text := "";
    for i := 0 to |bboxRects|
      invariant text == BboxText(bboxRects[..i], height, width)
    {
      var id := bboxRects[i].instanceId;
      var tlX, tlY, brX, brY := bboxRects[i].bbox.x1, bboxRects[i].bbox.y1, bboxRects[i].bbox.x2, bboxRects[i].bbox.y2;
      if tlX > brX {
        tlX, brX := brX, tlX;
      }
      if tlY > brY {
        tlY, brY := brY, tlY;
      }
      SwapClipIsNormalize(bboxRects[i], height, width, tlX, tlY, brX, brY);
      tlX := Clip(tlX, 0, width);
      brX := Clip(brX, 0, width);
      tlY := Clip(tlY, 0, height);
      brY := Clip(brY, 0, height);
      BboxLinesSnoc(bboxRects, i, height, width);
      text := text + BboxLine(BoundingBoxMD(Rect(tlX, tlY, brX, brY), id)) + "\n";
    }
    assert bboxRects[..|bboxRects|] == bboxRects;
  }

  /** One more line read: a failing line ends the read with its error, a good one
      is appended. */
  lemma ParseBboxLinesStep(ls: seq<string>, i: nat)
    requires i < |ls|
    ensures ParseBboxLines(ls[i..]) == match ParseBboxLine(ls[i])
                                       case Failure(e) => Failure(e)
                                       case Success(b) => PrependBox(b, ParseBboxLines(ls[i + 1..]))
  {
    assert ls[i..][1..] == ls[i + 1..];
  }

  lemma PrependAllStep(acc: seq<BoundingBoxMD>, b: BoundingBoxMD, r: Result<seq<BoundingBoxMD>, ReadError>)
    ensures PrependAll(acc, PrependBox(b, r)) == PrependAll(acc + [b], r)
  {
    if r.Success? {
      assert acc + ([b] + r.value) == acc + [b] + r.value;
    }
  }

  class VideoLogger {
    const logdir: Path
    const annotationLogdir: Path
    const bboxLogdir: Path
    const textLogdir: Path
    /** The text files on disk. */
    var textFiles: map<Path, string>
    /** The label images on disk. */
    var imageFiles: map<Path, Grid>

    ghost predicate Valid()
      reads this
    {
      annotationLogdir == logdir + [ANNOTATION_DIRNAME] &&
      bboxLogdir == logdir + [BBOX_DIRNAME] &&
      textLogdir == logdir + [TEXT_DIRNAME] &&
      forall p :: p in imageFiles ==> IsByteImage(imageFiles[p])
    }

    /** The logger over base directory `baseOutdir`, on a disk that already holds
        `texts` and `images`; making the directories is `PrepareLogdirs`. */
    constructor(baseOutdir: Path, texts: map<Path, string>, images: map<Path, Grid>)
      requires forall p :: p in images ==> IsByteImage(images[p])
      ensures Valid()
      ensures logdir == baseOutdir && textFiles == texts && imageFiles == images
    {
      logdir := baseOutdir;
      annotationLogdir := baseOutdir + [ANNOTATION_DIRNAME];
      bboxLogdir := baseOutdir + [BBOX_DIRNAME];
      textLogdir := baseOutdir + [TEXT_DIRNAME];
      textFiles := texts;
      imageFiles := images;
    }

    function AnnotationPath(framenum: string): Path {
      MakeFilepath(annotationLogdir, framenum, ".png")
    }

    function BboxPath(framenum: string): Path {
      MakeFilepath(bboxLogdir, framenum, ".txt")
    }

    function TextPath(framenum: string): Path {
      MakeFilepath(textLogdir, framenum, ".txt")
    }

    /** `has_annotations`: the `.png` that `write_annotations` writes exists; without
        it `get_annotations` finds no instance. */
    predicate HasAnnotations(framenum: string): (r: bool)
      reads this
      ensures !r ==> StoredAnnotations(framenum) == []
      ensures r ==> AnnotationPath(framenum) in imageFiles &&
                    StoredAnnotations(framenum) == DecodeMask(imageFiles[AnnotationPath(framenum)])
    {
      AnnotationPath(framenum) in imageFiles
    }

    /** `has_boundingbox`: the `.txt` that `write_bboxes` writes exists; without it
        `get_boundingboxes` reads no box. */
    predicate HasBoundingbox(framenum: string): (r: bool)
      reads this
      ensures !r ==> StoredBoxes(framenum) == Success([])
      ensures r ==> BboxPath(framenum) in textFiles &&
                    StoredBoxes(framenum) == ParseBboxFile(textFiles[BboxPath(framenum)])
    {
      BboxPath(framenum) in textFiles
    }

    /** `has_textmetadata`: the `.txt` that `write_textmetadata` writes exists; without
        it `get_textmetadata` reads the empty string. */
    predicate HasTextmetadata(framenum: string): (r: bool)
      reads this
      ensures !r ==> GetTextmetadata(framenum) == ""
      ensures r ==> TextPath(framenum) in textFiles && GetTextmetadata(framenum) == textFiles[TextPath(framenum)]
    {
      TextPath(framenum) in textFiles
    }

    /** What `get_boundingboxes` reads: nothing for a missing file. */
    function StoredBoxes(framenum: string): Result<seq<BoundingBoxMD>, ReadError>
      reads this
    {
      if BboxPath(framenum) in textFiles then ParseBboxFile(textFiles[BboxPath(framenum)]) else Success([])
    }

    /** What `get_annotations` reads: nothing for a missing image. */
    function StoredAnnotations(framenum: string): seq<PixelLabelMB>
      reads this
    {
      if AnnotationPath(framenum) in imageFiles then DecodeMask(imageFiles[AnnotationPath(framenum)]) else []
    }

    /** `get_textmetadata`: the whole file, or `""` when there is none. */
    function GetTextmetadata(framenum: string): (text: string)
      reads this
      ensures TextPath(framenum) !in textFiles ==> text == ""
      ensures TextPath(framenum) in textFiles ==> text == textFiles[TextPath(framenum)]
    {
      if TextPath(framenum) in textFiles then textFiles[TextPath(framenum)] else ""
    }

    /** `write_bboxes`: a non-empty list replaces the frame's detection file with one
        normalised line per box; an empty list removes the file. */
    method WriteBboxes(framenum: string, bboxRects: seq<BoundingBoxMD>, height: int, width: int)
      requires Valid()
      modifies this
      ensures Valid()
      ensures imageFiles == old(imageFiles)
      ensures |bboxRects| > 0 ==> textFiles == old(textFiles)[BboxPath(framenum) := BboxText(bboxRects, height, width)]
      ensures |bboxRects| == 0 ==> textFiles == old(textFiles) - {BboxPath(framenum)}
      ensures HasBoundingbox(framenum) <==> |bboxRects| > 0
      ensures (forall i :: 0 <= i < |bboxRects| ==> InInt32(bboxRects[i].instanceId)) &&
              0 <= height <= INT32_MAX && 0 <= width <= INT32_MAX ==>
              StoredBoxes(framenum) == Success(NormalizeAll(bboxRects, height, width))
      ensures forall f :: GetTextmetadata(f) == old(GetTextmetadata(f))
    {
      var path := BboxPath(framenum);
      forall f
        ensures path != TextPath(f)
      {
        BboxAndTextFilesDistinct(logdir, framenum, f);
      }
      if |bboxRects| > 0 {
        var text := FormatBboxes(bboxRects, height, width);
        textFiles := textFiles[path := text];
        if (forall i :: 0 <= i < |bboxRects| ==> InInt32(bboxRects[i].instanceId)) &&
           0 <= height <= INT32_MAX && 0 <= width <= INT32_MAX {
          BboxFileRoundTrip(bboxRects, height, width);
        }
      } else {
        textFiles := textFiles - {path};
      }
    }

    /** `write_annotations`: a non-empty list replaces the frame's label image by the
        rasterised instances on a `height × width` background; an empty list removes
        the image. */
    method WriteAnnotations(framenum: string, annotations: seq<PixelLabelMB>, height: int, width: int)
      requires Valid()
      requires 0 <= height && 0 <= width
      modifies this
      ensures Valid()
      ensures textFiles == old(textFiles)
      ensures |annotations| > 0 ==>
        imageFiles == old(imageFiles)[AnnotationPath(framenum) := RasterGrid(annotations, height, width)]
      ensures |annotations| == 0 ==> imageFiles == old(imageFiles) - {AnnotationPath(framenum)}
      ensures HasAnnotations(framenum) <==> |annotations| > 0
    {
      var path := AnnotationPath(framenum);
      if |annotations| > 0 {
        var img := Rasterise(annotations, height, width);
        imageFiles := imageFiles[path := img];
      } else {
        imageFiles := imageFiles - {path};
      }
    }

    /** `write_textmetadata`: the frame's metadata file holds `textMeta`, even when it
        is empty. */
    method WriteTextmetadata(framenum: string, textMeta: string)
      requires Valid()
      modifies this
      ensures Valid()
      ensures imageFiles == old(imageFiles)
      ensures textFiles == old(textFiles)[TextPath(framenum) := textMeta]
      ensures HasTextmetadata(framenum) && GetTextmetadata(framenum) == textMeta
      ensures forall f :: f != framenum ==> GetTextmetadata(f) == old(GetTextmetadata(f))
      ensures forall f :: StoredBoxes(f) == old(StoredBoxes(f))
    {
      forall f | f != framenum
        ensures TextPath(f) != TextPath(framenum)
      {
        MakeFilepathInjective(textLogdir, f, framenum, ".txt");
      }
      forall f
        ensures BboxPath(f) != TextPath(framenum)
      {
        BboxAndTextFilesDistinct(logdir, f, framenum);
      }
      textFiles := textFiles[TextPath(framenum) := textMeta];
    }

    /** `get_annotations`: scan the frame's label image, if there is one. */
    method GetAnnotations(framenum: string) returns (frameAnnotations: seq<PixelLabelMB>)
      requires Valid()
      ensures frameAnnotations == StoredAnnotations(framenum)
    {
      frameAnnotations := [];
      var path := AnnotationPath(framenum);
      if path in imageFiles {
        frameAnnotations := DecodeLabelImage(imageFiles[path]);
      }
    }

    /** `get_boundingboxes`: read the frame's detection file line by line. */
    method GetBoundingboxes(framenum: string) returns (frameBboxes: Result<seq<BoundingBoxMD>, ReadError>)
      ensures frameBboxes == StoredBoxes(framenum)
    {
      var path := BboxPath(framenum);
      if path !in textFiles {
        return Success([]);
      }
      var ls := Lines(textFiles[path]);
      assert StoredBoxes(framenum) == ParseBboxLines(ls);
      var acc: seq<BoundingBoxMD> := [];
      var i := 0;
      assert ls[0..] == ls;
      if ParseBboxLines(ls).Success? {
        assert [] + ParseBboxLines(ls).value == ParseBboxLines(ls).value;
      }
      while i < |ls|
        invariant i <= |ls|
        invariant ParseBboxLines(ls) == PrependAll(acc, ParseBboxLines(ls[i..]))
      {
        ParseBboxLinesStep(ls, i);
        var line := ParseBboxLine(ls[i]);
        if line.Failure? {
          assert ParseBboxLines(ls[i..]) == Failure(line.error);
          assert ParseBboxLines(ls) == Failure(line.error);
          return Failure(line.error);
        }
        assert ParseBboxLines(ls[i..]) == PrependBox(line.value, ParseBboxLines(ls[i + 1..]));
        PrependAllStep(acc, line.value, ParseBboxLines(ls[i + 1..]));
        acc := acc + [line.value];
        i := i + 1;
      }
      assert ls[i..] == [];
      assert acc + [] == acc;
      assert ParseBboxLines(ls) == Success(acc);
      frameBboxes := Success(acc);
    }
  }
}
