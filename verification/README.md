# FishLabeler core, modelled in Dafny

FishLabeler is a Qt/ffmpeg tool for annotating fish in video. The user draws
bounding boxes or paints segmentation masks on each frame. The tool saves them per
frame under an output directory and reads them back later. This project models the
logic beneath the GUI, one Dafny module per component:

| module | models |
|---|---|
| `AnnotationTypes` | the annotation mode, `BoundingBoxMD`, `PixelLabelMB`, `FrameAnnotations`, plus the points and rectangles they hold |
| `Frames` | `VideoFrame` (data, height, width, stride) |
| `Numeric` | `utils::clip`, the C++ `%`, `int32` bounds |
| `TextFormat` | decimal printing and `lexical_cast<int>` parsing, line and comma splitting |
| `VideoLogging` | `VideoLogger`: the log-directory layout and per-frame paths, the bounding-box text format, the label-image mask format, and the text metadata |
| `MaskCodec` | rasterising masks into a label image and decoding it back into instances |
| `FrameScenes` | `FrameScene`: undo/redo, the palette, the segmentation brush, click clamping, box selection, and the mouse, frame and metadata handlers |
| `VideoReading` | `VideoReader`: the frame slot array and index map filled by `parse_video`, the flush loop, the cursor, and `decode_packet` |
| `Renumbering` | `adjust_annotation_numbering.py`: the natural-sort key, the renumbered file stems, and the move loop of `correct_annotations` |
| `DetectionInterpolation` | `LinearInterpolation::interpolate` and `interpolate_sequence` |

**Storage.** The disk is a value.
- `VideoLogger` holds a map from path to text-file contents and a map from path to label image.
- The renumbering script works on a map from (directory, file name) to contents.

**Decoder.** The ffmpeg demuxer and decoder are a finite sequence of packets for the read loop and a sequence of replies for the flush loop.
- Each packet carries its stream index and the codec's answer: a decode error, no picture, or a converted BGR picture with its line size.

**Other abstractions.**
- Mouse positions are already-rounded integers.
- `BoundingBoxViz::intersects_bbox_frame` and `predict` are function-valued parameters.

**Two revisions of the scene.** `FrameScene.hpp` (class `FrameViewer`) and `FrameScene.cpp` (class `FrameScene`) are different revisions of one class. The model follows the fields the `.cpp` uses: `selected_bbox`, `allowable_height`/`allowable_width`, `emit_bbox` and the current box. The model holds each box as a `BoundingBoxMD` value, a rectangle and an id, where the source holds `shared_ptr<BoundingBoxViz>` objects; the one place where that sharing shows is recorded under "## Left out". A `BoundingBoxViz` also carries `is_selected` (`BoundingBoxViz.hpp:72`), which only chooses how the box is painted, so the value drops it.

**Two revisions of the reader.** `VideoReader.hpp` and `VideoReader.cpp` are also different revisions.
- The header declares `void parse_video()` with no parameters (`VideoReader.hpp:52`), while the `.cpp` defines `int parse_video(const int, const int)` (`VideoReader.cpp:88`).
- The `.cpp` defines `read_video_frames` (`VideoReader.cpp:72`), which the class does not declare.
- `frame_cache` and `frame_cache_idxmap` exist only as commented-out `std::array<…, VFRAME_CACHE_SIZE>` declarations (`VideoReader.hpp:117-118`).
- The model follows the `.cpp` and restores those two arrays with the commented-out capacity. The cache overrun under "## Findings" is about that restored revision.

**Behaviour of the code that the model keeps.**
- In `FrameScene`:
  - `selected_bbox_pt` is never assigned. A moved box is therefore translated by the release position itself.
  - The constructor calls `display_frame` before `mode` is set. The model starts from the state the constructor leaves, with nothing annotated.
  - `display_frame` neither resets `current_bbox` nor `selected_bbox`.
- In `VideoReader`:
  - `frames` is never filled.
  - `video_frame_count` only changes in a branch guarded by the constant `DEBUG = false`, so `get_num_frames` is always 0.
  - The slot arrays are commented out of the class (`VideoReader.hpp:117-118`). The model restores them with a capacity fixed at construction.
  - A write past the end is reported as an `overrun` result instead of being performed.
  - The index-map entries that no call has written hold arbitrary values.

## Model

| member | source | states |
|---|---|---|
| Numeric.Clip | VideoLogger.cpp:12-15 | the result lies in `[low, high]` when `low <= high`; an in-range value is returned unchanged; values below clamp to `low`, values above to `high` |
| Numeric.ClipMonotone | VideoLogger.cpp:12-15 | clipping preserves `<=`, so clipping swapped corners keeps them ordered |
| Numeric.CRem | FrameScene.cpp:45 | C++ `%` agrees with the mathematical remainder for a non-negative dividend, and lies in `(-b, 0]` for a negative one |
| Numeric.ToUint8 | VideoLogger.cpp:46 | storing into a `uint8_t` pixel gives a value in `[0, 256)` that equals the input when the input already fits |
| AnnotationTypes.ModeValue | AnnotationTypes.hpp:8-11 | `SEGMENTATION` is 0 and `BOUNDINGBOX` is 1, and no other mode exists |
| AnnotationTypes.NullRect | AnnotationTypes.hpp:14-16 | a default rectangle has corners (0,0) and (-1,-1), i.e. it is empty |
| AnnotationTypes.DefaultBoundingBoxMD | AnnotationTypes.hpp:14-16 | a default box has instance id 0 and the null rectangle |
| AnnotationTypes.RectFromCorners | AnnotationTypes.hpp:18-20 | a box built from two corners stores exactly those corners |
| AnnotationTypes.RectFromSize | FrameScene.cpp:207-209 | a rectangle from a corner and a size starts at the corner, and its inclusive extent equals the size |
| AnnotationTypes.DefaultPixelLabelMB | AnnotationTypes.hpp:26-28 | a default mask instance has instance id 0 and no points |
| Frames.FrameOf | VideoFrame.hpp:12-20 | the three-argument frame stores data, height and width as given, with stride equal to width |
| Frames.EmptyFrame | VideoFrame.hpp:22-24 | the default frame has no data and zero height, width and stride |
| TextFormat.IntToString | VideoLogger.cpp:93 | `<<` of an `int` writes a non-empty run ending in a digit, starting with a digit exactly when the value is non-negative, with no space, comma or newline in it |
| TextFormat.NatToStringValue | VideoLogger.cpp:93 | the decimal digits written for a natural number denote that number |
| TextFormat.ParseInt | VideoLogger.cpp:166-170 | `lexical_cast<int>` succeeds only with a value in the 32-bit `int` range, and refuses the empty token |
| TextFormat.ParseIntToString | VideoLogger.cpp:166-170 | casting back what `<<` wrote for an `int` gives that `int` |
| TextFormat.IndexOf | VideoLogger.cpp:164 | the position found holds the separator and no earlier position does |
| TextFormat.Split | VideoLogger.cpp:164 | `boost::split` on one separator gives at least one piece, and no piece holds the separator |
| TextFormat.SplitJoin | VideoLogger.cpp:164 | splitting tokens joined by a separator they do not contain gives back the tokens, empty ones included |
| TextFormat.Lines | VideoLogger.cpp:160 | the lines `getline` yields hold no newline |
| TextFormat.LinesUnlines | VideoLogger.cpp:160 | reading back lines each written with a trailing `"\n"` gives exactly those lines |
| TextFormat.RemoveSpaces | VideoLogger.cpp:161 | the erase-remove leaves no space and never lengthens the line |
| TextFormat.RemoveSpacesAppend | VideoLogger.cpp:161 | removing spaces works piecewise over a concatenation |
| TextFormat.RemoveSpacesNone | VideoLogger.cpp:161 | a line without spaces is left as it is |
| TextFormat.RemoveSpacesJoin | VideoLogger.cpp:161 | removing spaces from space-free tokens joined by `", "` leaves them joined by `","` |
| TextFormat.TrimRight | VideoLogger.cpp:162 | `trim_right` keeps a prefix of the line that does not end in white space, and everything it drops is white space |
| TextFormat.TrimRightKeeps | VideoLogger.cpp:162 | a line not ending in white space is left as it is |
| VideoLogging.MakeFilepath | VideoLogger.hpp:59-64 | the path is the directory with one more component: the frame name with the extension appended |
| VideoLogging.MakeFilepathInjective | VideoLogger.hpp:59-64 | different frame names give different files in one directory |
| VideoLogging.PngNotTxt | VideoLogger.hpp:39-54 | a mask `.png` path never equals a `.txt` path |
| VideoLogging.BboxAndTextFilesDistinct | VideoLogger.hpp:30-32 | a frame's detection file and any metadata file never collide, since `Detections` and `Metadata` differ |
| VideoLogging.EnsureDirectory | VideoLogger.cpp:18-29 | creating one log directory succeeds iff it exists or can be created, adds exactly it, and otherwise fails naming it |
| VideoLogging.EnsureAll | VideoLogger.hpp:21-32 | creating a list of directories succeeds iff each exists or can be created; on failure it names the first that cannot |
| VideoLogging.PrepareLogdirs | VideoLogger.hpp:18-33 | the constructor ends with the base directory and `Annotations`, `Detections`, `Metadata` under it, or fails on one of those four that cannot be made |
| VideoLogging.VideoLogger.constructor | VideoLogger.hpp:18-33 | the three log directories are the base directory extended by their names; the disk is untouched |
| VideoLogging.NormalizeBox | VideoLogger.cpp:75-91 | a written box keeps its id and has `0 <= x1 <= x2 <= width` and `0 <= y1 <= y2 <= height` |
| VideoLogging.NormalizeAll | VideoLogger.cpp:75-94 | every box is normalised, in input order |
| VideoLogging.NormalizeKeepsFramedBox | VideoLogger.cpp:80-91 | an ordered box already inside the frame is written unchanged |
| VideoLogging.NormalizeIdempotent | VideoLogger.cpp:80-91 | normalising twice is the same as normalising once |
| VideoLogging.NormalizeIgnoresCornerOrder | VideoLogger.cpp:80-85 | swapping the corners, or the y-coordinates only, writes the same box |
| VideoLogging.BboxLine | VideoLogger.cpp:93 | a written line `id, x1, y1, x2, y2` holds no newline |
| VideoLogging.BboxTextLines | VideoLogger.cpp:71-95 | the detection file holds exactly one line per box, in input order: the normalised box with its id unchanged |
| VideoLogging.FormatBboxes | VideoLogger.cpp:71-95 | the loop that writes the detection file produces exactly that text |
| VideoLogging.ParseBboxLine | VideoLogger.cpp:160-172 | a line whose token count is not a multiple of five is refused (the assert), and a parsed id is an `int` |
| VideoLogging.BboxLineRoundTrip | VideoLogger.cpp:93 | reading back a written line gives the same box, for `int` fields |
| VideoLogging.ParseBboxLinesOfWritten | VideoLogger.cpp:157-173 | reading the written lines gives the normalised boxes in order |
| VideoLogging.BboxFileRoundTrip | VideoLogger.cpp:64-95 | write→read of a detection file is the identity up to normalisation |
| VideoLogging.FailingLineStopsRead | VideoLogger.cpp:159-171 | after lines that parse, the first line that fails ends the read with that line's error, whatever follows |
| VideoLogging.EmptyLineStopsRead | VideoLogger.cpp:164-165 | an empty line in a detection file splits into one token and fails the assert |
| VideoLogging.VideoLogger.HasAnnotations | VideoLogger.hpp:39-42 | `has_annotations` is true iff the frame's `.png` exists; when it is false `get_annotations` finds no instance, and when true it decodes that file |
| VideoLogging.VideoLogger.HasBoundingbox | VideoLogger.hpp:45-48 | `has_boundingbox` is true iff the `.txt` that `write_bboxes` writes exists; when it is false `get_boundingboxes` reads no box, and when true it parses that file |
| VideoLogging.VideoLogger.HasTextmetadata | VideoLogger.hpp:51-54 | `has_textmetadata` is true iff the frame's metadata `.txt` exists; when it is false `get_textmetadata` gives `""`, and when true the file's contents |
| VideoLogging.VideoLogger.GetTextmetadata | VideoLogger.cpp:178-189 | the metadata is the file's whole contents, or `""` when the file is absent |
| VideoLogging.VideoLogger.WriteBboxes | VideoLogger.cpp:64-105 | a non-empty list replaces the frame's detection file, an empty one removes it, `has_boundingbox` then reports which, the file reads back as the normalised boxes, and metadata is unchanged |
| VideoLogging.VideoLogger.WriteAnnotations | VideoLogger.cpp:32-60 | a non-empty list writes the frame's label image, an empty one removes it, `has_annotations` then reports which, and text files are unchanged |
| VideoLogging.VideoLogger.WriteTextmetadata | VideoLogger.cpp:107-115 | after writing, reading that frame's metadata gives the same string; other frames' metadata and every detection file are unchanged |
| VideoLogging.VideoLogger.GetAnnotations | VideoLogger.cpp:117-151 | the nested scan returns the decoding of the stored image, or nothing when it is absent |
| VideoLogging.VideoLogger.GetBoundingboxes | VideoLogger.cpp:153-176 | the line loop returns the parse of the stored detection file, or an empty list when it is absent |
| MaskCodec.InstanceLabel | VideoLogger.cpp:46 | the pixel value of instance `id` fits a byte and is `id + 1`, never background, for ids 0..254 |
| MaskCodec.LabelAt | VideoLogger.cpp:39-47 | every pixel value fits in a byte |
| MaskCodec.LabelIsLastCover | VideoLogger.cpp:40-47 | a pixel holds the label of the last instance that contains it, since later instances overwrite |
| MaskCodec.LabelZeroWhenUncovered | VideoLogger.cpp:39 | a pixel no instance contains stays background 0 |
| MaskCodec.RasterGrid | VideoLogger.cpp:39-47 | the label image is `height × width` with byte values |
| MaskCodec.Rasterise | VideoLogger.cpp:39-47 | the nested write loop, with out-of-frame points skipped, produces the label image above |
| MaskCodec.UncheckedRaster | VideoLogger.cpp:39-47 | the buffer written without a bounds check has `height * width` elements |
| MaskCodec.UncheckedWriteHitsNextRow | VideoLogger.cpp:46 | a point past the right edge of a row lands, unchecked, on a pixel of the next row |
| MaskCodec.UncheckedRasterMislabels | VideoLogger.cpp:46 | in a two-row image of width `w`, the point (`w`, 0) labels row 1, column 0 when written unchecked; the guarded write leaves that pixel background |
| MaskCodec.RowPointsMembers | VideoLogger.cpp:128-141 | the scan of one row collects exactly that row's pixels with the label |
| MaskCodec.ScanPointsMembers | VideoLogger.cpp:127-143 | the scan collects exactly the pixels with the label, in row-major order |
| MaskCodec.InstancesSound | VideoLogger.cpp:145-148 | each decoded instance is a label present in the image, carries all its pixels, and ids ascend |
| MaskCodec.InstancesComplete | VideoLogger.cpp:130-140 | every label present in the image yields an instance with id `label - 1` |
| MaskCodec.MaskRoundTrip | VideoLogger.cpp:39-47 | a frame pixel is found with label `k + 1` iff rasterisation gave it instance `k`'s label |
| MaskCodec.DecodedPixelOwner | VideoLogger.cpp:117-151 | write→read: for `0 <= k < 255`, an in-frame pixel appears in the decoded instance with id `k` iff its raster label is `k + 1`, i.e. the last written instance holding it has an id congruent to `k` modulo 256 |
| MaskCodec.DecodeLabelImage | VideoLogger.cpp:126-148 | the map-building scan and the emit loop return the decoded instances in ascending id order |
| FrameScenes.MoveCount | FrameScene.cpp:11-20 | the number moved is `min(k, |src|)`, or 0 for `k <= 0` |
| FrameScenes.MoveBack | FrameScene.cpp:11-20 | the combined length is unchanged, and `dst` grows by the number moved |
| FrameScenes.MoveBackOne | FrameScene.cpp:13-18 | each further iteration pops the next element from the back of `src` onto the back of `dst` |
| FrameScenes.PointUnRedo | FrameScene.cpp:11-20 | the pop/push loop moves the last `min(k, |src|)` elements in LIFO order |
| FrameScenes.MoveBackKeepsElements | FrameScene.cpp:11-20 | untouched elements stay in place, and the multiset of both lists is preserved |
| FrameScenes.ReversedSameElements | FrameScene.cpp:11-20 | popping in LIFO order keeps the same elements |
| FrameScenes.UndoRedoOneRestores | FrameScene.cpp:262 | undo then redo of one box restores both lists, exactly when there was a box or limbo was empty |
| FrameScenes.UndoRedoBrushAsymmetry | FrameScene.cpp:256-257 | undo takes back up to `brushsz²` points but redo returns one, so the mask ends one point past where undo left it |
| FrameScenes.GetQtColor | FrameScene.cpp:22-47 | for `id >= 0` the colour is palette entry `id % 17`; a negative id (whose C++ remainder is 0) is white |
| FrameScenes.ColorPeriodic | FrameScene.cpp:45-46 | colours repeat with period 17 |
| FrameScenes.ColorsShared | FrameScene.cpp:25-46 | two non-negative ids share a colour iff they agree modulo 17, since the palette entries are distinct |
| FrameScenes.BrushShape | FrameScene.cpp:49-61 | the brush stamps exactly `brushsz²` points (none for `brushsz <= 0`), row-major, at offsets `-brushsz/2 .. brushsz-1-brushsz/2` |
| FrameScenes.AddSegbrushPixels | FrameScene.cpp:49-61 | the nested loop appends the stamp to the mask and leaves existing points untouched |
| FrameScenes.PressAtRightEdgeStampsOutsideFrame | FrameScene.cpp:186-191 | a press clamped to the right edge stamps points outside the frame, since clamping admits `width` itself |
| FrameScenes.FirstHit | FrameScene.cpp:194-200 | the result is the first index that is hit, or -1 iff none is |
| FrameScenes.NewBoxAtClampedClick | FrameScene.cpp:186-187 | a new box starts at the click clamped to `[0, allowable_width] × [0, allowable_height]`, is empty, and keeps an in-range click |
| FrameScenes.FrameScene.constructor | FrameScene.cpp:64-79 | a new scene has nothing annotated, brush 8, bounding-box mode, nothing selected, id 0, and allowable size equal to the first frame |
| FrameScenes.FrameScene.SetInstanceId | FrameScene.hpp:27-32 | appends exactly `(old mask, old id)`, keeps earlier instances, empties the mask and sets the id |
| FrameScenes.FrameScene.SetBrushsz | FrameScene.hpp:34-37 | `get_brushsz` then returns the value set; nothing else changes |
| FrameScenes.FrameScene.GetBrushsz | FrameScene.hpp:39-41 | returns the brush size |
| FrameScenes.FrameScene.GetFrameWidth | FrameScene.hpp:43-45 | returns the shown frame's width |
| FrameScenes.FrameScene.GetFrameHeight | FrameScene.hpp:47-49 | returns the shown frame's height |
| FrameScenes.FrameScene.GetBoundingBoxes | FrameScene.hpp:51-53 | returns the stored boxes without changing state |
| FrameScenes.FrameScene.GetFrameAnnotations | FrameScene.hpp:55-57 | returns the stored instances without changing state |
| FrameScenes.FrameScene.SetMetadata | FrameScene.hpp:59-62 | appends the boxes and the instances after the existing ones, in order; nothing else changes |
| FrameScenes.FrameScene.DisplayFrame | FrameScene.cpp:81-102 | all four per-frame lists end empty; in segmentation mode the mask is flushed first, and the current box and selection are kept |
| FrameScenes.FrameScene.UndoLabel | FrameScene.cpp:252-269 | segmentation: `brushsz²` points go from the mask to limbo; boxes: one box goes to limbo; the other lists are unchanged |
| FrameScenes.FrameScene.RedoLabel | FrameScene.cpp:271-284 | one point, or one box, goes back from limbo; the other lists are unchanged |
| FrameScenes.FrameScene.SelectedFor | FrameScene.cpp:194-200 | the selection is the first box hit by the click, or -1 iff no box is hit |
| FrameScenes.FrameScene.MousePressEvent | FrameScene.cpp:174-218 | segmentation: stamps the brush at the clamped click; boxes: selects the first hit, or else starts an empty box at the clamped click; drawing begins |
| FrameScenes.FrameScene.MouseMoveEvent | FrameScene.cpp:155-172 | only while drawing: it stamps the brush, or moves the new box's bottom-right corner |
| FrameScenes.FrameScene.MouseReleaseEvent | FrameScene.cpp:220-250 | stamps the brush, translates the selected box, or completes the new box (signalling it once when asked); drawing ends |
| VideoReading.DecodeResult | VideoReader.hpp:122-162 | no frame iff the packet is not on the video stream, the decode fails or no picture comes out; otherwise exactly `height*width*3` converted elements |
| VideoReading.VideoReader.DecodePacket | VideoReader.hpp:143-158 | the copy loop returns a fresh buffer holding exactly that frame data |
| VideoReading.Stored | VideoReader.cpp:110-118 | the read loop stores no more slots than packets and no more than requested |
| VideoReading.FlushLen | VideoReader.cpp:131-138 | the flush writes at least one slot, exactly one once the count has reached `num_read_frames - 1`, and otherwise does not pass `num_read_frames` |
| VideoReading.ParseCountBounds | VideoReader.cpp:110-141 | the count is at least 1 (so the assert at line 80 holds) and at most `num_read_frames + 1`; it reaches `num_read_frames + 1` iff the video has that many packets |
| VideoReading.OverrunWithSourceCapacity | VideoReader.cpp:78 | with 16 frames requested, any video of 10 packets or more writes past a cache of `VFRAME_CACHE_SIZE` 10 slots |
| VideoReading.NoOverrunWithCorrectedCapacity | VideoReader.cpp:78 | 16 requested frames write at most 17 slots, and exactly 17 when 16 packets are available |
| VideoReading.VideoReader.constructor | VideoReader.hpp:25-26 | the cursor starts at 0, no frames are listed and the frame count is 0 |
| VideoReading.VideoReader.GetFrame | VideoReader.hpp:38-40 | returns the listed frame at a valid index without changing state |
| VideoReading.VideoReader.GetNextFrame | VideoReader.hpp:42-46 | returns the frame under the cursor and advances the cursor by exactly one |
| VideoReading.VideoReader.GetNumFrames | VideoReader.hpp:48-50 | always 0 |
| VideoReading.VideoReader.ReadPackets | VideoReader.cpp:110-118 | one slot per packet read (even when decoding fails), each mapped to `base + k`; it stops when packets run out or the count is reached, and one extra packet is consumed then; slots from the count on keep their contents |
| VideoReading.VideoReader.TakeFlushReply | VideoReader.cpp:131 | a flush call decodes the decoder's next reply and consumes it; once the replies are used up it gives null |
| VideoReading.VideoReader.FlushStep | VideoReader.cpp:131-135 | one round of the flush: slot `k` gets the next reply's decode and index `base + k`, later slots are untouched, and one reply is consumed |
| VideoReading.VideoReader.FlushSlots | VideoReader.cpp:130-138 | the `do … while` writes `FlushLen` slots after the stored ones, overruns iff that passes the capacity, consumes `min(FlushLen, replies)` replies, and leaves the slots from the count on unchanged |
| VideoReading.VideoReader.FlushDecoder | VideoReader.cpp:129-141 | slots continue consecutively until the first null decode or the count is reached, at least once; the decoder keeps the replies after the first `FlushLen` (all consumed if fewer remain), and the slots from the count on keep their contents |
| VideoReading.VideoReader.ParseVideo | VideoReader.cpp:88-142 | the returned count equals the slots written, each slot `k` holds the `k`-th decode and maps to `base + k`, and an overrun is reported iff the count exceeds the capacity; the packets and flush replies left for the next call are given exactly, and the slots from the count on keep their contents |
| VideoReading.VideoReader.ReadVideoFrames | VideoReader.cpp:72-86 | returns slot 0, mapped to `frame_index`, holding the first packet's decode; it overruns iff more than capacity slots are written, and never with 17 slots; the packets and flush replies left for the next batch are given exactly, and the slots from the count on keep their contents |
| Renumbering.LowerChar | adjust_annotation_numbering.py:20 | lowercasing keeps digits digits and non-digits non-digits |
| Renumbering.Lower | adjust_annotation_numbering.py:20 | lowercasing keeps the length |
| Renumbering.TextPrefixFacts | adjust_annotation_numbering.py:19 | the leading text piece is the longest digit-free prefix |
| Renumbering.DigitPrefixFacts | adjust_annotation_numbering.py:19 | a digit piece is a maximal run of digits |
| Renumbering.DigitRuns | adjust_annotation_numbering.py:21 | the split always yields at least one piece |
| Renumbering.DigitRunsConcat | adjust_annotation_numbering.py:21 | the pieces of the split concatenate back to the name |
| Renumbering.DigitRunsShape | adjust_annotation_numbering.py:21 | pieces alternate text, digit run, text, …, starting and ending with a (possibly empty) text |
| Renumbering.NaturalSortKey | adjust_annotation_numbering.py:19-21 | the key has one element per piece of the split |
| Renumbering.PieceKeysAlternate | adjust_annotation_numbering.py:20 | alternating pieces give an alternating key ending in a string |
| Renumbering.KeyAlternates | adjust_annotation_numbering.py:19-21 | the key alternates str, int, str, … and starts and ends with a str |
| Renumbering.NumericNameKey | adjust_annotation_numbering.py:19-21 | the key of `<digits><ext>` is `["", int(digits), ext.lower()]` |
| Renumbering.NaturalOrderIsNumeric | adjust_annotation_numbering.py:29 | two numbered names with the same extension are ordered iff their numbers are |
| Renumbering.KeyLessMiddle | adjust_annotation_numbering.py:29 | two keys that differ only in the middle element are ordered by that element |
| Renumbering.TwoBeforeTen | adjust_annotation_numbering.py:29 | `2.txt` sorts before `10.txt`, although it is after it as a plain string |
| Renumbering.LowerDigitRuns | adjust_annotation_numbering.py:21 | lowercasing commutes with the split |
| Renumbering.NaturalSortIgnoresCase | adjust_annotation_numbering.py:19-21 | the key of a lowercased name equals the key of the name |
| Renumbering.LastIndexOf | adjust_annotation_numbering.py:33 | the last occurrence of a character, or -1 iff it does not occur |
| Renumbering.SplitExt | adjust_annotation_numbering.py:33 | stem and extension concatenate back to the name |
| Renumbering.TxtSplitExt | adjust_annotation_numbering.py:33 | a `.txt` name splits into its stem and `.txt` |
| Renumbering.PyInt | adjust_annotation_numbering.py:34 | the empty string is not an integer |
| Renumbering.Zeros | adjust_annotation_numbering.py:34 | a run of `n` zero digits |
| Renumbering.Zfill | adjust_annotation_numbering.py:34 | `zfill` pads to the width and never shortens |
| Renumbering.PyIntOfDigits | adjust_annotation_numbering.py:34 | `int()` of a digit string is its decimal value |
| Renumbering.PyIntOfNegative | adjust_annotation_numbering.py:34 | `int()` of `-digits` is the negated value |
| Renumbering.LeadingZerosValue | adjust_annotation_numbering.py:34 | leading zeros do not change a decimal value |
| Renumbering.NewStemValue | adjust_annotation_numbering.py:34 | the new stem `str(v).zfill(w)` reads back as exactly `v` |
| Renumbering.NewStemLength | adjust_annotation_numbering.py:34 | the new stem is never shorter than the width, and longer only when the number's own digits are |
| Renumbering.DestName | adjust_annotation_numbering.py:33-35 | a destination exists exactly when the stem is an integer for `int()`, and it is never shorter than the original name |
| Renumbering.DestNameOfTxt | adjust_annotation_numbering.py:33-35 | a numbered `.txt` file moves to a `.txt` name at least as long, whose stem has value old + offset |
| Renumbering.CorrectAnnotations | adjust_annotation_numbering.py:23-37 | over the sorted listing, the moves happen in order into `outdir`, or into `logdir` when `outdir` is absent, and stop at the first failure |
| Renumbering.MoveAnnotations | adjust_annotation_numbering.py:30-37 | the loop moves each listed file in turn to its renumbered name and stops at the first failure, as `RenumberAll` states |
| Renumbering.RenumberStep | adjust_annotation_numbering.py:36-37 | a file whose destination is free moves, and the rest of the listing continues on the new directory |
| Renumbering.InPlaceRenumberCollides | adjust_annotation_numbering.py:36 | renumbering `1.txt, 2.txt` in place by +1 fails the assert at `2.txt` |
| Renumbering.RenumberKeepsOthers | adjust_annotation_numbering.py:30-37 | when every move applies (into another directory or in place), renumbering succeeds and files that are neither sources nor destinations are untouched |
| Renumbering.FirstFileMoves | adjust_annotation_numbering.py:36-37 | when every move applies (into another directory or in place), the first file ends at its destination with its contents, and its source is gone |
| Renumbering.RenumberMovesEveryFile | adjust_annotation_numbering.py:30-37 | when every move applies (into another directory or in place), every listed file ends at its destination with its contents, and no source remains |
| Renumbering.DestOfDigit | adjust_annotation_numbering.py:33-35 | a one-digit `.txt` name moves to the next digit's name under offset 1 |
| Renumbering.RenumberTwo | adjust_annotation_numbering.py:30-37 | two files whose moves are free one after the other both move, in order |
| Renumbering.InPlaceFreeDigits | adjust_annotation_numbering.py:24-37 | renumbering in place by +1 completes when no destination is taken: `1.txt, 3.txt` become `2.txt, 4.txt` with their contents |
| DetectionInterpolation.InterpolationSteps | DetectionInterpolate.hpp:20-22 | steps run `1..num_frames`, strictly increasing, and step 0 is never requested |
| DetectionInterpolation.Interpolate | DetectionInterpolate.hpp:16-26 | `num_frames` results (none when negative), element `i` being `lhs.predict(rhs, num_frames, i + 1)` |
| DetectionInterpolation.InterpolateSequence | DetectionInterpolate.hpp:35-39 | the strategy's result: one prediction per step, in step order |

## Left out

- ffmpeg calls: opening, stream probing, `av_read_frame`, `avcodec_decode_video2`, `sws_scale`, allocation and freeing. They become the packet and reply sequences, and the `AVParams` set-up and destructor have no counterpart.
- `intialize_ffmpeg`: its exceptions (no stream, no codec, no scaler context) are library I/O.
- The repeated `av_frame_alloc` in `parse_video` leaks memory; this is not modelled.
- OpenCV `imwrite`/`imread` are not modelled. A label image is stored as the grid itself, and the PNG encoding is left out.
- `boost::filesystem` and stream I/O become the two storage maps.
- The `exists` check of the `VideoLogger` constructor and `create_logdirs` is modelled by `PrepareLogdirs`, apart from the object.
- Qt painting and event plumbing: `drawBackground`, `drawForeground`, `keyPressEvent`, scene items, `update`.
- The other GUI classes (`VideoWindow`, `InterpolatePanel`, `FrameViewer`, `BoundingBoxViz`, `main.cpp`) and all console logging.
- Floating point: the rounding of mouse positions and `std::rint` of the move amount are left out, and clicks arrive as integers.
- `BoundingBox<float>::predict` is not part of this model.
- `BoundingBoxViz::intersects_bbox_frame` is not part of this model. It is a function parameter of the scene.
- VideoFrame: the shared ownership of pixel data (copies share one buffer) is not captured; data is a value.
- FrameScenes.FrameScene.UndoLabel: the product `brushsz * brushsz` is unbounded, so the `int` overflow of a huge brush is not modelled.
- FrameScenes.GetQtColor: a negative id with a non-zero C++ remainder indexes before the palette, which is undefined behaviour. The precondition excludes it.
- FrameScenes.FrameScene.MouseReleaseEvent: completing a box appends the very object `current_bbox` still holds (`FrameScene.cpp:240`), and only the next press replaces it (`FrameScene.cpp:205`, `FrameScene.cpp:210`). A second release with no press between, as in the press, release, double-click, release sequence Qt delivers for a double-click, re-corners and re-ids that object (`FrameScene.cpp:237-238`) and appends it again, so both entries are one box with the second corner; translating either then moves both, and undo moves one of the two pointers. The model appends an independent value each time, so its first entry keeps the first corner. This aliasing is not modelled.
- FrameScenes.FrameScene.MouseReleaseEvent: a selected index that an undo has since put out of range is undefined behaviour in C++. The precondition excludes it.
- VideoReading.VideoReader.GetNextFrame: reading past the listed frames is undefined behaviour in C++. The precondition excludes it.
- VideoReading.VideoReader.GetFrame: `frames` is never filled, so no reachable state meets the precondition that `index` is a listed frame's position; every call the source makes reads out of range, which is undefined behaviour in C++, and the model has no counterpart for it.
- VideoLogging.VideoLogger.WriteAnnotations: OpenCV throws for a negative frame size. The precondition excludes it.
- VideoLogging.VideoLogger.WriteAnnotations: it stores the corrected raster (`MaskCodec.RasterGrid`), which skips points outside the frame. The unchecked write of `VideoLogger.cpp:46`, which puts a point past a row's right edge on the next row, is modelled only by `MaskCodec.UncheckedRaster` and the finding below. Such points do occur: a press clamped to the right edge stamps x = `width` (`FrameScenes.PressAtRightEdgeStampsOutsideFrame`), and moves and releases are not clamped.
- The scene's `current_frame` pixmap and the `this->removeItem`/`addItem` scene bookkeeping are left out. Only the frame's size is kept.
- The constructor reads `mode` in `display_frame` before setting it. The model starts from the state the constructor leaves.
- `get_size_hint` and the `cursor` text item of the header revision are display-only.
- VideoReading.VideoReader.FlushDecoder: the flush clears only the packet's data and size (`VideoReader.cpp:128-129`). So every flush call of `decode_packet` tests the stream index of the last packet read, and a video whose last packet is not video flushes nothing. The model lets each flush reply carry its own stream index. That covers the source's case, where every reply has the last packet's index, but it also admits mixtures the source cannot produce.
- VideoReading.VideoReader.ParseVideo: a write past the slot array is undefined behaviour in C++. The model stops and reports `overrun` instead.
- `av_free_packet` of the packet left unstored at the limit is left out.
- The commented-out code (the index-map initialisation, the cancellation check, the frame pacing and the mode hotkeys) is not modelled.
- Renumbering.Lower: only ASCII letters are case-folded, and `isdigit` accepts only ASCII digits. Python's Unicode rules for both are left out.
- Renumbering.PyInt: the ASCII digits and one optional sign (`-` or `+`) are modelled; `int()`'s tolerance of surrounding whitespace and of `_` separators is not, and neither are non-ASCII decimal digits (`int("٣") == 3`), which `PyInt` refuses.
- `os.path.exists`/`os.makedirs` of `outdir`, and the `docopt` command line, are left out.
- Renumbering.CorrectAnnotations: `outdir` is an `Option`, and `None` falls back to `logdir`. From the command line (`adjust_annotation_numbering.py:44-45`), however, docopt's `[default: None]` (`adjust_annotation_numbering.py:16`) yields the string "None". The script then creates and fills a directory of that name, and only a direct call reaches the in-place fallback.
- The comment at `adjust_annotation_numbering.py:32` says a file moves to `offset_num` less than its number; the code at line 34 adds `offset_num`, and the model follows the code.
- `glob` is modelled by the `SortedListing` precondition: the names are exactly the directory's `.txt` files, sorted by the natural key. Python's `sorted` itself is not modelled. The script sorts the full paths `os.path.join(logdir, name)`, while the model keys the bare names; the two orders coincide because every path shares the same prefix, which ends in `/`.
- `shutil.move` is modelled as a move within the directory map.

## Findings

| source | as written | input that shows it | evidently intended | confidence | as-written member | corrected member |
|---|---|---|---|---|---|---|
| VideoReader.hpp:23, VideoReader.cpp:78, VideoReader.cpp:131-138 | if the commented-out `std::array<…, VFRAME_CACHE_SIZE>` declarations of `frame_cache` and `frame_cache_idxmap` are restored, the cache holds `VFRAME_CACHE_SIZE` = 10 slots, but `read_video_frames` asks `parse_video` for 16 frames, and the flush can write one more | any video with at least 10 packets: slot 10 at least, and up to slot 16, is written past the end of the arrays | a cache of at least `NREAD_FRAMES + 1` = 17 slots | not executed | VideoReading.OverrunWithSourceCapacity | VideoReading.NoOverrunWithCorrectedCapacity |
| VideoLogger.cpp:46 | `at<uint8_t>(row, col)` writes a mask point without checking it lies in the frame | a 2×2 frame (or any two-row frame of width `w`) with one instance holding the point x = 2 (x = `w`), y = 0: pixel row 1, column 0 is labelled, though no instance holds it | points outside the frame are skipped | not executed | MaskCodec.UncheckedRasterMislabels | MaskCodec.Rasterise |
