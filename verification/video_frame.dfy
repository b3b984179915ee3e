/** `VideoFrame`: decoded pixel data with its height, width and row stride. */
module Frames {
  import opened Wrappers

  /** `uint8_t`, the pixel element type of the reader. */
  type PixelT = x: int | 0 <= x < 256

  /** `data` is `None` for a null pointer; otherwise it holds the pixel elements. */
  datatype VideoFrame = VideoFrame(data: Option<seq<PixelT>>, height: int, width: int, stride: int)

  /** The three-argument constructor delegates with `stride = width`. */
  function FrameOf(data: Option<seq<PixelT>>, height: int, width: int): (f: VideoFrame)
    ensures f.data == data && f.height == height && f.width == width
    ensures f.stride == f.width
  {
    VideoFrame(data, height, width, width)
  }

  /** The default constructor: null data and all dimensions 0. */
  function EmptyFrame(): (f: VideoFrame)
    ensures f.data == None && f.height == 0 && f.width == 0 && f.stride == 0
  {
    FrameOf(None, 0, 0)
  }
}
