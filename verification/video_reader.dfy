/** `VideoReader`: decodes a batch of frames into a slot array. `parse_video`
    reads packets from the demuxer and stores one decoded frame per packet in
    consecutive slots, recording for slot `k` the frame index `base + k`; then it
    flushes the decoder, storing at least one more slot. The demuxer and the
    decoder are not part of the model: the packets still to be read are a list,
    each carrying the reply the decoder gives for it, and the flush replies are a
    second list. */
module VideoReading {
  import opened Wrappers
  import opened Numeric
  import opened Frames

  /** The capacity the header gives the (commented-out) slot arrays. */
  const VFRAME_CACHE_SIZE: nat := 10
  /** The batch size `read_video_frames` asks `parse_video` for. */
  const NREAD_FRAMES: int := 16
  /** The slots `parse_video(_, NREAD_FRAMES)` can write: the flush always writes one
      slot past a full batch. */
  const CORRECTED_CACHE_SIZE: nat := 17

  /** What `avcodec_decode_video2` followed by `sws_scale` gives for a packet: an
      error, no picture yet, or a picture converted to BGR24 whose first row
      occupies `linesize` bytes of `converted`. */
  datatype CodecReply = DecodeError | NoPicture | Picture(converted: seq<PixelT>, linesize: int)

  /** A demuxed packet: the stream it belongs to and what decoding it gives. */
  datatype Packet = Packet(streamIndex: int, reply: CodecReply)

  /** The element count of one BGR24 frame. */
  function PixelElems(height: nat, width: nat): nat {
    height * width * 3
  }

  /** A converted picture holds `linesize * height` bytes, and the `assert` in
      `decode_packet` demands that this is exactly `height * width * 3`. */
  predicate ReplyWellFormed(reply: CodecReply, height: nat, width: nat) {
    reply.Picture? ==> |reply.converted| == reply.linesize * height && reply.linesize * height == PixelElems(height, width)
  }

  predicate PacketsWellFormed(pkts: seq<Packet>, height: nat, width: nat) {
    forall i :: 0 <= i < |pkts| ==> ReplyWellFormed(pkts[i].reply, height, width)
  }

  /** What `decode_packet` returns: null (`None`) for a packet of another stream, a
      decoding error, or no picture; otherwise a copy of the `height * width * 3`
      picture elements. */
  function DecodeResult(pkt: Packet, videoStreamIdx: int, height: nat, width: nat): (r: Option<seq<PixelT>>)
    requires ReplyWellFormed(pkt.reply, height, width)
    ensures r.None? <==> pkt.streamIndex != videoStreamIdx || !pkt.reply.Picture?
    ensures r.Some? ==> |r.value| == PixelElems(height, width) && r.value == pkt.reply.converted
  {
    if pkt.streamIndex != videoStreamIdx then None
    else
      match pkt.reply
      case DecodeError => None
      case NoPicture => None
      case Picture(converted, _) => Some(converted[..PixelElems(height, width)])
  }

  /** The reply to the `i`-th flush call: past the end of the list the decoder has
      nothing left. */
  function DrainAt(drain: seq<Packet>, i: nat, videoStreamIdx: int, height: nat, width: nat): Option<seq<PixelT>>
    requires PacketsWellFormed(drain, height, width)
  {
    if i < |drain| then DecodeResult(drain[i], videoStreamIdx, height, width) else None
  }

  /** The reply to flush call `i` is the first reply of what is left after `i`
      calls. */
  lemma DrainAtSuffix(drain: seq<Packet>, i: nat, videoStreamIdx: int, height: nat, width: nat)
    requires PacketsWellFormed(drain, height, width)
    ensures PacketsWellFormed(drain[Min(i, |drain|)..], height, width)
    ensures DrainAt(drain[Min(i, |drain|)..], 0, videoStreamIdx, height, width) == DrainAt(drain, i, videoStreamIdx, height, width)
  {
    var rest := drain[Min(i, |drain|)..];
    assert forall j :: 0 <= j < |rest| ==> rest[j] == drain[Min(i, |drain|) + j];
  }

  /** A slot past the reading loop's holds a flush reply. */
  lemma FlushSlotData(demux: seq<Packet>, drain: seq<Packet>, numReadFrames: int, k: nat,
                      videoStreamIdx: int, height: nat, width: nat)
    requires PacketsWellFormed(demux, height, width) && PacketsWellFormed(drain, height, width)
    requires k >= Stored(|demux|, numReadFrames)
    ensures SlotData(demux, drain, numReadFrames, k, videoStreamIdx, height, width) ==
            DrainAt(drain, k - Stored(|demux|, numReadFrames), videoStreamIdx, height, width)
  {
  }

  /** Dropping one more element of a suffix (none once it is empty). */
  lemma SuffixStep<T>(s: seq<T>, taken: nat)
    requires taken <= |s|
    ensures s[taken..][Min(1, |s| - taken)..] == s[Min(taken + 1, |s|)..]
  {
  }

  /** The slots the reading loop fills: one per packet read while fewer than
      `numReadFrames` are stored. */
  function Stored(demuxLen: nat, numReadFrames: int): (s: nat)
    ensures s <= demuxLen && (numReadFrames >= 0 ==> s <= numReadFrames)
  {
    Min(demuxLen, Max(numReadFrames, 0))
  }

  /** The packets the reading loop takes from the demuxer: the condition reads a
      packet before it tests the count, so a packet beyond the stored ones is read
      and dropped. */
  function Consumed(demuxLen: nat, numReadFrames: int): nat {
    Min(demuxLen, Stored(demuxLen, numReadFrames) + 1)
  }

  /** The slots the flush `do … while` writes when it starts at slot `start`: one,
      and another each time the decoder gave a picture and the count is still
      below `numReadFrames`. */
  function FlushLen(drain: seq<Packet>, start: int, numReadFrames: int, videoStreamIdx: int, height: nat, width: nat): (n: nat)
    requires PacketsWellFormed(drain, height, width)
    ensures n >= 1
    ensures start + 1 >= numReadFrames ==> n == 1
    ensures start < numReadFrames ==> start + n <= numReadFrames
    decreases |drain|
  {
    if DrainAt(drain, 0, videoStreamIdx, height, width).Some? && start + 1 < numReadFrames then
      1 + FlushLen(drain[1..], start + 1, numReadFrames, videoStreamIdx, height, width)
    else 1
  }

  /** The count `parse_video` returns. */
  function ParseCount(demux: seq<Packet>, drain: seq<Packet>, numReadFrames: int, videoStreamIdx: int, height: nat, width: nat): nat
    requires PacketsWellFormed(drain, height, width)
  {
    var stored := Stored(|demux|, numReadFrames);
    stored + FlushLen(drain, stored, numReadFrames, videoStreamIdx, height, width)
  }

  /** The pixel data stored in slot `k`: the decoded packet `k` for the slots of the
      reading loop, the flush reply `k - stored` after them. */
  function SlotData(demux: seq<Packet>, drain: seq<Packet>, numReadFrames: int, k: nat,
                    videoStreamIdx: int, height: nat, width: nat): Option<seq<PixelT>>
    requires PacketsWellFormed(demux, height, width) && PacketsWellFormed(drain, height, width)
  {
    var stored := Stored(|demux|, numReadFrames);
    if k < stored then DecodeResult(demux[k], videoStreamIdx, height, width)
    else DrainAt(drain, k - stored, videoStreamIdx, height, width)
  }

  /** The count is at least 1, so the `assert` of `read_video_frames` holds; it is at
      most one past the batch; and it is exactly one past the batch when the
      demuxer still held a full batch of packets. */
  lemma ParseCountBounds(demux: seq<Packet>, drain: seq<Packet>, numReadFrames: int, videoStreamIdx: int, height: nat, width: nat)
    requires PacketsWellFormed(drain, height, width)
    ensures var count := ParseCount(demux, drain, numReadFrames, videoStreamIdx, height, width);
            count >= 1 &&
            count <= Max(numReadFrames, 0) + 1 &&
            (numReadFrames >= 1 ==> (count == numReadFrames + 1 <==> |demux| >= numReadFrames))
  {
  }

  /** As the source sizes the slot arrays: a 16-frame batch from a demuxer still
      holding 10 packets needs more than 10 slots. */
  lemma OverrunWithSourceCapacity(demux: seq<Packet>, drain: seq<Packet>, videoStreamIdx: int, height: nat, width: nat)
    requires PacketsWellFormed(drain, height, width)
    requires |demux| >= VFRAME_CACHE_SIZE
    ensures ParseCount(demux, drain, NREAD_FRAMES, videoStreamIdx, height, width) > VFRAME_CACHE_SIZE
  {
  }

  /** With `NREAD_FRAMES + 1` slots a batch always fits. */
  lemma NoOverrunWithCorrectedCapacity(demux: seq<Packet>, drain: seq<Packet>, videoStreamIdx: int, height: nat, width: nat)
    requires PacketsWellFormed(drain, height, width)
    ensures ParseCount(demux, drain, NREAD_FRAMES, videoStreamIdx, height, width) <= CORRECTED_CACHE_SIZE
    ensures |demux| >= NREAD_FRAMES ==> ParseCount(demux, drain, NREAD_FRAMES, videoStreamIdx, height, width) == CORRECTED_CACHE_SIZE
  {
    ParseCountBounds(demux, drain, NREAD_FRAMES, videoStreamIdx, height, width);
  }

  class VideoReader {
    /** The slot arrays, of a capacity given at construction. */
    const frameCache: array<VideoFrame>
    const frameCacheIdxmap: array<int>
    const videoStreamIdx: int
    /** The decoder's picture size. */
    const height: nat
    const width: nat
    /** The packets the demuxer has not handed out yet. */
    var demux: seq<Packet>
    /** The replies of the decoder to the flush calls still to come. */
    var drain: seq<Packet>
    var currentFrameIdx: int
    var frames: seq<VideoFrame>
    var videoFrameCount: int

    ghost predicate Valid()
      reads this
    {
      frameCache.Length == frameCacheIdxmap.Length && frameCache.Length >= 1 &&
      PacketsWellFormed(demux, height, width) && PacketsWellFormed(drain, height, width) &&
      videoFrameCount == 0
    }

    /** A reader over an opened video: cursor 0, no frames listed, frame count 0. */
    constructor(cacheSize: nat, streamIdx: int, frameHeight: nat, frameWidth: nat, packets: seq<Packet>, flushReplies: seq<Packet>)
      requires cacheSize >= 1
      requires PacketsWellFormed(packets, frameHeight, frameWidth) && PacketsWellFormed(flushReplies, frameHeight, frameWidth)
      ensures Valid() && fresh(frameCache) && fresh(frameCacheIdxmap)
      ensures frameCache.Length == cacheSize
      ensures currentFrameIdx == 0 && frames == [] && videoFrameCount == 0
      ensures videoStreamIdx == streamIdx && height == frameHeight && width == frameWidth
      ensures demux == packets && drain == flushReplies
    {
      frameCache := new VideoFrame[cacheSize](_ => EmptyFrame());
      frameCacheIdxmap := new int[cacheSize];
      videoStreamIdx := streamIdx;
      height, width := frameHeight, frameWidth;
      demux, drain := packets, flushReplies;
      currentFrameIdx := 0;
      frames := [];
      videoFrameCount := 0;
    }

    /** `get_frame`: the listed frame at `index`; nothing changes. */
    function GetFrame(index: int): (f: VideoFrame)
      reads this
      requires 0 <= index < |frames|
      ensures f == frames[index]
    {
      frames[index]
    }

    /** `get_next_frame`: the frame under the cursor, and the cursor moves on by one.
        The source does not check the cursor against the list. */
    method GetNextFrame() returns (frame: VideoFrame)
      requires 0 <= currentFrameIdx < |frames|
      modifies this
      ensures frame == old(frames[currentFrameIdx])
      ensures currentFrameIdx == old(currentFrameIdx) + 1
      ensures frames == old(frames) && demux == old(demux) && drain == old(drain) && videoFrameCount == old(videoFrameCount)
    {
      frame := frames[currentFrameIdx];
      currentFrameIdx := currentFrameIdx + 1;
    }

    /** `get_num_frames`: the frame counter, only ever raised by debug code that is
        compiled out, so always 0. */
    function GetNumFrames(): (n: int)
      reads this
      requires Valid()
      ensures n == 0
    {
      videoFrameCount
    }

    /** `decode_packet` for one packet: null unless it is a picture of the video
        stream, otherwise a fresh copy of its `height * width * 3` elements. */
    method DecodePacket(pkt: Packet) returns (fdata: Option<seq<PixelT>>)
      requires ReplyWellFormed(pkt.reply, height, width)
      ensures fdata == DecodeResult(pkt, videoStreamIdx, height, width)
      ensures fdata.Some? ==> |fdata.value| == PixelElems(height, width)
    {
      if pkt.streamIndex != videoStreamIdx {
        return None;
      }
      match pkt.reply {
        case DecodeError =>
          return None;
        case NoPicture =>
          return None;
        case Picture(srcData, _) =>
          var nPixelElems := PixelElems(height, width);
          var dataFrame := new PixelT[nPixelElems](_ => 0);
          for i := 0 to nPixelElems
            invariant dataFrame[..i] == srcData[..i]
          {
            dataFrame[i] := srcData[i];
          }
          assert dataFrame[..] == dataFrame[..nPixelElems];
          return Some(dataFrame[..]);
      }
    }

    /** The slots `0 .. n - 1` hold the frames and indices `parse_video` stores. */
    ghost predicate SlotsFilled(n: nat, d0: seq<Packet>, dr0: seq<Packet>, base: int, numReadFrames: int)
      reads this, frameCache, frameCacheIdxmap
      requires PacketsWellFormed(d0, height, width) && PacketsWellFormed(dr0, height, width)
    {
      n <= frameCache.Length && n <= frameCacheIdxmap.Length &&
      forall k :: 0 <= k < n ==>
        frameCache[k] == FrameOf(SlotData(d0, dr0, numReadFrames, k, videoStreamIdx, height, width), height, width) &&
        frameCacheIdxmap[k] == base + k
    }

    /** The slots from `n` on hold what they held before, given as `cache` and `idxmap`. */
    ghost predicate SlotsKept(n: nat, cache: seq<VideoFrame>, idxmap: seq<int>)
      reads frameCache, frameCacheIdxmap
    {
      |cache| == frameCache.Length && |idxmap| == frameCacheIdxmap.Length &&
      forall k :: n <= k < frameCache.Length && k < frameCacheIdxmap.Length ==>
        frameCache[k] == cache[k] && frameCacheIdxmap[k] == idxmap[k]
    }

    /** `frame_cache[k] = VideoFrame(fdata, …)` and `frame_cache_idxmap[k] = base + k`:
        slot `k` joins the filled slots. */
    method StoreSlot(k: nat, fdata: Option<seq<PixelT>>, base: int, ghost d0: seq<Packet>, ghost dr0: seq<Packet>, ghost numReadFrames: int)
      requires PacketsWellFormed(d0, height, width) && PacketsWellFormed(dr0, height, width)
      requires k < frameCache.Length && frameCacheIdxmap.Length == frameCache.Length
      requires SlotsFilled(k, d0, dr0, base, numReadFrames)
      requires fdata == SlotData(d0, dr0, numReadFrames, k, videoStreamIdx, height, width)
      modifies frameCache, frameCacheIdxmap
      ensures SlotsFilled(k + 1, d0, dr0, base, numReadFrames)
      ensures SlotsKept(k + 1, old(frameCache[..]), old(frameCacheIdxmap[..]))
    {
      frameCache[k] := FrameOf(fdata, height, width);
      frameCacheIdxmap[k] := base + k;
    }

    /** The reading loop of `parse_video`: one slot per packet read while fewer than
        `numReadFrames` are stored; the packet read when the batch is full is
        dropped. */
    method ReadPackets(baseFrameIndex: int, numReadFrames: int) returns (nframesRead: int, overrun: bool)
      requires Valid()
      modifies this, frameCache, frameCacheIdxmap
      ensures Valid() && drain == old(drain)
      ensures var stored := Stored(|old(demux)|, numReadFrames);
              (overrun <==> stored > frameCache.Length) &&
              (!overrun ==> nframesRead == stored && demux == old(demux)[Consumed(|old(demux)|, numReadFrames)..]) &&
              SlotsFilled(Min(stored, frameCache.Length), old(demux), old(drain), baseFrameIndex, numReadFrames)
      ensures SlotsKept(Stored(|old(demux)|, numReadFrames), old(frameCache[..]), old(frameCacheIdxmap[..]))
      ensures currentFrameIdx == old(currentFrameIdx) && frames == old(frames)
    {
      ghost var d0, dr0 := demux, drain;
      ghost var stored := Stored(|d0|, numReadFrames);
      ghost var cache0, idxmap0 := frameCache[..], frameCacheIdxmap[..];
      ghost var cursor, listed := currentFrameIdx, frames;
      nframesRead, overrun := 0, false;
      while |demux| > 0
        invariant 0 <= nframesRead <= stored && nframesRead <= frameCache.Length
        invariant demux == d0[nframesRead..] && PacketsWellFormed(demux, height, width)
        invariant nframesRead < stored ==> |demux| > 0
        invariant SlotsFilled(nframesRead, d0, dr0, baseFrameIndex, numReadFrames)
        invariant SlotsKept(nframesRead, cache0, idxmap0)
        invariant Valid() && drain == dr0
        invariant currentFrameIdx == cursor && frames == listed
      {
        var pkt := demux[0];
        demux := demux[1..];
        if nframesRead >= numReadFrames {
          break;
        }
        var fdata := DecodePacket(pkt);
        if nframesRead >= frameCache.Length {
          overrun := true;
          return;
        }
        StoreSlot(nframesRead, fdata, baseFrameIndex, d0, dr0, numReadFrames);
        nframesRead := nframesRead + 1;
      }
      assert nframesRead == stored;
    }

    /** One flush call of `decode_packet`: the decoder's next flush reply is decoded
        and consumed; once they are used up it gives nothing. */
    method TakeFlushReply(replies: seq<Packet>) returns (fdata: Option<seq<PixelT>>, rest: seq<Packet>)
      requires PacketsWellFormed(replies, height, width)
      ensures fdata == DrainAt(replies, 0, videoStreamIdx, height, width)
      ensures rest == replies[Min(1, |replies|)..] && PacketsWellFormed(rest, height, width)
    {
      fdata, rest := None, replies;
      if |replies| > 0 {
        fdata := DecodePacket(replies[0]);
        rest := replies[1..];
      }
    }

    /** The flush `do … while` of `parse_video`, from slot `start` on: at least one
        slot, and one more for each picture the decoder still gives while the count
        is below `numReadFrames`. */
    method FlushDecoder(baseFrameIndex: int, numReadFrames: int, start: nat, ghost d0: seq<Packet>) returns (nframesRead: int, overrun: bool)
      requires Valid() && PacketsWellFormed(d0, height, width)
      requires start == Stored(|d0|, numReadFrames) && start <= frameCache.Length
      requires SlotsFilled(start, d0, drain, baseFrameIndex, numReadFrames)
      modifies this, frameCache, frameCacheIdxmap
      ensures Valid() && demux == old(demux)
      ensures var count := start + FlushLen(old(drain), start, numReadFrames, videoStreamIdx, height, width);
              (overrun <==> count > frameCache.Length) &&
              (!overrun ==> nframesRead == count) &&
              SlotsFilled(Min(count, frameCache.Length), d0, old(drain), baseFrameIndex, numReadFrames)
      ensures var flushed := FlushLen(old(drain), start, numReadFrames, videoStreamIdx, height, width);
              (!overrun ==> drain == old(drain)[Min(flushed, |old(drain)|)..]) &&
              SlotsKept(start + flushed, old(frameCache[..]), old(frameCacheIdxmap[..]))
      ensures currentFrameIdx == old(currentFrameIdx) && frames == old(frames)
    {
      var rest;
      nframesRead, overrun, rest := FlushSlots(baseFrameIndex, numReadFrames, start, d0, drain);
      drain := rest;
    }

    /** One round of the flush loop: the next reply is decoded into slot `k`. */
    method FlushStep(baseFrameIndex: int, numReadFrames: int, k: nat, ghost d0: seq<Packet>, ghost dr0: seq<Packet>,
                     ghost taken: nat, replies: seq<Packet>)
      returns (fdata: Option<seq<PixelT>>, rest: seq<Packet>)
      requires PacketsWellFormed(d0, height, width) && PacketsWellFormed(dr0, height, width)
      requires frameCacheIdxmap.Length == frameCache.Length && k < frameCache.Length
      requires k >= Stored(|d0|, numReadFrames) && taken == Min(k - Stored(|d0|, numReadFrames), |dr0|)
      requires replies == dr0[taken..]
      requires SlotsFilled(k, d0, dr0, baseFrameIndex, numReadFrames)
      modifies frameCache, frameCacheIdxmap
      ensures fdata == DrainAt(replies, 0, videoStreamIdx, height, width)
      ensures rest == replies[Min(1, |replies|)..] && rest == dr0[Min(taken + 1, |dr0|)..]
      ensures PacketsWellFormed(rest, height, width)
      ensures SlotsFilled(k + 1, d0, dr0, baseFrameIndex, numReadFrames)
      ensures SlotsKept(k + 1, old(frameCache[..]), old(frameCacheIdxmap[..]))
    {
      DrainAtSuffix(dr0, k - Stored(|d0|, numReadFrames), videoStreamIdx, height, width);
      fdata, rest := TakeFlushReply(replies);
      SuffixStep(dr0, taken);
      StoreSlot(k, fdata, baseFrameIndex, d0, dr0, numReadFrames);
    }

    /** The loop of the flush over the decoder's remaining replies `dr0`: the slots
        it fills, and the replies it leaves. */
    method FlushSlots(baseFrameIndex: int, numReadFrames: int, start: nat, ghost d0: seq<Packet>, dr0: seq<Packet>)
      returns (nframesRead: int, overrun: bool, rest: seq<Packet>)
      requires PacketsWellFormed(d0, height, width) && PacketsWellFormed(dr0, height, width)
      requires frameCacheIdxmap.Length == frameCache.Length
      requires start == Stored(|d0|, numReadFrames) && start <= frameCache.Length
      requires SlotsFilled(start, d0, dr0, baseFrameIndex, numReadFrames)
      modifies frameCache, frameCacheIdxmap
      ensures var count := start + FlushLen(dr0, start, numReadFrames, videoStreamIdx, height, width);
              overrun <==> count > frameCache.Length
      ensures var flushed := FlushLen(dr0, start, numReadFrames, videoStreamIdx, height, width);
              !overrun ==> nframesRead == start + flushed && rest == dr0[Min(flushed, |dr0|)..]
      ensures var count := start + FlushLen(dr0, start, numReadFrames, videoStreamIdx, height, width);
              SlotsFilled(Min(count, frameCache.Length), d0, dr0, baseFrameIndex, numReadFrames)
      ensures SlotsKept(start + FlushLen(dr0, start, numReadFrames, videoStreamIdx, height, width),
                        old(frameCache[..]), old(frameCacheIdxmap[..]))
      ensures PacketsWellFormed(rest, height, width)
    {
      ghost var cache0, idxmap0 := frameCache[..], frameCacheIdxmap[..];
      ghost var count := start + FlushLen(dr0, start, numReadFrames, videoStreamIdx, height, width);
      nframesRead, overrun := start, false;
      rest := dr0;
      ghost var taken: nat := 0;
      var flushing := true;
      while flushing
        invariant start <= nframesRead <= frameCache.Length
        invariant taken == Min(nframesRead - start, |dr0|)
        invariant rest == dr0[taken..] && PacketsWellFormed(rest, height, width)
        invariant flushing ==> count == nframesRead + FlushLen(rest, nframesRead, numReadFrames, videoStreamIdx, height, width)
        invariant !flushing ==> nframesRead == count
        invariant SlotsFilled(nframesRead, d0, dr0, baseFrameIndex, numReadFrames)
        invariant SlotsKept(nframesRead, cache0, idxmap0)
        invariant !overrun
        decreases |rest|, flushing
      {
        if nframesRead >= frameCache.Length {
          overrun := true;
          break;
        }
        var fdata;
        fdata, rest := FlushStep(baseFrameIndex, numReadFrames, nframesRead, d0, dr0, taken, rest);
        taken := Min(taken + 1, |dr0|);
        nframesRead := nframesRead + 1;
        var gotFrame := fdata.Some?;
        flushing := gotFrame && nframesRead < numReadFrames;
      }
    }

    /** `parse_video(base, numReadFrames)`. It returns the count of slots written,
        each frame with its index `base + k`. A write past the slot arrays, which
        the source performs unchecked, is reported as `overrun`: it happens exactly
        when the count would exceed the capacity, and the slots up to the capacity
        are filled as the source fills them. */
    method ParseVideo(baseFrameIndex: int, numReadFrames: int) returns (nframesRead: int, overrun: bool)
      requires Valid()
      modifies this, frameCache, frameCacheIdxmap
      ensures Valid()
      ensures var count := ParseCount(old(demux), old(drain), numReadFrames, videoStreamIdx, height, width);
              (overrun <==> count > frameCache.Length) &&
              (!overrun ==> nframesRead == count) &&
              SlotsFilled(Min(count, frameCache.Length), old(demux), old(drain), baseFrameIndex, numReadFrames)
      ensures !overrun ==> demux == old(demux)[Consumed(|old(demux)|, numReadFrames)..]
      ensures var flushed := FlushLen(old(drain), Stored(|old(demux)|, numReadFrames), numReadFrames, videoStreamIdx, height, width);
              !overrun ==> drain == old(drain)[Min(flushed, |old(drain)|)..]
      ensures SlotsKept(ParseCount(old(demux), old(drain), numReadFrames, videoStreamIdx, height, width),
                        old(frameCache[..]), old(frameCacheIdxmap[..]))
      ensures currentFrameIdx == old(currentFrameIdx) && frames == old(frames)
    {
      ghost var d0, dr0 := demux, drain;
      ghost var stored := Stored(|d0|, numReadFrames);
      nframesRead, overrun := ReadPackets(baseFrameIndex, numReadFrames);
      if overrun {
        return;
      }
      nframesRead, overrun := FlushDecoder(baseFrameIndex, numReadFrames, nframesRead, d0);
    }

    /** `read_video_frames(frameIndex)`: parse a batch of `NREAD_FRAMES` frames from
        `frameIndex` on and return slot 0, the frame mapped to `frameIndex`. With
        at least `NREAD_FRAMES + 1` slots nothing is written past the arrays. */
    method ReadVideoFrames(frameIndex: int) returns (frame: VideoFrame, overrun: bool)
      requires Valid()
      modifies this, frameCache, frameCacheIdxmap
      ensures Valid()
      ensures frame == FrameOf(SlotData(old(demux), old(drain), NREAD_FRAMES, 0, videoStreamIdx, height, width), height, width)
      ensures frameCacheIdxmap[0] == frameIndex
      ensures overrun <==> ParseCount(old(demux), old(drain), NREAD_FRAMES, videoStreamIdx, height, width) > frameCache.Length
      ensures frameCache.Length >= CORRECTED_CACHE_SIZE ==> !overrun
      ensures !overrun ==> demux == old(demux)[Consumed(|old(demux)|, NREAD_FRAMES)..]
      ensures var flushed := FlushLen(old(drain), Stored(|old(demux)|, NREAD_FRAMES), NREAD_FRAMES, videoStreamIdx, height, width);
              !overrun ==> drain == old(drain)[Min(flushed, |old(drain)|)..]
      ensures SlotsKept(ParseCount(old(demux), old(drain), NREAD_FRAMES, videoStreamIdx, height, width),
                        old(frameCache[..]), old(frameCacheIdxmap[..]))
      ensures currentFrameIdx == old(currentFrameIdx) && frames == old(frames)
    {
      ghost var d0, dr0 := demux, drain;
      var numFramesRead;
      ParseCountBounds(d0, dr0, NREAD_FRAMES, videoStreamIdx, height, width);
      numFramesRead, overrun := ParseVideo(frameIndex, NREAD_FRAMES);
      assert overrun || numFramesRead > 0;
      frame := frameCache[0];
    }
  }
}
