/** Stream frames queued for retransmission (picoquic/frames.c): a stored frame is copied into a packet,
    re-encoded, or cut in two, the remainder being rewritten in place. */
module Retransmit {
  import opened Wrappers
  import opened Varint
  import opened StreamFrames
  import opened StreamSender

  /** A stored frame: the first `length` bytes of `bytes`. */
  class MiscFrame {
    const bytes: array<byte>
    var length: nat

    constructor (frame: seq<byte>)
      ensures fresh(this) && fresh(bytes) && length == |frame| == bytes.Length && bytes[..] == frame
    {
      var b := new byte[|frame|](i requires 0 <= i < |frame| => frame[i]);
      bytes, length := b, |frame|;
      new;
      assert bytes[..] == frame;
    }

    /** The stored bytes are the minimal frame for `seg`. */
    ghost predicate Holds(seg: Segment, hasLength: bool)
      reads this, bytes
    {
      length <= bytes.Length && bytes[..length] == FrameBytes(seg, hasLength) && seg.InRange()
    }
  }

  class RetransmitQueue {
    var frames: seq<MiscFrame>
  }

  /** In this space a piece of every frame can be sent. */
  const MIN_SPACE: nat := 33

  // ----- The pieces of a split frame

  function FirstPiece(seg: Segment, n: nat): Segment
    requires n <= |seg.data|
  {
    Segment(seg.streamId, seg.offset, seg.data[..n], false)
  }

  function LastPiece(seg: Segment, n: nat): Segment
    requires n <= |seg.data|
  {
    Segment(seg.streamId, seg.offset + n, seg.data[n..], seg.fin)
  }

  /** The number of data bytes of the first piece, behind a header of `header` bytes, when the packet has `space`
      bytes left: its length field is as long as for an upper bound of that number. */
  function FirstSize(header: nat, space: nat): int {
    space - header - EncodedLength(if space >= 2 then space - 2 else 0)
  }

  function SplitSize(seg: Segment, space: nat): int {
    FirstSize(HeaderSize(seg.streamId, seg.offset), space)
  }

  /** A frame is stored with a header of `stored` bytes, which would take `header` bytes if written anew, and `length`
      bytes of data. The subtraction that computes the remainder wraps when the first piece is to take more than all
      data. No space that is too small for the frame makes it wrap, exactly if the stored header is not much longer. */
  lemma NoSplitWrapsIff(header: nat, stored: nat, length: nat)
    requires 2 <= header <= stored && 2 <= length && stored + length < MAX_SPACE
    ensures (forall space: nat :: stored < space < stored + length ==> FirstSize(header, space) <= length)
       <==> stored <= header + 1 + EncodedLength(stored + length - 3)
  {
    var top := stored + length - 1;
    assert FirstSize(header, top) == top - header - EncodedLength(stored + length - 3);
  }

  /** Minimal frames meet that condition, and splitting one that does not fit leaves data on both sides. */
  lemma SplitLeavesData(seg: Segment, hasLength: bool, space: nat)
    requires seg.InRange() && space < FrameSize(seg, hasLength)
    requires HeaderSize(seg.streamId, seg.offset) < space
    ensures FrameSize(seg, hasLength) - |seg.data|
         <= HeaderSize(seg.streamId, seg.offset) + 1 + EncodedLength(FrameSize(seg, hasLength) - 3)
    ensures SplitSize(seg, space) < |seg.data|
  {
  }

  /** The first piece fills the space, but for one byte if its length field is shorter than that of the upper bound. */
  lemma FirstPieceFills(seg: Segment, space: nat)
    requires 0 < SplitSize(seg, space) <= |seg.data| && space < MAX_SPACE
    ensures FrameSize(FirstPiece(seg, SplitSize(seg, space)), true)
         == if EncodedLength(SplitSize(seg, space)) == EncodedLength(space - 2) then space else space - 1
  {
  }

  // ----- One attempt at the head of the queue

  /** Writes the frame for `seg`, with a length field, unless its header passes `max`. */
  method PutFrame(buf: array<byte>, pos: nat, max: nat, seg: Segment) returns (next: nat)
    requires seg.InRange()
    requires pos + FrameSize(seg, true) <= max <= buf.Length
    modifies buf
    ensures next == pos + FrameSize(seg, true)
    ensures buf[..] == Splice(old(buf[..]), pos, FrameBytes(seg, true))
  {
    hide Encoding, EncodedLength, Splice, HeaderBytes, HeaderSize, FrameBytes, SameOutside, Zeros;
    ghost var b := buf[..];
    FrameSizes(seg, true);
    var header := FormatHeader(buf, pos, max, seg.streamId, seg.offset);
    HeaderBytesSize(seg.streamId, seg.offset, false, false);
    var length := Encode(buf, header.value, max, |seg.data|);
    SpliceTwice(b, pos, HeaderBytes(seg.streamId, seg.offset, false, false), Encoding(|seg.data|));
    next := PutLengthAndData(buf, pos, length.value, seg, b);
  }

  /** Sets the flags and copies the data after the header and the length field. */
  method PutLengthAndData(buf: array<byte>, pos: nat, afterLength: nat, seg: Segment, ghost b: seq<byte>)
    returns (next: nat)
    requires |b| == buf.Length && pos + FrameSize(seg, true) <= buf.Length
    requires afterLength + |seg.data| == pos + FrameSize(seg, true)
    requires buf[..] == Splice(b, pos, HeaderBytes(seg.streamId, seg.offset, false, false) + Encoding(|seg.data|))
    modifies buf
    ensures next == pos + FrameSize(seg, true)
    ensures buf[..] == Splice(b, pos, FrameBytes(seg, true))
  {
    hide Encoding, EncodedLength, Splice, HeaderBytes, HeaderSize, FrameBytes, SameOutside, Zeros, FirstByte;
    FrameSizes(seg, true);
    HeaderSetLength(b, pos, seg.streamId, seg.offset, false, Encoding(|seg.data|));
    buf[pos] := buf[..][pos] + 2;
    ghost var x := HeaderBytes(seg.streamId, seg.offset, true, false) + Encoding(|seg.data|);
    Copy(buf, afterLength, seg.data);
    SpliceTwice(b, pos, x, seg.data);
    FrameWithoutFin(seg);
    if seg.fin {
      FrameSetFin(b, pos, 0, seg.(fin := false), true);
      buf[pos] := buf[..][pos] + 1;
    }
    next := afterLength + |seg.data|;
  }

  lemma FrameSizes(seg: Segment, hasLength: bool)
    ensures FrameSize(seg, hasLength) == HeaderSize(seg.streamId, seg.offset)
         + (if hasLength then EncodedLength(|seg.data|) else 0) + |seg.data|
    ensures forall fin :: |HeaderBytes(seg.streamId, seg.offset, hasLength, fin)| == HeaderSize(seg.streamId, seg.offset)
  {
  }

  lemma FrameWithoutFin(seg: Segment)
    ensures HeaderBytes(seg.streamId, seg.offset, true, false) + Encoding(|seg.data|) + seg.data
         == FrameBytes(seg.(fin := false), true) == Zeros(0) + FrameBytes(seg.(fin := false), true)
    ensures forall fin :: FrameBytes(seg.(fin := fin), true) == Zeros(0) + FrameBytes(seg.(fin := fin), true)
  {
  }

  /** The frame fits: it is copied, with up to two bytes of padding if it must end the packet,
      or written again with a length field. */
  method CopyWhole(frame: MiscFrame, buf: array<byte>, pos: nat, max: nat, h: Header, ghost seg: Segment, ghost hasLength: bool)
    returns (next: nat, ghost pad: nat, ghost withLength: bool)
    requires frame.Holds(seg, hasLength) && frame.bytes != buf
    requires ParseHeader(frame.bytes[..frame.length]) == Some(h)
    requires pos + frame.length <= max <= buf.Length && max - pos < MAX_SPACE
    modifies buf
    ensures next == pos + pad + FrameSize(seg, withLength) <= max
    ensures buf[..] == Splice(old(buf[..]), pos, Zeros(pad) + FrameBytes(seg, withLength))
    ensures withLength || next == max
  {
    hide Encoding, EncodedLength, Splice, HeaderBytes, HeaderSize, FrameBytes, SameOutside, Zeros, ParseHeader, HasFin,
         HasLength, HasOffset, FrameSize;
    StoredHeader(seg, hasLength);
    ghost var b := buf[..];
    var stored := frame.bytes[..frame.length];
    next, pad, withLength := pos, 0, hasLength;
    assert stored[0] == frame.bytes[0];
    if !HasLength(frame.bytes[0]) {
      var insertPad := max - pos - frame.length;
      if insertPad <= 2 {
        SpliceNothing(b, pos);
        while insertPad > 0
          invariant 0 <= insertPad
          invariant pad + insertPad == max - pos - frame.length && next == pos + pad
          invariant buf[..] == Splice(b, pos, Zeros(pad))
        {
          ZerosStep(pad);
          SpliceTwice(b, pos, Zeros(pad), [PADDING]);
          SpliceOne(buf[..], next, PADDING);
          buf[next] := PADDING;
          assert buf[..] == Splice(b, pos, Zeros(pad))[next := PADDING];
          next := next + 1;
          insertPad := insertPad - 1;
          pad := pad + 1;
        }
        Copy(buf, next, stored);
        SpliceTwice(b, pos, Zeros(pad), stored);
        next := next + frame.length;
      } else {
        LengthFits(h.dataLength);
        FrameSizes(seg, false);
        FrameSizes(seg, true);
        FrameWithoutFin(seg);
        withLength := true;
        next := PutFrame(buf, pos, max, Segment(h.streamId, h.offset, stored[h.consumed..], h.fin));
      }
    } else {
      Copy(buf, pos, stored);
      next := pos + frame.length;
      NoPadding(stored);
    }
  }

  lemma StoredHeader(seg: Segment, hasLength: bool)
    requires seg.InRange()
    ensures var f := FrameBytes(seg, hasLength);
            && f != [] && |f| == FrameSize(seg, hasLength) && HasLength(f[0]) == hasLength
            && ParseHeader(f) == Some(Header(seg.streamId, seg.offset, |seg.data|, seg.fin, |f| - |seg.data|))
            && f[|f| - |seg.data|..] == seg.data
  {
    hide Encoding, EncodedLength, HeaderBytes, HeaderSize, FrameBytes, ParseHeader, HasFin, HasLength, HasOffset;
    var f := FrameBytes(seg, hasLength);
    assert f + [] == f;
    ParseFrame(seg, hasLength, []);
    FrameFields(seg, hasLength, []);
    FrameData(seg, hasLength, []);
    assert |f| == FrameSize(seg, hasLength);
    assert f[|f| - |seg.data|..|f|] == f[|f| - |seg.data|..];
  }

  lemma ZerosStep(n: nat)
    ensures Zeros(n + 1) == Zeros(n) + [PADDING]
  {
  }

  lemma SpliceNothing(b: seq<byte>, pos: nat)
    requires pos <= |b|
    ensures b == Splice(b, pos, Zeros(0))
  {
  }

  lemma NoPadding(f: seq<byte>)
    ensures Zeros(0) + f == f
  {
  }

  /** The frame does not fit: as much as possible is sent, and the stored frame becomes the rest. */
  method SplitFrame(frame: MiscFrame, buf: array<byte>, pos: nat, max: nat, h: Header, ghost seg: Segment, ghost hasLength: bool)
    returns (next: nat, ghost n: nat)
    requires frame.Holds(seg, hasLength) && frame.bytes != buf
    requires ParseHeader(frame.bytes[..frame.length]) == Some(h)
    requires pos <= max <= buf.Length && max < pos + frame.length && max - pos < MAX_SPACE
    modifies frame, frame.bytes, buf
    ensures SameOutside(old(buf[..]), buf[..], pos, max)
    ensures n == 0 ==>
      next == pos && frame.length == old(frame.length) && frame.bytes[..] == old(frame.bytes[..]) && max - pos < MIN_SPACE
    ensures n > 0 ==>
      && n == SplitSize(seg, max - pos) < |seg.data|
      && next == pos + FrameSize(FirstPiece(seg, n), true) <= max
      && buf[..] == Splice(old(buf[..]), pos, FrameBytes(FirstPiece(seg, n), true))
      && frame.Holds(LastPiece(seg, n), true)
  {
    hide Encoding, EncodedLength, Splice, HeaderBytes, HeaderSize, FrameBytes, SameOutside, Zeros, ParseHeader, HasFin,
         HasLength, HasOffset, FrameSize;
    StoredHeader(seg, hasLength);
    FrameSizes(seg, hasLength);
    ghost var b := buf[..];
    SameOutsideItself(b, pos, max);
    next, n := pos, 0;
    var available := max - pos;
    if available <= h.consumed {
      return;
    }
    var header := FormatHeader(buf, pos, max, h.streamId, h.offset);
    ghost var x := HeaderBytes(h.streamId, h.offset, false, false);
    HeaderBytesSize(h.streamId, h.offset, false, false);
    // the length field is first written for an upper bound of the data that can follow it
    var afterLength := Encode(buf, header.value, max, available - 2);
    if afterLength.None? || afterLength.value >= max {
      if afterLength.Some? {
        SpliceTwice(b, pos, x, Encoding(available - 2));
        SpliceSameOutside(b, pos, x + Encoding(available - 2), pos, max);
      }
      return;
    }
    SpliceTwice(b, pos, x, Encoding(available - 2));
    SpliceSameOutside(b, pos, x + Encoding(available - 2), pos, max);
    SplitLeavesData(seg, hasLength, available);
    available := max - afterLength.value;
    var remain := h.dataLength - available;
    var trial, trialSize := TrialHeader(h.streamId, h.offset + available, remain);
    if trialSize > h.consumed + available {
      return;
    }
    n := available;
    next := CommitSplit(frame, buf, pos, max, header.value, h, available, trial, trialSize, b, seg, hasLength);
    SpliceSameOutside(b, pos, FrameBytes(FirstPiece(seg, n), true), pos, max);
  }

  /** Once the remainder is known to fit, both frames are written. */
  method CommitSplit(frame: MiscFrame, buf: array<byte>, pos: nat, max: nat, afterHeader: nat, h: Header, available: nat,
                     trial: array<byte>, trialSize: nat, ghost b: seq<byte>, ghost seg: Segment, ghost hasLength: bool)
    returns (next: nat)
    requires frame.Holds(seg, hasLength) && frame.bytes != buf && trial != frame.bytes && trial != buf
    requires ParseHeader(frame.bytes[..frame.length]) == Some(h)
    requires |b| == buf.Length && pos <= max <= buf.Length && max - pos < MAX_SPACE
    requires afterHeader == pos + HeaderSize(seg.streamId, seg.offset) && afterHeader + 2 <= max
    requires 0 < available == SplitSize(seg, max - pos) < |seg.data|
    requires buf[..] == Splice(b, pos, HeaderBytes(seg.streamId, seg.offset, false, false) + Encoding(max - pos - 2))
    requires 0 < trialSize <= trial.Length && trialSize <= h.consumed + available
    requires trial[..trialSize]
          == HeaderBytes(seg.streamId, seg.offset + available, false, false) + Encoding(|seg.data| - available)
    modifies frame, frame.bytes, trial, buf
    ensures next == pos + FrameSize(FirstPiece(seg, available), true) <= max
    ensures buf[..] == Splice(b, pos, FrameBytes(FirstPiece(seg, available), true))
    ensures frame.Holds(LastPiece(seg, available), true)
  {
    hide Encoding, EncodedLength, Splice, HeaderBytes, HeaderSize, FrameBytes, SameOutside, Zeros, ParseHeader, HasFin,
         HasLength, HasOffset, FrameSize;
    StoredHeader(seg, hasLength);
    var first := Segment(h.streamId, h.offset, frame.bytes[h.consumed..h.consumed + available], false);
    assert frame.bytes[h.consumed..frame.length] == seg.data;
    assert first == FirstPiece(seg, available);
    FrameSizes(first, true);
    HeaderBytesSize(seg.streamId, seg.offset, false, false);
    EncodedLengthMonotone(available, max - pos - 2);
    LengthFits(max - pos - 2);
    ghost var x := HeaderBytes(seg.streamId, seg.offset, false, false);
    ghost var u := x + Encoding(max - pos - 2);
    var length := Encode(buf, afterHeader, max, available);
    SpliceOver(b, pos, x, Encoding(max - pos - 2), Encoding(available));
    next := PutLengthAndData(buf, pos, length.value, first, Splice(b, pos, u));
    SpliceCover(b, pos, u, FrameBytes(first, true));
    RewriteFrame(frame, h, trial, trialSize, available, seg, hasLength);
  }

  /** The header and length field of the remainder, built aside. */
  method TrialHeader(streamId: nat, offset: nat, remain: nat) returns (trial: array<byte>, size: nat)
    requires streamId < TWO_62 && offset < TWO_62 && remain < TWO_62
    ensures fresh(trial) && size <= trial.Length && size <= 25
    ensures trial[..size] == HeaderBytes(streamId, offset, false, false) + Encoding(remain)
  {
    hide Encoding, EncodedLength, Splice, HeaderBytes, HeaderSize, SameOutside;
    trial := new byte[32](_ => 0);
    ghost var b := trial[..];
    var header := FormatHeader(trial, 0, 32, streamId, offset);
    HeaderBytesSize(streamId, offset, false, false);
    var length := Encode(trial, header.value, 32, remain);
    size := length.value;
    ghost var x := HeaderBytes(streamId, offset, false, false) + Encoding(remain);
    SpliceTwice(b, 0, HeaderBytes(streamId, offset, false, false), Encoding(remain));
    SpliceSlice(b, 0, x);
    assert trial[..size] == trial[..][0..size];
  }

  /** Writing again, from the same position, over everything written before. */
  lemma SpliceCover(b: seq<byte>, pos: nat, u: seq<byte>, w: seq<byte>)
    requires |u| <= |w| && pos + |w| <= |b|
    ensures Splice(Splice(b, pos, u), pos, w) == Splice(b, pos, w)
  {
  }

  lemma SpliceOver(b: seq<byte>, pos: nat, x: seq<byte>, y: seq<byte>, z: seq<byte>)
    requires pos + |x| + |y| <= |b| && |z| <= |y|
    ensures Splice(Splice(b, pos, x + y), pos + |x|, z) == Splice(Splice(b, pos, x + y), pos, x + z)
  {
  }

  /** The stored bytes are overwritten by the header of the remainder, then the remaining data move up to it. */
  method RewriteFrame(frame: MiscFrame, h: Header, trial: array<byte>, trialSize: nat, n: nat,
                      ghost seg: Segment, ghost hasLength: bool)
    requires frame.Holds(seg, hasLength) && trial != frame.bytes
    requires 0 < n < |seg.data|
    requires h.consumed + h.dataLength == frame.length && h.dataLength == |seg.data| && h.fin == seg.fin
    requires 0 < trialSize <= trial.Length && trialSize <= h.consumed + n
    requires trial[..trialSize] == HeaderBytes(seg.streamId, seg.offset + n, false, false) + Encoding(|seg.data| - n)
    requires frame.bytes[h.consumed..frame.length] == seg.data
    modifies frame, frame.bytes, trial
    ensures frame.Holds(LastPiece(seg, n), true)
  {
    hide Encoding, EncodedLength, HeaderBytes, HeaderSize, FrameBytes, FrameSize, FirstByte;
    var remain := h.dataLength - n;
    var from := h.consumed + n;
    ghost var rest := LastPiece(seg, n);
    TrialFlag(trial[..trialSize], rest.streamId, rest.offset, Encoding(remain));
    assert frame.bytes[from..from + remain] == frame.bytes[h.consumed..frame.length][n..] == rest.data;
    trial[0] := trial[..trialSize][0] + 2;
    ghost var t := HeaderBytes(rest.streamId, rest.offset, true, false) + Encoding(remain);
    assert trial[..trialSize] == t;
    Overwrite(frame.bytes, trial, trialSize, from, remain);
    frame.length := trialSize + remain;
    FrameWithoutFin(rest);
    if h.fin {
      FrameFirstByteFin(rest);
      assert frame.bytes[0] == frame.bytes[..frame.length][0];
      frame.bytes[0] := frame.bytes[0] + 1;
      assert frame.bytes[..frame.length] == FrameBytes(rest.(fin := false), true)[0 := frame.bytes[0]];
    }
  }

  /** The memcpy and the overlapping memmove: the moved block starts at or after the end of the copied one. */
  method Overwrite(bytes: array<byte>, trial: array<byte>, trialSize: nat, from: nat, remain: nat)
    requires trial != bytes && trialSize <= trial.Length && trialSize <= from && from + remain <= bytes.Length
    modifies bytes
    ensures bytes[..trialSize + remain] == trial[..trialSize] + old(bytes[from..from + remain])
  {
    hide Splice;
    ghost var b, head, block := bytes[..], trial[..trialSize], bytes[from..from + remain];
    Copy(bytes, 0, trial[..trialSize]);
    BehindSplice(b, head, from, remain);
    assert bytes[from..from + remain] == bytes[..][from..from + remain];
    Copy(bytes, trialSize, bytes[from..from + remain]);
    SpliceTwice(b, 0, head, block);
    SpliceExtends(b, 0, 0, head + block);
    assert bytes[..trialSize + remain] == bytes[..][0..trialSize + remain];
  }

  lemma BehindSplice(b: seq<byte>, x: seq<byte>, from: nat, length: nat)
    requires |x| <= from && from + length <= |b|
    ensures Splice(b, 0, x)[from..from + length] == b[from..from + length]
  {
  }

  lemma TrialFlag(s: seq<byte>, streamId: nat, offset: nat, length: seq<byte>)
    requires s == HeaderBytes(streamId, offset, false, false) + length
    ensures s != [] && s[0] + 2 < 256
    ensures s[0 := s[0] + 2] == HeaderBytes(streamId, offset, true, false) + length
  {
    HeaderSplit(streamId, offset, false, false);
    HeaderSplit(streamId, offset, true, false);
    hide Encoding, EncodedLength, HeaderBytes;
  }

  lemma FrameFirstByteFin(seg: Segment)
    ensures var f := FrameBytes(seg.(fin := false), true);
            f[0] + 1 < 256 && f[0 := f[0] + 1] == FrameBytes(seg.(fin := true), true)
  {
  }

  /** What one attempt did to the head of the queue. */
  datatype Outcome =
    | Dropped
    | Whole(pad: nat, hasLength: bool)
    | Cut(n: nat)
    | Stuck

  /** `picoquic_format_stream_frame_for_retransmit`. `unneeded` says, for a stream id, an offset and a length,
      whether the stream is gone or reset or the data are acknowledged already. */
  method FormatHead(queue: RetransmitQueue, buf: array<byte>, pos: nat, max: nat, unneeded: (nat, nat, nat) -> bool,
                    ghost seg: Segment, ghost hasLength: bool)
    returns (next: nat, ghost outcome: Outcome)
    requires queue.frames != [] && queue.frames[0].Holds(seg, hasLength) && queue.frames[0].bytes != buf
    requires pos <= max <= buf.Length && max - pos < MAX_SPACE
    modifies queue, queue.frames[0], queue.frames[0].bytes, buf
    ensures SameOutside(old(buf[..]), buf[..], pos, max)
    ensures outcome.Dropped? <==> unneeded(seg.streamId, seg.offset, |seg.data|)
    ensures outcome.Whole? ==> old(queue.frames[0].length) <= max - pos
    ensures outcome.Cut? ==> old(queue.frames[0].length) > max - pos
    ensures queue.frames == if outcome.Dropped? || outcome.Whole? then old(queue.frames)[1..] else old(queue.frames)
    ensures match outcome
            case Dropped => next == pos && buf[..] == old(buf[..])
            case Whole(pad, withLength) =>
              && next == pos + pad + FrameSize(seg, withLength) <= max
              && buf[..] == Splice(old(buf[..]), pos, Zeros(pad) + FrameBytes(seg, withLength))
              && (withLength || next == max)
            case Cut(n) =>
              && 0 < n == SplitSize(seg, max - pos) < |seg.data|
              && next == pos + FrameSize(FirstPiece(seg, n), true) <= max
              && buf[..] == Splice(old(buf[..]), pos, FrameBytes(FirstPiece(seg, n), true))
              && queue.frames[0].Holds(LastPiece(seg, n), true)
            case Stuck =>
              && next == pos && max - pos < MIN_SPACE
              && queue.frames[0].length == old(queue.frames[0].length)
              && queue.frames[0].bytes[..] == old(queue.frames[0].bytes[..])
              && queue.frames[0].Holds(seg, hasLength)
  {
    hide Encoding, EncodedLength, Splice, HeaderBytes, HeaderSize, FrameBytes, SameOutside, Zeros, ParseHeader, HasFin,
         HasLength, HasOffset, FrameSize;
    StoredHeader(seg, hasLength);
    SameOutsideItself(buf[..], pos, max);
    ghost var b := buf[..];
    var frame := queue.frames[0];
    next, outcome := pos, Dropped;
    var allSent := false;
    var h := ParseHeader(frame.bytes[..frame.length]);
    if h.None? || unneeded(h.value.streamId, h.value.offset, h.value.dataLength) {
      allSent := true;
    } else if pos + frame.length <= max {
      ghost var pad, withLength;
      next, pad, withLength := CopyWhole(frame, buf, pos, max, h.value, seg, hasLength);
      outcome := Whole(pad, withLength);
      SpliceSameOutside(b, pos, Zeros(pad) + FrameBytes(seg, withLength), pos, max);
      allSent := true;
    } else {
      ghost var n;
      next, n := SplitFrame(frame, buf, pos, max, h.value, seg, hasLength);
      outcome := if n > 0 then Cut(n) else Stuck;
    }
    if allSent {
      queue.frames := queue.frames[1..];
    }
  }

  // ----- The whole queue

  predicate Unneeded(unneeded: (nat, nat, nat) -> bool, seg: Segment) {
    unneeded(seg.streamId, seg.offset, |seg.data|)
  }

  /** The stored segments that are still worth sending, in order. */
  function Needed(unneeded: (nat, nat, nat) -> bool, segs: seq<Segment>): seq<Segment> {
    if segs == [] then []
    else
      var last := segs[|segs| - 1];
      Needed(unneeded, segs[..|segs| - 1]) + (if Unneeded(unneeded, last) then [] else [last])
  }

  lemma {:induction false} NeededIff(unneeded: (nat, nat, nat) -> bool, segs: seq<Segment>)
    ensures forall seg :: seg in Needed(unneeded, segs) <==> seg in segs && !unneeded(seg.streamId, seg.offset, |seg.data|)
    decreases |segs|
  {
    if segs != [] {
      NeededIff(unneeded, segs[..|segs| - 1]);
      assert segs == segs[..|segs| - 1] + [segs[|segs| - 1]];
    }
  }

  /** How far a pass over the queue went: `count` frames left it, and `cut` bytes of the next one. */
  datatype Progress = Progress(count: nat, cut: nat)

  predicate Fits(p: Progress, segs: seq<Segment>) {
    p.count <= |segs| && (p.cut > 0 ==> p.count < |segs| && p.cut < |segs[p.count].data|)
  }

  /** What a pass sends. */
  function Sent(unneeded: (nat, nat, nat) -> bool, segs: seq<Segment>, p: Progress): seq<Segment>
    requires Fits(p, segs)
  {
    Needed(unneeded, segs[..p.count]) + (if p.cut > 0 then [FirstPiece(segs[p.count], p.cut)] else [])
  }

  /** What a pass leaves in the queue. */
  function Left(segs: seq<Segment>, p: Progress): seq<Segment>
    requires Fits(p, segs)
  {
    if p.cut > 0 then [LastPiece(segs[p.count], p.cut)] + segs[p.count + 1..] else segs[p.count..]
  }

  /** What is left to send: a pass that makes progress lowers it. */
  function Weight(segs: seq<Segment>): nat {
    if segs == [] then 0 else 1 + |segs[0].data| + Weight(segs[1..])
  }

  lemma {:induction false} WeightAfter(segs: seq<Segment>, n: nat)
    requires n <= |segs|
    ensures Weight(segs[n..]) + n <= Weight(segs)
  {
    if n > 0 {
      WeightAfter(segs[1..], n - 1);
      assert segs[1..][n - 1..] == segs[n..];
    }
  }

  lemma PassLowersWeight(segs: seq<Segment>, p: Progress)
    requires Fits(p, segs) && p.count + p.cut > 0
    ensures Weight(Left(segs, p)) < Weight(segs)
  {
    WeightAfter(segs, p.count);
    if p.cut > 0 {
      var rest := segs[p.count + 1..];
      assert segs[p.count..][0] == segs[p.count] && segs[p.count..][1..] == rest;
      assert Left(segs, p)[0] == LastPiece(segs[p.count], p.cut) && Left(segs, p)[1..] == rest;
    }
  }

  ghost predicate QueueHolds(frames: seq<MiscFrame>, segs: seq<Segment>, hasLength: seq<bool>, buf: array<byte>)
    reads set f | f in frames :: f, set f | f in frames :: f.bytes
  {
    && |frames| == |segs| == |hasLength|
    && (forall i :: 0 <= i < |frames| ==> frames[i].Holds(segs[i], hasLength[i]) && frames[i].bytes != buf)
    && (forall i, j :: 0 <= i < j < |frames| ==> frames[i] != frames[j] && frames[i].bytes != frames[j].bytes)
  }

  lemma CarriesMore(p: seq<byte>, segs: seq<Segment>, pad: nat, seg: Segment, hasLength: bool, full: bool)
    requires Carries(p, segs, false) && seg.InRange() && (hasLength || full)
    ensures Carries(p + (Zeros(pad) + FrameBytes(seg, hasLength)), segs + [seg], full)
  {
    hide Segments, Closed, Zeros, FrameBytes, Frames, AreFrames;
    CarriesRegion(pad, seg, hasLength);
    CarriesAppend(p, segs, Zeros(pad) + FrameBytes(seg, hasLength), [seg], full);
  }

  lemma SplicedCarries(b: seq<byte>, b': seq<byte>, lo: nat, pos: nat, next: nat, sent: seq<Segment>,
                       pad: nat, seg: Segment, hasLength: bool, full: bool)
    requires lo <= pos && next == pos + pad + FrameSize(seg, hasLength) <= |b|
    requires b' == Splice(b, pos, Zeros(pad) + FrameBytes(seg, hasLength))
    requires Carries(b[lo..pos], sent, false) && seg.InRange() && (hasLength || full)
    ensures next <= |b'| && Carries(b'[lo..next], sent + [seg], full)
  {
    hide Splice, Carries, Zeros, FrameBytes, FrameSize;
    SpliceExtends(b, lo, pos, Zeros(pad) + FrameBytes(seg, hasLength));
    CarriesMore(b[lo..pos], sent, pad, seg, hasLength, full);
  }

  /** `picoquic_format_stream_frames_queued_for_retransmit`. */
  method FormatQueue(queue: RetransmitQueue, buf: array<byte>, pos: nat, max: nat, unneeded: (nat, nat, nat) -> bool,
                     ghost segs: seq<Segment>, ghost hasLength: seq<bool>)
    returns (next: nat, moreData: bool, ghost progress: Progress, ghost leftLength: seq<bool>)
    requires QueueHolds(queue.frames, segs, hasLength, buf)
    requires pos <= max <= buf.Length && max - pos < MAX_SPACE
    modifies queue, set f | f in queue.frames :: f, set f | f in queue.frames :: f.bytes, buf
    ensures pos <= next <= max && SameOutside(old(buf[..]), buf[..], pos, max)
    ensures Fits(progress, segs) && |segs| == |old(queue.frames)| && queue.frames == old(queue.frames)[progress.count..]
    ensures Carries(buf[pos..next], Sent(unneeded, segs, progress), next == max)
    ensures QueueHolds(queue.frames, Left(segs, progress), leftLength, buf)
    ensures moreData <==> queue.frames != []
    ensures moreData && progress.cut == 0 ==> max - next < MIN_SPACE
    ensures progress == Progress(0, 0) ==> next == pos
  {
    hide Encoding, EncodedLength, Splice, HeaderBytes, HeaderSize, FrameBytes, SameOutside, Zeros, ParseHeader, HasFin,
         HasLength, HasOffset, FrameSize, Segments, Closed, Carries, Needed, Sent, AreFrames;
    ghost var b, frames := buf[..], queue.frames;
    ghost var i, cut := 0, 0;
    next, leftLength := pos, hasLength;
    SameOutsideItself(b, pos, max);
    CarriesNothing();
    NothingNeeded(unneeded);
    assert segs[0..] == segs && segs[..0] == [] && buf[pos..pos] == [];
    while queue.frames != [] && next < max
      invariant cut == 0 && i <= |segs| && pos <= next <= max
      invariant queue.frames == frames[i..]
      invariant QueueHolds(queue.frames, segs[i..], leftLength, buf)
      invariant Carries(buf[pos..next], Needed(unneeded, segs[..i]), next == max)
      invariant SameOutside(b, buf[..], pos, max)
      invariant i == 0 ==> next == pos
      decreases |queue.frames|
    {
      var misc := queue.frames[0];
      assert misc == frames[i] && misc in frames;
      assert misc.bytes in (set f | f in frames :: f.bytes);
      assert segs[i..][0] == segs[i];
      NeededStep(unneeded, segs, i);
      ghost var b1, rest, restLength := buf[..], segs[i..], leftLength;
      next, cut, leftLength := FormatNext(queue, buf, pos, next, max, unneeded, rest, restLength, Needed(unneeded, segs[..i]));
      SameOutsideJoin(b, b1, buf[..], pos, max);
      if queue.frames != [] && misc == queue.frames[0] {
        break;
      }
      assert segs[i..][1..] == segs[i + 1..] && frames[i..][1..] == frames[i + 1..];
      i := i + 1;
    }
    progress := Progress(i, cut);
    moreData := queue.frames != [];
    SentLeft(unneeded, segs, i, cut);
  }

  lemma NothingNeeded(unneeded: (nat, nat, nat) -> bool)
    ensures Needed(unneeded, []) == []
  {
  }

  lemma HeldInRange(frame: MiscFrame, seg: Segment, hasLength: bool)
    requires frame.Holds(seg, hasLength)
    ensures seg.InRange()
  {
  }

  /** One round of the loop. */
  method FormatNext(queue: RetransmitQueue, buf: array<byte>, lo: nat, pos: nat, max: nat, unneeded: (nat, nat, nat) -> bool,
                    ghost segs: seq<Segment>, ghost hasLength: seq<bool>, ghost sent: seq<Segment>)
    returns (next: nat, ghost cut: nat, ghost leftLength: seq<bool>)
    requires segs != [] && QueueHolds(queue.frames, segs, hasLength, buf)
    requires lo <= pos < max <= buf.Length && max - lo < MAX_SPACE
    requires Carries(buf[lo..pos], sent, false)
    modifies queue, queue.frames[0], queue.frames[0].bytes, buf
    ensures pos <= next <= max && SameOutside(old(buf[..]), buf[..], lo, max)
    ensures queue.frames == old(queue.frames) || queue.frames == old(queue.frames)[1..]
    ensures queue.frames == old(queue.frames) <==> queue.frames != [] && queue.frames[0] == old(queue.frames[0])
    ensures queue.frames != old(queue.frames) ==>
      && cut == 0 && leftLength == hasLength[1..]
      && QueueHolds(queue.frames, segs[1..], leftLength, buf)
      && Carries(buf[lo..next], sent + (if Unneeded(unneeded, segs[0]) then [] else [segs[0]]), next == max)
    ensures queue.frames == old(queue.frames) ==>
      && cut < |segs[0].data| + 1 && Fits(Progress(0, cut), segs)
      && QueueHolds(queue.frames, Left(segs, Progress(0, cut)), leftLength, buf)
      && Carries(buf[lo..next], if cut > 0 then sent + [FirstPiece(segs[0], cut)] else sent, next == max)
      && (cut == 0 ==> max - next < MIN_SPACE && next == pos)
  {
    hide Encoding, EncodedLength, Splice, HeaderBytes, HeaderSize, FrameBytes, SameOutside, Zeros, ParseHeader, HasFin,
         HasLength, HasOffset, FrameSize, Segments, Closed, Needed, Carries, AreFrames, Sent, MiscFrame.Holds, QueueHolds;
    HeadApart(queue.frames, segs, hasLength, buf);
    ghost var seg, b, frames := segs[0], buf[..], queue.frames;
    ghost var outcome;
    cut, leftLength := 0, hasLength;
    HeldInRange(queue.frames[0], seg, hasLength[0]);
    next, outcome := FormatHead(queue, buf, pos, max, unneeded, seg, hasLength[0]);
    SameOutsideTwice(b, b, buf[..], lo, pos, max) by {
      SameOutsideItself(b, lo, max);
    }
    assert QueueHolds(frames[1..], segs[1..], hasLength[1..], buf);
    match outcome {
      case Dropped =>
        leftLength := hasLength[1..];
        assert sent + [] == sent;
      case Whole(pad, hl) =>
        leftLength := hasLength[1..];
        SplicedCarries(b, buf[..], lo, pos, next, sent, pad, seg, hl, next == max);
      case Cut(k) =>
        cut := k;
        leftLength := hasLength[0 := true];
        NoPadding(FrameBytes(FirstPiece(seg, k), true));
        SplicedCarries(b, buf[..], lo, pos, next, sent, 0, FirstPiece(seg, k), true, next == max);
        HeadHolds(frames, segs, hasLength, buf, LastPiece(seg, k), true);
        LeftOfHead(segs, hasLength, k);
      case Stuck =>
        HeadHolds(frames, segs, hasLength, buf, seg, hasLength[0]);
        LeftOfHead(segs, hasLength, 0);
    }
  }

  /** The frames behind the head are other objects, so they hold what they held when only the head changes. */
  lemma HeadApart(frames: seq<MiscFrame>, segs: seq<Segment>, hasLength: seq<bool>, buf: array<byte>)
    requires QueueHolds(frames, segs, hasLength, buf) && segs != []
    ensures |frames| == |segs| == |hasLength| && frames[0].Holds(segs[0], hasLength[0]) && frames[0].bytes != buf
    ensures forall f | f in frames[1..] :: f != frames[0] && f.bytes != frames[0].bytes && f.bytes != buf
    ensures QueueHolds(frames[1..], segs[1..], hasLength[1..], buf)
  {
    hide MiscFrame.Holds;
  }

  lemma HeadHolds(frames: seq<MiscFrame>, segs: seq<Segment>, hasLength: seq<bool>, buf: array<byte>, seg: Segment, l: bool)
    requires |frames| == |segs| == |hasLength| && segs != []
    requires QueueHolds(frames[1..], segs[1..], hasLength[1..], buf) && frames[0].Holds(seg, l) && frames[0].bytes != buf
    requires forall f | f in frames[1..] :: f != frames[0] && f.bytes != frames[0].bytes && f.bytes != buf
    ensures QueueHolds(frames, [seg] + segs[1..], [l] + hasLength[1..], buf)
  {
    hide MiscFrame.Holds, QueueHolds;
    assert frames == [frames[0]] + frames[1..];
    QueueInFront(frames[0], frames[1..], seg, segs[1..], l, hasLength[1..], buf);
  }

  lemma QueueInFront(head: MiscFrame, rest: seq<MiscFrame>, seg: Segment, segs: seq<Segment>, l: bool, hasLength: seq<bool>,
                     buf: array<byte>)
    requires QueueHolds(rest, segs, hasLength, buf) && head.Holds(seg, l) && head.bytes != buf
    requires forall f | f in rest :: f != head && f.bytes != head.bytes
    ensures QueueHolds([head] + rest, [seg] + segs, [l] + hasLength, buf)
  {
    hide MiscFrame.Holds;
    var frames := [head] + rest;
    forall i, j | 0 <= i < j < |frames|
      ensures frames[i] != frames[j] && frames[i].bytes != frames[j].bytes
    {
      assert rest[j - 1] in rest;
    }
  }

  lemma LeftOfHead(segs: seq<Segment>, hasLength: seq<bool>, cut: nat)
    requires |segs| == |hasLength| && segs != [] && Fits(Progress(0, cut), segs)
    ensures Left(segs, Progress(0, cut)) == [if cut > 0 then LastPiece(segs[0], cut) else segs[0]] + segs[1..]
    ensures [hasLength[0]] + hasLength[1..] == hasLength && [true] + hasLength[1..] == hasLength[0 := true]
  {
  }

  lemma SentLeft(unneeded: (nat, nat, nat) -> bool, segs: seq<Segment>, i: nat, cut: nat)
    requires i <= |segs| && (cut > 0 ==> i < |segs| && cut < |segs[i].data|)
    ensures var p := Progress(i, cut);
            && Fits(p, segs)
            && (i < |segs| ==> segs[i..] != [] && segs[i..][0] == segs[i])
            && (i < |segs| ==> Fits(Progress(0, cut), segs[i..]) && Left(segs[i..], Progress(0, cut)) == Left(segs, p))
            && (cut == 0 ==> Left(segs, p) == segs[i..] && Sent(unneeded, segs, p) == Needed(unneeded, segs[..i]))
            && (cut > 0 ==> Sent(unneeded, segs, p) == Needed(unneeded, segs[..i]) + [FirstPiece(segs[i], cut)])
  {
  }

  lemma NeededStep(unneeded: (nat, nat, nat) -> bool, segs: seq<Segment>, i: nat)
    requires i < |segs|
    ensures Needed(unneeded, segs[..i + 1])
         == Needed(unneeded, segs[..i]) + (if Unneeded(unneeded, segs[i]) then [] else [segs[i]])
  {
    assert segs[..i + 1][..i] == segs[..i];
  }

  lemma SameOutsideTwice(b: seq<byte>, b1: seq<byte>, b2: seq<byte>, pos: nat, mid: nat, max: nat)
    requires pos <= mid
    requires SameOutside(b, b1, pos, max) && SameOutside(b1, b2, mid, max)
    ensures SameOutside(b, b2, pos, max)
    ensures b2[pos..mid] == b1[pos..mid]
  {
  }
}
