/** STREAM frames of picoquic/frames.c: the header parser, the formatter with its three ways of
    delimiting the data, and payloads made of STREAM and PADDING frames (section 19.8 of RFC 9000). */
module StreamFrames {
  import opened Wrappers
  import opened Varint

  const STREAM_MIN: byte := 0x08
  const STREAM_MAX: byte := 0x0f
  const PADDING: byte := 0x00

  /** Packet buffers are shorter than this, so a length field takes at most two bytes. */
  const MAX_SPACE: nat := 16384

  /** A piece of a stream, as carried by one frame. */
  datatype Segment = Segment(streamId: nat, offset: nat, data: seq<byte>, fin: bool) {
    predicate InRange() {
      streamId < TWO_62 && offset + |data| < TWO_62
    }

    function End(): nat {
      offset + |data|
    }
  }

  // ----- The wire format

  function FirstByte(offset: nat, hasLength: bool, fin: bool): byte {
    STREAM_MIN + (if offset > 0 then 4 else 0) + (if hasLength then 2 else 0) + (if fin then 1 else 0)
  }

  function OffsetField(offset: nat): seq<byte> {
    if offset > 0 then Encoding(offset) else []
  }

  /** The header up to, and without, the length field. */
  function HeaderBytes(streamId: nat, offset: nat, hasLength: bool, fin: bool): seq<byte> {
    [FirstByte(offset, hasLength, fin)] + Encoding(streamId) + OffsetField(offset)
  }

  function HeaderSize(streamId: nat, offset: nat): (n: nat)
    ensures n == |HeaderBytes(streamId, offset, false, false)|
    ensures 2 <= n <= 17
  {
    1 + EncodedLength(streamId) + |OffsetField(offset)|
  }

  function LengthField(length: nat, hasLength: bool): seq<byte> {
    if hasLength then Encoding(length) else []
  }

  /** The minimal frame that carries `seg`. */
  function FrameBytes(seg: Segment, hasLength: bool): seq<byte> {
    HeaderBytes(seg.streamId, seg.offset, hasLength, seg.fin) + LengthField(|seg.data|, hasLength) + seg.data
  }

  function FrameSize(seg: Segment, hasLength: bool): (n: nat)
    ensures n == |FrameBytes(seg, hasLength)|
    ensures n >= 2 + |seg.data|
  {
    HeaderSize(seg.streamId, seg.offset) + |LengthField(|seg.data|, hasLength)| + |seg.data|
  }

  function Zeros(n: nat): (s: seq<byte>)
    ensures |s| == n
  {
    seq(n, _ => PADDING)
  }

  // ----- Parsing

  datatype Header = Header(streamId: nat, offset: nat, dataLength: nat, fin: bool, consumed: nat)

  predicate HasFin(first: byte) { first % 2 == 1 }
  predicate HasLength(first: byte) { first / 2 % 2 == 1 }
  predicate HasOffset(first: byte) { first / 4 % 2 == 1 }

  /** `picoquic_parse_stream_header` on the bytes from the frame type to the end of the packet. */
  function ParseHeader(s: seq<byte>): (r: Option<Header>)
    requires s != []
    ensures r.Some? ==> 2 <= r.value.consumed && r.value.consumed + r.value.dataLength <= |s|
    ensures r.Some? && !HasLength(s[0]) ==> r.value.consumed + r.value.dataLength == |s|
  {
    var (streamId, lStream) :- Decoding(s[1..]);
    var afterStream := 1 + lStream;
    var (offset, lOffset) :- if HasOffset(s[0]) then Decoding(s[afterStream..]) else Some((0, 0));
    var afterOffset := afterStream + lOffset;
    if !HasLength(s[0]) then
      assert afterOffset <= |s| by { DecodingBound(s[1..]); }
      Some(Header(streamId, offset, |s| - afterOffset, HasFin(s[0]), afterOffset))
    else
      var (length, lLength) :- Decoding(s[afterOffset..]);
      var consumed := afterOffset + lLength;
      if consumed + length > |s| then None
      else Some(Header(streamId, offset, length, HasFin(s[0]), consumed))
  }

  /** A frame with a length field can be followed by anything; one without must end the packet. */
  lemma ParseFrame(seg: Segment, hasLength: bool, rest: seq<byte>)
    requires seg.InRange()
    requires hasLength || rest == []
    ensures var f := FrameBytes(seg, hasLength);
            ParseHeader(f + rest) == Some(Header(seg.streamId, seg.offset, |seg.data|, seg.fin, |f| - |seg.data|))
  {
    hide Encoding, Decoding, EncodedLength, FrameBytes, HeaderBytes, HasFin, HasLength, HasOffset, ParseHeader;
    var s := FrameBytes(seg, hasLength) + rest;
    var tail := LengthField(|seg.data|, hasLength) + seg.data + rest;
    var i := 1 + EncodedLength(seg.streamId);
    FrameFields(seg, hasLength, rest);
    EncodingRoundTrip(seg.streamId, OffsetField(seg.offset) + tail);
    OffsetRead(seg.offset, tail);
    LengthRead(seg, hasLength, rest);
    assert |s| == FrameSize(seg, hasLength) + |rest|;
    hide OffsetField, LengthField, FrameSize, HeaderSize;
    ParseFields(s, seg.streamId, i, seg.offset, HeaderSize(seg.streamId, seg.offset), |seg.data|);
  }

  lemma OffsetRead(offset: nat, tail: seq<byte>)
    requires offset < TWO_62
    ensures offset > 0 ==> Decoding(OffsetField(offset) + tail) == Some((offset, |OffsetField(offset)|))
    ensures offset == 0 ==> OffsetField(offset) == []
  {
    hide Encoding, Decoding, EncodedLength;
    if offset > 0 {
      EncodingRoundTrip(offset, tail);
    }
  }

  lemma LengthRead(seg: Segment, hasLength: bool, rest: seq<byte>)
    requires seg.InRange()
    ensures var tail := LengthField(|seg.data|, hasLength) + seg.data + rest;
            hasLength ==> Decoding(tail) == Some((|seg.data|, |LengthField(|seg.data|, hasLength)|))
    ensures !hasLength ==> LengthField(|seg.data|, hasLength) == []
  {
    hide Encoding, Decoding, EncodedLength;
    if hasLength {
      var length := Encoding(|seg.data|);
      assert length + seg.data + rest == length + (seg.data + rest);
      EncodingRoundTrip(|seg.data|, seg.data + rest);
    }
  }

  /** The parser's result from the results of its field decoders. */
  lemma ParseFields(s: seq<byte>, streamId: nat, i: nat, offset: nat, j: nat, length: nat)
    requires s != [] && 1 <= i <= j <= |s|
    requires Decoding(s[1..]) == Some((streamId, i - 1))
    requires if HasOffset(s[0]) then Decoding(s[i..]) == Some((offset, j - i)) else offset == 0 && j == i
    requires if HasLength(s[0]) then
               && Decoding(s[j..]).Some? && Decoding(s[j..]).value.0 == length
               && j + Decoding(s[j..]).value.1 + length <= |s|
             else length == |s| - j
    ensures ParseHeader(s) == Some(Header(streamId, offset, length, HasFin(s[0]),
              if HasLength(s[0]) then j + Decoding(s[j..]).value.1 else j))
  {
    hide Decoding, HasFin, HasLength, HasOffset;
  }

  lemma FrameFields(seg: Segment, hasLength: bool, rest: seq<byte>)
    ensures var s := FrameBytes(seg, hasLength) + rest;
            var tail := LengthField(|seg.data|, hasLength) + seg.data + rest;
            && STREAM_MIN <= s[0] <= STREAM_MAX
            && HasFin(s[0]) == seg.fin && HasLength(s[0]) == hasLength && HasOffset(s[0]) == (seg.offset > 0)
            && s[1..] == Encoding(seg.streamId) + (OffsetField(seg.offset) + tail)
            && s[1 + EncodedLength(seg.streamId)..] == OffsetField(seg.offset) + tail
            && s[HeaderSize(seg.streamId, seg.offset)..] == tail
  {
    hide Encoding, EncodedLength, FrameBytes, LengthField, OffsetField, HeaderBytes, FirstByte, HasFin, HasLength, HasOffset;
    var s := FrameBytes(seg, hasLength) + rest;
    var first := FirstByte(seg.offset, hasLength, seg.fin);
    var tail := LengthField(|seg.data|, hasLength) + seg.data + rest;
    FrameLayout(seg, hasLength, rest);
    FirstByteFlags(seg.offset, hasLength, seg.fin);
    ConcatDrop([first], Encoding(seg.streamId), OffsetField(seg.offset) + tail);
    ConcatDrop([first] + Encoding(seg.streamId), OffsetField(seg.offset), tail);
    assert s == [first] + Encoding(seg.streamId) + (OffsetField(seg.offset) + tail);
  }

  lemma FirstByteFlags(offset: nat, hasLength: bool, fin: bool)
    ensures var first := FirstByte(offset, hasLength, fin);
            && STREAM_MIN <= first <= STREAM_MAX
            && HasFin(first) == fin && HasLength(first) == hasLength && HasOffset(first) == (offset > 0)
  {
  }

  lemma FrameLayout(seg: Segment, hasLength: bool, rest: seq<byte>)
    ensures FrameBytes(seg, hasLength) + rest ==
      [FirstByte(seg.offset, hasLength, seg.fin)]
      + (Encoding(seg.streamId) + (OffsetField(seg.offset) + (LengthField(|seg.data|, hasLength) + seg.data + rest)))
  {
    hide Encoding, EncodedLength, LengthField, OffsetField, FirstByte;
  }

  lemma ConcatDrop(a: seq<byte>, b: seq<byte>, c: seq<byte>)
    ensures (a + (b + c))[|a|..] == b + c
    ensures (a + (b + c))[|a| + |b|..] == c
  {
  }

  lemma FrameData(seg: Segment, hasLength: bool, rest: seq<byte>)
    ensures var f := FrameBytes(seg, hasLength);
            (f + rest)[|f| - |seg.data|..|f|] == seg.data && (f + rest)[|f|..] == rest
  {
  }

  lemma ParseHeaderPrefix(s: seq<byte>, rest: seq<byte>)
    requires s != [] && HasLength(s[0]) && ParseHeader(s).Some?
    ensures ParseHeader(s + rest) == ParseHeader(s)
  {
    hide Decoding, HasFin, HasLength, HasOffset;
    var t := s + rest;
    var h := ParseHeader(s).value;
    var i := 1 + Decoding(s[1..]).value.1;
    DecodingBound(s[1..]);
    var j := if HasOffset(s[0]) then i + Decoding(s[i..]).value.1 else i;
    if HasOffset(s[0]) {
      DecodingBound(s[i..]);
    }
    assert Decoding(s[j..]).Some? && h.consumed == j + Decoding(s[j..]).value.1;
    hide ParseHeader;
    DecodingSuffix(s, 1, rest);
    if HasOffset(s[0]) {
      DecodingSuffix(s, i, rest);
    }
    DecodingSuffix(s, j, rest);
    ParseFields(t, h.streamId, i, h.offset, j, h.dataLength);
    ParseFields(s, h.streamId, i, h.offset, j, h.dataLength);
  }

  lemma DecodingSuffix(s: seq<byte>, i: nat, rest: seq<byte>)
    requires i <= |s| && Decoding(s[i..]).Some?
    ensures Decoding((s + rest)[i..]) == Decoding(s[i..])
  {
    DecodingPrefix(s[i..], rest);
    assert (s + rest)[i..] == s[i..] + rest;
  }

  // ----- Payloads of STREAM and PADDING frames

  /** The segments of a payload, in order; None if it holds a malformed or another frame. */
  function Segments(p: seq<byte>): (r: Option<seq<Segment>>) {
    if p == [] then Some([])
    else if p[0] == PADDING then Segments(p[1..])
    else if STREAM_MIN <= p[0] <= STREAM_MAX then
      var h :- ParseHeader(p);
      var end := h.consumed + h.dataLength;
      var rest :- Segments(p[end..]);
      Some([Segment(h.streamId, h.offset, p[h.consumed..end], h.fin)] + rest)
    else None
  }

  /** Every frame of `p` has a length field, so that more frames can follow. */
  predicate Closed(p: seq<byte>) {
    p == [] ||
    (if p[0] == PADDING then Closed(p[1..])
     else
       && STREAM_MIN <= p[0] <= STREAM_MAX
       && HasLength(p[0])
       && ParseHeader(p).Some?
       && var h := ParseHeader(p).value; Closed(p[h.consumed + h.dataLength..]))
  }

  lemma SegmentsStep(p: seq<byte>)
    requires p != [] && STREAM_MIN <= p[0] <= STREAM_MAX && ParseHeader(p).Some?
    ensures var h := ParseHeader(p).value;
            var end := h.consumed + h.dataLength;
            var s := [Segment(h.streamId, h.offset, p[h.consumed..end], h.fin)];
            && Segments(p) == (if Segments(p[end..]).Some? then Some(s + Segments(p[end..]).value) else None)
            && (Closed(p) <==> HasLength(p[0]) && Closed(p[end..]))
  {
    hide ParseHeader, HasLength;
  }

  lemma {:induction false} SegmentsAppend(p: seq<byte>, rest: seq<byte>)
    requires Closed(p)
    ensures Segments(p).Some?
    ensures Segments(rest).Some? ==>
      Segments(p + rest) == Some(Segments(p).value + Segments(rest).value)
    ensures Closed(rest) ==> Closed(p + rest)
    decreases |p|
  {
    hide ParseHeader;
    var t := p + rest;
    if p == [] {
      assert t == rest;
      assert Segments(rest).Some? ==> [] + Segments(rest).value == Segments(rest).value;
    } else if p[0] == PADDING {
      SegmentsAppend(p[1..], rest);
      assert t[1..] == p[1..] + rest;
    } else {
      var h := ParseHeader(p).value;
      SegmentsAppend(p[h.consumed + h.dataLength..], rest);
      SegmentsAppendStep(p, h, rest);
    }
  }

  lemma SegmentsAppendStep(p: seq<byte>, h: Header, rest: seq<byte>)
    requires p != [] && STREAM_MIN <= p[0] <= STREAM_MAX && HasLength(p[0]) && ParseHeader(p) == Some(h)
    ensures var after := p[h.consumed + h.dataLength..];
            && (Closed(after + rest) ==> Closed(p + rest))
            && (Segments(after).Some? ==> Segments(p).Some?)
            && (Segments(after).Some? && Segments(rest).Some?
                && Segments(after + rest) == Some(Segments(after).value + Segments(rest).value)
                ==> Segments(p + rest) == Some(Segments(p).value + Segments(rest).value))
  {
    hide Closed, Segments, HasLength, ParseHeader;
    var t := p + rest;
    var end := h.consumed + h.dataLength;
    var after := p[end..];
    ParseHeaderPrefix(p, rest);
    assert t[0] == p[0] && t[end..] == after + rest && t[h.consumed..end] == p[h.consumed..end];
    SegmentsStep(p);
    SegmentsStep(t);
    if Segments(after).Some? && Segments(rest).Some? {
      var s := [Segment(h.streamId, h.offset, p[h.consumed..end], h.fin)];
      assert s + (Segments(after).value + Segments(rest).value) == (s + Segments(after).value) + Segments(rest).value;
    }
  }

  /** Padding, then one frame: what each formatting call adds to a packet. */
  lemma SegmentsOfRegion(pad: nat, seg: Segment, hasLength: bool)
    requires seg.InRange()
    ensures Segments(Zeros(pad) + FrameBytes(seg, hasLength)) == Some([seg])
    ensures hasLength ==> Closed(Zeros(pad) + FrameBytes(seg, hasLength))
  {
    hide ParseHeader, FrameBytes, Encoding, HasFin, HasLength, HasOffset, Segments, Closed, Zeros;
    var f := FrameBytes(seg, hasLength);
    SegmentsOfPadding(pad, f);
    assert f == f + [];
    ParseFrame(seg, hasLength, []);
    FrameData(seg, hasLength, []);
    FrameFields(seg, hasLength, []);
    SegmentsOfOne(f);
  }

  lemma {:induction false} SegmentsOfPadding(pad: nat, p: seq<byte>)
    ensures Segments(Zeros(pad) + p) == Segments(p)
    ensures Closed(Zeros(pad) + p) == Closed(p)
  {
    hide ParseHeader, HasLength;
    if pad > 0 {
      SegmentsOfPadding(pad - 1, p);
      assert (Zeros(pad) + p)[1..] == Zeros(pad - 1) + p;
    } else {
      assert Zeros(0) + p == p;
    }
  }

  lemma SegmentsOfOne(f: seq<byte>)
    requires f != [] && STREAM_MIN <= f[0] <= STREAM_MAX && ParseHeader(f).Some?
    requires ParseHeader(f).value.consumed + ParseHeader(f).value.dataLength == |f|
    ensures var h := ParseHeader(f).value;
            Segments(f) == Some([Segment(h.streamId, h.offset, f[h.consumed..|f|], h.fin)])
    ensures HasLength(f[0]) ==> Closed(f)
  {
    hide ParseHeader;
    var h := ParseHeader(f).value;
    SegmentsStep(f);
    assert f[|f|..] == [];
    assert Closed([]) && Segments([]) == Some([]);
    var s := Segment(h.streamId, h.offset, f[h.consumed..|f|], h.fin);
    assert [s] + [] == [s];
  }

  /** The payload cut at its frame boundaries: the byte strings that a lost packet leaves to repeat. */
  function Frames(p: seq<byte>): (r: Option<seq<seq<byte>>>) {
    if p == [] then Some([])
    else if p[0] == PADDING then Frames(p[1..])
    else if STREAM_MIN <= p[0] <= STREAM_MAX then
      var h :- ParseHeader(p);
      var end := h.consumed + h.dataLength;
      var rest :- Frames(p[end..]);
      Some([p[..end]] + rest)
    else None
  }

  /** `f` is one of the two minimal frames for `seg`. */
  predicate IsFrame(f: seq<byte>, seg: Segment) {
    f == FrameBytes(seg, true) || f == FrameBytes(seg, false)
  }

  ghost predicate AreFrames(fs: seq<seq<byte>>, segs: seq<Segment>) {
    |fs| == |segs| && forall k :: 0 <= k < |fs| ==> IsFrame(fs[k], segs[k])
  }

  /** A payload that decodes to `segs`, made of minimal frames, and that only ends without a length field
      when nothing can follow. */
  ghost predicate Carries(p: seq<byte>, segs: seq<Segment>, full: bool) {
    && Segments(p) == Some(segs)
    && Frames(p).Some? && AreFrames(Frames(p).value, segs)
    && (Closed(p) || full)
  }

  lemma FramesStep(p: seq<byte>)
    requires p != [] && STREAM_MIN <= p[0] <= STREAM_MAX && ParseHeader(p).Some?
    ensures var h := ParseHeader(p).value;
            var end := h.consumed + h.dataLength;
            Frames(p) == if Frames(p[end..]).Some? then Some([p[..end]] + Frames(p[end..]).value) else None
  {
    hide ParseHeader;
  }

  lemma {:induction false} FramesAppend(p: seq<byte>, rest: seq<byte>)
    requires Closed(p) && Frames(rest).Some?
    ensures Frames(p).Some? && Frames(p + rest) == Some(Frames(p).value + Frames(rest).value)
    decreases |p|
  {
    hide ParseHeader;
    var t := p + rest;
    if p == [] {
      assert t == rest;
      assert [] + Frames(rest).value == Frames(rest).value;
    } else if p[0] == PADDING {
      FramesAppend(p[1..], rest);
      assert t[1..] == p[1..] + rest;
    } else {
      var h := ParseHeader(p).value;
      FramesAppend(p[h.consumed + h.dataLength..], rest);
      FramesAppendStep(p, h, rest);
    }
  }

  lemma FramesAppendStep(p: seq<byte>, h: Header, rest: seq<byte>)
    requires p != [] && STREAM_MIN <= p[0] <= STREAM_MAX && HasLength(p[0]) && ParseHeader(p) == Some(h)
    requires var after := p[h.consumed + h.dataLength..];
             && Frames(after).Some? && Frames(rest).Some?
             && Frames(after + rest) == Some(Frames(after).value + Frames(rest).value)
    ensures Frames(p).Some? && Frames(p + rest) == Some(Frames(p).value + Frames(rest).value)
  {
    hide Frames, HasLength, ParseHeader;
    var t := p + rest;
    var end := h.consumed + h.dataLength;
    var after := p[end..];
    ParseHeaderPrefix(p, rest);
    assert t[0] == p[0] && t[end..] == after + rest && t[..end] == p[..end];
    FramesStep(p);
    FramesStep(t);
    var s := [p[..end]];
    assert s + (Frames(after).value + Frames(rest).value) == (s + Frames(after).value) + Frames(rest).value;
  }

  lemma {:induction false} FramesOfPadding(pad: nat, p: seq<byte>)
    ensures Frames(Zeros(pad) + p) == Frames(p)
  {
    hide ParseHeader;
    if pad > 0 {
      FramesOfPadding(pad - 1, p);
      assert (Zeros(pad) + p)[1..] == Zeros(pad - 1) + p;
    } else {
      assert Zeros(0) + p == p;
    }
  }

  lemma FramesOfOne(f: seq<byte>)
    requires f != [] && STREAM_MIN <= f[0] <= STREAM_MAX && ParseHeader(f).Some?
    requires ParseHeader(f).value.consumed + ParseHeader(f).value.dataLength == |f|
    ensures Frames(f) == Some([f])
  {
    hide ParseHeader;
    FramesStep(f);
    assert f[|f|..] == [] && f[..|f|] == f;
    assert Frames([]) == Some([]);
    assert [f] + [] == [f];
  }

  lemma CarriesRegion(pad: nat, seg: Segment, hasLength: bool)
    requires seg.InRange()
    ensures Carries(Zeros(pad) + FrameBytes(seg, hasLength), [seg], !hasLength)
  {
    hide ParseHeader, FrameBytes, Encoding, HasFin, HasLength, HasOffset, Segments, Closed, Zeros, Frames;
    var f := FrameBytes(seg, hasLength);
    SegmentsOfRegion(pad, seg, hasLength);
    FramesOfPadding(pad, f);
    assert f == f + [];
    ParseFrame(seg, hasLength, []);
    FrameFields(seg, hasLength, []);
    FramesOfOne(f);
  }

  lemma CarriesNothing()
    ensures Carries([], [], false) && Carries([], [], true)
  {
  }

  /** A packet that can still grow: what is added is decoded after what is there. */
  lemma CarriesAppend(p: seq<byte>, segs: seq<Segment>, x: seq<byte>, more: seq<Segment>, full: bool)
    requires Carries(p, segs, false) && Carries(x, more, full)
    ensures Carries(p + x, segs + more, full)
  {
    hide Segments, Frames, Closed, IsFrame;
    SegmentsAppend(p, x);
    FramesAppend(p, x);
  }

  // ----- Formatting

  /** The frame type, the stream id and, when it is not zero, the offset. */
  method FormatHeader(buf: array<byte>, pos: nat, max: nat, streamId: u64, offset: u64) returns (next: Option<nat>)
    requires pos <= max <= buf.Length
    modifies buf
    ensures next.Some? <==> pos + HeaderSize(streamId, offset) <= max
    ensures next.Some? ==>
      && next.value == pos + HeaderSize(streamId, offset)
      && buf[..] == Splice(old(buf[..]), pos, HeaderBytes(streamId, offset, false, false))
    ensures SameOutside(old(buf[..]), buf[..], pos, max)
  {
    hide Encoding, EncodedLength, Splice, SameOutside;
    ghost var b := buf[..];
    SameOutsideItself(b, pos, max);
    if pos + 1 > max {
      return None;
    }
    SpliceOne(b, pos, STREAM_MIN);
    SpliceSameOutside(b, pos, [STREAM_MIN], pos, max);
    buf[pos] := STREAM_MIN;
    assert buf[..] == b[pos := STREAM_MIN];
    next := Encode(buf, pos + 1, max, streamId);
    if next.None? {
      return;
    }
    SpliceTwice(b, pos, [STREAM_MIN], Encoding(streamId));
    ghost var x := [STREAM_MIN] + Encoding(streamId);
    SpliceSameOutside(b, pos, x, pos, max);
    if offset > 0 {
      SpliceHead(b, pos, STREAM_MIN, STREAM_MIN + 4, Encoding(streamId));
      buf[pos] := buf[..][pos] + 4;  // the offset bit is clear: or-ing it is adding it
      x := [STREAM_MIN + 4] + Encoding(streamId);
      assert buf[..] == Splice(b, pos, x);
      SpliceSameOutside(b, pos, x, pos, max);
      next := Encode(buf, next.value, max, offset);
      if next.Some? {
        SpliceTwice(b, pos, x, Encoding(offset));
        SpliceSameOutside(b, pos, x + Encoding(offset), pos, max);
        assert x + Encoding(offset) == HeaderBytes(streamId, offset, false, false);
      }
    } else {
      assert x == HeaderBytes(streamId, offset, false, false);
    }
  }
}
