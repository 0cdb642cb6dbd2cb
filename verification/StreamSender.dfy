/** The sending side of a stream in picoquic/frames.c and picoquic/sender.c: queued or polled data is
    cut into frames under the connection's and the stream's flow-control limits. */
module StreamSender {
  import opened Wrappers
  import opened Varint
  import opened StreamFrames

  /** A block of application data; `offset` bytes of it are already sent. */
  datatype QueueNode = QueueNode(bytes: seq<byte>, offset: nat)

  function Pending(queue: seq<QueueNode>): seq<byte> {
    if queue == [] || queue[0].offset > |queue[0].bytes| then []
    else queue[0].bytes[queue[0].offset..] + Pending(queue[1..])
  }

  lemma {:induction false} PendingAppend(queue: seq<QueueNode>, node: QueueNode)
    requires forall q | q in queue :: q.offset < |q.bytes|
    requires node.offset == 0
    ensures Pending(queue + [node]) == Pending(queue) + node.bytes
  {
    if queue == [] {
      assert Pending([node]) == node.bytes[0..] + Pending([]);
    } else {
      PendingAppend(queue[1..], node);
      assert (queue + [node])[1..] == queue[1..] + [node];
    }
  }

  function Min(a: int, b: int): int {
    if a < b then a else b
  }

  class SendConnection {
    var maxdataRemote: nat
    var dataSent: nat

    ghost predicate Valid()
      reads this
    {
      dataSent <= maxdataRemote < TWO_62
    }

    constructor (maxdataRemote: nat)
      requires maxdataRemote < TWO_62
      ensures Valid() && this.maxdataRemote == maxdataRemote && dataSent == 0
    {
      this.maxdataRemote, dataSent := maxdataRemote, 0;
    }
  }

  class SendStream {
    const streamId: nat
    var queue: seq<QueueNode>
    var sentOffset: nat
    var maxdataRemote: nat
    var finRequested: bool
    var finSent: bool
    var isActive: bool
    ghost var written: seq<byte>  // everything the application has handed over, from offset zero

    ghost predicate Valid()
      reads this
    {
      && streamId < TWO_62
      && (forall q | q in queue :: q.offset < |q.bytes|)
      && sentOffset <= maxdataRemote < TWO_62
      && sentOffset <= |written| && written[sentOffset..] == Pending(queue)
      && (finSent ==> finRequested && queue == [])
    }

    constructor (streamId: nat, maxdataRemote: nat)
      requires streamId < TWO_62 && maxdataRemote < TWO_62
      ensures Valid() && this.streamId == streamId && this.maxdataRemote == maxdataRemote
      ensures written == [] && queue == [] && sentOffset == 0
      ensures !finRequested && !finSent && !isActive
    {
      this.streamId, this.maxdataRemote := streamId, maxdataRemote;
      queue, sentOffset, written := [], 0, [];
      finRequested, finSent, isActive := false, false, false;
    }

    /** Queues application data. The second request for a FIN is an error if it carries data.
        The code does not refuse data queued without a FIN mark once the FIN is sent; exactly then the
        stream is no longer valid. */
    method AddToStream(data: seq<byte>, setFin: bool) returns (ok: bool)
      requires Valid()
      modifies this
      ensures Valid() <==> !(old(finSent) && !setFin && data != [])
      ensures ok <==> !(setFin && old(finRequested) && data != [])
      ensures written == if ok then old(written) + data else old(written)
      ensures finRequested == (old(finRequested) || setFin)
      ensures sentOffset == old(sentOffset) && finSent == old(finSent) && maxdataRemote == old(maxdataRemote)
    {
      if setFin {
        if finRequested {
          if data != [] {
            return false;
          }
        } else {
          finRequested := true;
        }
      }
      if data != [] {
        PendingAppend(queue, QueueNode(data, 0));
        queue := queue + [QueueNode(data, 0)];
        written := written + data;
      }
      isActive := false;
      return true;
    }
  }

  /** What the application answers when it is polled for data. */
  datatype Reply = NoData | Provide(data: seq<byte>, isFin: bool, stillActive: bool)

  // ----- Delimiting the data

  /** The bytes in front of the data of a frame that may use `space` bytes after its header:
      no length field if the data fills the space, one byte of padding if it is one byte short. */
  function Lead(streamId: nat, offset: nat, fin: bool, length: nat, space: nat): seq<byte> {
    if length >= space then HeaderBytes(streamId, offset, false, fin)
    else if length == space - 1 then [PADDING] + HeaderBytes(streamId, offset, false, fin)
    else HeaderBytes(streamId, offset, true, fin) + Encoding(length)
  }

  function LeadPadding(length: nat, space: nat): nat {
    if length == space - 1 then 1 else 0
  }

  /** The frame is delimited by its length field, or else by the end of the packet. */
  predicate Delimited(length: nat, space: nat) {
    length + 1 < space
  }

  lemma LeadIsFrame(seg: Segment, space: nat)
    requires |seg.data| <= space < MAX_SPACE
    ensures Lead(seg.streamId, seg.offset, seg.fin, |seg.data|, space) + seg.data
         == Zeros(LeadPadding(|seg.data|, space)) + FrameBytes(seg, Delimited(|seg.data|, space))
    ensures var size := |Lead(seg.streamId, seg.offset, seg.fin, |seg.data|, space)| + |seg.data|;
            var limit := HeaderSize(seg.streamId, seg.offset) + space;
            size <= limit && (!Delimited(|seg.data|, space) ==> size == limit)
  {
  }

  lemma HeaderBytesSize(streamId: nat, offset: nat, hasLength: bool, fin: bool)
    ensures |HeaderBytes(streamId, offset, hasLength, fin)| == HeaderSize(streamId, offset)
  {
  }

  /** Moving a spliced block up by one byte and padding in front of it. */
  lemma ShiftSplice(b: seq<byte>, base: nat, h: seq<byte>, before: seq<byte>, after: seq<byte>)
    requires base + |h| + 1 <= |b| == |after|
    requires before == Splice(b, base, h)
    requires after[base] == PADDING
    requires forall i :: base <= i < base + |h| ==> after[i + 1] == before[i]
    requires forall i :: 0 <= i < base || base + |h| < i < |b| ==> after[i] == before[i]
    ensures after == Splice(b, base, [PADDING] + h)
  {
    var x := [PADDING] + h;
    forall i | 0 <= i < |x|
      ensures after[base + i] == x[i]
    {
      assert i > 0 ==> after[base + (i - 1) + 1] == before[base + (i - 1)];
    }
    SpliceFromSlices(b, after, base, x);
  }

  lemma HeaderSetLength(b: seq<byte>, base: nat, streamId: nat, offset: nat, fin: bool, length: seq<byte>)
    requires base + HeaderSize(streamId, offset) + |length| <= |b|
    ensures |HeaderBytes(streamId, offset, false, fin)| == |HeaderBytes(streamId, offset, true, fin)|
         == HeaderSize(streamId, offset)
    ensures var s := Splice(b, base, HeaderBytes(streamId, offset, false, fin) + length);
            && s[base] + 2 < 256
            && s[base := s[base] + 2] == Splice(b, base, HeaderBytes(streamId, offset, true, fin) + length)
  {
    var rest := Encoding(streamId) + OffsetField(offset);
    HeaderSplit(streamId, offset, false, fin);
    HeaderSplit(streamId, offset, true, fin);
    hide Encoding, EncodedLength, HeaderBytes, Splice;
    var h, h' := HeaderBytes(streamId, offset, false, fin), HeaderBytes(streamId, offset, true, fin);
    assert h + length == [h[0]] + (rest + length);
    assert h' + length == [h'[0]] + (rest + length);
    SpliceHead(b, base, h[0], h'[0], rest + length);
  }

  lemma HeaderSplit(streamId: nat, offset: nat, hasLength: bool, fin: bool)
    ensures HeaderBytes(streamId, offset, hasLength, fin)
         == [FirstByte(offset, hasLength, fin)] + (Encoding(streamId) + OffsetField(offset))
  {
  }

  lemma LengthFits(length: nat)
    requires length < MAX_SPACE
    ensures EncodedLength(length) <= 2
  {
  }

  /** `picoquic_encode_length_of_stream_frame`: `header` has just been written at `base`. */
  method EncodeLength(buf: array<byte>, base: nat, index: nat, space: nat, length: nat,
                      ghost b: seq<byte>, ghost streamId: nat, ghost offset: nat, ghost fin: bool)
    returns (newIndex: nat, start: nat)
    requires |b| == buf.Length && base + index + space <= buf.Length
    requires length <= space < MAX_SPACE
    requires index == HeaderSize(streamId, offset)
    requires buf[..] == Splice(b, base, HeaderBytes(streamId, offset, false, fin))
    modifies buf
    ensures newIndex == |Lead(streamId, offset, fin, length, space)|
    ensures base + newIndex + length <= base + index + space
    ensures buf[..] == Splice(b, base, Lead(streamId, offset, fin, length, space))
    ensures start == LeadPadding(length, space)
  {
    hide Encoding, EncodedLength, Splice, HeaderBytes, SameOutside;
    HeaderBytesSize(streamId, offset, false, fin);
    newIndex, start := index, 0;
    if length < space {
      ghost var h := HeaderBytes(streamId, offset, false, fin);
      if length == space - 1 {
        forall i | base <= i < base + index {
          buf[i + 1] := buf[i];
        }
        buf[base] := PADDING;
        newIndex, start := index + 1, 1;
        ShiftSplice(b, base, h, old(buf[..]), buf[..]);
      } else {
        LengthFits(length);
        var next := Encode(buf, base + index, base + index + space, length);
        SpliceTwice(b, base, h, Encoding(length));
        newIndex := next.value - base;
        HeaderSetLength(b, base, streamId, offset, fin, Encoding(length));
        HeaderBytesSize(streamId, offset, true, fin);
        buf[base] := buf[..][base] + 2;
      }
    }
  }

  // ----- Formatting a frame

  /** The frame for `seg`, with its padding, was written at `pos` of a packet that ends at `max`. */
  ghost predicate Emitted(b: seq<byte>, b': seq<byte>, pos: nat, max: nat, next: nat, seg: Segment) {
    var space := max - pos - HeaderSize(seg.streamId, seg.offset);
    && pos < next
    && |seg.data| <= space
    && var region := Zeros(LeadPadding(|seg.data|, space)) + FrameBytes(seg, Delimited(|seg.data|, space));
       && pos + |region| == next <= max <= |b|
       && b' == Splice(b, pos, region)
       && (!Delimited(|seg.data|, space) ==> next == max)
  }

  lemma EmittedOutside(b: seq<byte>, b': seq<byte>, pos: nat, max: nat, next: nat, seg: Segment)
    requires Emitted(b, b', pos, max, next, seg)
    ensures SameOutside(b, b', pos, max)
    ensures pos < next <= max
  {
  }

  lemma HeaderSetFin(b: seq<byte>, pos: nat, streamId: nat, offset: nat)
    requires pos + HeaderSize(streamId, offset) <= |b|
    ensures |HeaderBytes(streamId, offset, false, false)| == |HeaderBytes(streamId, offset, false, true)|
         == HeaderSize(streamId, offset)
    ensures var s := Splice(b, pos, HeaderBytes(streamId, offset, false, false));
            && s[pos] + 1 < 256
            && s[pos := s[pos] + 1] == Splice(b, pos, HeaderBytes(streamId, offset, false, true))
  {
    var rest := Encoding(streamId) + OffsetField(offset);
    HeaderSplit(streamId, offset, false, false);
    HeaderSplit(streamId, offset, false, true);
    hide Encoding, EncodedLength, HeaderBytes, Splice;
    SpliceHead(b, pos, FirstByte(offset, false, false), FirstByte(offset, false, true), rest);
  }

  lemma FrameSetFin(b: seq<byte>, pos: nat, pad: nat, seg: Segment, hasLength: bool)
    requires !seg.fin && pos + pad + FrameSize(seg, hasLength) <= |b|
    ensures |FrameBytes(seg, hasLength)| == |FrameBytes(seg.(fin := true), hasLength)| == FrameSize(seg, hasLength)
    ensures var s := Splice(b, pos, Zeros(pad) + FrameBytes(seg, hasLength));
            && s[pos + pad] + 1 < 256
            && s[pos + pad := s[pos + pad] + 1] == Splice(b, pos, Zeros(pad) + FrameBytes(seg.(fin := true), hasLength))
  {
    var rest := Encoding(seg.streamId) + OffsetField(seg.offset) + LengthField(|seg.data|, hasLength) + seg.data;
    FrameSplit(seg, hasLength);
    FrameSplit(seg.(fin := true), hasLength);
    hide Encoding, EncodedLength, FrameBytes, Splice, Zeros;
    var first, first' := FirstByte(seg.offset, hasLength, false), FirstByte(seg.offset, hasLength, true);
    SpliceTwice(b, pos, Zeros(pad), [first] + rest);
    SpliceTwice(b, pos, Zeros(pad), [first'] + rest);
    SpliceHead(Splice(b, pos, Zeros(pad)), pos + pad, first, first', rest);
  }

  lemma FrameSplit(seg: Segment, hasLength: bool)
    ensures FrameBytes(seg, hasLength) == [FirstByte(seg.offset, hasLength, seg.fin)]
         + (Encoding(seg.streamId) + OffsetField(seg.offset) + LengthField(|seg.data|, hasLength) + seg.data)
  {
  }

  method Copy(buf: array<byte>, pos: nat, data: seq<byte>)
    requires pos + |data| <= buf.Length
    modifies buf
    ensures buf[..] == Splice(old(buf[..]), pos, data)
  {
    forall i | 0 <= i < |data| {
      buf[pos + i] := data[i];
    }
    SpliceFromSlices(old(buf[..]), buf[..], pos, data);
  }

  /** The data and its delimiter, after a header of `index` bytes at `pos`. */
  method PutData(buf: array<byte>, pos: nat, index: nat, max: nat, data: seq<byte>, ghost b: seq<byte>, ghost seg: Segment)
    returns (next: nat, start: nat)
    requires |b| == buf.Length && max <= buf.Length
    requires seg.data == data && index == HeaderSize(seg.streamId, seg.offset)
    requires pos + index + |data| <= max < pos + index + MAX_SPACE
    requires buf[..] == Splice(b, pos, HeaderBytes(seg.streamId, seg.offset, false, seg.fin))
    modifies buf
    ensures Emitted(b, buf[..], pos, max, next, seg)
    ensures start == LeadPadding(|data|, max - pos - index)
  {
    hide Encoding, EncodedLength, FrameBytes, Splice, Zeros, Lead, HeaderBytes, HeaderSize;
    var space := max - pos - index;
    var newIndex;
    newIndex, start := EncodeLength(buf, pos, index, space, |data|, b, seg.streamId, seg.offset, seg.fin);
    Copy(buf, pos + newIndex, data);
    next := pos + newIndex + |data|;
    SpliceTwice(b, pos, Lead(seg.streamId, seg.offset, seg.fin, |data|, space), data);
    LeadIsFrame(seg, space);
    assert FrameSize(seg, Delimited(|data|, space)) >= 2;
  }

  /** The application is polled: it may fill up to `allowed` bytes and may end the stream. */
  method FormatPolled(cnx: SendConnection, stream: SendStream, buf: array<byte>, pos: nat, index: nat, max: nat,
                      allowed: nat, reply: Reply, ghost b: seq<byte>)
    returns (next: nat, ghost seg: Segment)
    requires cnx.Valid() && stream.Valid()
    requires stream.isActive && stream.queue == [] && !stream.finRequested
    requires |b| == buf.Length && index == HeaderSize(stream.streamId, stream.sentOffset)
    requires pos + index <= max <= buf.Length && max < pos + index + MAX_SPACE
    requires allowed <= max - pos - index
    requires allowed <= stream.maxdataRemote - stream.sentOffset && allowed <= cnx.maxdataRemote - cnx.dataSent
    requires buf[..] == Splice(b, pos, HeaderBytes(stream.streamId, stream.sentOffset, false, false))
    modifies cnx, stream, buf
    ensures cnx.Valid() && stream.Valid()
    ensures SameOutside(b, buf[..], pos, max)
    ensures cnx.maxdataRemote == old(cnx.maxdataRemote) && stream.maxdataRemote == old(stream.maxdataRemote)
    ensures
      if reply.Provide? && |reply.data| <= allowed && (reply.data != [] || reply.isFin) then
        && pos < next && seg == Segment(stream.streamId, old(stream.sentOffset), reply.data, reply.isFin)
        && Emitted(b, buf[..], pos, max, next, seg)
        && stream.written == old(stream.written) + reply.data && stream.sentOffset == seg.End() && stream.queue == []
        && cnx.dataSent == old(cnx.dataSent) + |reply.data|
        && stream.finRequested == stream.finSent == reply.isFin
        && stream.isActive == (!reply.isFin && reply.stillActive)
      else
        next == pos && unchanged(cnx) && unchanged(stream)
  {
    hide Encoding, EncodedLength, FrameBytes, Splice, Zeros, Lead, HeaderBytes, HeaderSize, Emitted, SameOutside;
    next, seg := pos, Segment(stream.streamId, stream.sentOffset, [], false);
    HeaderBytesSize(stream.streamId, stream.sentOffset, false, false);
    SpliceSameOutside(b, pos, HeaderBytes(stream.streamId, stream.sentOffset, false, false), pos, max);
    if reply.NoData? || |reply.data| > allowed {
      return;
    }
    seg := Segment(stream.streamId, stream.sentOffset, reply.data, reply.isFin);
    if reply.isFin {
      HeaderSetFin(b, pos, stream.streamId, stream.sentOffset);
      buf[pos] := buf[..][pos] + 1;
    }
    var end, start := PutData(buf, pos, index, max, reply.data, b, seg);
    EmittedOutside(b, buf[..], pos, max, end, seg);
    if reply.data == [] && !reply.isFin {
      return;
    }
    next := end;
    stream.written := stream.written + reply.data;
    stream.sentOffset := stream.sentOffset + |reply.data|;
    cnx.dataSent := cnx.dataSent + |reply.data|;
    if reply.isFin {
      stream.isActive := false;
      stream.finRequested := true;
      stream.finSent := true;
    } else {
      stream.isActive := reply.stillActive;
    }
  }

  /** The queue after `n` bytes of its first block are sent. */
  function Advance(queue: seq<QueueNode>, n: nat): seq<QueueNode>
    requires queue != []
  {
    var head := queue[0].(offset := queue[0].offset + n);
    if head.offset >= |head.bytes| then queue[1..] else [head] + queue[1..]
  }

  lemma AdvancePending(queue: seq<QueueNode>, n: nat)
    requires queue != [] && forall q | q in queue :: q.offset < |q.bytes|
    requires n <= |queue[0].bytes| - queue[0].offset
    ensures n <= |Pending(queue)|
    ensures queue[0].bytes[queue[0].offset..queue[0].offset + n] == Pending(queue)[..n]
    ensures Pending(Advance(queue, n)) == Pending(queue)[n..]
    ensures forall q | q in Advance(queue, n) :: q.offset < |q.bytes|
    ensures Advance(queue, n) == [] <==> Pending(queue)[n..] == []
  {
    hide Pending, Advance;
    var rest := Pending(queue[1..]);
    var head := queue[0].bytes[queue[0].offset..];
    PendingCons(queue[0], queue[1..]);
    assert [queue[0]] + queue[1..] == queue;
    AdvanceNodes(queue, n);
    NextPending(Advance(queue, n));
    assert (head + rest)[..n] == head[..n];
    var h := queue[0].(offset := queue[0].offset + n);
    if h.offset < |h.bytes| {
      assert (head + rest)[n..] == head[n..] + rest;
      assert head[n..] == h.bytes[h.offset..];
      PendingCons(h, queue[1..]);
    } else {
      assert (head + rest)[n..] == rest;
    }
  }

  lemma AdvanceNodes(queue: seq<QueueNode>, n: nat)
    requires queue != [] && forall q | q in queue :: q.offset < |q.bytes|
    ensures forall q | q in Advance(queue, n) :: q.offset < |q.bytes|
    ensures var h := queue[0].(offset := queue[0].offset + n);
            Advance(queue, n) == if h.offset < |h.bytes| then [h] + queue[1..] else queue[1..]
  {
  }

  lemma NextPending(queue: seq<QueueNode>)
    requires forall q | q in queue :: q.offset < |q.bytes|
    ensures queue == [] <==> Pending(queue) == []
  {
  }

  lemma PendingCons(node: QueueNode, queue: seq<QueueNode>)
    requires node.offset < |node.bytes|
    ensures Pending([node] + queue) == node.bytes[node.offset..] + Pending(queue)
  {
  }

  /** A prefix of the first queued block, as long as flow control and the packet allow, is sent. */
  method FormatQueued(cnx: SendConnection, stream: SendStream, buf: array<byte>, pos: nat, index: nat, max: nat,
                      allowed: nat, ghost b: seq<byte>)
    returns (next: nat, moreData: bool, ghost seg: Segment)
    requires cnx.Valid() && stream.Valid()
    requires stream.queue == [] ==> stream.finRequested
    requires |b| == buf.Length && index == HeaderSize(stream.streamId, stream.sentOffset)
    requires pos + index <= max <= buf.Length && max < pos + index + MAX_SPACE
    requires allowed <= max - pos - index
    requires allowed <= stream.maxdataRemote - stream.sentOffset && allowed <= cnx.maxdataRemote - cnx.dataSent
    requires buf[..] == Splice(b, pos, HeaderBytes(stream.streamId, stream.sentOffset, false, false))
    modifies cnx, stream, buf
    ensures cnx.Valid() && stream.Valid()
    ensures SameOutside(b, buf[..], pos, max)
    ensures cnx.maxdataRemote == old(cnx.maxdataRemote) && stream.maxdataRemote == old(stream.maxdataRemote)
    ensures stream.written == old(stream.written) && stream.isActive == old(stream.isActive)
    ensures stream.finRequested == old(stream.finRequested)
    ensures
      var n := QueuedLength(old(stream.queue), allowed);
      if old(stream.queue) != [] && n == 0 then
        next == pos && moreData && unchanged(cnx) && unchanged(stream)
      else
        && pos < next && !moreData
        && stream.sentOffset == old(stream.sentOffset) + n <= |stream.written|
        && cnx.dataSent == old(cnx.dataSent) + n
        && stream.finSent == (old(stream.finSent) || seg.fin)
        && seg == Segment(stream.streamId, old(stream.sentOffset),
                          stream.written[old(stream.sentOffset)..stream.sentOffset],
                          stream.finRequested && stream.sentOffset == |stream.written|)
        && Emitted(b, buf[..], pos, max, next, seg)
  {
    hide Encoding, EncodedLength, FrameBytes, Splice, Zeros, Lead, HeaderBytes, HeaderSize, Emitted, SameOutside,
         Pending, Advance, FrameSize, QueuedLength;
    moreData := false;
    var length := if stream.queue == [] then 0 else |stream.queue[0].bytes| - stream.queue[0].offset;
    if length >= allowed {
      length := allowed;
    }
    QueuedIs(stream.queue, allowed, length);
    QueuedStep(stream.queue, stream.written, stream.sentOffset, length);
    var data := if length > 0 then stream.queue[0].bytes[stream.queue[0].offset..stream.queue[0].offset + length] else [];
    seg := Segment(stream.streamId, stream.sentOffset, data, false);
    var start;
    next, start := PutData(buf, pos, index, max, data, b, seg);
    EmittedOutside(b, buf[..], pos, max, next, seg);
    CountSent(cnx, stream, length);
    if stream.queue == [] {
      if stream.finRequested {
        stream.finSent := true;
        SetFin(b, buf[..], pos, start, max, next, seg);
        buf[pos + start] := buf[..][pos + start] + 1;
        seg := seg.(fin := true);
        EmittedOutside(b, buf[..], pos, max, next, seg);
      }
    } else if length == 0 {
      next, moreData := pos, true;
    }
  }

  /** `length` bytes of the first block were sent. */
  method CountSent(cnx: SendConnection, stream: SendStream, length: nat)
    requires cnx.Valid() && stream.Valid()
    requires length <= if stream.queue == [] then 0 else |stream.queue[0].bytes| - stream.queue[0].offset
    requires length <= stream.maxdataRemote - stream.sentOffset && length <= cnx.maxdataRemote - cnx.dataSent
    modifies cnx`dataSent, stream`queue, stream`sentOffset
    ensures cnx.Valid() && stream.Valid()
    ensures stream.sentOffset == old(stream.sentOffset) + length && cnx.dataSent == old(cnx.dataSent) + length
    ensures stream.queue == [] <==> stream.sentOffset == |stream.written|
    ensures length == 0 ==> stream.queue == old(stream.queue)
  {
    hide Advance, Pending;
    QueuedStep(stream.queue, stream.written, stream.sentOffset, length);
    if length > 0 {
      stream.queue := Advance(stream.queue, length);
      stream.sentOffset := stream.sentOffset + length;
      cnx.dataSent := cnx.dataSent + length;
    }
  }

  lemma QueuedStep(queue: seq<QueueNode>, written: seq<byte>, sent: nat, n: nat)
    requires forall q | q in queue :: q.offset < |q.bytes|
    requires sent <= |written| && written[sent..] == Pending(queue)
    requires n <= if queue == [] then 0 else |queue[0].bytes| - queue[0].offset
    ensures sent + n <= |written|
    ensures n > 0 ==> queue[0].bytes[queue[0].offset..queue[0].offset + n] == written[sent..sent + n]
    ensures n == 0 ==> written[sent..sent + n] == []
    ensures queue == [] ==> sent == |written|
    ensures queue != [] ==> sent < |written|
    ensures queue != [] ==>
      var queue' := Advance(queue, n);
      && written[sent + n..] == Pending(queue')
      && (forall q | q in queue' :: q.offset < |q.bytes|)
      && (queue' == [] <==> sent + n == |written|)
  {
    hide Advance, Pending;
    if queue == [] {
      NothingPending(queue);
    } else {
      AdvancePending(queue, n);
      AdvancePending(queue, |queue[0].bytes| - queue[0].offset);
      assert written[sent..][..n] == written[sent..sent + n];
      assert written[sent..][n..] == written[sent + n..];
    }
  }

  function QueuedLength(queue: seq<QueueNode>, allowed: nat): nat {
    if queue == [] || queue[0].offset > |queue[0].bytes| then 0
    else Min(|queue[0].bytes| - queue[0].offset, allowed)
  }

  lemma QueuedIs(queue: seq<QueueNode>, allowed: nat, n: nat)
    requires forall q | q in queue :: q.offset < |q.bytes|
    requires n == if queue == [] then 0 else Min(|queue[0].bytes| - queue[0].offset, allowed)
    ensures n == QueuedLength(queue, allowed)
  {
    assert queue != [] ==> queue[0] in queue;
  }

  lemma SomethingQueued(queue: seq<QueueNode>, allowed: nat)
    requires forall q | q in queue :: q.offset < |q.bytes|
    ensures queue != [] ==> (QueuedLength(queue, allowed) > 0 <==> allowed > 0)
  {
    assert queue != [] ==> queue[0] in queue;
  }

  lemma NothingPending(queue: seq<QueueNode>)
    requires queue == []
    ensures Pending(queue) == []
  {
  }

  lemma SetFin(b: seq<byte>, b': seq<byte>, pos: nat, start: nat, max: nat, next: nat, seg: Segment)
    requires Emitted(b, b', pos, max, next, seg) && !seg.fin && |b| == |b'|
    requires start == LeadPadding(|seg.data|, max - pos - HeaderSize(seg.streamId, seg.offset))
    ensures pos + start < max && b'[pos + start] + 1 < 256
    ensures Emitted(b, b'[pos + start := b'[pos + start] + 1], pos, max, next, seg.(fin := true))
  {
    hide FrameBytes, Splice, Zeros, HeaderSize;
    var space := max - pos - HeaderSize(seg.streamId, seg.offset);
    var hasLength := Delimited(|seg.data|, space);
    assert |FrameBytes(seg, hasLength)| == FrameSize(seg, hasLength);
    FrameSetFin(b, pos, start, seg, hasLength);
  }

  lemma LeastIsAllowed(connection: nat, stream: nat, space: nat, allowed: nat)
    requires allowed <= connection && allowed <= stream && allowed <= space
    requires allowed == connection || allowed == stream || allowed == space
    ensures allowed == Allowance(connection, stream, space)
  {
  }

  /** `picoquic_format_stream_frame`, for a stream that is neither reset nor asked to stop. */
  method FormatStreamFrame(cnx: SendConnection, stream: SendStream, buf: array<byte>, pos: nat, max: nat, reply: Reply)
    returns (next: nat, moreData: bool, ghost seg: Segment)
    requires cnx.Valid() && stream.Valid()
    requires pos <= max <= buf.Length && max - pos < MAX_SPACE
    modifies cnx, stream, buf
    ensures cnx.Valid() && stream.Valid()
    ensures SameOutside(old(buf[..]), buf[..], pos, max)
    ensures cnx.maxdataRemote == old(cnx.maxdataRemote) && stream.maxdataRemote == old(stream.maxdataRemote)
    // nothing is sent, and nothing changes, or one frame is sent
    ensures next == pos ==> unchanged(cnx) && unchanged(stream)
    ensures next != pos ==>
      && Emitted(old(buf[..]), buf[..], pos, max, next, seg)
      && old(stream.written) <= stream.written
      && seg.streamId == stream.streamId && seg.offset == old(stream.sentOffset)
      && stream.sentOffset == seg.End() <= |stream.written|
      && seg.data == stream.written[seg.offset..seg.End()] && (seg.data != [] || seg.fin)
      && cnx.dataSent == old(cnx.dataSent) + |seg.data|
      && stream.finSent == (old(stream.finSent) || seg.fin)
      && (old(stream.finRequested) ==> stream.finRequested)
      && (seg.fin ==> stream.finRequested && stream.sentOffset == |stream.written|)
    // what is sent: everything that the first block, flow control and the packet allow
    ensures next != pos && !(old(stream.isActive) && old(stream.queue) == [] && !old(stream.finRequested)) ==>
      && |seg.data| == QueuedLength(old(stream.queue), Allowance(old(cnx.maxdataRemote - cnx.dataSent),
           old(stream.maxdataRemote - stream.sentOffset), max - pos - HeaderSize(seg.streamId, seg.offset)))
      && (seg.fin <==> stream.finRequested && stream.sentOffset == |stream.written|)
      && stream.written == old(stream.written)
    ensures next != pos && old(stream.isActive) && old(stream.queue) == [] && !old(stream.finRequested) ==>
      && reply.Provide? && reply.data == seg.data && reply.isFin == seg.fin
      && stream.written == old(stream.written) + seg.data
      && (stream.finRequested <==> seg.fin)
    // when something is sent
    ensures next != pos <==>
      && pos + HeaderSize(stream.streamId, old(stream.sentOffset)) <= max
      && var allowed := Allowance(old(cnx.maxdataRemote - cnx.dataSent), old(stream.maxdataRemote - stream.sentOffset),
                                  max - pos - HeaderSize(stream.streamId, old(stream.sentOffset)));
         if old(stream.queue) != [] then allowed > 0
         else if old(stream.finRequested) then old(stream.isActive) || !old(stream.finSent)
         else old(stream.isActive) && reply.Provide? && |reply.data| <= allowed && (reply.data != [] || reply.isFin)
    // when the stream has something to send that does not fit: its header, or any byte of its queue
    ensures moreData <==>
      && (old(stream.isActive) || old(stream.queue) != [] || (old(stream.finRequested) && !old(stream.finSent)))
      && (|| pos + HeaderSize(stream.streamId, old(stream.sentOffset)) > max
          || (old(stream.queue) != []
              && Allowance(old(cnx.maxdataRemote - cnx.dataSent), old(stream.maxdataRemote - stream.sentOffset),
                           max - pos - HeaderSize(stream.streamId, old(stream.sentOffset))) == 0))
  {
    hide Encoding, EncodedLength, FrameBytes, Splice, Zeros, Lead, HeaderBytes, HeaderSize, Emitted, SameOutside,
         Pending, Advance, FrameSize, QueuedLength, Allowance, Min;
    ghost var b := buf[..];
    SameOutsideItself(b, pos, max);
    next, moreData, seg := pos, false, Segment(stream.streamId, stream.sentOffset, [], false);
    if !stream.isActive && (stream.queue == [] || |stream.queue[0].bytes| <= stream.queue[0].offset)
       && (!stream.finRequested || stream.finSent) {
      return;
    }
    var afterHeader := FormatHeader(buf, pos, max, stream.streamId, stream.sentOffset);
    if afterHeader.None? {
      moreData := true;
      return;
    }
    if stream.queue == [] {
      NothingPending(stream.queue);
    }
    var index := afterHeader.value - pos;
    var allowed := max - afterHeader.value;
    if allowed > stream.maxdataRemote - stream.sentOffset {
      allowed := stream.maxdataRemote - stream.sentOffset;
    }
    if allowed > cnx.maxdataRemote - cnx.dataSent {
      allowed := cnx.maxdataRemote - cnx.dataSent;
    }
    LeastIsAllowed(cnx.maxdataRemote - cnx.dataSent, stream.maxdataRemote - stream.sentOffset, max - afterHeader.value, allowed);
    if stream.isActive && stream.queue == [] && !stream.finRequested {
      next, seg := FormatPolled(cnx, stream, buf, pos, index, max, allowed, reply, b);
    } else {
      SomethingQueued(stream.queue, allowed);
      next, moreData, seg := FormatQueued(cnx, stream, buf, pos, index, max, allowed, b);
    }
  }

  function Allowance(connection: nat, stream: nat, space: nat): nat {
    Min(Min(space, stream), connection)
  }
}
