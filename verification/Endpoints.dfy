/** The methods of the sender and of the receiver make the steps of the transfer: each call leads from a state that the
    objects represent to a next state that they represent. */
module Endpoints {
  import opened Wrappers
  import opened Varint
  import opened StreamFrames
  import opened Retransmit
  import opened Reassembly
  import opened ReassemblyRuns
  import opened Transfer
  import opened Conservation
  import opened Completion
  import StreamSender
  import SackList

  ghost function View(stream: StreamSender.SendStream): Sender
    reads stream
  {
    Sender(stream.written, stream.sentOffset, stream.finRequested, stream.finSent)
  }

  /** A stream that was not written to is not yet in the state. */
  ghost predicate Represents(s: State, stream: StreamSender.SendStream)
    reads stream
  {
    && stream.Valid()
    && View(stream) == if stream.streamId in s.senders then s.senders[stream.streamId] else Sender([], 0, false, false)
  }

  /** The packet is being built in `buf` from `lo`, has reached `pos`, and must not pass `max`. */
  ghost predicate Building(s: State, buf: array<byte>, lo: nat, pos: nat, max: nat)
    reads buf
  {
    lo <= pos <= max <= buf.Length && s.packet == buf[lo..pos] && s.capacity == max - lo
  }

  /** The bytes of the frames that the queue holds */
  ghost function FramesOf(segs: seq<Segment>, hasLength: seq<bool>): seq<seq<byte>>
    requires |segs| == |hasLength|
  {
    seq(|segs|, i requires 0 <= i < |segs| => FrameBytes(segs[i], hasLength[i]))
  }

  ghost predicate Queued(s: State, queue: RetransmitQueue, segs: seq<Segment>, hasLength: seq<bool>, buf: array<byte>)
    reads queue, set f | f in queue.frames :: f, set f | f in queue.frames :: f.bytes
  {
    QueueHolds(queue.frames, segs, hasLength, buf) && s.stored == FramesOf(segs, hasLength)
  }

  /** The application writes. It must not write behind the FIN. */
  method Write(stream: StreamSender.SendStream, data: seq<byte>, fin: bool, ghost s: State) returns (ok: bool, ghost s': State)
    requires Represents(s, stream) && (stream.finSent ==> data == [])
    modifies stream
    ensures Represents(s', stream)
    ensures if ok then Next(s, s', Step.Write(stream.streamId, data, fin)) else s' == s
  {
    ok := stream.AddToStream(data, fin);
    s' := if ok then s.(senders := s.senders[stream.streamId := View(stream)]) else s;
  }

  /** A frame is formatted, or nothing changes. */
  method Format(cnx: StreamSender.SendConnection, stream: StreamSender.SendStream, buf: array<byte>,
                lo: nat, pos: nat, max: nat, reply: StreamSender.Reply, ghost s: State)
    returns (next: nat, moreData: bool, ghost s': State, ghost step: Step)
    requires cnx.Valid() && Represents(s, stream) && stream.streamId in s.senders
    requires Building(s, buf, lo, pos, max) && max - pos < MAX_SPACE
    modifies cnx, stream, buf
    ensures cnx.Valid() && Represents(s', stream) && Building(s', buf, lo, next, max)
    ensures if next == pos then s' == s else step.Format? && step.seg.streamId == stream.streamId && Next(s, s', step)
  {
    hide FormatSender, FrameBytes, Zeros, Splice, StreamSender.Emitted, StreamSender.QueuedLength, StreamSender.Allowance,
         StreamSender.SendStream.Valid, SameOutside, Next;
    ghost var b, w := buf[..], View(stream);
    StreamInRange(stream);
    ghost var seg;
    next, moreData, seg := StreamSender.FormatStreamFrame(cnx, stream, buf, pos, max, reply);
    PrefixStays(b, buf[..], lo, pos, max);
    assert buf[..][lo..pos] == buf[lo..pos] && b[lo..pos] == s.packet;
    s', step := s, Pad(0);
    if next != pos {
      StreamSender.EmittedOutside(b, buf[..], pos, max, next, seg);
      StreamInRange(stream);
      FormattedSender(w, View(stream), seg);
      EmittedIsFormat(s, b, buf[..], lo, pos, max, next, seg, View(stream));
      ghost var space := max - pos - HeaderSize(seg.streamId, seg.offset);
      step := Step.Format(seg, View(stream), StreamSender.LeadPadding(|seg.data|, space),
                          StreamSender.Delimited(|seg.data|, space));
      s' := s.(senders := s.senders[seg.streamId := View(stream)], packet := buf[lo..next]);
    }
  }

  lemma StreamInRange(stream: StreamSender.SendStream)
    requires stream.Valid()
    ensures stream.streamId < TWO_62 && stream.sentOffset < TWO_62 && stream.sentOffset <= |stream.written|
    ensures stream.finSent ==> stream.finRequested && stream.sentOffset == |stream.written|
  {
  }

  lemma PrefixStays(b: seq<byte>, b': seq<byte>, lo: nat, pos: nat, max: nat)
    requires SameOutside(b, b', pos, max) && lo <= pos
    ensures b'[lo..pos] == b[lo..pos]
  {
    assert b'[lo..pos] == b'[..pos][lo..] && b[lo..pos] == b[..pos][lo..];
  }

  lemma FormattedSender(w: Sender, w': Sender, seg: Segment)
    requires seg.InRange() && seg.offset == w.sent && w.written <= w'.written && (seg.data != [] || seg.fin)
    requires w'.sent == seg.End() <= |w'.written| && seg.data == w'.written[seg.offset..seg.End()]
    requires w'.finSent == (w.finSent || seg.fin) && (w.finRequested ==> w'.finRequested)
    requires seg.fin ==> w'.finRequested && w'.sent == |w'.written|
    requires w.finSent ==> w'.written == w.written
    ensures FormatSender(w, w', seg)
  {
  }

  /** A pass over the frames that wait to be repeated. */
  method Repeat(queue: RetransmitQueue, buf: array<byte>, lo: nat, pos: nat, max: nat, unneeded: (nat, nat, nat) -> bool,
                ghost s: State, ghost segs: seq<Segment>, ghost hasLength: seq<bool>)
    returns (next: nat, moreData: bool, ghost s': State, ghost step: Step, ghost left: seq<Segment>, ghost leftLength: seq<bool>)
    requires Queued(s, queue, segs, hasLength, buf) && OnlyAcked(s.acked, unneeded, segs)
    requires Building(s, buf, lo, pos, max) && max - pos < MAX_SPACE
    modifies queue, set f | f in queue.frames :: f, set f | f in queue.frames :: f.bytes, buf
    ensures Queued(s', queue, left, leftLength, buf) && Building(s', buf, lo, next, max)
    ensures step.Repeat? && step.unneeded == unneeded && Next(s, s', step)
    ensures forall f | f in queue.frames :: f in old(queue.frames)
    // with some space left, every pass makes progress
    ensures segs != [] && max - pos >= MIN_SPACE ==> Weight(left) < Weight(segs)
  {
    hide FrameBytes, Carries, Sent, Left, Next, OnlyAcked, SameOutside, QueueHolds, Weight;
    ghost var b := buf[..];
    ghost var progress;
    QueueIsFrames(queue, segs, hasLength, buf);
    next, moreData, progress, leftLength := FormatQueue(queue, buf, pos, max, unneeded, segs, hasLength);
    PrefixStays(b, buf[..], lo, pos, max);
    left := Left(segs, progress);
    if progress.count + progress.cut > 0 {
      PassLowersWeight(segs, progress);
    }
    QueueIsFrames(queue, left, leftLength, buf);
    PassIsRepeat(s, FramesOf(left, leftLength), segs, buf[..], lo, pos, max, next, unneeded, progress);
    assert buf[..][lo..next] == buf[lo..next] && buf[..][pos..next] == buf[pos..next];
    step := Step.Repeat(unneeded, segs, progress, buf[pos..next]);
    s' := s.(packet := buf[lo..next], stored := FramesOf(left, leftLength));
  }

  lemma QueueIsFrames(queue: RetransmitQueue, segs: seq<Segment>, hasLength: seq<bool>, buf: array<byte>)
    requires QueueHolds(queue.frames, segs, hasLength, buf)
    ensures |segs| == |hasLength| && AreFrames(FramesOf(segs, hasLength), segs)
    ensures forall i :: 0 <= i < |segs| ==> segs[i].InRange()
  {
    hide FrameBytes;
    forall i | 0 <= i < |segs|
      ensures segs[i].InRange()
    {
      assert queue.frames[i].Holds(segs[i], hasLength[i]);
    }
  }

  /** A frame arrives. In a reachable state its final size is never wrong. */
  method Arrive(cnx: RecvConnection, stream: RecvStream, ghost s: State, ghost p: seq<byte>, ghost index: nat,
                id: nat, offset: nat, fin: bool, data: seq<byte>)
    returns (err: Error, ghost s': State)
    requires cnx.Valid() && stream.Valid() && Inv(s) && s.Receiver(id) == stream.View()
    requires p in s.wire && Segments(p).Some? && index < |Segments(p).value|
    requires Segments(p).value[index] == Segment(id, offset, data, fin)
    modifies cnx`dataReceived, stream
    ensures cnx.Valid() && err != FinalOffsetError
    ensures err == NoError ==>
      stream.Valid() && s'.Receiver(id) == stream.View() && Next(s, s', Step.Deliver(p, index, stream.View()))
    ensures err != NoError ==> s' == s && stream.delivered == old(stream.delivered)
  {
    hide Segments, Accepted;
    ArrivalInRange(s, p, index);
    err := StreamNetworkInput(cnx, stream, offset, fin, data);
    s' := if err == NoError then s.(receivers := s.receivers[id := stream.View()]) else s;
  }

  lemma ArrivalInRange(s: State, p: seq<byte>, index: nat)
    requires Inv(s) && p in s.wire && Segments(p).Some? && index < |Segments(p).value|
    ensures var seg := Segments(p).value[index];
            var v := s.Receiver(seg.streamId);
            && seg.InRange()
            && (v.finReceived ==> if seg.fin then seg.End() == v.finOffset else seg.End() <= v.finOffset)
  {
    hide Segments;
    assert From(Segments(p).value[index], s.senders);
  }

  // ----- What need not be repeated

  /** The ranges that the sender keeps hold only acknowledged positions, and a stream is deleted only when all positions
      up to that of its FIN are acknowledged. */
  ghost predicate AckedRanges(s: State, ranges: map<nat, seq<SackList.Range>>, deleted: set<nat>) {
    && (forall id | id in ranges :: SackList.Sorted(ranges[id]))
    && (forall id, i: nat | id in ranges && SackList.Contains(ranges[id], i) :: (id, i) in s.acked)
    && (forall id | id in deleted :: id in s.senders && forall i: nat | i <= s.senders[id].sent :: (id, i) in s.acked)
  }

  /** `picoquic_is_stream_acked`, for a stream that is closed and not reset: it may be deleted. */
  lemma StreamAcked(s: State, ranges: map<nat, seq<SackList.Range>>, deleted: set<nat>, id: nat)
    requires AckedRanges(s, ranges, deleted) && id in ranges && id in s.senders
    requires SackList.Check(ranges[id], 0, s.senders[id].sent)
    ensures AckedRanges(s, ranges, deleted + {id})
  {
    hide SackList.Sorted, SackList.Contains, SackList.Check;
    SackList.CheckIff(ranges[id], 0, s.senders[id].sent);
  }

  /** The test of the code for what need not be repeated, for streams that are not reset: the stream is deleted, or one
      range of what is acknowledged holds the frame and the position after it. */
  function UnneededBy(ranges: map<nat, seq<SackList.Range>>, deleted: set<nat>): (nat, nat, nat) -> bool {
    (id: nat, offset: nat, length: nat) =>
      id in deleted || (id in ranges && SackList.Check(ranges[id], offset, offset + length))
  }

  /** The ranges of the stream hold the number of every position, or the stream is deleted. */
  ghost predicate KnownAcked(ranges: map<nat, seq<SackList.Range>>, deleted: set<nat>, id: nat, positions: set<(nat, nat)>) {
    || id in deleted
    || (id in ranges && forall n: nat | (id, n) in positions :: SackList.Contains(ranges[id], n))
  }

  /** So a frame is dropped exactly if its stream is deleted, or the ranges hold its positions and the next one. */
  lemma UnneededIff(ranges: map<nat, seq<SackList.Range>>, deleted: set<nat>, seg: Segment)
    requires forall id | id in ranges :: SackList.Sorted(ranges[id])
    ensures Unneeded(UnneededBy(ranges, deleted), seg)
       <==> KnownAcked(ranges, deleted, seg.streamId, Positions(seg.(fin := true)))
  {
    hide SackList.Sorted, SackList.Contains, SackList.Check;
    var id := seg.streamId;
    if id in ranges {
      SackList.CheckIff(ranges[id], seg.offset, seg.End());
      PositionsAre(seg.(fin := true));
    }
  }

  lemma PositionsAre(seg: Segment)
    ensures forall n: nat :: (seg.streamId, n) in Positions(seg)
              <==> seg.offset <= n < seg.offset + |seg.data| + (if seg.fin then 1 else 0)
  {
  }

  lemma CheckedIsAcked(s: State, ranges: map<nat, seq<SackList.Range>>, deleted: set<nat>, segs: seq<Segment>)
    requires AckedRanges(s, ranges, deleted) && AllFrom(segs, s.senders)
    ensures OnlyAcked(s.acked, UnneededBy(ranges, deleted), segs)
  {
    hide SackList.Sorted, SackList.Contains, SackList.Check;
    forall k | 0 <= k < |segs| && Unneeded(UnneededBy(ranges, deleted), segs[k])
      ensures Positions(segs[k]) <= s.acked
    {
      var seg := segs[k];
      assert From(seg, s.senders);
      if seg.streamId !in deleted {
        SackList.CheckIff(ranges[seg.streamId], seg.offset, seg.End());
      }
    }
  }

  // ----- A packet is declared lost

  /** The last position that must be acknowledged, in 64 bits */
  function LastPosition(end: nat, fin: bool): nat {
    if fin then end else if end == 0 then TWO_64 - 1 else end - 1
  }

  /** `picoquic_check_frame_needs_repeat`, for a STREAM frame of a stream that is not reset */
  predicate NeedsRepeat(ranges: map<nat, seq<SackList.Range>>, deleted: set<nat>, id: nat, offset: nat, end: nat, fin: bool) {
    id !in deleted && !(id in ranges && SackList.Check(ranges[id], offset, LastPosition(end, fin)))
  }

  /** A frame is queued again exactly if its stream is not deleted and one of its positions is not acknowledged. */
  lemma NeedsRepeatIff(ranges: map<nat, seq<SackList.Range>>, deleted: set<nat>, seg: Segment)
    requires forall id | id in ranges :: SackList.Sorted(ranges[id])
    requires seg.data != [] || seg.fin
    ensures NeedsRepeat(ranges, deleted, seg.streamId, seg.offset, seg.End(), seg.fin)
       <==> !KnownAcked(ranges, deleted, seg.streamId, Positions(seg))
  {
    hide SackList.Sorted, SackList.Contains, SackList.Check;
    var id := seg.streamId;
    if id in ranges {
      SackList.CheckIff(ranges[id], seg.offset, LastPosition(seg.End(), seg.fin));
      PositionsAre(seg);
    }
  }

  lemma DroppedIsAcked(s: State, ranges: map<nat, seq<SackList.Range>>, deleted: set<nat>, seg: Segment)
    requires AckedRanges(s, ranges, deleted) && From(seg, s.senders)
    requires !NeedsRepeat(ranges, deleted, seg.streamId, seg.offset, seg.End(), seg.fin)
    ensures Positions(seg) <= s.acked
  {
    hide SackList.Sorted, SackList.Contains, SackList.Check;
    if seg.streamId !in deleted {
      SackList.CheckIff(ranges[seg.streamId], seg.offset, LastPosition(seg.End(), seg.fin));
    }
  }

  /** `picoquic_copy_before_retransmit` on a packet of STREAM frames and padding: the frames that are still needed are
      queued. */
  method CopyBeforeRetransmit(queue: RetransmitQueue, p: seq<byte>, ranges: map<nat, seq<SackList.Range>>, deleted: set<nat>,
                              ghost s: State, ghost segs: seq<Segment>, ghost hasLength: seq<bool>, ghost buf: array<byte>)
    returns (ghost s': State, ghost dropped: set<nat>, ghost segs': seq<Segment>, ghost hasLength': seq<bool>)
    requires Inv(s) && p in s.inFlight && AckedRanges(s, ranges, deleted)
    requires Queued(s, queue, segs, hasLength, buf)
    modifies queue
    ensures Queued(s', queue, segs', hasLength', buf)
    ensures Next(s, s', Lose(p, dropped))
    // exactly the frames that are known to be acknowledged are dropped
    ensures forall k: nat | k < |Payload(s, p)| ::
      k in dropped <==> KnownAcked(ranges, deleted, Payload(s, p)[k].streamId, Positions(Payload(s, p)[k]))
  {
    hide Segments, Frames, ParseHeader, QueueHolds, Inv, FrameBytes, AckedRanges, NeedsRepeat, Without, Positions, FramesOf,
         KnownAcked;
    InFlightDecodes(s, p);
    SentPayload(s, p);
    ghost var frames, carried := Frames(p).value, Payload(s, p);
    var i, k: nat := 0, 0;
    dropped, segs', hasLength' := {}, segs, hasLength;
    NothingWithout(frames, s.stored);
    QueueIsFrames(queue, segs, hasLength, buf);
    assert p[0..] == p && frames[0..] == frames && carried[0..] == carried;
    while i < |p|
      invariant i <= |p| && k <= |frames| == |carried|
      invariant Frames(p[i..]) == Some(frames[k..]) && Segments(p[i..]) == Some(carried[k..])
      invariant QueueHolds(queue.frames, segs', hasLength', buf) && |segs'| == |hasLength'|
      invariant FramesOf(segs', hasLength') == s.stored + Without(frames[..k], dropped)
      invariant forall d | d in dropped :: d < k && Positions(carried[d]) <= s.acked
      invariant forall d: nat | d < k ::
        d in dropped <==> KnownAcked(ranges, deleted, carried[d].streamId, Positions(carried[d]))
    {
      NextFrame(p, i);
      if p[i] == PADDING {
        i := i + 1;
      } else {
        var h := ParseHeader(p[i..]).value;
        var end := i + h.consumed + h.dataLength;
        var frame := p[i..end];
        Popped(frame, Frames(p[end..]).value, frames, k);
        Popped(Segment(h.streamId, h.offset, p[i + h.consumed..end], h.fin), Segments(p[end..]).value, carried, k);
        assert frame == frames[k] && carried[k] == Segment(h.streamId, h.offset, p[i + h.consumed..end], h.fin);
        WithoutNext(frames, dropped, k);
        CarriedFrame(s, p, k);
        RangesSorted(s, ranges, deleted);
        NeedsRepeatIff(ranges, deleted, carried[k]);
        if NeedsRepeat(ranges, deleted, h.streamId, h.offset, h.offset + h.dataLength, h.fin) {
          ghost var l := frame == FrameBytes(carried[k], true);
          var misc := new MiscFrame(frame);
          QueueMore(queue.frames, segs', hasLength', buf, misc, carried[k], l);
          FramesMore(segs', hasLength', carried[k], l, s.stored, Without(frames[..k], dropped));
          queue.frames := queue.frames + [misc];
          segs', hasLength' := segs' + [carried[k]], hasLength' + [l];
        } else {
          DroppedIsAcked(s, ranges, deleted, carried[k]);
          dropped := dropped + {k};
        }
        i := end;
        k := k + 1;
      }
    }
    s' := s.(stored := FramesOf(segs', hasLength'), inFlight := s.inFlight - {p});
    NoFrames();
    assert p[i..] == [] && frames[k..] == [];
    assert frames[..k] == frames;
  }

  lemma RangesSorted(s: State, ranges: map<nat, seq<SackList.Range>>, deleted: set<nat>)
    requires AckedRanges(s, ranges, deleted)
    ensures forall id | id in ranges :: SackList.Sorted(ranges[id])
  {
  }

  lemma SentPayload(s: State, p: seq<byte>)
    requires Inv(s) && p in s.wire
    ensures Frames(p).Some? && Segments(p).Some? && |Frames(p).value| == |Segments(p).value|
  {
    hide Frames, Segments, Closed, IsFrame;
    assert Sound(p, true, s.senders);
  }

  lemma CarriedFrame(s: State, p: seq<byte>, k: nat)
    requires Inv(s) && p in s.wire && Frames(p).Some? && Segments(p).Some? && k < |Segments(p).value|
    ensures k < |Frames(p).value| && IsFrame(Frames(p).value[k], Segments(p).value[k]) && From(Segments(p).value[k], s.senders)
  {
    hide Frames, Segments, Closed, IsFrame;
    assert Sound(p, true, s.senders);
    assert From(Segments(p).value[k], s.senders);
  }

  /** Decoding on from `i` takes padding, or one frame. */
  lemma NextFrame(p: seq<byte>, i: nat)
    requires i < |p| && Frames(p[i..]).Some? && Segments(p[i..]).Some?
    ensures p[i] == PADDING ==> Frames(p[i + 1..]) == Frames(p[i..]) && Segments(p[i + 1..]) == Segments(p[i..])
    ensures p[i] != PADDING ==>
      && ParseHeader(p[i..]).Some?
      && var h := ParseHeader(p[i..]).value;
         var end := i + h.consumed + h.dataLength;
         var seg := Segment(h.streamId, h.offset, p[i + h.consumed..end], h.fin);
         && i < end <= |p|
         && Frames(p[end..]).Some? && Frames(p[i..]) == Some([p[i..end]] + Frames(p[end..]).value)
         && Segments(p[end..]).Some? && Segments(p[i..]) == Some([seg] + Segments(p[end..]).value)
  {
    hide ParseHeader;
    var s := p[i..];
    if p[i] == PADDING {
      assert s[1..] == p[i + 1..];
    } else {
      var h := ParseHeader(s).value;
      var end := h.consumed + h.dataLength;
      assert s[end..] == p[i + end..] && s[..end] == p[i..i + end];
      assert s[h.consumed..end] == p[i + h.consumed..i + end];
    }
  }

  lemma NothingWithout(frames: seq<seq<byte>>, stored: seq<seq<byte>>)
    ensures stored + Without(frames[..0], {}) == stored
  {
  }

  lemma WithoutNext(frames: seq<seq<byte>>, dropped: set<nat>, k: nat)
    requires k < |frames| && forall d | d in dropped :: d < k
    ensures Without(frames[..k + 1], dropped) == Without(frames[..k], dropped) + [frames[k]]
    ensures Without(frames[..k + 1], dropped + {k}) == Without(frames[..k], dropped)
  {
    assert frames[..k + 1][..k] == frames[..k];
    WithoutSame(frames[..k], dropped, k);
    assert Without(frames[..k], dropped) + [] == Without(frames[..k], dropped);
  }

  lemma {:induction false} WithoutSame(frames: seq<seq<byte>>, dropped: set<nat>, k: nat)
    requires k >= |frames|
    ensures Without(frames, dropped + {k}) == Without(frames, dropped)
  {
    if frames != [] {
      WithoutSame(frames[..|frames| - 1], dropped, k);
    }
  }

  lemma QueueMore(frames: seq<MiscFrame>, segs: seq<Segment>, hasLength: seq<bool>, buf: array<byte>,
                  misc: MiscFrame, seg: Segment, l: bool)
    requires QueueHolds(frames, segs, hasLength, buf)
    requires misc.length == misc.bytes.Length && misc.bytes[..] == FrameBytes(seg, l) && seg.InRange()
    requires misc.bytes != buf && forall f | f in frames :: f != misc && f.bytes != misc.bytes
    ensures QueueHolds(frames + [misc], segs + [seg], hasLength + [l], buf)
  {
    hide FrameBytes;
    assert misc.bytes[..misc.length] == misc.bytes[..];
  }

  lemma FramesMore(segs: seq<Segment>, hasLength: seq<bool>, seg: Segment, l: bool,
                   stored: seq<seq<byte>>, kept: seq<seq<byte>>)
    requires |segs| == |hasLength| && FramesOf(segs, hasLength) == stored + kept
    ensures FramesOf(segs + [seg], hasLength + [l]) == stored + (kept + [FrameBytes(seg, l)])
  {
    hide FrameBytes;
    assert FramesOf(segs + [seg], hasLength + [l]) == FramesOf(segs, hasLength) + [FrameBytes(seg, l)];
  }

  lemma Popped<T>(x: T, rest: seq<T>, s: seq<T>, k: nat)
    requires k <= |s| && s[k..] == [x] + rest
    ensures k < |s| && s[k] == x && s[k + 1..] == rest
  {
    assert |s[k..]| == |rest| + 1;
    assert s[k + 1..] == s[k..][1..];
  }

  lemma NoFrames()
    ensures Frames([]) == Some([]) && Segments([]) == Some([])
  {
  }

  // ----- A packet is acknowledged

  /** `picoquic_process_ack_of_stream_frame`: the ranges of the stream gain exactly the positions of the frame. The frame
      carries data or the FIN, as all that are sent do. */
  method ProcessAckOfStreamFrame(tree: SackList.SackTree, id: nat, offset: nat, length: nat, fin: bool, ghost data: seq<byte>)
    requires tree.Valid() && |data| == length && (length > 0 || fin)
    modifies tree
    ensures tree.Valid()
    ensures forall n: nat :: SackList.Contains(tree.items, n)
              <==> SackList.Contains(old(tree.items), n) || (id, n) in Positions(Segment(id, offset, data, fin))
  {
    hide SackList.Contains;
    var duplicate := tree.Update(offset, offset + length - (if fin then 0 else 1));
  }

  /** The ranges of each stream that is not deleted hold exactly its acknowledged positions. */
  ghost predicate Tracks(acked: set<(nat, nat)>, trees: map<nat, SackList.SackTree>)
    reads set id | id in trees :: trees[id]
  {
    && (forall a, b | a in trees && b in trees && a != b :: trees[a] != trees[b])
    && (forall id | id in trees :: trees[id].Valid())
    && (forall id, n: nat | id in trees :: SackList.Contains(trees[id].items, n) <==> (id, n) in acked)
  }

  /** `picoquic_process_ack_of_frames` on a packet of STREAM frames and padding that the peer has received: the ranges of
      the streams that are not deleted gain what the packet carried. */
  method ProcessAckOfFrames(trees: map<nat, SackList.SackTree>, p: seq<byte>, ghost s: State) returns (ghost s': State)
    requires Inv(s) && p in s.wire && Tracks(s.acked, trees)
    requires forall k | 0 <= k < |Payload(s, p)| :: Received(s, Payload(s, p)[k])
    modifies set id | id in trees :: trees[id]
    ensures Tracks(s'.acked, trees)
    ensures Next(s, s', Acknowledge(p))
  {
    hide Segments, Frames, ParseHeader, Inv, Positions, AllPositions, SackList.Contains, Received, Tracks;
    SentPayload(s, p);
    ghost var carried := Payload(s, p);
    var i := 0;
    ghost var k: nat := 0;
    NothingAcked(s.acked);
    assert p[0..] == p && carried[0..] == carried && carried[..0] == [];
    while i < |p|
      invariant i <= |p| && k <= |carried|
      invariant Frames(p[i..]).Some? && Segments(p[i..]) == Some(carried[k..])
      invariant Tracks(s.acked + AllPositions(carried[..k]), trees)
    {
      NextFrame(p, i);
      if p[i] == PADDING {
        i := i + 1;
      } else {
        var h := ParseHeader(p[i..]).value;
        var end := i + h.consumed + h.dataLength;
        ghost var data := p[i + h.consumed..end];
        Popped(Segment(h.streamId, h.offset, data, h.fin), Segments(p[end..]).value, carried, k);
        CarriedFrame(s, p, k);
        OneMoreAcked(s.acked, carried, k);
        AckFrame(trees, h, data, s.acked + AllPositions(carried[..k]));
        i := end;
        k := k + 1;
      }
    }
    assert p[i..] == [];
    NoFrames();
    assert carried[..k] == carried;
    s' := s.(acked := s.acked + AllPositions(carried), inFlight := s.inFlight - {p});
    IsAcknowledge(s, s', p);
  }

  ghost function Payload(s: State, p: seq<byte>): seq<Segment>
    requires Inv(s) && p in s.wire
  {
    SentPayload(s, p);
    Segments(p).value
  }

  /** One frame of it, if its stream is still there */
  method AckFrame(trees: map<nat, SackList.SackTree>, h: Header, ghost data: seq<byte>, ghost acked: set<(nat, nat)>)
    requires Tracks(acked, trees) && |data| == h.dataLength && (data != [] || h.fin)
    modifies set id | id in trees :: trees[id]
    ensures Tracks(acked + Positions(Segment(h.streamId, h.offset, data, h.fin)), trees)
  {
    hide SackList.Contains, SackList.Sorted;
    if h.streamId in trees {
      ProcessAckOfStreamFrame(trees[h.streamId], h.streamId, h.offset, h.dataLength, h.fin, data);
    }
  }

  lemma NothingAcked(acked: set<(nat, nat)>)
    ensures acked + AllPositions([]) == acked
  {
  }

  lemma OneMoreAcked(acked: set<(nat, nat)>, carried: seq<Segment>, k: nat)
    requires k < |carried|
    ensures acked + AllPositions(carried[..k + 1]) == acked + AllPositions(carried[..k]) + Positions(carried[k])
  {
    hide Positions, AllPositions;
    assert carried[..k + 1] == carried[..k] + [carried[k]];
    PositionsConcat(carried[..k], [carried[k]]);
    PositionsOfOne(carried[k]);
  }

  // ----- All that is stored is sent

  /** The packets that are built one after another: each takes a part of what is stored, until nothing is left. */
  method SendStored(queue: RetransmitQueue, mtu: nat, ranges: map<nat, seq<SackList.Range>>, deleted: set<nat>,
                    ghost s: State, ghost segs: seq<Segment>, ghost hasLength: seq<bool>, ghost other: array<byte>)
    returns (packets: seq<seq<byte>>, ghost s': State)
    requires Inv(s) && s.packet == [] && s.capacity == mtu && MIN_SPACE <= mtu < MAX_SPACE
    requires Queued(s, queue, segs, hasLength, other) && AckedRanges(s, ranges, deleted)
    modifies queue, set f | f in queue.frames :: f, set f | f in queue.frames :: f.bytes
    ensures queue.frames == [] && Inv(s') && Reaches(s, s')
    ensures s'.packet == [] && s'.stored == [] && s'.senders == s.senders
    ensures forall k | 0 <= k < |packets| :: |packets[k]| <= mtu && packets[k] in s'.wire
  {
    hide Inv, Next, Reaches, Weight, AckedRanges, FramesOf, OnlyAcked, QueueHolds;
    packets, s' := [], s;
    ghost var segs', hasLength', buf0 := segs, hasLength, other;
    ReachesItself(s);
    QueueIsFrames(queue, segs', hasLength', buf0);
    while queue.frames != []
      invariant forall f | f in queue.frames :: f in old(queue.frames)
      invariant Inv(s') && Reaches(s, s') && s'.packet == [] && s'.capacity == mtu
      invariant s'.senders == s.senders && s'.acked == s.acked && Queued(s', queue, segs', hasLength', buf0)
      invariant forall k | 0 <= k < |packets| :: |packets[k]| <= mtu && packets[k] in s'.wire
      decreases Weight(segs')
    {
      var buf := new byte[mtu];
      OtherBuffer(queue, segs', hasLength', buf0, buf);
      QueueIsFrames(queue, segs', hasLength', buf);
      StoredFrom(s', segs', hasLength');
      SameRanges(s, s', ranges, deleted);
      CheckedIsAcked(s', ranges, deleted, segs');
      ghost var before, step := s', Pad(0);
      var next, moreData;
      next, moreData, s', step, segs', hasLength' :=
        Repeat(queue, buf, 0, 0, mtu, UnneededBy(ranges, deleted), s', segs', hasLength');
      buf0 := buf;
      RepeatSame(before, s', step);
      StepKeeps(before, s', step);
      ReachesOneMore(s, before, s', step);
      packets := packets + [buf[..next]];
      assert s'.packet == buf[..next];
      ghost var built := s';
      s' := SendPacket(built, mtu);
      ReachesOneMore(s, built, s', Send(mtu));
    }
    QueueIsFrames(queue, segs', hasLength', buf0);
    NothingStored(queue, segs', hasLength', buf0, s');
  }

  lemma OtherBuffer(queue: RetransmitQueue, segs: seq<Segment>, hasLength: seq<bool>, buf: array<byte>, buf': array<byte>)
    requires QueueHolds(queue.frames, segs, hasLength, buf)
    requires forall f | f in queue.frames :: f.bytes != buf'
    ensures QueueHolds(queue.frames, segs, hasLength, buf') && |segs| == |queue.frames|
  {
    hide MiscFrame.Holds;
  }

  lemma StoredFrom(s: State, segs: seq<Segment>, hasLength: seq<bool>)
    requires Inv(s) && |segs| == |hasLength| && s.stored == FramesOf(segs, hasLength)
    requires forall k :: 0 <= k < |segs| ==> segs[k].InRange()
    ensures AllFrom(segs, s.senders)
  {
    hide FrameBytes, Segments, From, ViewSafe, Sound;
    forall k | 0 <= k < |segs|
      ensures From(segs[k], s.senders)
    {
      assert StoredSound(s.stored[k], s.senders);
      FrameDecodes(s.stored[k], segs[k]);
    }
  }

  lemma SameRanges(s: State, t: State, ranges: map<nat, seq<SackList.Range>>, deleted: set<nat>)
    requires AckedRanges(s, ranges, deleted) && t.senders == s.senders && t.acked == s.acked
    ensures AckedRanges(t, ranges, deleted)
  {
    hide SackList.Sorted, SackList.Contains;
  }

  lemma RepeatSame(s: State, t: State, step: Step)
    requires step.Repeat? && Next(s, t, step)
    ensures t == s.(packet := t.packet, stored := t.stored)
  {
  }

  lemma NothingStored(queue: RetransmitQueue, segs: seq<Segment>, hasLength: seq<bool>, buf: array<byte>, s: State)
    requires Queued(s, queue, segs, hasLength, buf) && queue.frames == []
    ensures s.stored == []
  {
  }
}
