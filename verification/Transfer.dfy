/** End to end: senders format and repeat stream frames, the network loses, duplicates and reorders packets,
    receivers reassemble. Each step is what the methods of the other modules promise; the theorem is about
    every run. */
module Transfer {
  import opened Wrappers
  import opened Varint
  import opened StreamFrames
  import opened Retransmit
  import opened Reassembly
  import opened ReassemblyRuns
  import StreamSender

  /** The sending side of a stream; `written` is everything the application has handed over. */
  datatype Sender = Sender(written: seq<byte>, sent: nat, finRequested: bool, finSent: bool) {
    predicate Valid() {
      sent <= |written| && (finSent ==> finRequested && sent == |written|)
    }
  }

  datatype State = State(
    senders: map<nat, Sender>,
    packet: seq<byte>,            // the packet being built, and how long it may become
    capacity: nat,
    stored: seq<seq<byte>>,       // frames waiting to be repeated
    wire: set<seq<byte>>,         // payloads ever sent: any of them can still arrive, any number of times
    inFlight: set<seq<byte>>,     // those neither acknowledged nor declared lost
    acked: set<(nat, nat)>,       // the positions of streams that are acknowledged
    receivers: map<nat, RecvView>
  ) {
    function Receiver(id: nat): RecvView {
      if id in receivers then receivers[id] else START
    }
  }

  datatype Step =
    | Write(id: nat, data: seq<byte>, fin: bool)
    | Format(seg: Segment, sender: Sender, pad: nat, hasLength: bool)
    | Repeat(unneeded: (nat, nat, nat) -> bool, segs: seq<Segment>, progress: Progress, x: seq<byte>)
    | Pad(count: nat)
    | Send(nextCapacity: nat)
    | Lose(lost: seq<byte>, dropped: set<nat>)
    | Acknowledge(received: seq<byte>)
    | Deliver(arrived: seq<byte>, index: nat, view: RecvView)

  ghost predicate Next(s: State, s': State, step: Step) {
    match step
    case Write(id, data, fin) =>
      var w := if id in s.senders then s.senders[id] else Sender([], 0, false, false);
      && (w.finSent ==> data == [])
      && s' == s.(senders := s.senders[id := w.(written := w.written + data, finRequested := w.finRequested || fin)])
    case Format(seg, w', pad, hasLength) =>
      && seg.streamId in s.senders
      && FormatSender(s.senders[seg.streamId], w', seg)
      && var packet := s.packet + (Zeros(pad) + FrameBytes(seg, hasLength));
         && |packet| <= s.capacity && (hasLength || |packet| == s.capacity)
         && s' == s.(senders := s.senders[seg.streamId := w'], packet := packet)
    case Repeat(unneeded, segs, progress, x) =>
      && OnlyAcked(s.acked, unneeded, segs)
      && AreStored(s.stored, segs)
      && Fits(progress, segs)
      && |s.packet + x| <= s.capacity
      && Carries(x, Sent(unneeded, segs, progress), |s.packet + x| == s.capacity)
      && AreFrames(s'.stored, Left(segs, progress))
      && s' == s.(packet := s.packet + x, stored := s'.stored)
    case Pad(count) =>
      |s.packet| + count <= s.capacity && s' == s.(packet := s.packet + Zeros(count))
    case Send(nextCapacity) =>
      && nextCapacity < MAX_SPACE
      && s' == s.(wire := s.wire + {s.packet}, inFlight := s.inFlight + {s.packet}, packet := [], capacity := nextCapacity)
    case Lose(lost, dropped) =>
      && lost in s.inFlight
      && Frames(lost).Some? && Segments(lost).Some? && |Frames(lost).value| == |Segments(lost).value|
      && (forall k | 0 <= k < |Segments(lost).value| && k in dropped :: Positions(Segments(lost).value[k]) <= s.acked)
      && s' == s.(stored := s.stored + Without(Frames(lost).value, dropped), inFlight := s.inFlight - {lost})
    case Acknowledge(received) =>
      && received in s.wire && Segments(received).Some?
      && (forall k | 0 <= k < |Segments(received).value| :: Received(s, Segments(received).value[k]))
      && s' == s.(acked := s.acked + AllPositions(Segments(received).value), inFlight := s.inFlight - {received})
    case Deliver(arrived, index, view) =>
      && arrived in s.wire
      && Segments(arrived).Some? && index < |Segments(arrived).value|
      && var seg := Segments(arrived).value[index];
         && Accepted(s.Receiver(seg.streamId), view, seg.offset, seg.fin, seg.data)
         && s' == s.(receivers := s.receivers[seg.streamId := view])
  }

  /** The positions that a frame carries; the end of the text is the position of the FIN. */
  function Positions(seg: Segment): set<(nat, nat)> {
    set i: nat | seg.offset <= i < seg.End() + (if seg.fin then 1 else 0) :: (seg.streamId, i)
  }

  function AllPositions(segs: seq<Segment>): set<(nat, nat)> {
    set k, p | 0 <= k < |segs| && p in Positions(segs[k]) :: p
  }

  /** The receiver has this position of the text, or the FIN. */
  predicate Has(v: RecvView, i: nat) {
    v.Known(i).Some? || (v.finReceived && i == v.finOffset)
  }

  predicate Received(s: State, seg: Segment) {
    forall p | p in Positions(seg) :: Has(s.Receiver(seg.streamId), p.1)
  }

  /** Only frames that are acknowledged are dropped. */
  ghost predicate OnlyAcked(acked: set<(nat, nat)>, unneeded: (nat, nat, nat) -> bool, segs: seq<Segment>) {
    forall k :: 0 <= k < |segs| && Unneeded(unneeded, segs[k]) ==> Positions(segs[k]) <= acked
  }

  /** The elements whose indices are not dropped. */
  function Without<T>(s: seq<T>, dropped: set<nat>): seq<T> {
    if s == [] then []
    else Without(s[..|s| - 1], dropped) + (if |s| - 1 in dropped then [] else [s[|s| - 1]])
  }

  /** What formatting one frame does to the sender: the contract of `FormatStreamFrame`. */
  predicate FormatSender(w: Sender, w': Sender, seg: Segment) {
    && seg.InRange() && (seg.data != [] || seg.fin)
    && seg.offset == w.sent
    && w.written <= w'.written && (w.finSent ==> w'.written == w.written)
    && w'.sent == seg.End() <= |w'.written|
    && seg.data == w'.written[seg.offset..seg.End()]
    && w'.finSent == (w.finSent || seg.fin)
    && (w.finRequested ==> w'.finRequested)
    && (seg.fin ==> w'.finRequested && w'.sent == |w'.written|)
  }

  /** The stored frames, decoded. */
  ghost predicate AreStored(stored: seq<seq<byte>>, segs: seq<Segment>) {
    |stored| == |segs| && forall i :: 0 <= i < |stored| ==> Segments(stored[i]) == Some([segs[i]])
  }

  const INITIAL: State := State(map[], [], 0, [], {}, {}, {}, map[])

  ghost predicate IsRun(states: seq<State>, steps: seq<Step>) {
    && |states| == |steps| + 1
    && states[0] == INITIAL
    && forall k :: 0 <= k < |steps| ==> Next(states[k], states[k + 1], steps[k])
  }

  // ----- The methods make these steps

  /** A frame written by `FormatStreamFrame`, in a packet that starts at `lo`, is a Format step. */
  lemma EmittedIsFormat(s: State, b: seq<byte>, b': seq<byte>, lo: nat, pos: nat, max: nat, next: nat, seg: Segment, w': Sender)
    requires lo <= pos <= max <= |b| && s.packet == b[lo..pos] && s.capacity == max - lo
    requires StreamSender.Emitted(b, b', pos, max, next, seg)
    requires seg.streamId in s.senders && FormatSender(s.senders[seg.streamId], w', seg)
    ensures next <= |b'|
    ensures var space := max - pos - HeaderSize(seg.streamId, seg.offset);
            var step := Format(seg, w', StreamSender.LeadPadding(|seg.data|, space),
                               StreamSender.Delimited(|seg.data|, space));
            Next(s, s.(senders := s.senders[seg.streamId := w'], packet := b'[lo..next]), step)
  {
    hide FrameBytes, FormatSender, Zeros, Splice;
    var space := max - pos - HeaderSize(seg.streamId, seg.offset);
    var region := Zeros(StreamSender.LeadPadding(|seg.data|, space))
                + FrameBytes(seg, StreamSender.Delimited(|seg.data|, space));
    SpliceExtends(b, lo, pos, region);
  }

  /** A pass of `FormatQueue` over the stored frames is a Repeat step. */
  lemma PassIsRepeat(s: State, stored': seq<seq<byte>>, segs: seq<Segment>, b': seq<byte>, lo: nat, pos: nat, max: nat,
                     next: nat, unneeded: (nat, nat, nat) -> bool, progress: Progress)
    requires lo <= pos <= next <= max <= |b'| && s.packet == b'[lo..pos] && s.capacity == max - lo
    requires AreFrames(s.stored, segs) && forall i :: 0 <= i < |segs| ==> segs[i].InRange()
    requires Fits(progress, segs) && OnlyAcked(s.acked, unneeded, segs)
    requires Carries(b'[pos..next], Sent(unneeded, segs, progress), next == max)
    requires AreFrames(stored', Left(segs, progress))
    ensures Next(s, s.(packet := b'[lo..next], stored := stored'), Repeat(unneeded, segs, progress, b'[pos..next]))
  {
    hide IsFrame, Carries, Sent, Left, Segments;
    forall i | 0 <= i < |s.stored|
      ensures Segments(s.stored[i]) == Some([segs[i]])
    {
      FrameDecodes(s.stored[i], segs[i]);
    }
    assert b'[lo..next] == b'[lo..pos] + b'[pos..next];
  }

  // ----- The invariant

  /** The segment is a piece of what its sender's application wrote. It carries data or the FIN. */
  predicate From(seg: Segment, senders: map<nat, Sender>) {
    && seg.InRange() && (seg.data != [] || seg.fin)
    && seg.streamId in senders
    && var w := senders[seg.streamId]; Consistent(seg, w.written, w.finSent) && seg.End() <= w.sent
  }

  predicate AllFrom(segs: seq<Segment>, senders: map<nat, Sender>) {
    forall k :: 0 <= k < |segs| ==> From(segs[k], senders)
  }

  ghost predicate Sound(p: seq<byte>, full: bool, senders: map<nat, Sender>) {
    Segments(p).Some? && Carries(p, Segments(p).value, full) && AllFrom(Segments(p).value, senders)
  }

  ghost predicate StoredSound(f: seq<byte>, senders: map<nat, Sender>) {
    && Segments(f).Some? && |Segments(f).value| == 1
    && IsFrame(f, Segments(f).value[0]) && From(Segments(f).value[0], senders)
  }

  ghost predicate ViewSafe(v: RecvView, w: Sender) {
    && v.Valid()
    && v.finOffset <= w.sent <= |w.written|
    && (forall i: nat :: v.Known(i).Some? ==> i < w.sent && v.Known(i).value == w.written[i])
    && (v.finReceived ==> w.finSent && v.finOffset == |w.written|)
    && !FinOwed(v)
  }

  ghost predicate Inv(s: State) {
    && (forall id | id in s.senders :: s.senders[id].Valid())
    && |s.packet| <= s.capacity
    && Sound(s.packet, |s.packet| == s.capacity, s.senders)
    && s.inFlight <= s.wire
    && (forall p | p in s.wire :: Sound(p, true, s.senders))
    && (forall i :: 0 <= i < |s.stored| ==> StoredSound(s.stored[i], s.senders))
    && (forall id | id in s.receivers :: id in s.senders && ViewSafe(s.receivers[id], s.senders[id]))
  }

  /** Senders only append, and never after their FIN. */
  predicate Grows(w: map<nat, Sender>, w': map<nat, Sender>) {
    forall id | id in w :: id in w' && SenderGrows(w[id], w'[id])
  }

  predicate SenderGrows(w: Sender, w': Sender) {
    && w.written <= w'.written && w.sent <= w'.sent <= |w'.written|
    && (w.finSent ==> w'.finSent && w'.written == w.written)
  }

  lemma AllFromGrows(segs: seq<Segment>, w: map<nat, Sender>, w': map<nat, Sender>)
    requires AllFrom(segs, w) && Grows(w, w')
    ensures AllFrom(segs, w')
  {
  }

  lemma ViewSafeGrows(v: RecvView, w: Sender, w': Sender)
    requires ViewSafe(v, w) && SenderGrows(w, w')
    ensures ViewSafe(v, w')
  {
  }

  /** Everything but the sender that changed keeps its part of the invariant. */
  lemma InvGrows(s: State, senders: map<nat, Sender>)
    requires Inv(s) && Grows(s.senders, senders)
    requires forall id | id in senders :: senders[id].Valid()
    ensures Inv(s.(senders := senders))
  {
    hide Segments, Carries, IsFrame, ViewSafe, AllFrom, SenderGrows;
    AllFromGrows(Segments(s.packet).value, s.senders, senders);
    forall p | p in s.wire
      ensures Sound(p, true, senders)
    {
      AllFromGrows(Segments(p).value, s.senders, senders);
    }
    forall i | 0 <= i < |s.stored|
      ensures StoredSound(s.stored[i], senders)
    {
      StoredSoundGrows(s.stored[i], s.senders, senders);
    }
    forall id | id in s.receivers
      ensures id in senders && ViewSafe(s.receivers[id], senders[id])
    {
      ViewSafeGrows(s.receivers[id], s.senders[id], senders[id]);
    }
  }

  lemma StoredSoundGrows(f: seq<byte>, w: map<nat, Sender>, w': map<nat, Sender>)
    requires StoredSound(f, w) && Grows(w, w')
    ensures StoredSound(f, w')
  {
  }

  // ----- Each step keeps the invariant

  lemma WriteKeeps(s: State, s': State, step: Step)
    requires Inv(s) && step.Write? && Next(s, s', step)
    ensures Inv(s')
  {
    var id := step.id;
    hide Inv, Segments, Sound, StoredSound, ViewSafe;
    SendersValid(s);
    assert Grows(s.senders, s'.senders);
    InvGrows(s, s'.senders);
  }

  lemma SendersValid(s: State)
    requires Inv(s)
    ensures forall id | id in s.senders :: s.senders[id].Valid()
  {
  }

  lemma FormatKeeps(s: State, s': State, step: Step)
    requires Inv(s) && step.Format? && Next(s, s', step)
    ensures Inv(s')
  {
    hide Segments, Carries, IsFrame, ViewSafe, Zeros, FrameBytes, Frames, Closed, StoredSound, Consistent;
    var seg := step.seg;
    SendersValid(s);
    assert Grows(s.senders, s'.senders);
    InvGrows(s, s'.senders);
    FormattedFrom(s.senders[seg.streamId], step.sender, seg);
    var x := Zeros(step.pad) + FrameBytes(seg, step.hasLength);
    CarriesRegion(step.pad, seg, step.hasLength);
    FrameNotEmpty(step.pad, seg, step.hasLength);
    PacketGrows(s.packet, x, [seg], !step.hasLength, s.capacity, s'.senders);
  }

  lemma FrameNotEmpty(pad: nat, seg: Segment, hasLength: bool)
    ensures Zeros(pad) + FrameBytes(seg, hasLength) != []
  {
  }

  lemma FormattedFrom(w: Sender, w': Sender, seg: Segment)
    requires w.Valid() && FormatSender(w, w', seg)
    ensures w'.Valid() && SenderGrows(w, w')
    ensures Consistent(seg, w'.written, w'.finSent) && seg.End() <= w'.sent
  {
  }

  /** Adding decodable bytes to a packet that has room for them: it was not closed by the end of the packet. */
  lemma PacketGrows(p: seq<byte>, x: seq<byte>, more: seq<Segment>, full: bool, capacity: nat, senders: map<nat, Sender>)
    requires |p + x| <= capacity
    requires Sound(p, |p| == capacity, senders)
    requires Carries(x, more, full) && AllFrom(more, senders)
    requires full ==> x == [] || |p + x| == capacity
    requires x == [] ==> more == []
    ensures Sound(p + x, |p + x| == capacity, senders)
    ensures Segments(p + x) == Some(Segments(p).value + more)
  {
    hide From, Segments, Frames, Closed, AreFrames;
    if x == [] {
      assert p + x == p && Segments(p).value + more == Segments(p).value;
    } else {
      CarriesLess(p, Segments(p).value, |p| == capacity);
      CarriesAppend(p, Segments(p).value, x, more, full);
      CarriesMonotone(p + x, Segments(p).value + more, full, |p + x| == capacity);
    }
  }

  lemma CarriesLess(p: seq<byte>, segs: seq<Segment>, full: bool)
    requires Carries(p, segs, full) && !full
    ensures Carries(p, segs, false)
  {
  }

  lemma CarriesMonotone(p: seq<byte>, segs: seq<Segment>, full: bool, full': bool)
    requires Carries(p, segs, full) && (full ==> full')
    ensures Carries(p, segs, full')
  {
  }

  lemma PadKeeps(s: State, s': State, step: Step)
    requires Inv(s) && step.Pad? && Next(s, s', step)
    ensures Inv(s')
  {
    hide Segments, Carries, IsFrame, ViewSafe, Frames, Closed, StoredSound, From;
    PaddingCarries(step.count);
    PacketGrows(s.packet, Zeros(step.count), [], false, s.capacity, s.senders);
  }

  lemma PaddingCarries(n: nat)
    ensures Carries(Zeros(n), [], false)
  {
    hide ParseHeader;
    SegmentsOfPadding(n, []);
    FramesOfPadding(n, []);
    assert Zeros(n) + [] == Zeros(n);
  }

  lemma SendKeeps(s: State, s': State, step: Step)
    requires Inv(s) && step.Send? && Next(s, s', step)
    ensures Inv(s')
  {
    hide Segments, Frames, Closed, ViewSafe, StoredSound, From, AreFrames;
    CarriesMonotone(s.packet, Segments(s.packet).value, |s.packet| == s.capacity, true);
    EmptySound(s'.capacity == 0, s.senders);
  }

  lemma EmptySound(full: bool, senders: map<nat, Sender>)
    ensures Sound([], full, senders)
  {
  }

  lemma LoseKeeps(s: State, s': State, step: Step)
    requires Inv(s) && step.Lose? && Next(s, s', step)
    ensures Inv(s')
  {
    hide Segments, Sound, StoredSound, ViewSafe, Positions, Without, Frames;
    var frames := Frames(step.lost).value;
    forall k | 0 <= k < |frames|
      ensures StoredSound(frames[k], s.senders)
    {
      LostFrameSound(step.lost, k, s.senders);
    }
    WithoutFrom(frames, step.dropped);
  }

  lemma {:induction false} WithoutFrom<T>(s: seq<T>, dropped: set<nat>)
    ensures forall i :: 0 <= i < |Without(s, dropped)| ==> Without(s, dropped)[i] in s
    ensures forall k :: 0 <= k < |s| && k !in dropped ==> s[k] in Without(s, dropped)
  {
    if s != [] {
      WithoutFrom(s[..|s| - 1], dropped);
      assert forall k :: 0 <= k < |s| - 1 ==> s[..|s| - 1][k] == s[k];
    }
  }

  lemma AcknowledgeKeeps(s: State, s': State, step: Step)
    requires Inv(s) && step.Acknowledge? && Next(s, s', step)
    ensures Inv(s')
  {
    hide Segments, Sound, StoredSound, ViewSafe, Received, AllPositions;
  }

  lemma LostFrameSound(p: seq<byte>, k: nat, senders: map<nat, Sender>)
    requires Sound(p, true, senders) && Frames(p).Some? && k < |Frames(p).value|
    ensures StoredSound(Frames(p).value[k], senders)
  {
    var f, seg := Frames(p).value[k], Segments(p).value[k];
    assert From(seg, senders);
    hide FrameBytes, Segments, Frames, Closed, Consistent;
    FrameDecodes(f, seg);
  }

  lemma FrameDecodes(f: seq<byte>, seg: Segment)
    requires IsFrame(f, seg) && seg.InRange()
    ensures Segments(f) == Some([seg])
  {
    hide FrameBytes, Segments, Closed;
    NoPadding(f);
    SegmentsOfRegion(0, seg, f == FrameBytes(seg, true));
  }

  lemma RepeatKeeps(s: State, s': State, step: Step)
    requires Inv(s) && step.Repeat? && Next(s, s', step)
    ensures Inv(s')
  {
    hide ViewSafe, Carries, Segments, IsFrame, Sent, Left;
    var segs := step.segs;
    assert AllFrom(segs, s.senders) by {
      forall k | 0 <= k < |segs|
        ensures From(segs[k], s.senders)
      {
        assert StoredSound(s.stored[k], s.senders);
      }
    }
    SentFrom(step.unneeded, segs, step.progress, s.senders);
    LeftFrom(segs, step.progress, s.senders);
    RepeatedPacket(s.packet, step.x, Sent(step.unneeded, segs, step.progress), s.capacity, s.senders);
    forall i | 0 <= i < |s'.stored|
      ensures StoredSound(s'.stored[i], s.senders)
    {
      FrameDecodes(s'.stored[i], Left(segs, step.progress)[i]);
    }
  }

  lemma RepeatedPacket(p: seq<byte>, x: seq<byte>, more: seq<Segment>, capacity: nat, senders: map<nat, Sender>)
    requires |p + x| <= capacity
    requires Sound(p, |p| == capacity, senders)
    requires Carries(x, more, |p + x| == capacity) && AllFrom(more, senders)
    ensures Sound(p + x, |p + x| == capacity, senders)
    ensures Segments(p + x) == Some(Segments(p).value + more)
  {
    if x == [] {
      CarriesNothing();
    }
    hide From, Segments, Frames, Closed, AreFrames;
    PacketGrows(p, x, more, |p + x| == capacity, capacity, senders);
  }

  lemma {:induction false} NeededFrom(unneeded: (nat, nat, nat) -> bool, segs: seq<Segment>, senders: map<nat, Sender>)
    requires AllFrom(segs, senders)
    ensures AllFrom(Needed(unneeded, segs), senders)
  {
    hide From;
    if segs != [] {
      NeededFrom(unneeded, segs[..|segs| - 1], senders);
    }
  }

  lemma SentFrom(unneeded: (nat, nat, nat) -> bool, segs: seq<Segment>, p: Progress, senders: map<nat, Sender>)
    requires AllFrom(segs, senders) && Fits(p, segs)
    ensures AllFrom(Sent(unneeded, segs, p), senders)
  {
    hide From, Needed, FirstPiece;
    NeededFrom(unneeded, segs[..p.count], senders);
    if p.cut > 0 {
      PiecesFrom(segs[p.count], p.cut, senders);
    }
  }

  lemma LeftFrom(segs: seq<Segment>, p: Progress, senders: map<nat, Sender>)
    requires AllFrom(segs, senders) && Fits(p, segs)
    ensures AllFrom(Left(segs, p), senders)
  {
  }

  /** Both pieces of a split frame are pieces of the same text, and only the last one can carry the FIN. */
  lemma PiecesFrom(seg: Segment, n: nat, senders: map<nat, Sender>)
    requires From(seg, senders) && 0 < n < |seg.data|
    ensures From(FirstPiece(seg, n), senders) && From(LastPiece(seg, n), senders)
    ensures FirstPiece(seg, n).End() == LastPiece(seg, n).offset
    ensures FirstPiece(seg, n).data + LastPiece(seg, n).data == seg.data
  {
    var text := senders[seg.streamId].written;
    assert text[seg.offset..seg.End()][..n] == text[seg.offset..seg.offset + n];
    assert text[seg.offset..seg.End()][n..] == text[seg.offset + n..seg.End()];
  }

  lemma DeliverKeeps(s: State, s': State, step: Step)
    requires Inv(s) && step.Deliver? && Next(s, s', step)
    ensures Inv(s')
  {
    var seg := Segments(step.arrived).value[step.index];
    assert From(seg, s.senders);
    hide Segments, Sound, StoredSound, Consistent, ViewSafe, Accepted;
    var w := s.senders[seg.streamId];
    var v := s.Receiver(seg.streamId);
    if seg.streamId !in s.receivers {
      StartIsSafe(w);
    }
    AcceptedSafe(v, step.view, seg, w);
  }

  lemma StartIsSafe(w: Sender)
    requires w.Valid()
    ensures ViewSafe(START, w)
  {
  }

  lemma AcceptedSafe(v: RecvView, v': RecvView, seg: Segment, w: Sender)
    requires ViewSafe(v, w) && Consistent(seg, w.written, w.finSent) && seg.End() <= w.sent
    requires Accepted(v, v', seg.offset, seg.fin, seg.data)
    ensures ViewSafe(v', w)
  {
    hide At;
    FinOwedStep(v, v', seg);
    forall i: nat | v'.Known(i).Some?
      ensures i < w.sent && v'.Known(i).value == w.written[i]
    {
      if i < |v.delivered| {
        assert v'.Known(i) == v.Known(i);
      } else if seg.offset <= i < seg.End() {
        assert DataAt(seg.offset, seg.data, i) == Some(w.written[i]);
      }
    }
  }

  lemma StepKeeps(s: State, s': State, step: Step)
    requires Inv(s) && Next(s, s', step)
    ensures Inv(s')
  {
    match step
    case Write(_, _, _) => WriteKeeps(s, s', step);
    case Format(_, _, _, _) => FormatKeeps(s, s', step);
    case Repeat(_, _, _, _) => RepeatKeeps(s, s', step);
    case Pad(_) => PadKeeps(s, s', step);
    case Send(_) => SendKeeps(s, s', step);
    case Lose(_, _) => LoseKeeps(s, s', step);
    case Acknowledge(_) => AcknowledgeKeeps(s, s', step);
    case Deliver(_, _, _) => DeliverKeeps(s, s', step);
  }

  lemma {:induction false} RunKeeps(states: seq<State>, steps: seq<Step>)
    requires IsRun(states, steps)
    ensures Inv(states[|steps|])
  {
    hide Next, Inv;
    if steps == [] {
      InitialInv();
    } else {
      var n := |steps| - 1;
      RunKeeps(states[..n + 1], steps[..n]);
      StepKeeps(states[n], states[n + 1], steps[n]);
    }
  }

  lemma InitialInv()
    ensures Inv(INITIAL)
  {
  }

  // ----- The theorem

  /** In every run, what a receiver has handed to its application is a prefix of what the sender's application
      wrote; with the FIN event it is all of it, and the sender has nothing more to write. */
  lemma DeliveredIsPrefix(states: seq<State>, steps: seq<Step>, id: nat)
    requires IsRun(states, steps)
    ensures var s := states[|steps|];
            id in s.receivers ==>
              && id in s.senders
              && s.receivers[id].delivered <= s.senders[id].written
              && (s.receivers[id].finSignalled ==>
                    s.senders[id].finSent && s.receivers[id].delivered == s.senders[id].written)
  {
    RunKeeps(states, steps);
    var s := states[|steps|];
    if id in s.receivers {
      SafePrefix(s.receivers[id], s.senders[id]);
    }
  }

  lemma SafePrefix(v: RecvView, w: Sender)
    requires ViewSafe(v, w)
    ensures v.delivered <= w.written
    ensures v.finSignalled ==> w.finSent && v.delivered == w.written
  {
  }

  /** In every run, no frame that arrives is refused for its final size. */
  lemma NeverFinalSizeError(states: seq<State>, steps: seq<Step>, p: seq<byte>, k: nat)
    requires IsRun(states, steps)
    requires var s := states[|steps|]; p in s.wire && Segments(p).Some? && k < |Segments(p).value|
    ensures var seg := Segments(p).value[k];
            var v := states[|steps|].Receiver(seg.streamId);
            v.finReceived ==> if seg.fin then seg.End() == v.finOffset else seg.End() <= v.finOffset
  {
    RunKeeps(states, steps);
    assert From(Segments(p).value[k], states[|steps|].senders);
  }
}
