/** Reliability: nothing that a sender has sent is forgotten before the receiver has it, so that everything is
    delivered once nothing is waiting any more. */
module Conservation {
  import opened Wrappers
  import opened Varint
  import opened StreamFrames
  import opened Retransmit
  import opened Reassembly
  import opened ReassemblyRuns
  import opened Transfer

  /** The positions that a sender has sent; the end of the text is the position of the FIN. */
  predicate Due(w: Sender, i: nat) {
    i < w.sent || (w.finSent && i == w.sent)
  }

  /** A payload or a stored frame carries the position. */
  predicate Carried(p: seq<byte>, id: nat, i: nat) {
    (id, i) in PositionsOf(p)
  }

  function PositionsOf(p: seq<byte>): set<(nat, nat)> {
    if Segments(p).Some? then AllPositions(Segments(p).value) else {}
  }

  /** The position is in the packet that is being built, in flight, or stored to be repeated. */
  ghost predicate Waiting(s: State, id: nat, i: nat) {
    || Carried(s.packet, id, i)
    || (exists p :: p in s.inFlight && Carried(p, id, i))
    || (exists k :: 0 <= k < |s.stored| && Carried(s.stored[k], id, i))
  }

  /** What is acknowledged was received, and what was sent was received or still waits. */
  ghost predicate Kept(s: State) {
    && (forall id: nat, i: nat :: (id, i) in s.acked ==> Has(s.Receiver(id), i))
    && (forall id: nat, i: nat :: id in s.senders && Due(s.senders[id], i) ==> Has(s.Receiver(id), i) || Waiting(s, id, i))
  }

  // ----- Positions

  lemma PositionsConcat(a: seq<Segment>, b: seq<Segment>)
    ensures AllPositions(a + b) == AllPositions(a) + AllPositions(b)
  {
    hide Positions;
    var s := a + b;
    forall p
      ensures p in AllPositions(s) <==> p in AllPositions(a) || p in AllPositions(b)
    {
      if p in AllPositions(s) {
        var k :| 0 <= k < |s| && p in Positions(s[k]);
        assert k < |a| ==> s[k] == a[k];
        assert k >= |a| ==> s[k] == b[k - |a|];
      }
      if p in AllPositions(a) {
        var k :| 0 <= k < |a| && p in Positions(a[k]);
        assert s[k] == a[k];
      }
      if p in AllPositions(b) {
        var k :| 0 <= k < |b| && p in Positions(b[k]);
        assert s[|a| + k] == b[k];
      }
    }
  }

  lemma PositionsOfOne(seg: Segment)
    ensures AllPositions([seg]) == Positions(seg)
  {
    hide Positions;
    assert forall p :: p in Positions(seg) ==> p in Positions([seg][0]);
  }

  lemma PositionsOfPieces(seg: Segment, n: nat)
    requires n <= |seg.data|
    ensures Positions(seg) == Positions(FirstPiece(seg, n)) + Positions(LastPiece(seg, n))
  {
  }

  lemma {:induction false} PositionsOfNeeded(unneeded: (nat, nat, nat) -> bool, segs: seq<Segment>, acked: set<(nat, nat)>)
    requires OnlyAcked(acked, unneeded, segs)
    ensures AllPositions(segs) <= AllPositions(Needed(unneeded, segs)) + acked
  {
    hide Positions, Unneeded;
    if segs != [] {
      var front, last := segs[..|segs| - 1], segs[|segs| - 1];
      assert forall k :: 0 <= k < |front| ==> front[k] == segs[k];
      PositionsOfNeeded(unneeded, front, acked);
      PositionsOfOne(last);
      PositionsConcat(front, [last]);
      assert segs == front + [last];
      PositionsConcat(Needed(unneeded, front), [last]);
      assert Needed(unneeded, front) + [] == Needed(unneeded, front);
    }
  }

  /** What a pass sends and leaves, together with what is acknowledged, is what was stored. */
  lemma PassKeepsPositions(unneeded: (nat, nat, nat) -> bool, segs: seq<Segment>, p: Progress, acked: set<(nat, nat)>)
    requires Fits(p, segs) && OnlyAcked(acked, unneeded, segs)
    ensures AllPositions(segs) <= AllPositions(Sent(unneeded, segs, p)) + AllPositions(Left(segs, p)) + acked
  {
    hide Positions, Unneeded, Needed, AllPositions, FirstPiece, LastPiece;
    var done, rest := segs[..p.count], segs[p.count..];
    assert Needed(unneeded, done) + [] == Needed(unneeded, done);
    assert forall k :: 0 <= k < |done| ==> done[k] == segs[k];
    PositionsOfNeeded(unneeded, done, acked);
    assert segs == done + rest;
    PositionsConcat(done, rest);
    if p.cut > 0 {
      var seg := segs[p.count];
      assert rest == [seg] + segs[p.count + 1..];
      PositionsConcat([seg], segs[p.count + 1..]);
      PositionsOfOne(seg);
      PositionsOfPieces(seg, p.cut);
      PositionsOfOne(FirstPiece(seg, p.cut));
      PositionsOfOne(LastPiece(seg, p.cut));
      PositionsConcat(Needed(unneeded, done), [FirstPiece(seg, p.cut)]);
      PositionsConcat([LastPiece(seg, p.cut)], segs[p.count + 1..]);
    }
  }

  // ----- What a step must do

  /** Receivers forget nothing. */
  ghost predicate HasMore(s: State, s': State) {
    forall id: nat, i: nat :: Has(s.Receiver(id), i) ==> Has(s'.Receiver(id), i)
  }

  ghost predicate AckedReceived(s: State) {
    forall id: nat, i: nat :: (id, i) in s.acked ==> Has(s.Receiver(id), i)
  }

  /** What waited was received or still waits. */
  ghost predicate StillWaits(s: State, s': State) {
    forall id: nat, i: nat :: Waiting(s, id, i) ==> Has(s'.Receiver(id), i) || Waiting(s', id, i)
  }

  /** What is due only now waits. */
  ghost predicate NewWaits(s: State, s': State) {
    forall id: nat, i: nat :: id in s'.senders && Due(s'.senders[id], i) ==>
      (id in s.senders && Due(s.senders[id], i)) || Waiting(s', id, i)
  }

  lemma KeptBy(s: State, s': State)
    requires Kept(s) && HasMore(s, s') && AckedReceived(s') && StillWaits(s, s') && NewWaits(s, s')
    ensures Kept(s')
  {
    hide Has, Waiting, Due;
  }

  lemma SameReceivers(s: State, s': State)
    requires Kept(s) && s'.receivers == s.receivers && s'.acked == s.acked
    ensures HasMore(s, s') && AckedReceived(s')
  {
    hide Has, Waiting, Due;
  }

  // ----- Each step

  lemma WriteKept(s: State, s': State, step: Step)
    requires Inv(s) && Kept(s) && step.Write? && Next(s, s', step)
    ensures Kept(s')
  {
    hide Inv, Has, Carried;
    SameReceivers(s, s');
    KeptBy(s, s');
  }

  lemma FormatKept(s: State, s': State, step: Step)
    requires Inv(s) && Kept(s) && step.Format? && Next(s, s', step)
    ensures Kept(s')
  {
    hide Inv, Has, Segments, PositionsOf, Kept, FrameBytes, Due;
    var seg := step.seg;
    SameReceivers(s, s');
    FormattedPacket(s, s', step);
    PacketWaits(s, s', Positions(seg));
    FormattedDue(s, seg, step.sender);
    forall id: nat, i: nat | id in s'.senders && Due(s'.senders[id], i)
      ensures (id in s.senders && Due(s.senders[id], i)) || Waiting(s', id, i)
    {
      assert id == seg.streamId && !Due(s.senders[id], i) ==> (id, i) in Positions(seg);
    }
    KeptBy(s, s');
  }

  lemma FormattedPacket(s: State, s': State, step: Step)
    requires Inv(s) && step.Format? && Next(s, s', step)
    ensures PositionsOf(s'.packet) == PositionsOf(s.packet) + Positions(step.seg)
  {
    hide Segments, Carries, ViewSafe, Zeros, FrameBytes, StoredSound, Consistent, AllPositions, Positions;
    var seg := step.seg;
    CarriesRegion(step.pad, seg, step.hasLength);
    FrameNotEmpty(step.pad, seg, step.hasLength);
    SendersValid(s);
    FormattedFrom(s.senders[seg.streamId], step.sender, seg);
    InvGrows(s, s'.senders) by {
      assert Grows(s.senders, s'.senders);
    }
    var x := Zeros(step.pad) + FrameBytes(seg, step.hasLength);
    PacketGrows(s.packet, x, [seg], !step.hasLength, s.capacity, s'.senders);
    PositionsOfOne(seg);
    PositionsConcat(Segments(s.packet).value, [seg]);
  }

  /** A packet that carries more; all else is the same. */
  lemma PacketWaits(s: State, s': State, more: set<(nat, nat)>)
    requires s'.inFlight == s.inFlight && s'.stored == s.stored && s'.receivers == s.receivers
    requires PositionsOf(s'.packet) == PositionsOf(s.packet) + more
    ensures StillWaits(s, s')
    ensures forall id: nat, i: nat :: (id, i) in more ==> Waiting(s', id, i)
  {
    hide Has, PositionsOf;
  }

  lemma FormattedDue(s: State, seg: Segment, w': Sender)
    requires Inv(s) && seg.streamId in s.senders && FormatSender(s.senders[seg.streamId], w', seg)
    ensures forall i: nat :: Due(w', i) && !Due(s.senders[seg.streamId], i) ==> (seg.streamId, i) in Positions(seg)
  {
    SendersValid(s);
  }

  lemma RepeatKept(s: State, s': State, step: Step)
    requires Inv(s) && Kept(s) && step.Repeat? && Next(s, s', step)
    ensures Kept(s')
  {
    hide Inv, Has, PositionsOf, AllPositions, Kept, Due, Sent, Left, Carries, OnlyAcked, Waiting, Carried;
    var segs, left := step.segs, Left(step.segs, step.progress);
    var sent := AllPositions(Sent(step.unneeded, segs, step.progress));
    SameReceivers(s, s');
    RepeatedPositions(s, s', step);
    PassKeepsPositions(step.unneeded, segs, step.progress, s.acked);
    StoredPositions(s.stored, segs);
    LeftPositions(s'.stored, left, s, step);
    RepeatedWaits(s, s', segs, left, sent);
    KeptBy(s, s');
  }

  lemma RepeatedWaits(s: State, s': State, segs: seq<Segment>, left: seq<Segment>, sent: set<(nat, nat)>)
    requires s'.inFlight == s.inFlight && s'.receivers == s.receivers && AckedReceived(s)
    requires PositionsOf(s'.packet) == PositionsOf(s.packet) + sent
    requires forall k :: 0 <= k < |s.stored| ==> PositionsOf(s.stored[k]) <= AllPositions(segs)
    requires forall p | p in AllPositions(left) :: exists k :: 0 <= k < |s'.stored| && p in PositionsOf(s'.stored[k])
    requires AllPositions(segs) <= sent + AllPositions(left) + s.acked
    ensures StillWaits(s, s')
  {
    hide Has, PositionsOf, AllPositions;
    forall id: nat, i: nat | Waiting(s, id, i)
      ensures Has(s'.Receiver(id), i) || Waiting(s', id, i)
    {
      if k :| 0 <= k < |s.stored| && Carried(s.stored[k], id, i) {
        assert (id, i) in AllPositions(segs);
        assert (id, i) in sent ==> Carried(s'.packet, id, i);
      }
    }
  }

  lemma RepeatedPositions(s: State, s': State, step: Step)
    requires Inv(s) && step.Repeat? && Next(s, s', step)
    ensures PositionsOf(s'.packet) == PositionsOf(s.packet) + AllPositions(Sent(step.unneeded, step.segs, step.progress))
  {
    hide ViewSafe, Carries, Segments, IsFrame, Sent, Left, AllPositions, OnlyAcked;
    var segs := step.segs;
    assert AllFrom(segs, s.senders) by {
      forall k | 0 <= k < |segs|
        ensures From(segs[k], s.senders)
      {
        assert StoredSound(s.stored[k], s.senders);
      }
    }
    SentFrom(step.unneeded, segs, step.progress, s.senders);
    RepeatedPacket(s.packet, step.x, Sent(step.unneeded, segs, step.progress), s.capacity, s.senders);
    PositionsConcat(Segments(s.packet).value, Sent(step.unneeded, segs, step.progress));
  }

  /** The stored frames carry the positions of their segments. */
  lemma StoredPositions(stored: seq<seq<byte>>, segs: seq<Segment>)
    requires AreStored(stored, segs)
    ensures forall k :: 0 <= k < |stored| ==> PositionsOf(stored[k]) <= AllPositions(segs)
    ensures forall p | p in AllPositions(segs) :: exists k :: 0 <= k < |stored| && p in PositionsOf(stored[k])
  {
    hide Segments, Positions;
    forall k | 0 <= k < |stored|
      ensures PositionsOf(stored[k]) == Positions(segs[k]) && Positions(segs[k]) <= AllPositions(segs)
    {
      PositionsOfOne(segs[k]);
    }
  }

  lemma LeftPositions(stored: seq<seq<byte>>, left: seq<Segment>, s: State, step: Step)
    requires Inv(s) && step.Repeat? && AreStored(s.stored, step.segs) && Fits(step.progress, step.segs)
    requires left == Left(step.segs, step.progress) && AreFrames(stored, left)
    ensures forall p | p in AllPositions(left) :: exists k :: 0 <= k < |stored| && p in PositionsOf(stored[k])
  {
    hide ViewSafe, Carries, Segments, IsFrame, Left, AllPositions, PositionsOf;
    var segs := step.segs;
    assert AllFrom(segs, s.senders) by {
      forall k | 0 <= k < |segs|
        ensures From(segs[k], s.senders)
      {
        assert StoredSound(s.stored[k], s.senders);
      }
    }
    LeftFrom(segs, step.progress, s.senders);
    forall i | 0 <= i < |stored|
      ensures Segments(stored[i]) == Some([left[i]])
    {
      FrameDecodes(stored[i], left[i]);
    }
    StoredPositions(stored, left);
  }

  lemma PadKept(s: State, s': State, step: Step)
    requires Inv(s) && Kept(s) && step.Pad? && Next(s, s', step)
    ensures Kept(s')
  {
    hide Has, PositionsOf, Kept, Due, Segments, Carries, Zeros, ViewSafe, StoredSound, From;
    SameReceivers(s, s');
    PaddingCarries(step.count);
    PacketGrows(s.packet, Zeros(step.count), [], false, s.capacity, s.senders);
    assert Segments(s.packet).value + [] == Segments(s.packet).value;
    SamePositions(s'.packet, s.packet);
    PacketWaits(s, s', {});
    KeptBy(s, s');
  }

  lemma SamePositions(p: seq<byte>, q: seq<byte>)
    requires Segments(p) == Segments(q)
    ensures PositionsOf(p) == PositionsOf(q)
  {
  }

  lemma SendKept(s: State, s': State, step: Step)
    requires Kept(s) && step.Send? && Next(s, s', step)
    ensures Kept(s')
  {
    hide Has, PositionsOf, Kept, Due;
    SameReceivers(s, s');
    assert s.packet in s'.inFlight;
    KeptBy(s, s');
  }

  lemma LoseKept(s: State, s': State, step: Step)
    requires Inv(s) && Kept(s) && step.Lose? && Next(s, s', step)
    ensures Kept(s')
  {
    hide Inv, Has, PositionsOf, Kept, Due, Segments, Frames, Without, Positions, Waiting, Carried;
    SameReceivers(s, s');
    var frames, segs, kept := Frames(step.lost).value, Segments(step.lost).value, Without(Frames(step.lost).value, step.dropped);
    LostPositions(s, step, frames, segs);
    WithoutFrom(frames, step.dropped);
    LostWaits(s, s', step.lost, frames, segs, kept);
    KeptBy(s, s');
  }

  /** What a lost packet carries is acknowledged, or carried by one of the frames that are stored. */
  lemma LostPositions(s: State, step: Step, frames: seq<seq<byte>>, segs: seq<Segment>)
    requires Inv(s) && step.Lose? && step.lost in s.inFlight
    requires Frames(step.lost) == Some(frames) && Segments(step.lost) == Some(segs) && |frames| == |segs|
    requires forall k | 0 <= k < |segs| && k in step.dropped :: Positions(segs[k]) <= s.acked
    ensures forall p | p in PositionsOf(step.lost) ::
              p in s.acked || exists k :: 0 <= k < |frames| && k !in step.dropped && p in PositionsOf(frames[k])
  {
    hide Segments, Frames, Positions, Closed, ViewSafe, StoredSound, IsFrame;
    forall k | 0 <= k < |frames|
      ensures PositionsOf(frames[k]) == Positions(segs[k])
    {
      assert IsFrame(frames[k], segs[k]) && From(segs[k], s.senders);
      FrameDecodes(frames[k], segs[k]);
      PositionsOfOne(segs[k]);
    }
  }

  lemma LostWaits(s: State, s': State, lost: seq<byte>, frames: seq<seq<byte>>, segs: seq<Segment>, kept: seq<seq<byte>>)
    requires s'.inFlight == s.inFlight - {lost} && s'.receivers == s.receivers && s'.packet == s.packet
    requires s'.stored == s.stored + kept && AckedReceived(s)
    requires forall p | p in PositionsOf(lost) :: p in s.acked || exists f :: f in kept && p in PositionsOf(f)
    ensures StillWaits(s, s')
  {
    hide Has, PositionsOf;
    forall id: nat, i: nat | Waiting(s, id, i)
      ensures Has(s'.Receiver(id), i) || Waiting(s', id, i)
    {
      if k :| 0 <= k < |s.stored| && Carried(s.stored[k], id, i) {
        assert s'.stored[k] == s.stored[k];
      } else if Carried(lost, id, i) && (id, i) !in s.acked {
        var f :| f in kept && (id, i) in PositionsOf(f);
        var k :| 0 <= k < |kept| && kept[k] == f;
        assert s'.stored[|s.stored| + k] == f;
      }
    }
  }

  lemma AcknowledgeKept(s: State, s': State, step: Step)
    requires Kept(s) && step.Acknowledge? && Next(s, s', step)
    ensures Kept(s')
  {
    hide Has, Due, Segments, Kept;
    var segs := Segments(step.received).value;
    forall id: nat, i: nat | (id, i) in AllPositions(segs)
      ensures Has(s'.Receiver(id), i)
    {
      var k :| 0 <= k < |segs| && (id, i) in Positions(segs[k]);
      assert Received(s, segs[k]);
      assert (id, i).1 == i;
    }
    SameHas(s, s');
    AcknowledgedReceived(s, s', AllPositions(segs));
    AcknowledgedWaits(s, s', step.received);
    KeptBy(s, s');
  }

  lemma SameHas(s: State, s': State)
    requires s'.receivers == s.receivers
    ensures HasMore(s, s')
  {
  }

  lemma AcknowledgedReceived(s: State, s': State, more: set<(nat, nat)>)
    requires Kept(s) && s'.receivers == s.receivers && s'.acked == s.acked + more
    requires forall id: nat, i: nat | (id, i) in more :: Has(s'.Receiver(id), i)
    ensures AckedReceived(s')
  {
    hide Has, Waiting, Due;
  }

  lemma AcknowledgedWaits(s: State, s': State, received: seq<byte>)
    requires s'.inFlight == s.inFlight - {received} && s'.receivers == s.receivers
    requires s'.packet == s.packet && s'.stored == s.stored
    requires forall id: nat, i: nat | Carried(received, id, i) :: Has(s'.Receiver(id), i)
    ensures StillWaits(s, s')
  {
    hide Has, Carried;
  }

  lemma DeliverKept(s: State, s': State, step: Step)
    requires Inv(s) && Inv(s') && Kept(s) && step.Deliver? && Next(s, s', step)
    ensures Kept(s')
  {
    hide Has, Due, Segments, Kept, Carried, Sound, StoredSound, ViewSafe, Accepted;
    var seg := Segments(step.arrived).value[step.index];
    var v, w := s.Receiver(seg.streamId), s.senders[seg.streamId];
    assert seg.streamId in s'.receivers;
    if seg.streamId !in s.receivers {
      SendersValid(s);
      StartIsSafe(w);
    }
    HasStays(v, step.view, w, seg);
    assert HasMore(s, s');
    DeliveredAcked(s, s');
    KeptBy(s, s');
  }

  lemma DeliveredAcked(s: State, s': State)
    requires Kept(s) && HasMore(s, s') && s'.acked == s.acked
    ensures AckedReceived(s')
  {
    hide Has, Due, Waiting;
  }

  /** What the receiver has, it keeps. */
  lemma HasStays(v: RecvView, v': RecvView, w: Sender, seg: Segment)
    requires ViewSafe(v, w) && ViewSafe(v', w) && Accepted(v, v', seg.offset, seg.fin, seg.data)
    ensures forall i: nat :: Has(v, i) ==> Has(v', i)
  {
    hide At;
  }

  // ----- The theorem

  lemma StepKept(s: State, s': State, step: Step)
    requires Inv(s) && Kept(s) && Next(s, s', step)
    ensures Kept(s')
  {
    hide Inv, Kept;
    match step
    case Write(_, _, _) => WriteKept(s, s', step);
    case Format(_, _, _, _) => FormatKept(s, s', step);
    case Repeat(_, _, _, _) => RepeatKept(s, s', step);
    case Pad(_) => PadKept(s, s', step);
    case Send(_) => SendKept(s, s', step);
    case Lose(_, _) => LoseKept(s, s', step);
    case Acknowledge(_) => AcknowledgeKept(s, s', step);
    case Deliver(_, _, _) =>
      StepKeeps(s, s', step);
      DeliverKept(s, s', step);
  }

  /** In every run, each position that was sent was received, or is in the packet that is being built, in flight, or
      stored to be repeated; and only what was received is acknowledged. */
  lemma {:induction false} NothingIsForgotten(states: seq<State>, steps: seq<Step>)
    requires IsRun(states, steps)
    ensures Kept(states[|steps|])
  {
    hide Next, Inv, Kept;
    if steps == [] {
      NothingDue();
    } else {
      var n := |steps| - 1;
      NothingIsForgotten(states[..n + 1], steps[..n]);
      RunKeeps(states[..n + 1], steps[..n]);
      StepKept(states[n], states[n + 1], steps[n]);
    }
  }

  lemma NothingDue()
    ensures Kept(INITIAL)
  {
  }

  /** Nothing waits: all packets are sent and acknowledged, and no frame is stored. */
  predicate Quiet(s: State) {
    s.packet == [] && s.inFlight == {} && s.stored == []
  }

  /** In every run, once nothing waits, the receivers have delivered exactly what was sent, and signalled every FIN
      that was sent. */
  lemma EverythingArrives(states: seq<State>, steps: seq<Step>, id: nat)
    requires IsRun(states, steps)
    requires var s := states[|steps|]; Quiet(s) && id in s.senders
    ensures var s := states[|steps|];
            var v, w := s.Receiver(id), s.senders[id];
            && w.sent <= |w.written| && v.delivered == w.written[..w.sent]
            && (v.finSignalled <==> w.finSent)
  {
    hide Inv, Segments, ViewSafe, Has;
    var s := states[|steps|];
    NothingIsForgotten(states, steps);
    RunKeeps(states, steps);
    forall i: nat
      ensures !Waiting(s, id, i)
    {
      EmptyCarries(id, i);
    }
    ReceiverSafe(s, id);
    AllDelivered(s.Receiver(id), s.senders[id]);
  }

  lemma EmptyCarries(id: nat, i: nat)
    ensures !Carried([], id, i)
  {
  }

  lemma ReceiverSafe(s: State, id: nat)
    requires Inv(s) && id in s.senders
    ensures s.senders[id].Valid() && ViewSafe(s.Receiver(id), s.senders[id])
  {
    if id !in s.receivers {
      StartIsSafe(s.senders[id]);
    }
  }

  lemma AllDelivered(v: RecvView, w: Sender)
    requires w.Valid() && ViewSafe(v, w) && forall i: nat :: Due(w, i) ==> Has(v, i)
    ensures v.delivered == w.written[..w.sent] && (v.finSignalled <==> w.finSent)
  {
    hide At;
    var n := |v.delivered|;
    assert !v.Known(n).Some? by {
      if v.Known(n).Some? {
        AtRange(v.tree, n);
      }
    }
    assert Due(w, n) ==> Has(v, n);
    forall i | 0 <= i < n
      ensures i < w.sent && v.delivered[i] == w.written[i]
    {
      assert v.Known(i) == Some(v.delivered[i]);
    }
    if w.finSent {
      assert Has(v, w.sent);
    }
  }
}
