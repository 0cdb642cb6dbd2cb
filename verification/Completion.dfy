/** From every reachable state of the transfer, the network and the peers can bring everything to an end. */
module Completion {
  import opened Wrappers
  import opened Varint
  import opened StreamFrames
  import opened Retransmit
  import opened Reassembly
  import opened ReassemblyRuns
  import opened Transfer
  import opened Conservation

  // ----- The receiver can accept every frame

  /** The number of known bytes in front of the first unknown one */
  function RunLength(k: seq<Option<byte>>): (n: nat)
    ensures n <= |k| && (forall i :: 0 <= i < n ==> k[i].Some?) && (n < |k| ==> k[n].None?)
  {
    if k == [] || k[0].None? then 0 else 1 + RunLength(k[1..])
  }

  /** One chunk for each byte that is known from `from` on. */
  function Singles(k: seq<Option<byte>>, from: nat): seq<Chunk>
    decreases |k| - from
  {
    if from >= |k| then []
    else (if k[from].Some? then [Chunk(from, [k[from].value])] else []) + Singles(k, from + 1)
  }

  lemma {:induction false} SinglesAt(k: seq<Option<byte>>, from: nat, i: nat)
    ensures At(Singles(k, from), i) == if from <= i < |k| then k[i] else None
    decreases |k| - from
  {
    if from < |k| {
      SinglesAt(k, from + 1, i);
      var rest := Singles(k, from + 1);
      if k[from].Some? {
        assert ([Chunk(from, [k[from].value])] + rest)[1..] == rest;
      } else {
        assert [] + rest == rest;
      }
    }
  }

  lemma ChunkInFront(c: Chunk, rest: seq<Chunk>, limit: nat)
    requires c.data != [] && c.End() <= limit && Chunks(rest)
    requires forall j :: 0 <= j < |rest| ==> c.End() <= rest[j].offset && rest[j].End() <= limit
    ensures Chunks([c] + rest)
    ensures forall j :: 0 <= j < |rest| + 1 ==> c.offset <= ([c] + rest)[j].offset && ([c] + rest)[j].End() <= limit
  {
  }

  lemma {:induction false} SinglesSorted(k: seq<Option<byte>>, from: nat)
    ensures Chunks(Singles(k, from))
    ensures forall j :: 0 <= j < |Singles(k, from)| ==>
              from <= Singles(k, from)[j].offset && Singles(k, from)[j].End() <= |k|
    decreases |k| - from
  {
    if from < |k| {
      SinglesSorted(k, from + 1);
      if k[from].Some? {
        ChunkInFront(Chunk(from, [k[from].value]), Singles(k, from + 1), |k|);
      } else {
        assert [] + Singles(k, from + 1) == Singles(k, from + 1);
      }
    }
  }

  /** What is known of position `i` when the frame is accepted. */
  function KnownThen(v: RecvView, offset: nat, data: seq<byte>, i: nat): Option<byte> {
    if i < |v.delivered| then Some(v.delivered[i])
    else if offset <= |v.delivered| then Either(DataAt(offset, data, i), v.Known(i))
    else Either(v.Known(i), DataAt(offset, data, i))
  }

  function Accept(v: RecvView, seg: Segment): RecvView {
    var finOffset := if seg.End() > v.finOffset then seg.End() else v.finOffset;
    var known := seq(finOffset, i requires 0 <= i < finOffset => KnownThen(v, seg.offset, seg.data, i));
    var n := RunLength(known);
    var delivered := seq(n, i requires 0 <= i < n => known[i].value);
    var finReceived := v.finReceived || seg.fin;
    RecvView(delivered, Singles(known, n), finOffset, finReceived,
             if seg.End() < |v.delivered| then v.finSignalled else finReceived && n == finOffset)
  }

  lemma AcceptAccepts(v: RecvView, seg: Segment)
    requires v.Valid()
    ensures Accepted(v, Accept(v, seg), seg.offset, seg.fin, seg.data)
  {
    hide At, RunLength, Singles;
    var v' := Accept(v, seg);
    var finOffset := v'.finOffset;
    var known := seq(finOffset, i requires 0 <= i < finOffset => KnownThen(v, seg.offset, seg.data, i));
    var n := RunLength(known);
    SinglesSorted(known, n);
    SinglesAt(known, n, n);
    NotYet(known, n);
    PrefixKnown(known, |v.delivered|);
    forall i: nat
      ensures v'.Known(i) == KnownThen(v, seg.offset, seg.data, i)
    {
      SinglesAt(known, n, i);
      if i >= finOffset && At(v.tree, i).Some? {
        AtRange(v.tree, i);
      }
    }
    assert v.delivered <= v'.delivered;
  }

  lemma {:induction false} PrefixKnown(k: seq<Option<byte>>, m: nat)
    requires m <= |k| && forall i :: 0 <= i < m ==> k[i].Some?
    ensures RunLength(k) >= m
  {
    if m > 0 {
      PrefixKnown(k[1..], m - 1);
    }
  }

  lemma NotYet(k: seq<Option<byte>>, n: nat)
    requires n == RunLength(k)
    ensures Singles(k, n) != [] ==> n < Singles(k, n)[0].offset
  {
    hide RunLength;
    SinglesSorted(k, n + 1);
  }

  // ----- Paths

  ghost predicate Path(states: seq<State>, steps: seq<Step>) {
    |states| == |steps| + 1 && forall k :: 0 <= k < |steps| ==> Next(states[k], states[k + 1], steps[k])
  }

  ghost predicate Reaches(s: State, t: State) {
    exists states, steps :: Path(states, steps) && states[0] == s && states[|steps|] == t
  }

  lemma ReachesItself(s: State)
    ensures Reaches(s, s)
  {
    var steps: seq<Step> := [];
    assert Path([s], steps) && [s][0] == s && [s][|steps|] == s;
  }

  lemma ReachesOneMore(s: State, t: State, u: State, step: Step)
    requires Reaches(s, t) && Next(t, u, step)
    ensures Reaches(s, u)
  {
    hide Next;
    var states, steps :| Path(states, steps) && states[0] == s && states[|steps|] == t;
    var states', steps' := states + [u], steps + [step];
    forall k | 0 <= k < |steps'|
      ensures Next(states'[k], states'[k + 1], steps'[k])
    {
      if k < |steps| {
        assert states'[k] == states[k] && states'[k + 1] == states[k + 1] && steps'[k] == steps[k];
      }
    }
    assert Path(states', steps') && states'[0] == s && states'[|steps'|] == u;
  }

  // ----- All payloads in flight arrive and are acknowledged

  /** Segment `k` of a payload arrives. */
  lemma DeliverOne(s: State, p: seq<byte>, k: nat) returns (t: State)
    requires Inv(s) && p in s.wire && Segments(p).Some? && k < |Segments(p).value|
    ensures Inv(t) && t == s.(receivers := t.receivers) && HasMore(s, t) && Received(t, Segments(p).value[k])
    ensures exists step :: Next(s, t, step)
  {
    hide Segments, Inv, ViewSafe, Has, At, Accepted;
    var seg := Segments(p).value[k];
    var v := s.Receiver(seg.streamId);
    SegmentKnown(s, p, k);
    AcceptAccepts(v, seg);
    var v' := Accept(v, seg);
    t := s.(receivers := s.receivers[seg.streamId := v']);
    assert Next(s, t, Deliver(p, k, v'));
    StepKeeps(s, t, Deliver(p, k, v'));
    ReceiverSafe(t, seg.streamId);
    HasStays(v, v', s.senders[seg.streamId], seg);
    AcceptedHas(v, v', seg, s.senders[seg.streamId]);
    assert forall q | q in Positions(seg) :: q == (seg.streamId, q.1);
  }

  lemma SegmentKnown(s: State, p: seq<byte>, k: nat)
    requires Inv(s) && p in s.wire && Segments(p).Some? && k < |Segments(p).value|
    ensures var seg := Segments(p).value[k];
            && seg.streamId in s.senders && From(seg, s.senders) && s.senders[seg.streamId].Valid()
            && s.Receiver(seg.streamId).Valid() && ViewSafe(s.Receiver(seg.streamId), s.senders[seg.streamId])
  {
    hide Segments;
    var seg := Segments(p).value[k];
    assert From(seg, s.senders);
    ReceiverSafe(s, seg.streamId);
  }

  lemma AcceptedHas(v: RecvView, v': RecvView, seg: Segment, w: Sender)
    requires ViewSafe(v, w) && ViewSafe(v', w) && Consistent(seg, w.written, w.finSent)
    requires Accepted(v, v', seg.offset, seg.fin, seg.data)
    ensures forall i: nat | seg.offset <= i < seg.End() + (if seg.fin then 1 else 0) :: Has(v', i)
  {
    hide At;
  }

  lemma {:induction false} DeliverMany(s: State, p: seq<byte>, n: nat) returns (t: State)
    requires Inv(s) && p in s.wire && Segments(p).Some? && n <= |Segments(p).value|
    ensures Inv(t) && t == s.(receivers := t.receivers) && HasMore(s, t) && Reaches(s, t)
    ensures forall k :: 0 <= k < n ==> Received(t, Segments(p).value[k])
  {
    hide Segments, Inv, Has, Next;
    t := s;
    ReachesItself(s);
    if n > 0 {
      var u := DeliverMany(s, p, n - 1);
      t := DeliverOne(u, p, n - 1);
      var step :| Next(u, t, step);
      ReachesOneMore(s, u, t, step);
    }
  }

  /** Every payload in flight arrives and is acknowledged. */
  lemma {:induction false} Drain(s: State) returns (t: State)
    requires Inv(s)
    ensures Inv(t) && t == s.(receivers := t.receivers, acked := t.acked, inFlight := {}) && Reaches(s, t)
    decreases |s.inFlight|
  {
    hide Segments, Inv, Has, Received, Next;
    t := s;
    ReachesItself(s);
    if s.inFlight != {} {
      var p :| p in s.inFlight;
      InFlightDecodes(s, p);
      var u := DeliverMany(s, p, |Segments(p).value|);
      var step := Acknowledge(p);
      var w := u.(acked := u.acked + AllPositions(Segments(p).value), inFlight := u.inFlight - {p});
      IsAcknowledge(u, w, p);
      StepKeeps(u, w, step);
      ReachesOneMore(s, u, w, step);
      t := Drain(w);
      ReachesOn(s, w, t);
    }
  }

  lemma InFlightDecodes(s: State, p: seq<byte>)
    requires Inv(s) && p in s.inFlight
    ensures p in s.wire && Segments(p).Some?
  {
  }

  lemma IsAcknowledge(s: State, t: State, p: seq<byte>)
    requires p in s.wire && Segments(p).Some? && forall k :: 0 <= k < |Segments(p).value| ==> Received(s, Segments(p).value[k])
    requires t == s.(acked := s.acked + AllPositions(Segments(p).value), inFlight := s.inFlight - {p})
    ensures Next(s, t, Acknowledge(p))
  {
  }

  lemma ReachesOn(s: State, t: State, u: State)
    requires Reaches(s, t) && Reaches(t, u)
    ensures Reaches(s, u)
  {
    var states, steps :| Path(states, steps) && states[0] == t && states[|steps|] == u;
    ReachesAlong(s, states, steps, |steps|);
  }

  lemma {:induction false} ReachesAlong(s: State, states: seq<State>, steps: seq<Step>, n: nat)
    requires Path(states, steps) && n <= |steps| && Reaches(s, states[0])
    ensures Reaches(s, states[n])
  {
    hide Next, Reaches;
    if n > 0 {
      ReachesAlong(s, states, steps, n - 1);
      ReachesOneMore(s, states[n - 1], states[n], steps[n - 1]);
    }
  }

  // ----- The stored frames are repeated, packet by packet

  function NoneUnneeded(): (nat, nat, nat) -> bool {
    (id: nat, offset: nat, length: nat) => false
  }

  lemma {:induction false} AllNeeded(segs: seq<Segment>)
    ensures Needed(NoneUnneeded(), segs) == segs
  {
    hide Unneeded;
    if segs != [] {
      var front, last := segs[..|segs| - 1], segs[|segs| - 1];
      AllNeeded(front);
      NothingUnneeded(last);
      assert segs == front + [last];
    }
  }

  lemma NothingUnneeded(seg: Segment)
    ensures !Unneeded(NoneUnneeded(), seg)
  {
  }

  /** What a pass sends if it drops nothing */
  lemma NoneDropped(segs: seq<Segment>, p: Progress, acked: set<(nat, nat)>)
    requires Fits(p, segs)
    ensures Sent(NoneUnneeded(), segs, p)
         == segs[..p.count] + (if p.cut > 0 then [FirstPiece(segs[p.count], p.cut)] else [])
    ensures OnlyAcked(acked, NoneUnneeded(), segs)
  {
    hide Needed, Positions, Unneeded;
    AllNeeded(segs[..p.count]);
    forall k | 0 <= k < |segs|
      ensures !Unneeded(NoneUnneeded(), segs[k])
    {
      NothingUnneeded(segs[k]);
    }
  }

  lemma StoredAre(s: State)
    requires Inv(s)
    ensures AreStored(s.stored, StoredSegments(s))
  {
    hide Segments, Inv;
    StoredDecode(s);
    var segs := StoredSegments(s);
    forall k | 0 <= k < |s.stored|
      ensures Segments(s.stored[k]) == Some([segs[k]])
    {
      assert Segments(s.stored[k]).value == [segs[k]];
    }
  }

  ghost function StoredSegments(s: State): seq<Segment>
    requires Inv(s)
  {
    StoredDecode(s);
    seq(|s.stored|, k requires 0 <= k < |s.stored| => Segments(s.stored[k]).value[0])
  }

  lemma StoredDecode(s: State)
    requires Inv(s)
    ensures forall k :: 0 <= k < |s.stored| ==> Segments(s.stored[k]).Some? && |Segments(s.stored[k]).value| == 1
    ensures forall k :: 0 <= k < |s.stored| ==> Segments(s.stored[k]).value[0].InRange()
  {
    hide Segments, IsFrame, Consistent, ViewSafe, Sound;
    forall k | 0 <= k < |s.stored|
      ensures Segments(s.stored[k]).Some? && |Segments(s.stored[k]).value| == 1 && Segments(s.stored[k]).value[0].InRange()
    {
      assert StoredSound(s.stored[k], s.senders);
    }
  }

  /** The stored bytes are the frames of their segments, and the other way round. */
  lemma StoredFrames(s: State)
    requires Inv(s)
    ensures AreFrames(s.stored, StoredSegments(s))
  {
    hide Segments, IsFrame, ViewSafe, Sound, From;
    StoredDecode(s);
    forall k | 0 <= k < |s.stored|
      ensures IsFrame(s.stored[k], StoredSegments(s)[k])
    {
      assert StoredSound(s.stored[k], s.senders);
    }
  }

  lemma SegmentsOfStored(s: State, segs: seq<Segment>)
    requires Inv(s) && AreFrames(s.stored, segs) && forall k :: 0 <= k < |segs| ==> segs[k].InRange()
    ensures StoredSegments(s) == segs
  {
    hide Segments, IsFrame, Inv;
    StoredDecode(s);
    forall k | 0 <= k < |segs|
      ensures StoredSegments(s)[k] == segs[k]
    {
      FrameDecodes(s.stored[k], segs[k]);
    }
  }

  /** A pass that sends one frame, or the first byte of it */
  function SmallPass(seg: Segment, capacity: nat): Progress {
    if FrameSize(seg, true) <= capacity then Progress(1, 0) else Progress(0, 1)
  }

  function SmallFrame(seg: Segment, capacity: nat): seq<byte>
    requires FrameSize(seg, true) <= capacity || seg.data != []
  {
    if FrameSize(seg, true) <= capacity then FrameBytes(seg, true) else FrameBytes(FirstPiece(seg, 1), true)
  }

  lemma SmallFrameFits(seg: Segment, capacity: nat)
    requires seg.InRange() && MIN_SPACE <= capacity
    ensures FrameSize(seg, true) > capacity ==> 1 < |seg.data|
    ensures |SmallFrame(seg, capacity)| <= capacity
    ensures Carries(SmallFrame(seg, capacity),
                    if FrameSize(seg, true) <= capacity then [seg] else [FirstPiece(seg, 1)], false)
  {
    hide Carries, FrameBytes, HeaderSize, Encoding;
    NoPadding(SmallFrame(seg, capacity));
    FrameSizes(seg, true);
    if FrameSize(seg, true) > capacity {
      FrameSizes(FirstPiece(seg, 1), true);
    }
    CarriesRegion(0, if FrameSize(seg, true) <= capacity then seg else FirstPiece(seg, 1), true);
  }

  /** What then is stored */
  function SmallLeft(stored: seq<seq<byte>>, seg: Segment, capacity: nat): seq<seq<byte>>
    requires stored != [] && (FrameSize(seg, true) <= capacity || seg.data != [])
  {
    if FrameSize(seg, true) <= capacity then stored[1..] else [FrameBytes(LastPiece(seg, 1), true)] + stored[1..]
  }

  lemma SmallPassLeaves(stored: seq<seq<byte>>, segs: seq<Segment>, capacity: nat)
    requires stored != [] && AreFrames(stored, segs) && forall k :: 0 <= k < |segs| ==> segs[k].InRange()
    requires FrameSize(segs[0], true) > capacity ==> 1 < |segs[0].data|
    ensures var p := SmallPass(segs[0], capacity);
            && Fits(p, segs) && AreFrames(SmallLeft(stored, segs[0], capacity), Left(segs, p))
            && Weight(Left(segs, p)) < Weight(segs)
            && forall k :: 0 <= k < |Left(segs, p)| ==> Left(segs, p)[k].InRange()
  {
    hide FrameBytes, FrameSize, Weight;
    PassLowersWeight(segs, SmallPass(segs[0], capacity));
  }

  /** A packet that has just been begun takes some of what is stored. */
  lemma RepeatSome(s: State) returns (t: State, step: Step)
    requires Inv(s) && s.packet == [] && MIN_SPACE <= s.capacity && s.stored != []
    ensures Next(s, t, step) && Inv(t) && t == s.(packet := t.packet, stored := t.stored)
    ensures Weight(StoredSegments(t)) < Weight(StoredSegments(s))
  {
    hide Segments, Carries, FrameBytes, FrameSize, Inv, StoredSegments, Sent, Left, OnlyAcked, AreStored, AreFrames, Fits,
         Weight, SmallFrame, SmallLeft;
    var segs := StoredSegments(s);
    SegmentsInRange(s);
    StoredAre(s);
    StoredFrames(s);
    var seg, p := segs[0], SmallPass(segs[0], s.capacity);
    SmallFrameFits(seg, s.capacity);
    SmallPassLeaves(s.stored, segs, s.capacity);
    NoneDropped(segs, p, s.acked);
    var x := SmallFrame(seg, s.capacity);
    SmallSent(segs, p);
    CarriesMonotone(x, Sent(NoneUnneeded(), segs, p), false, |x| == s.capacity);
    assert [] + x == x;
    step := Repeat(NoneUnneeded(), segs, p, x);
    t := s.(packet := x, stored := SmallLeft(s.stored, seg, s.capacity));
    assert Next(s, t, step);
    StepKeeps(s, t, step);
    SegmentsOfStored(t, Left(segs, p));
  }

  lemma SmallSent(segs: seq<Segment>, p: Progress)
    requires segs != [] && Fits(p, segs) && (p == Progress(1, 0) || p == Progress(0, 1))
    requires Sent(NoneUnneeded(), segs, p)
          == segs[..p.count] + (if p.cut > 0 then [FirstPiece(segs[p.count], p.cut)] else [])
    ensures Sent(NoneUnneeded(), segs, p) == [if p.count == 1 then segs[0] else FirstPiece(segs[0], 1)]
  {
    hide Sent, FirstPiece;
    assert segs[..1] == [segs[0]] && segs[..1] + [] == segs[..1];
  }

  lemma SegmentsInRange(s: State)
    requires Inv(s)
    ensures |StoredSegments(s)| == |s.stored|
    ensures forall k :: 0 <= k < |StoredSegments(s)| ==> StoredSegments(s)[k].InRange()
  {
    hide Segments, Inv;
    StoredDecode(s);
  }

  /** All that is stored is sent, in packets of at most `mtu` bytes. */
  lemma {:induction false} EmptyStored(s: State, mtu: nat) returns (t: State)
    requires Inv(s) && s.packet == [] && s.capacity == mtu && MIN_SPACE <= mtu < MAX_SPACE
    ensures Inv(t) && Reaches(s, t) && t.packet == [] && t.stored == [] && t.senders == s.senders
    decreases Weight(StoredSegments(s))
  {
    hide Inv, Next, Segments, Weight, StoredSegments, Reaches;
    t := s;
    ReachesItself(s);
    if s.stored != [] {
      var u, step := RepeatSome(s);
      ReachesOneMore(s, s, u, step);
      var v := SendPacket(u, mtu);
      ReachesOneMore(s, u, v, Send(mtu));
      SameStored(u, v);
      t := EmptyStored(v, mtu);
      ReachesOn(s, v, t);
    }
  }

  /** From every state of every run there are steps to a state where nothing waits, while the senders stay the same: the
      packet is sent, what is stored is repeated in packets of at most `mtu` bytes, and all that is in flight arrives and
      is acknowledged. */
  lemma CanFinish(states: seq<State>, steps: seq<Step>, mtu: nat) returns (t: State)
    requires IsRun(states, steps) && MIN_SPACE <= mtu < MAX_SPACE
    ensures Reaches(states[|steps|], t) && Quiet(t) && t.senders == states[|steps|].senders
  {
    hide Inv, Next, Segments, Reaches;
    RunKeeps(states, steps);
    var s := states[|steps|];
    var u := SendPacket(s, mtu);
    ReachesItself(s);
    ReachesOneMore(s, s, u, Send(mtu));
    var v := EmptyStored(u, mtu);
    ReachesOn(s, u, v);
    t := Drain(v);
    ReachesOn(s, v, t);
  }

  lemma SendPacket(s: State, capacity: nat) returns (t: State)
    requires Inv(s) && capacity < MAX_SPACE
    ensures Inv(t) && Next(s, t, Send(capacity)) && t.packet == [] && t.capacity == capacity
    ensures t == s.(wire := t.wire, inFlight := t.inFlight, packet := [], capacity := capacity)
    ensures t.wire == s.wire + {s.packet}
  {
    t := s.(wire := s.wire + {s.packet}, inFlight := s.inFlight + {s.packet}, packet := [], capacity := capacity);
    assert Next(s, t, Send(capacity));
    hide Inv;
    StepKeeps(s, t, Send(capacity));
  }

  lemma SameStored(s: State, t: State)
    requires Inv(s) && Inv(t) && t.stored == s.stored
    ensures StoredSegments(t) == StoredSegments(s)
  {
    hide Inv, Segments;
  }

  /** So every run can be continued, with packets of any usual size, to one in which exactly what was sent is delivered,
      on every stream, with the FIN event where the FIN was sent. */
  lemma EveryRunCanFinish(states: seq<State>, steps: seq<Step>, mtu: nat) returns (states': seq<State>, steps': seq<Step>)
    requires IsRun(states, steps) && MIN_SPACE <= mtu < MAX_SPACE
    ensures IsRun(states', steps') && states <= states' && steps <= steps'
    ensures states'[|steps'|].senders == states[|steps|].senders
    ensures forall id | id in states[|steps|].senders ::
              var v, w := states'[|steps'|].Receiver(id), states[|steps|].senders[id];
              w.sent <= |w.written| && v.delivered == w.written[..w.sent] && (v.finSignalled <==> w.finSent)
  {
    hide Next;
    var t := CanFinish(states, steps, mtu);
    var more, rest :| Path(more, rest) && more[0] == states[|steps|] && more[|rest|] == t;
    states', steps' := states + more[1..], steps + rest;
    JoinRuns(states, steps, more, rest);
    forall id | id in t.senders
      ensures var v, w := t.Receiver(id), t.senders[id];
              w.sent <= |w.written| && v.delivered == w.written[..w.sent] && (v.finSignalled <==> w.finSent)
    {
      EverythingArrives(states', steps', id);
    }
  }

  lemma JoinRuns(states: seq<State>, steps: seq<Step>, more: seq<State>, rest: seq<Step>)
    requires IsRun(states, steps) && Path(more, rest) && more[0] == states[|steps|]
    ensures var joined := states + more[1..];
            IsRun(joined, steps + rest) && joined[|steps + rest|] == more[|rest|]
  {
    hide Next;
    var joined, all := states + more[1..], steps + rest;
    forall k | 0 <= k < |all|
      ensures Next(joined[k], joined[k + 1], all[k])
    {
      if k < |steps| {
        assert joined[k] == states[k] && joined[k + 1] == states[k + 1] && all[k] == steps[k];
      } else {
        var j := k - |steps|;
        assert joined[k] == more[j] && joined[k + 1] == more[j + 1] && all[k] == rest[j];
      }
    }
  }
}
