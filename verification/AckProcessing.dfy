/** Matching a received ACK against the retransmit queue (picoquic/frames.c): the queue is walked once, from the
    newest acknowledged packet to the oldest. */
module AckProcessing {
  import opened Wrappers
  import opened Varint
  import opened SackList
  import AckFrames

  /** A sent packet that is not acknowledged yet. */
  datatype Packet = Packet(number: nat, length: nat, path: Option<nat>, isAckTrap: bool)

  /** Numbers increase from the oldest packet to the newest. */
  ghost predicate Ordered(queue: seq<Packet>) {
    forall i, j :: 0 <= i < j < |queue| ==> queue[i].number < queue[j].number
  }

  ghost predicate Acked(ranges: seq<Range>, p: Packet) {
    Contains(ranges, p.number)
  }

  /** The packets whose numbers lie in no range, in their order. */
  ghost function Unacked(queue: seq<Packet>, ranges: seq<Range>): seq<Packet> {
    if queue == [] then []
    else
      var last := queue[|queue| - 1];
      Unacked(queue[..|queue| - 1], ranges) + (if Acked(ranges, last) then [] else [last])
  }

  /** The length of the acknowledged packets that were sent on a path. */
  ghost function AckedOn(queue: seq<Packet>, ranges: seq<Range>, path: nat): nat {
    if queue == [] then 0
    else
      var last := queue[|queue| - 1];
      AckedOn(queue[..|queue| - 1], ranges, path)
      + (if Acked(ranges, last) && last.path == Some(path) then last.length else 0)
  }

  ghost predicate NoTrap(queue: seq<Packet>, ranges: seq<Range>) {
    forall i :: 0 <= i < |queue| && queue[i].isAckTrap ==> !Acked(ranges, queue[i])
  }

  // ----- Acknowledging one more number

  /** `b` covers exactly one number more than `a`. */
  ghost predicate OneMore(a: seq<Range>, b: seq<Range>, n: int) {
    !Contains(a, n) && forall m: int :: Contains(b, m) <==> Contains(a, m) || m == n
  }

  ghost predicate Remaining(h: seq<Packet>, h0: seq<Packet>, ranges: seq<Range>) {
    Ordered(h) && forall x :: x in h <==> x in h0 && !Acked(ranges, x)
  }

  /** Only the numbers of the queue matter. */
  lemma {:induction false} AckedOnSame(q: seq<Packet>, a: seq<Range>, b: seq<Range>, path: nat)
    requires forall y | y in q :: Acked(a, y) <==> Acked(b, y)
    ensures AckedOn(q, a, path) == AckedOn(q, b, path)
  {
    hide Acked;
    if q != [] {
      AckedOnSame(q[..|q| - 1], a, b, path);
    }
  }

  lemma {:induction false} AckedOnOneMore(q: seq<Packet>, a: seq<Range>, b: seq<Range>, x: Packet, path: nat)
    requires Ordered(q) && OneMore(a, b, x.number) && x in q
    ensures AckedOn(q, b, path) == AckedOn(q, a, path) + (if x.path == Some(path) then x.length else 0)
  {
    hide Contains, OneMore, Acked;
    var front, last := q[..|q| - 1], q[|q| - 1];
    assert q == front + [last];
    if last == x {
      forall y | y in front
        ensures Acked(a, y) <==> Acked(b, y)
      {
        NotTheOne(a, b, x, y);
      }
      AckedOnSame(front, a, b, path);
      TheOne(a, b, x);
    } else {
      NumberBelowLast(q, x);
      NotTheOne(a, b, x, last);
      AckedOnOneMore(front, a, b, x, path);
    }
  }

  lemma TheOne(a: seq<Range>, b: seq<Range>, x: Packet)
    requires OneMore(a, b, x.number)
    ensures !Acked(a, x) && Acked(b, x)
  {
  }

  lemma NotTheOne(a: seq<Range>, b: seq<Range>, x: Packet, y: Packet)
    requires OneMore(a, b, x.number) && y.number != x.number
    ensures Acked(a, y) <==> Acked(b, y)
  {
  }

  ghost predicate SameSet(a: seq<Packet>, b: seq<Packet>) {
    forall x :: x in a <==> x in b
  }

  /** Ordered queues with the same packets are equal. */
  lemma {:induction false} SamePackets(a: seq<Packet>, b: seq<Packet>)
    requires Ordered(a) && Ordered(b)
    requires SameSet(a, b)
    ensures a == b
  {
    hide SameSet;
    SameEmptiness(a, b);
    if a != [] {
      SameLast(a, b);
      SameFronts(a, b);
      SamePackets(a[..|a| - 1], b[..|b| - 1]);
      assert a == a[..|a| - 1] + [a[|a| - 1]] && b == b[..|b| - 1] + [b[|b| - 1]];
    }
  }

  lemma SameEmptiness(a: seq<Packet>, b: seq<Packet>)
    requires SameSet(a, b)
    ensures a == [] <==> b == []
  {
    Inhabited(a);
    Inhabited(b);
  }

  lemma NumberBelowLast(a: seq<Packet>, x: Packet)
    requires Ordered(a) && x in a
    ensures a != [] && x.number <= a[|a| - 1].number && (x.number == a[|a| - 1].number ==> x == a[|a| - 1])
  {
  }

  lemma SameLast(a: seq<Packet>, b: seq<Packet>)
    requires Ordered(a) && Ordered(b) && a != [] && b != [] && SameSet(a, b)
    ensures a[|a| - 1] == b[|b| - 1]
  {
    assert a[|a| - 1] in b && b[|b| - 1] in a;
    NumberBelowLast(b, a[|a| - 1]);
    NumberBelowLast(a, b[|b| - 1]);
  }

  lemma Inhabited(a: seq<Packet>)
    ensures a == [] || exists x :: x in a
  {
    assert a == [] || a[0] in a;
  }

  lemma SameFronts(a: seq<Packet>, b: seq<Packet>)
    requires Ordered(a) && Ordered(b) && a != [] && b != [] && a[|a| - 1] == b[|b| - 1]
    requires SameSet(a, b)
    ensures SameSet(a[..|a| - 1], b[..|b| - 1])
  {
    var fa, fb := a[..|a| - 1], b[..|b| - 1];
    forall x
      ensures x in fa <==> x in fb
    {
      FrontPackets(a, x);
      FrontPackets(b, x);
    }
  }

  lemma FrontPackets(a: seq<Packet>, x: Packet)
    requires Ordered(a) && a != []
    ensures x in a[..|a| - 1] <==> x in a && x != a[|a| - 1]
  {
  }

  lemma {:induction false} UnackedRemaining(q: seq<Packet>, ranges: seq<Range>)
    requires Ordered(q)
    ensures Remaining(Unacked(q, ranges), q, ranges)
    ensures forall i :: 0 <= i < |Unacked(q, ranges)| ==> Unacked(q, ranges)[i] in q
  {
    hide Acked;
    if q != [] {
      var front, last := q[..|q| - 1], q[|q| - 1];
      UnackedRemaining(front, ranges);
      assert q == front + [last];
      var u := Unacked(front, ranges);
      forall i | 0 <= i < |u|
        ensures u[i].number < last.number
      {
        assert u[i] in front;
      }
    }
  }

  // ----- The packet context

  class PacketContext {
    var queue: seq<Packet>  // from `retransmit_oldest` to `retransmit_newest`
    var highestAcknowledged: Option<nat>
    var delivered: map<nat, nat>  // for each path, the bytes delivered

    ghost predicate Valid()
      reads this
    {
      && Ordered(queue)
      && forall i :: 0 <= i < |queue| && queue[i].path.Some? ==> queue[i].path.value in delivered
    }

    /** `picoquic_find_acked_packet`: the index to start from, or -1 if the queue is empty. */
    method FindAckedPacket(largest: nat) returns (p: int, isNew: bool)
      requires Valid()
      modifies this`highestAcknowledged
      ensures -1 <= p < |queue|
      ensures isNew <==> old(highestAcknowledged).None? || largest > old(highestAcknowledged).value
      ensures highestAcknowledged == if isNew then Some(largest) else old(highestAcknowledged)
      ensures isNew ==> forall i :: p < i < |queue| ==> queue[i].number > largest
      ensures !isNew ==> p == if queue == [] then -1 else 0
    {
      p, isNew := (if queue == [] then -1 else 0), false;
      if highestAcknowledged.None? || largest > highestAcknowledged.value {
        highestAcknowledged := Some(largest);
        isNew := true;
        while p >= 0 && p + 1 < |queue| && queue[p].number < largest
          invariant -1 <= p < |queue| && (queue != [] ==> p >= 0)
          decreases |queue| - p
        {
          p := p + 1;
        }
      }
    }

    /** `picoquic_process_ack_range`: walks down from packet `start`. The result says that no trap was hit. */
    method ProcessAckRange(top: nat, count: nat, start: int, ghost h0: seq<Packet>, ghost tail: seq<Packet>,
                           ghost done: seq<Range>, ghost before: map<nat, nat>)
      returns (p: int, ok: bool)
      requires 1 <= count <= top + 1
      requires Walking(queue, delivered, h0, tail, done, before, start, top)
      modifies this`queue, this`delivered
      ensures ok ==> Walking(queue, delivered, h0, tail, done + [Range(top + 1 - count, top)], before, p, top - count)
      ensures !ok ==> !NoTrap(h0, done + [Range(top + 1 - count, top)])
    {
      hide Walking, NoTrap;
      var range, highest: int := count, top;
      p, ok := start, true;
      WalkStart(queue, delivered, h0, tail, done, before, p, top);
      while p >= 0 && range > 0
        invariant 0 <= range <= count && highest == top - (count - range)
        invariant Walking(queue, delivered, h0, tail, done + [Range(highest + 1, top)], before, p, highest)
        decreases range + p
      {
        WalkingFacts(queue, delivered, h0, tail, done + [Range(highest + 1, top)], before, p, highest);
        if queue[p].number > highest {
          WalkDown(queue, delivered, h0, tail, done + [Range(highest + 1, top)], before, p, highest);
          p := p - 1;
        } else {
          if queue[p].number == highest {
            if queue[p].isAckTrap {
              TrapCovered(queue, h0, done, top, highest, count, p);
              return p, false;
            }
            WalkRemove(queue, delivered, h0, tail, done, before, p, highest, top);
            var x := queue[p];
            if x.path.Some? {
              delivered := delivered[x.path.value := delivered[x.path.value] + x.length];
            }
            queue := queue[..p] + queue[p + 1..];
            p := p - 1;
          } else {
            WalkSkip(queue, delivered, h0, tail, done, before, p, highest, top);
          }
          range := range - 1;
          highest := highest - 1;
        }
      }
      WalkRest(queue, delivered, h0, tail, done, before, p, highest, top, top - count);
    }

    /** The part of `picoquic_decode_ack_frame` that follows the header: the ranges are applied from the top one
        down. A frame that acknowledges a number never sent is refused before anything changes. */
    method ProcessAck(ranges: seq<Range>, sendSequence: nat) returns (accepted: bool, isNew: bool)
      requires Valid() && Stepwise(ranges)
      modifies this
      ensures ranges[0].hi >= sendSequence ==>
        !accepted && queue == old(queue) && delivered == old(delivered) && highestAcknowledged == old(highestAcknowledged)
      ensures ranges[0].hi < sendSequence ==>
        && (isNew <==> old(highestAcknowledged).None? || ranges[0].hi > old(highestAcknowledged).value)
        && highestAcknowledged == (if isNew then Some(ranges[0].hi) else old(highestAcknowledged))
        && var searched := Searched(old(queue), isNew);
           && (accepted <==> NoTrap(searched, ranges))
           && (accepted ==>
                 && queue == Unacked(searched, ranges) + old(queue)[|searched|..]
                 && Credited(delivered, searched, ranges, old(delivered)))
      ensures accepted ==> Valid()
    {
      hide Walking, NoTrap, Unacked, Credited, Acked, Contains, Divided, Searched, Ordered;
      if ranges[0].hi >= sendSequence {
        return false, false;
      }
      ghost var queue0, delivered0 := queue, delivered;
      var p;
      p, isNew := FindAckedPacket(ranges[0].hi);
      ghost var h0, tail := queue0[..p + 1], queue0[p + 1..];
      WalkBegins(queue0, delivered0, h0, tail, p, ranges[0].hi);
      WalkDivides(queue0, p, ranges[0].hi, isNew);
      assert ranges[..0] == [];
      var k := 0;
      while k < |ranges|
        invariant k <= |ranges|
        invariant Walking(queue, delivered, h0, tail, ranges[..k], delivered0, p, NextBelow(ranges, k))
        invariant highestAcknowledged == if isNew then Some(ranges[0].hi) else old(highestAcknowledged)
      {
        var r := ranges[k];
        var ok;
        WalkLower(queue, delivered, h0, tail, ranges[..k], delivered0, p, NextBelow(ranges, k), r.hi);
        assert ranges[..k + 1] == ranges[..k] + [Range(r.hi + 1 - (r.hi - r.lo + 1), r.hi)];
        p, ok := ProcessAckRange(r.hi, r.hi - r.lo + 1, p, h0, tail, ranges[..k], delivered0);
        if !ok {
          TrapFound(queue0, h0, tail, ranges, k + 1, isNew);
          return false, isNew;
        }
        k := k + 1;
      }
      assert ranges[..k] == ranges;
      WalkEnds(queue0, queue, delivered, h0, tail, ranges, delivered0, p, NextBelow(ranges, k), isNew);
      accepted := true;
    }
  }

  function Credit(delivered: map<nat, nat>, x: Packet): map<nat, nat>
    requires x.path.Some? ==> x.path.value in delivered
  {
    if x.path.Some? then delivered[x.path.value := delivered[x.path.value] + x.length] else delivered
  }

  // ----- The walk

  /** Each path has delivered what is acknowledged of `h0`, besides `before`. */
  ghost predicate Credited(delivered: map<nat, nat>, h0: seq<Packet>, ranges: seq<Range>, before: map<nat, nat>) {
    && delivered.Keys == before.Keys
    && forall path | path in before :: delivered[path] == before[path] + AckedOn(h0, ranges, path)
  }

  /** The state of the walk. The queue was `h0 + tail`; the packets of `h0` in the ranges already done are gone
      and credited; and no packet of the head above position `p` can be in a lower range. */
  ghost predicate Walking(queue: seq<Packet>, delivered: map<nat, nat>, h0: seq<Packet>, tail: seq<Packet>,
                          done: seq<Range>, before: map<nat, nat>, p: int, highest: int) {
    && |tail| <= |queue| && queue[|queue| - |tail|..] == tail
    && var h := queue[..|queue| - |tail|];
       && -1 <= p < |h|
       && Ordered(h0) && Remaining(h, h0, done)
       && Credited(delivered, h0, done, before)
       && NoTrap(h0, done)
       && (forall x | x in h0 && x.path.Some? :: x.path.value in before)
       && (forall i :: p < i < |h| ==> h[i].number > highest)
       && (forall n: int :: Contains(done, n) ==> n > highest)
  }

  lemma WalkingFacts(queue: seq<Packet>, delivered: map<nat, nat>, h0: seq<Packet>, tail: seq<Packet>,
                     done: seq<Range>, before: map<nat, nat>, p: int, highest: int)
    requires Walking(queue, delivered, h0, tail, done, before, p, highest)
    ensures -1 <= p < |queue| - |tail|
    ensures p >= 0 ==> queue[p] in h0
    ensures p >= 0 && queue[p].path.Some? ==> queue[p].path.value in delivered
  {
    if p >= 0 {
      assert queue[..|queue| - |tail|][p] == queue[p];
      assert queue[p] in queue[..|queue| - |tail|];
    }
  }

  lemma WalkDown(queue: seq<Packet>, delivered: map<nat, nat>, h0: seq<Packet>, tail: seq<Packet>,
                 done: seq<Range>, before: map<nat, nat>, p: nat, highest: int)
    requires p < |queue| && queue[p].number > highest
    requires Walking(queue, delivered, h0, tail, done, before, p, highest)
    ensures Walking(queue, delivered, h0, tail, done, before, p - 1, highest)
  {
    hide Remaining, Credited, Contains;
  }

  /** More numbers may be taken as done when no packet left in the head has one of them. */
  lemma WalkExtend(queue: seq<Packet>, delivered: map<nat, nat>, h0: seq<Packet>, tail: seq<Packet>,
                   a: seq<Range>, b: seq<Range>, before: map<nat, nat>, p: int, highest: int, highest': int)
    requires Walking(queue, delivered, h0, tail, a, before, p, highest) && highest' <= highest
    requires forall n: int :: Contains(a, n) ==> Contains(b, n)
    requires forall x :: x in queue[..|queue| - |tail|] ==> !Contains(b, x.number)
    requires forall n: int :: Contains(b, n) ==> n > highest'
    ensures Walking(queue, delivered, h0, tail, b, before, p, highest')
  {
    hide Contains, AckedOn, Ordered;
    var h := queue[..|queue| - |tail|];
    forall y | y in h0
      ensures Acked(a, y) <==> Acked(b, y)
    {
      assert y in h || Acked(a, y);
    }
    forall path | path in before
      ensures delivered[path] == before[path] + AckedOn(h0, b, path)
    {
      AckedOnSame(h0, a, b, path);
    }
  }

  lemma ContainsLast(done: seq<Range>, r: Range, n: int)
    ensures Contains(done + [r], n) <==> Contains(done, n) || r.Has(n)
  {
    assert done + [r] == done + [r] + [];
    ContainsParts(done, r, [], n);
    NothingContained(n);
  }

  lemma WalkStart(queue: seq<Packet>, delivered: map<nat, nat>, h0: seq<Packet>, tail: seq<Packet>,
                  done: seq<Range>, before: map<nat, nat>, p: int, top: nat)
    requires Walking(queue, delivered, h0, tail, done, before, p, top)
    ensures Walking(queue, delivered, h0, tail, done + [Range(top + 1, top)], before, p, top)
  {
    hide Contains, Credited, NoTrap, AckedOn;
    var b := done + [Range(top + 1, top)];
    forall n: int
      ensures Contains(b, n) <==> Contains(done, n)
    {
      ContainsLast(done, Range(top + 1, top), n);
    }
    WalkExtend(queue, delivered, h0, tail, done, b, before, p, top, top);
  }

  /** No packet of the head has a number from `lo + 1` to `highest`. */
  lemma WalkGap(queue: seq<Packet>, delivered: map<nat, nat>, h0: seq<Packet>, tail: seq<Packet>,
                done: seq<Range>, before: map<nat, nat>, p: int, highest: int, top: nat, lo: int)
    requires -1 <= lo <= highest <= top
    requires Walking(queue, delivered, h0, tail, done + [Range(highest + 1, top)], before, p, highest)
    requires forall x :: x in queue[..|queue| - |tail|] ==> !(lo < x.number <= highest)
    ensures Walking(queue, delivered, h0, tail, done + [Range(lo + 1, top)], before, p, lo)
  {
    hide Contains, Credited;
    var a, b := done + [Range(highest + 1, top)], done + [Range(lo + 1, top)];
    forall n: int
      ensures Contains(a, n) <==> Contains(done, n) || highest < n <= top
      ensures Contains(b, n) <==> Contains(done, n) || lo < n <= top
    {
      ContainsLast(done, Range(highest + 1, top), n);
      ContainsLast(done, Range(lo + 1, top), n);
    }
    WalkExtend(queue, delivered, h0, tail, a, b, before, p, highest, lo);
  }

  lemma WalkSkip(queue: seq<Packet>, delivered: map<nat, nat>, h0: seq<Packet>, tail: seq<Packet>,
                 done: seq<Range>, before: map<nat, nat>, p: nat, highest: nat, top: nat)
    requires highest <= top && p < |queue| && queue[p].number < highest
    requires Walking(queue, delivered, h0, tail, done + [Range(highest + 1, top)], before, p, highest)
    ensures Walking(queue, delivered, h0, tail, done + [Range(highest, top)], before, p, highest - 1)
  {
    hide Contains, Credited;
    var h := queue[..|queue| - |tail|];
    forall x | x in h
      ensures x.number != highest
    {
      var i :| 0 <= i < |h| && h[i] == x;
      assert h[p] == queue[p];
      assert i < p ==> h[i].number < h[p].number;
    }
    WalkGap(queue, delivered, h0, tail, done, before, p, highest, top, highest - 1);
  }

  lemma WalkRest(queue: seq<Packet>, delivered: map<nat, nat>, h0: seq<Packet>, tail: seq<Packet>,
                 done: seq<Range>, before: map<nat, nat>, p: int, highest: int, top: nat, lo: int)
    requires -1 <= lo <= highest <= top && (p >= 0 ==> lo == highest)
    requires Walking(queue, delivered, h0, tail, done + [Range(highest + 1, top)], before, p, highest)
    ensures Walking(queue, delivered, h0, tail, done + [Range(lo + 1, top)], before, p, lo)
  {
    hide Contains, Credited;
    var h := queue[..|queue| - |tail|];
    forall x | x in h
      ensures !(lo < x.number <= highest)
    {
      var i :| 0 <= i < |h| && h[i] == x;
    }
    WalkGap(queue, delivered, h0, tail, done, before, p, highest, top, lo);
  }

  lemma WalkRemove(queue: seq<Packet>, delivered: map<nat, nat>, h0: seq<Packet>, tail: seq<Packet>,
                   done: seq<Range>, before: map<nat, nat>, p: nat, highest: nat, top: nat)
    requires highest <= top && p < |queue| && queue[p].number == highest && !queue[p].isAckTrap
    requires Walking(queue, delivered, h0, tail, done + [Range(highest + 1, top)], before, p, highest)
    requires queue[p].path.Some? ==> queue[p].path.value in delivered
    ensures Walking(queue[..p] + queue[p + 1..], Credit(delivered, queue[p]), h0, tail, done + [Range(highest, top)],
                    before, p - 1, highest - 1)
  {
    hide Contains, AckedOn;
    var x := queue[p];
    var a, b := done + [Range(highest + 1, top)], done + [Range(highest, top)];
    forall n: int
      ensures Contains(b, n) <==> Contains(a, n) || n == highest
    {
      ContainsLast(done, Range(highest + 1, top), n);
      ContainsLast(done, Range(highest, top), n);
    }
    assert OneMore(a, b, highest);
    var h := queue[..|queue| - |tail|];
    assert h[p] == x && x in h;
    var h' := h[..p] + h[p + 1..];
    var queue' := queue[..p] + queue[p + 1..];
    assert queue' == h' + tail by {
      assert queue == h + tail;
    }
    assert queue'[..|queue'| - |tail|] == h';
    RemoveOne(h, h0, a, b, p);
    forall path | path in before
      ensures Credit(delivered, x)[path] == before[path] + AckedOn(h0, b, path)
    {
      AckedOnOneMore(h0, a, b, x, path);
    }
  }

  lemma RemoveOne(h: seq<Packet>, h0: seq<Packet>, a: seq<Range>, b: seq<Range>, p: nat)
    requires p < |h| && Remaining(h, h0, a) && OneMore(a, b, h[p].number) && Ordered(h0)
    ensures Remaining(h[..p] + h[p + 1..], h0, b)
  {
    hide Acked, OneMore;
    var h' := h[..p] + h[p + 1..];
    var x := h[p];
    AllButOne(h, p);
    TheOne(a, b, x);
    assert x in h0;
    forall y | y in h0
      ensures Acked(b, y) <==> Acked(a, y) || y.number == x.number
    {
      if y.number == x.number {
        SameNumber(h0, x, y);
      } else {
        NotTheOne(a, b, x, y);
      }
    }
  }

  lemma SameNumber(q: seq<Packet>, x: Packet, y: Packet)
    requires Ordered(q) && x in q && y in q && x.number == y.number
    ensures x == y
  {
  }

  lemma AllButOne(h: seq<Packet>, p: nat)
    requires Ordered(h) && p < |h|
    ensures Ordered(h[..p] + h[p + 1..])
    ensures forall y :: y in h[..p] + h[p + 1..] <==> y in h && y.number != h[p].number
  {
  }

  lemma TrapCovered(queue: seq<Packet>, h0: seq<Packet>, done: seq<Range>, top: nat, highest: nat, count: nat, p: nat)
    requires p < |queue| && queue[p] in h0 && queue[p].isAckTrap && queue[p].number == highest
    requires 1 <= count <= top + 1 && top - count < highest <= top
    ensures !NoTrap(h0, done + [Range(top + 1 - count, top)])
  {
    hide Contains;
    ContainsLast(done, Range(top + 1 - count, top), highest);
    var k :| 0 <= k < |h0| && h0[k] == queue[p];
    assert Acked(done + [Range(top + 1 - count, top)], h0[k]);
  }

  // ----- The whole frame

  /** Ranges as they follow from the header and the gaps: each below the one before it. */
  ghost predicate Stepwise(ranges: seq<Range>) {
    && ranges != []
    && (forall i :: 0 <= i < |ranges| ==> ranges[i].lo <= ranges[i].hi)
    && (forall i :: 0 < i < |ranges| ==> ranges[i].hi + 1 < ranges[i - 1].lo)
  }

  /** The search starts at the newest packet that can be acknowledged if the ACK advances the largest number, else
      at the oldest packet. */
  function Searched(queue: seq<Packet>, isNew: bool): seq<Packet> {
    if isNew || queue == [] then queue else queue[..1]
  }

  ghost function NextBelow(ranges: seq<Range>, k: nat): int
    requires Stepwise(ranges) && k <= |ranges|
  {
    if k == 0 then ranges[0].hi else ranges[k - 1].lo - 1
  }

  /** Where the walk divides the queue. */
  ghost predicate Divided(queue: seq<Packet>, h0: seq<Packet>, tail: seq<Packet>, top: nat, isNew: bool) {
    && queue == h0 + tail
    && (isNew ==> forall x | x in tail :: x.number > top)
    && (!isNew ==> h0 == Searched(queue, false))
  }

  lemma {:induction false} NothingAcked(q: seq<Packet>, path: nat)
    ensures AckedOn(q, [], path) == 0
  {
    if q != [] {
      NothingAcked(q[..|q| - 1], path);
    }
  }

  lemma WalkBegins(queue: seq<Packet>, delivered: map<nat, nat>, h0: seq<Packet>, tail: seq<Packet>, p: int, top: nat)
    requires Ordered(queue) && -1 <= p < |queue| && h0 == queue[..p + 1] && tail == queue[p + 1..]
    requires forall i :: 0 <= i < |queue| && queue[i].path.Some? ==> queue[i].path.value in delivered
    ensures Walking(queue, delivered, h0, tail, [], delivered, p, top)
  {
    hide AckedOn;
    assert queue[..|queue| - |tail|] == h0;
    forall path | path in delivered
      ensures AckedOn(h0, [], path) == 0
    {
      NothingAcked(h0, path);
    }
  }

  lemma WalkDivides(queue: seq<Packet>, p: int, top: nat, isNew: bool)
    requires -1 <= p < |queue|
    requires isNew ==> forall i :: p < i < |queue| ==> queue[i].number > top
    requires !isNew ==> p == if queue == [] then -1 else 0
    ensures Divided(queue, queue[..p + 1], queue[p + 1..], top, isNew)
  {
  }

  lemma WalkLower(queue: seq<Packet>, delivered: map<nat, nat>, h0: seq<Packet>, tail: seq<Packet>,
                  done: seq<Range>, before: map<nat, nat>, p: int, highest: int, highest': int)
    requires Walking(queue, delivered, h0, tail, done, before, p, highest) && highest' <= highest
    ensures Walking(queue, delivered, h0, tail, done, before, p, highest')
  {
    hide Remaining, Credited, Contains, NoTrap;
  }

  lemma {:induction false} StepwiseTop(ranges: seq<Range>, k: nat)
    requires Stepwise(ranges) && k < |ranges|
    ensures ranges[k].hi <= ranges[0].hi
  {
    if k > 0 {
      StepwiseTop(ranges, k - 1);
    }
  }

  /** A packet above the top range is not acknowledged. */
  lemma AboveTop(ranges: seq<Range>, x: Packet)
    requires Stepwise(ranges) && x.number > ranges[0].hi
    ensures !Acked(ranges, x)
  {
    forall k | 0 <= k < |ranges|
      ensures !ranges[k].Has(x.number)
    {
      StepwiseTop(ranges, k);
    }
  }

  /** What lies behind the part that is searched stays as it is. */
  lemma {:induction false} TailStays(h0: seq<Packet>, tail: seq<Packet>, ranges: seq<Range>, path: nat)
    requires forall x | x in tail :: !Acked(ranges, x)
    ensures Unacked(h0 + tail, ranges) == Unacked(h0, ranges) + tail
    ensures AckedOn(h0 + tail, ranges, path) == AckedOn(h0, ranges, path)
  {
    hide Acked;
    if tail == [] {
      assert h0 + tail == h0;
    } else {
      var front, last := tail[..|tail| - 1], tail[|tail| - 1];
      TailStays(h0, front, ranges, path);
      assert last in tail;
      assert (h0 + tail)[..|h0 + tail| - 1] == h0 + front;
      assert tail == front + [last];
    }
  }

  /** The packets above the top range make no difference. */
  lemma SearchedIsHead(queue: seq<Packet>, h0: seq<Packet>, tail: seq<Packet>, ranges: seq<Range>, isNew: bool)
    requires Stepwise(ranges) && Divided(queue, h0, tail, ranges[0].hi, isNew)
    ensures NoTrap(Searched(queue, isNew), ranges) <==> NoTrap(h0, ranges)
    ensures Unacked(Searched(queue, isNew), ranges) + queue[|Searched(queue, isNew)|..] == Unacked(h0, ranges) + tail
    ensures forall path :: AckedOn(Searched(queue, isNew), ranges, path) == AckedOn(h0, ranges, path)
  {
    hide Acked, Unacked, AckedOn, Stepwise;
    if isNew {
      forall x | x in tail
        ensures !Acked(ranges, x)
      {
        AboveTop(ranges, x);
      }
      forall path
        ensures AckedOn(queue, ranges, path) == AckedOn(h0, ranges, path)
      {
        TailStays(h0, tail, ranges, path);
      }
      TailStays(h0, tail, ranges, 0);
      TrapsInHead(h0, tail, ranges);
    }
  }

  lemma TrapsInHead(h0: seq<Packet>, tail: seq<Packet>, ranges: seq<Range>)
    requires forall x | x in tail :: !Acked(ranges, x)
    ensures NoTrap(h0 + tail, ranges) <==> NoTrap(h0, ranges)
  {
    hide Acked;
    var q := h0 + tail;
    forall i | 0 <= i < |h0|
      ensures q[i] == h0[i]
    {
    }
    forall i | |h0| <= i < |q|
      ensures !Acked(ranges, q[i])
    {
      assert q[i] == tail[i - |h0|];
    }
  }

  lemma TrapFound(queue: seq<Packet>, h0: seq<Packet>, tail: seq<Packet>, ranges: seq<Range>, k: nat, isNew: bool)
    requires Stepwise(ranges) && Divided(queue, h0, tail, ranges[0].hi, isNew)
    requires k <= |ranges| && !NoTrap(h0, ranges[..k])
    ensures !NoTrap(Searched(queue, isNew), ranges)
  {
    hide Unacked, AckedOn, Searched;
    SearchedIsHead(queue, h0, tail, ranges, isNew);
    var i :| 0 <= i < |h0| && h0[i].isAckTrap && Acked(ranges[..k], h0[i]);
    var j :| 0 <= j < k && ranges[..k][j].Has(h0[i].number);
    assert ranges[j].Has(h0[i].number);
    assert Acked(ranges, h0[i]);
  }

  lemma WalkEnds(queue0: seq<Packet>, queue: seq<Packet>, delivered: map<nat, nat>, h0: seq<Packet>, tail: seq<Packet>,
                 ranges: seq<Range>, before: map<nat, nat>, p: int, highest: int, isNew: bool)
    requires Stepwise(ranges) && Divided(queue0, h0, tail, ranges[0].hi, isNew) && Ordered(queue0)
    requires Walking(queue, delivered, h0, tail, ranges, before, p, highest)
    requires forall i :: 0 <= i < |queue0| && queue0[i].path.Some? ==> queue0[i].path.value in before
    ensures NoTrap(Searched(queue0, isNew), ranges)
    ensures queue == Unacked(Searched(queue0, isNew), ranges) + queue0[|Searched(queue0, isNew)|..]
    ensures Credited(delivered, Searched(queue0, isNew), ranges, before)
    ensures Ordered(queue)
    ensures forall i :: 0 <= i < |queue| && queue[i].path.Some? ==> queue[i].path.value in delivered
  {
    hide Unacked, AckedOn, Searched, Acked, Stepwise, Contains;
    SearchedIsHead(queue0, h0, tail, ranges, isNew);
    var h := queue[..|queue| - |tail|];
    UnackedRemaining(h0, ranges);
    assert SameSet(h, Unacked(h0, ranges));
    SamePackets(h, Unacked(h0, ranges));
    assert queue == h + tail;
    StillOrdered(h, h0, tail, ranges);
    forall i | 0 <= i < |queue|
      ensures queue[i] in queue0
    {
      if i < |h| {
        assert h[i] in h0;
      }
    }
  }

  lemma StillOrdered(h: seq<Packet>, h0: seq<Packet>, tail: seq<Packet>, ranges: seq<Range>)
    requires Remaining(h, h0, ranges) && Ordered(h0 + tail)
    ensures Ordered(h + tail)
  {
    hide Acked;
    var q, q0 := h + tail, h0 + tail;
    forall i, j | 0 <= i < j < |q|
      ensures q[i].number < q[j].number
    {
      if i >= |h| {
        assert q0[i - |h| + |h0|] == q[i] && q0[j - |h| + |h0|] == q[j];
      } else if j >= |h| {
        assert h[i] in h0;
        var k :| 0 <= k < |h0| && h0[k] == h[i];
        assert q0[k] == q[i] && q0[j - |h| + |h0|] == q[j];
      }
    }
  }

  /** An ACK that does not advance the largest number is applied in full exactly when it covers no packet behind
      the oldest one: the others stay in the queue although they are acknowledged. */
  lemma StaleAckIff(queue: seq<Packet>, ranges: seq<Range>)
    requires Ordered(queue)
    ensures Unacked(Searched(queue, false), ranges) + queue[|Searched(queue, false)|..] == Unacked(queue, ranges)
       <==> forall i :: 1 <= i < |queue| ==> !Acked(ranges, queue[i])
  {
    hide Acked, Unacked, Ordered;
    if queue != [] {
      var head, tail := queue[..1], queue[1..];
      assert queue == head + tail;
      if forall i :: 1 <= i < |queue| ==> !Acked(ranges, queue[i]) {
        NoneInTail(queue, ranges);
      } else {
        var i :| 1 <= i < |queue| && Acked(ranges, queue[i]);
        StaysInQueue(queue, ranges, Unacked(head, ranges), i);
      }
    }
  }

  lemma NoneInTail(queue: seq<Packet>, ranges: seq<Range>)
    requires queue != [] && forall i :: 1 <= i < |queue| ==> !Acked(ranges, queue[i])
    ensures Unacked(queue[..1], ranges) + queue[1..] == Unacked(queue, ranges)
  {
    hide Acked, Unacked, AckedOn;
    TailStays(queue[..1], queue[1..], ranges, 0);
    assert queue == queue[..1] + queue[1..];
  }

  /** Such an ACK: packets 1 and 2 are sent, 3 is already acknowledged, and then an ACK arrives for 2 and 3. */
  lemma StaleAckExample()
    ensures
      var queue := [Packet(1, 100, None, false), Packet(2, 100, None, false)];
      var ranges := [Range(2, 3)];
      && Ordered(queue) && Stepwise(ranges) && Unacked(queue, ranges) == [queue[0]]
      && Unacked(Searched(queue, false), ranges) + queue[|Searched(queue, false)|..] == queue
  {
    var queue := [Packet(1, 100, None, false), Packet(2, 100, None, false)];
    var ranges := [Range(2, 3)];
    assert ranges[0].Has(2) && Acked(ranges, queue[1]) && !Acked(ranges, queue[0]);
    assert queue[..1] == [queue[0]] && queue[..1][..0] == [];
    assert Unacked(queue[..1], ranges) == [queue[0]];
  }

  lemma StaysInQueue(queue: seq<Packet>, ranges: seq<Range>, front: seq<Packet>, i: nat)
    requires Ordered(queue) && 1 <= i < |queue| && Acked(ranges, queue[i])
    ensures front + queue[1..] != Unacked(queue, ranges)
  {
    hide Acked, Unacked;
    UnackedRemaining(queue, ranges);
    assert (front + queue[1..])[|front| + i - 1] == queue[i];
    assert queue[i] in front + queue[1..];
  }

  /** What the decoder reads is what `ProcessAck` requires. */
  lemma {:induction false} DecodedIsStepwise(s: seq<byte>, largest: nat, n: nat)
    requires AckFrames.DecodeRanges(s, largest, n).Some?
    ensures Stepwise(AckFrames.DecodeRanges(s, largest, n).value.0)
    ensures AckFrames.DecodeRanges(s, largest, n).value.0[0].hi == largest
    decreases n
  {
    hide Decoding;
    var (r, lRange) := Decoding(s).value;
    var top := Range(largest - r, largest);
    if n > 0 {
      var (gap, lGap) := Decoding(s[lRange..]).value;
      DecodedIsStepwise(s[lRange + lGap..], largest - (gap + 2 + r), n - 1);
      var rest := AckFrames.DecodeRanges(s[lRange + lGap..], largest - (gap + 2 + r), n - 1).value.0;
      assert AckFrames.DecodeRanges(s, largest, n).value.0 == [top] + rest;
      StepwiseCons(top, rest);
    }
  }

  lemma StepwiseCons(top: Range, rest: seq<Range>)
    requires Stepwise(rest) && top.lo <= top.hi && rest[0].hi + 1 < top.lo
    ensures Stepwise([top] + rest)
  {
  }

  lemma DecodedAckIsStepwise(s: seq<byte>)
    requires s != [] && AckFrames.DecodeAck(s).Some?
    ensures Stepwise(AckFrames.DecodeAck(s).value.ranges)
  {
    hide AckFrames.DecodeRanges, AckFrames.DecodeEcn, AckFrames.ParseAckHeader, Stepwise;
    var (largest, _, numBlock, i) := AckFrames.ParseAckHeader(s).value;
    DecodedIsStepwise(s[i..], largest, numBlock);
  }

  /** From the list of received numbers on one side to the queue on the other: a packet that the ACK removes was
      received. */
  lemma OnlyReceivedAreRemoved(items: seq<Range>, chosen: seq<nat>, delay: nat, ecn: Option<AckFrames.EcnCounts>,
                               written: seq<byte>, rest: seq<byte>, queue: seq<Packet>)
    requires Sorted(items) && items != [] && AckFrames.Chosen(items, chosen, |items| - 1)
    requires |chosen| <= AckFrames.MAX_BLOCKS && AckFrames.InRange(delay, items[|items| - 1], ecn) && Ordered(queue)
    requires var top, ranges := items[|items| - 1], AckFrames.Pick(items, chosen);
             && top.lo <= top.hi && AckFrames.Descending(top.lo, ranges)
             && written == AckFrames.AckBytes(delay, top, ranges, ecn)
    ensures written + rest != [] && AckFrames.DecodeAck(written + rest).Some?
    ensures var ranges := AckFrames.DecodeAck(written + rest).value.ranges;
            && Stepwise(ranges)
            && forall p | p in queue && p !in Unacked(queue, ranges) :: Contains(items, p.number)
  {
    hide AckFrames.DecodeAck, AckFrames.AckBytes, Contains, Stepwise, Unacked;
    AckFrames.AckIsTruthful(items, chosen, delay, ecn, written, rest);
    var ranges := AckFrames.DecodeAck(written + rest).value.ranges;
    DecodedAckIsStepwise(written + rest);
    UnackedRemaining(queue, ranges);
  }
}
