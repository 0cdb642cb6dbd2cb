/** The sliding filters of the congestion controllers: the bandwidth filter of picoquic/bbr.c, which is shifted in
    place, and the ring of round-trip times in picoquic/cc_common.c. */
module Filters {
  import opened CcCommon

  // ----- Maximum and minimum of a sequence

  /** The maximum, or 0 of nothing. */
  function Max(s: seq<nat>): (m: nat)
    ensures forall x :: x in s ==> x <= m
    ensures m in s || (m == 0 && forall x :: x in s ==> x == 0)
  {
    if s == [] then 0
    else
      var m := Max(s[..|s| - 1]);
      assert s == s[..|s| - 1] + [s[|s| - 1]];
      if s[|s| - 1] > m then s[|s| - 1] else m
  }

  function Larger(a: nat, b: nat): nat {
    if a < b then b else a
  }

  lemma {:induction false} MaxAppend(a: seq<nat>, b: seq<nat>)
    ensures Max(a + b) == Larger(Max(a), Max(b))
  {
    if b == [] {
      assert a + b == a;
    } else {
      MaxAppend(a, b[..|b| - 1]);
      assert (a + b)[..|a + b| - 1] == a + b[..|b| - 1];
    }
  }

  // ----- The bandwidth filter

  const BTL_BW_FILTER_LENGTH: nat := 10

  /** The samples of all rounds, the latest round first. */
  type Rounds = seq<seq<nat>>

  function Samples(rounds: Rounds): seq<nat> {
    if rounds == [] then [] else rounds[0] + Samples(rounds[1..])
  }

  /** The latest `n` rounds, or all of them. */
  function Latest(rounds: Rounds, n: nat): Rounds {
    if |rounds| <= n then rounds else rounds[..n]
  }

  function RoundMax(rounds: Rounds, i: nat): nat {
    if i < |rounds| then Max(rounds[i]) else 0
  }

  /** The maximum over the first `n` slots. */
  function SlotMax(slots: seq<nat>, n: nat): nat
    requires n <= |slots|
  {
    Max(slots[..n])
  }

  lemma {:induction false} SlotsAreRounds(slots: seq<nat>, rounds: Rounds, n: nat)
    requires n <= |slots| && forall i :: 0 <= i < n ==> slots[i] == RoundMax(rounds, i)
    ensures SlotMax(slots, n) == Max(Samples(Latest(rounds, n)))
    decreases n
  {
    hide Max, Samples;
    if n == 0 || rounds == [] {
      NoSamples(slots, rounds, n);
    } else {
      var rest := slots[1..];
      forall i | 0 <= i < n - 1
        ensures rest[i] == RoundMax(rounds[1..], i)
      {
        assert rest[i] == slots[i + 1];
      }
      SlotsAreRounds(rest, rounds[1..], n - 1);
      assert slots[..n] == [slots[0]] + rest[..n - 1];
      MaxAppend([slots[0]], rest[..n - 1]);
      MaxOne(slots[0]);
      LatestSplit(rounds, n);
      MaxAppend(rounds[0], Samples(Latest(rounds[1..], n - 1)));
    }
  }

  lemma NoSamples(slots: seq<nat>, rounds: Rounds, n: nat)
    requires n <= |slots| && (n == 0 || rounds == []) && forall i :: 0 <= i < n ==> slots[i] == RoundMax(rounds, i)
    ensures SlotMax(slots, n) == 0 == Max(Samples(Latest(rounds, n)))
  {
  }

  lemma MaxOne(x: nat)
    ensures Max([x]) == x
  {
  }

  lemma LatestSplit(rounds: Rounds, n: nat)
    requires n > 0 && rounds != []
    ensures Samples(Latest(rounds, n)) == rounds[0] + Samples(Latest(rounds[1..], n - 1))
  {
    var l := Latest(rounds, n);
    assert l[0] == rounds[0] && l[1..] == Latest(rounds[1..], n - 1);
  }

  /** What the filter reads from the path. */
  datatype PathData = PathData(bandwidthEstimate: nat, maxBandwidthEstimate: nat, delivered: nat, deliveredLastPacket: nat)

  /** The estimate, kept from falling too low: at startup below half of the largest one, and ever below two packets in
      each round trip. It is the least number that is not below any of them. */
  function Floored(p: PathData, isStartup: bool, rtProp: nat): (b: nat)
    ensures b >= p.bandwidthEstimate
    ensures isStartup ==> b >= p.maxBandwidthEstimate / 2
    ensures rtProp > 0 ==> b >= 3072000000 / rtProp
    ensures || b == p.bandwidthEstimate || (isStartup && b == p.maxBandwidthEstimate / 2)
            || (rtProp > 0 && b == 3072000000 / rtProp)
  {
    var b := if isStartup then Larger(p.bandwidthEstimate, p.maxBandwidthEstimate / 2) else p.bandwidthEstimate;
    if rtProp > 0 then Larger(b, CWIN_MINIMUM * 1000000 / rtProp) else b
  }

  class BbrState {
    const btlBwFilter: array<nat>
    var btlBw: nat
    var isStartup: bool
    var rtProp: nat
    var nextRoundDelivered: nat
    var roundCount: nat
    var roundStart: bool
    ghost var rounds: Rounds

    /** Each slot is the maximum of one round, and the estimate is the maximum of the last ten rounds. */
    ghost predicate Valid()
      reads this, btlBwFilter
    {
      && btlBwFilter.Length == BTL_BW_FILTER_LENGTH && rounds != []
      && (forall i :: 0 <= i < BTL_BW_FILTER_LENGTH ==> btlBwFilter[i] == RoundMax(rounds, i))
      && btlBw == Max(Samples(Latest(rounds, BTL_BW_FILTER_LENGTH)))
    }

    constructor ()
      ensures Valid() && rounds == [[]] && fresh(btlBwFilter)
    {
      btlBwFilter := new nat[BTL_BW_FILTER_LENGTH](_ => 0);
      btlBw, isStartup, rtProp := 0, true, 0;
      nextRoundDelivered, roundCount, roundStart := 0, 0, false;
      rounds := [[]];
      new;
      assert Latest(rounds, BTL_BW_FILTER_LENGTH) == [[]];
    }

    /** A new round: the slots move up in place, and the oldest one is forgotten. */
    method ShiftFilter()
      requires Valid()
      modifies this`btlBw, this`rounds, btlBwFilter
      ensures Valid() && rounds == [[]] + old(rounds)
      ensures btlBw == Max(Samples(Latest(rounds, 10)))
    {
      hide Max, Samples, RoundMax, Latest;
      ghost var slots, before := btlBwFilter[..], rounds;
      assert forall i :: 0 <= i < BTL_BW_FILTER_LENGTH ==> slots[i] == RoundMax(before, i);
      btlBw := 0;
      var i := BTL_BW_FILTER_LENGTH - 2;
      SlotsNone(slots);
      while i >= 0
        invariant -1 <= i <= BTL_BW_FILTER_LENGTH - 2 && rounds == before
        invariant btlBwFilter[..i + 2] == slots[..i + 2]
        invariant btlBwFilter[i + 2..] == slots[i + 1..BTL_BW_FILTER_LENGTH - 1]
        invariant btlBw == Max(slots[i + 1..BTL_BW_FILTER_LENGTH - 1])
      {
        SlotMoved(btlBwFilter[..], slots, i);
        var b := btlBwFilter[i];
        btlBwFilter[i + 1] := b;
        MaxAppend([b], slots[i + 1..BTL_BW_FILTER_LENGTH - 1]);
        MaxOne(b);
        if b > btlBw {
          btlBw := b;
        }
        i := i - 1;
      }
      ghost var moved := btlBwFilter[..];
      btlBwFilter[0] := 0;
      rounds := [[]] + rounds;
      AllMoved(moved, btlBwFilter[..], slots);
      Shifted(slots, btlBwFilter[..], before);
    }

    /** A sample of the current round */
    method AddSample(bandwidth: nat)
      requires Valid()
      modifies this`btlBw, this`rounds, btlBwFilter
      ensures Valid() && rounds == old(rounds)[0 := old(rounds)[0] + [bandwidth]]
    {
      hide Max, Samples;
      ghost var before := rounds;
      rounds := rounds[0 := rounds[0] + [bandwidth]];
      SampleAdded(before, bandwidth);
      if bandwidth > btlBwFilter[0] {
        btlBwFilter[0] := bandwidth;
        if bandwidth > btlBw {
          btlBw := bandwidth;
        }
      } else {
        SlotBelow(btlBwFilter[..], before);
      }
    }

    /** `BBRUpdateBtlBw` */
    method UpdateBtlBw(p: PathData)
      requires Valid()
      modifies this, btlBwFilter
      ensures Valid() && isStartup == old(isStartup) && rtProp == old(rtProp)
      ensures roundStart == (p.deliveredLastPacket >= old(nextRoundDelivered))
      ensures nextRoundDelivered == if roundStart then p.delivered else old(nextRoundDelivered)
      ensures roundCount == old(roundCount) + if roundStart then 1 else 0
      ensures var current := if roundStart then [[]] + old(rounds) else old(rounds);
              rounds == current[0 := current[0] + [Floored(p, isStartup, rtProp)]]
      ensures btlBw == Max(Samples(Latest(rounds, 10)))
    {
      hide Max, Samples, Latest;
      var bandwidthEstimate := p.bandwidthEstimate;
      if isStartup && bandwidthEstimate < p.maxBandwidthEstimate / 2 {
        bandwidthEstimate := p.maxBandwidthEstimate / 2;
      }
      if rtProp > 0 {
        var minBandwidth := CWIN_MINIMUM * 1000000 / rtProp;
        if bandwidthEstimate < minBandwidth {
          bandwidthEstimate := minBandwidth;
        }
      }
      if p.deliveredLastPacket >= nextRoundDelivered {
        nextRoundDelivered := p.delivered;
        roundCount := roundCount + 1;
        roundStart := true;
      } else {
        roundStart := false;
      }
      if roundStart {
        ShiftFilter();
      }
      AddSample(bandwidthEstimate);
    }

    /** The filter part of `BBRExitStartupSeedBDP` */
    method SeedBdp(bdp: nat, rttMin: nat)
      requires Valid() && rttMin > 0
      modifies this`btlBw, this`rounds, btlBwFilter
      ensures Valid() && rounds == old(rounds)[0 := old(rounds)[0] + [bdp * 1000000 / rttMin]]
      ensures btlBw == Max(Samples(Latest(rounds, 10)))
    {
      AddSample(bdp * 1000000 / rttMin);
    }
  }

  lemma SlotsNone(slots: seq<nat>)
    requires |slots| == BTL_BW_FILTER_LENGTH
    ensures Max(slots[BTL_BW_FILTER_LENGTH - 1..BTL_BW_FILTER_LENGTH - 1]) == 0
  {
  }

  /** Slot `i` is copied to the next one. */
  lemma SlotMoved(a: seq<nat>, slots: seq<nat>, i: nat)
    requires |a| == |slots| == BTL_BW_FILTER_LENGTH && i <= BTL_BW_FILTER_LENGTH - 2
    requires a[..i + 2] == slots[..i + 2] && a[i + 2..] == slots[i + 1..BTL_BW_FILTER_LENGTH - 1]
    ensures a[i] == slots[i]
    ensures slots[i..BTL_BW_FILTER_LENGTH - 1] == [a[i]] + slots[i + 1..BTL_BW_FILTER_LENGTH - 1]
    ensures a[i + 1 := a[i]][..i + 1] == slots[..i + 1]
    ensures a[i + 1 := a[i]][i + 1..] == slots[i..BTL_BW_FILTER_LENGTH - 1]
  {
    assert a[..i + 2][i] == slots[..i + 2][i];
    assert a[..i + 1] == a[..i + 2][..i + 1] && slots[..i + 1] == slots[..i + 2][..i + 1];
    assert a[i + 1 := a[i]][i + 1..] == [a[i]] + a[i + 2..];
  }

  lemma AllMoved(moved: seq<nat>, slots': seq<nat>, slots: seq<nat>)
    requires |moved| == |slots| == BTL_BW_FILTER_LENGTH && slots' == moved[0 := 0]
    requires moved[1..] == slots[0..BTL_BW_FILTER_LENGTH - 1]
    ensures forall j :: 1 <= j < BTL_BW_FILTER_LENGTH ==> slots'[j] == slots[j - 1]
  {
    forall j | 1 <= j < BTL_BW_FILTER_LENGTH
      ensures slots'[j] == slots[j - 1]
    {
      assert moved[j] == moved[1..][j - 1];
    }
  }

  /** The slots after a shift, and the maximum over them */
  lemma Shifted(slots: seq<nat>, slots': seq<nat>, rounds: Rounds)
    requires |slots| == |slots'| == BTL_BW_FILTER_LENGTH
    requires forall i :: 0 <= i < BTL_BW_FILTER_LENGTH ==> slots[i] == RoundMax(rounds, i)
    requires slots'[0] == 0 && forall j :: 1 <= j < BTL_BW_FILTER_LENGTH ==> slots'[j] == slots[j - 1]
    ensures forall i :: 0 <= i < BTL_BW_FILTER_LENGTH ==> slots'[i] == RoundMax([[]] + rounds, i)
    ensures Max(slots[..BTL_BW_FILTER_LENGTH - 1]) == Max(Samples(Latest([[]] + rounds, BTL_BW_FILTER_LENGTH)))
  {
    hide Samples;
    forall i | 0 <= i < BTL_BW_FILTER_LENGTH
      ensures slots'[i] == RoundMax([[]] + rounds, i)
    {
      if i > 0 && i - 1 < |rounds| {
        assert ([[]] + rounds)[i] == rounds[i - 1];
      }
    }
    SlotsAreRounds(slots', [[]] + rounds, BTL_BW_FILTER_LENGTH);
    assert slots' == [0] + slots[..BTL_BW_FILTER_LENGTH - 1];
    MaxAppend([0], slots[..BTL_BW_FILTER_LENGTH - 1]);
    MaxOne(0);
    assert slots'[..BTL_BW_FILTER_LENGTH] == slots';
  }

  lemma SampleAdded(rounds: Rounds, bandwidth: nat)
    requires rounds != []
    ensures var after := rounds[0 := rounds[0] + [bandwidth]];
            && Max(Samples(Latest(after, BTL_BW_FILTER_LENGTH)))
            == Larger(Max(Samples(Latest(rounds, BTL_BW_FILTER_LENGTH))), bandwidth)
            && RoundMax(after, 0) == Larger(RoundMax(rounds, 0), bandwidth)
            && forall i: nat :: i > 0 ==> RoundMax(after, i) == RoundMax(rounds, i)
  {
    hide Max, Samples, Latest;
    var after := rounds[0 := rounds[0] + [bandwidth]];
    var rest := Samples(Latest(rounds[1..], BTL_BW_FILTER_LENGTH - 1));
    assert after[1..] == rounds[1..];
    LatestSplit(rounds, BTL_BW_FILTER_LENGTH);
    LatestSplit(after, BTL_BW_FILTER_LENGTH);
    MaxAppend(rounds[0], rest);
    MaxAppend(rounds[0] + [bandwidth], rest);
    MaxAppend(rounds[0], [bandwidth]);
    MaxOne(bandwidth);
  }

  /** The maximum of the current round is not above the estimate. */
  lemma SlotBelow(slots: seq<nat>, rounds: Rounds)
    requires |slots| == BTL_BW_FILTER_LENGTH
    requires rounds != [] && slots[0] == RoundMax(rounds, 0)
    ensures slots[0] <= Max(Samples(Latest(rounds, BTL_BW_FILTER_LENGTH)))
  {
    hide Max, Samples, Latest;
    LatestSplit(rounds, BTL_BW_FILTER_LENGTH);
    MaxAppend(rounds[0], Samples(Latest(rounds[1..], BTL_BW_FILTER_LENGTH - 1)));
  }

  // ----- The round-trip times

  const MIN_MAX_RTT_SCOPE: nat := 7

  /** The last seven samples, or all of them. */
  function Window(history: seq<nat>): seq<nat> {
    if |history| <= MIN_MAX_RTT_SCOPE then history else history[|history| - MIN_MAX_RTT_SCOPE..]
  }

  lemma LastSeven(history: seq<nat>)
    ensures Window(history) == if |history| <= 7 then history else history[|history| - 7..]
  {
  }

  predicate IsMinMax(s: seq<nat>, min: nat, max: nat) {
    min in s && max in s && forall x :: x in s ==> min <= x <= max
  }

  predicate Ring(slots: seq<nat>, history: seq<nat>)
    requires |slots| == MIN_MAX_RTT_SCOPE
  {
    forall k :: 0 <= k < |history| && k + MIN_MAX_RTT_SCOPE >= |history| ==> slots[k % MIN_MAX_RTT_SCOPE] == history[k]
  }

  lemma RingNext(slots: seq<nat>, history: seq<nat>, x: nat, rtt: nat)
    requires |slots| == MIN_MAX_RTT_SCOPE && Ring(slots, history) && x == |history| % MIN_MAX_RTT_SCOPE
    ensures Ring(slots[x := rtt], history + [rtt])
  {
  }

  class MinMaxRtt {
    const samples: array<nat>
    var sampleCurrent: nat
    var isInit: bool
    var sampleMin: nat
    var sampleMax: nat
    ghost var history: seq<nat>

    /** Slot k % 7 holds sample k of the window; the minimum and the maximum are those of the window. */
    ghost predicate Valid()
      reads this, samples
    {
      && samples.Length == MIN_MAX_RTT_SCOPE
      && sampleCurrent == |history| % MIN_MAX_RTT_SCOPE
      && (isInit <==> |history| >= MIN_MAX_RTT_SCOPE)
      && Ring(samples[..], history)
      && (history != [] ==> IsMinMax(Window(history), sampleMin, sampleMax))
    }

    constructor ()
      ensures Valid() && history == [] && fresh(samples)
    {
      samples := new nat[MIN_MAX_RTT_SCOPE](_ => 0);
      sampleCurrent, isInit, sampleMin, sampleMax, history := 0, false, 0, 0, [];
    }

    /** `picoquic_filter_rtt_min_max` */
    method Filter(rtt: nat)
      requires Valid()
      modifies this, samples
      ensures Valid() && history == old(history) + [rtt]
      ensures IsMinMax(if |history| <= 7 then history else history[|history| - 7..], sampleMin, sampleMax)
    {
      hide IsMinMax, Window, Ring;
      var x := sampleCurrent;
      RingNext(samples[..], history, x, rtt);
      ghost var slots := samples[..][x := rtt];
      samples[x] := rtt;
      assert samples[..] == slots;
      history := history + [rtt];
      sampleCurrent := x + 1;
      if sampleCurrent >= MIN_MAX_RTT_SCOPE {
        isInit := true;
        sampleCurrent := 0;
      }
      var xMax := if isInit then MIN_MAX_RTT_SCOPE else x + 1;
      FindMinMax(xMax);
      RingIsWindow(samples[..], history, xMax);
      SameMinMax(samples[..xMax], Window(history), sampleMin, sampleMax);
      LastSeven(history);
    }

    method FindMinMax(xMax: nat)
      requires 1 <= xMax <= samples.Length
      modifies this`sampleMin, this`sampleMax
      ensures IsMinMax(samples[..xMax], sampleMin, sampleMax)
    {
      hide IsMinMax;
      sampleMin := samples[0];
      sampleMax := samples[0];
      assert samples[..1] == [samples[0]];
      OneMinMax(samples[0]);
      for i := 1 to xMax
        invariant IsMinMax(samples[..i], sampleMin, sampleMax)
      {
        assert samples[..i + 1] == samples[..i] + [samples[i]];
        MoreMinMax(samples[..i], sampleMin, sampleMax, samples[i]);
        if samples[i] < sampleMin {
          sampleMin := samples[i];
        } else if samples[i] > sampleMax {
          sampleMax := samples[i];
        }
      }
    }
  }

  lemma OneMinMax(x: nat)
    ensures IsMinMax([x], x, x)
  {
  }

  lemma MoreMinMax(s: seq<nat>, min: nat, max: nat, x: nat)
    requires IsMinMax(s, min, max)
    ensures min <= max
    ensures IsMinMax(s + [x], if x < min then x else min, if x > max then x else max)
  {
  }

  /** The slots in use and the window hold the same samples. */
  lemma RingIsWindow(slots: seq<nat>, history: seq<nat>, xMax: nat)
    requires history != [] && |slots| == MIN_MAX_RTT_SCOPE && Ring(slots, history)
    requires xMax == if |history| >= MIN_MAX_RTT_SCOPE then MIN_MAX_RTT_SCOPE else |history|
    ensures forall x :: x in slots[..xMax] <==> x in Window(history)
  {
    var n := |history|;
    var w, used := Window(history), slots[..xMax];
    forall i | 0 <= i < xMax
      ensures used[i] in w
    {
      var k := SlotSample(n, i);
      assert slots[k % MIN_MAX_RTT_SCOPE] == history[k];
      assert history[k] == w[k - (n - |w|)];
    }
    forall j | 0 <= j < |w|
      ensures w[j] in used
    {
      var k := n - |w| + j;
      SlotUsed(n, k, xMax);
      assert w[j] == history[k] == slots[k % MIN_MAX_RTT_SCOPE] == used[k % MIN_MAX_RTT_SCOPE];
    }
  }

  lemma SlotUsed(n: nat, k: nat, xMax: nat)
    requires k < n && xMax == if n >= MIN_MAX_RTT_SCOPE then MIN_MAX_RTT_SCOPE else n
    ensures k % MIN_MAX_RTT_SCOPE < xMax
  {
  }

  /** The sample of the window that is in slot `i` */
  lemma SlotSample(n: nat, i: nat) returns (k: nat)
    requires i < n && i < MIN_MAX_RTT_SCOPE
    ensures k < n <= k + MIN_MAX_RTT_SCOPE && k % MIN_MAX_RTT_SCOPE == i
  {
    var q := (n - 1 - i) / MIN_MAX_RTT_SCOPE;
    k := i + MIN_MAX_RTT_SCOPE * q;
  }

  lemma SameMinMax(a: seq<nat>, b: seq<nat>, min: nat, max: nat)
    requires IsMinMax(a, min, max) && forall x :: x in a <==> x in b
    ensures IsMinMax(b, min, max)
  {
  }
}
