/** The New Reno congestion window of picoquic/newreno.c (section 7.3.3 of RFC 9002). */
module NewReno {
  import opened CcCommon

  const UINT64_MAX: nat := 0xFFFF_FFFF_FFFF_FFFF
  const TARGET_RENO_RTT: nat := 100000
  const TARGET_SATELLITE_RTT: nat := 610000

  datatype AlgState = SlowStart | CongestionAvoidance

  datatype Sim = Sim(algState: AlgState, ssthresh: nat, cwin: nat, residualAck: nat,
                     recoveryStart: nat, recoverySequence: nat)

  datatype Notification =
    | Acknowledgement(bytes: nat)
    | EcnEc
    | Repeat
    | Timeout
    | SpuriousRepeat
    | RttMeasurement(hystart: bool)
    | BwMeasurement
    | SeedCwin(bytes: nat)
    | CwinBlocked
    | Reset

  /** What the algorithm reads from the connection and the path. */
  datatype Env = Env(now: nat, smoothedRtt: nat, rttMin: nat, sendMtu: nat, maxBandwidth: nat, isMultipath: bool,
                     sequence: nat, ackNumber: nat, ackSentTime: nat, isSenderLimited: bool)

  const START := Sim(SlowStart, UINT64_MAX, CWIN_INITIAL, 0, 0, 0)

  // ----- The simulation

  /** An unsigned difference */
  function Elapsed(now: nat, start: nat): nat {
    (now - start) % (UINT64_MAX + 1)
  }

  /** A loss starts a new recovery if the last one is over. */
  predicate RecoveryOver(s: Sim, env: Env) {
    || Elapsed(env.now, s.recoveryStart) > env.smoothedRtt
    || (if env.isMultipath then s.recoveryStart <= env.ackSentTime else s.recoverySequence <= env.ackNumber)
  }

  predicate InRecovery(s: Sim, env: Env) {
    && Elapsed(env.now, s.recoveryStart) < env.smoothedRtt
    && (if env.isMultipath then s.recoveryStart > env.ackSentTime else s.recoverySequence > env.ackNumber)
  }

  function EnterRecovery(s: Sim, timeout: bool, env: Env): Sim {
    var ssthresh := if s.cwin / 2 < CWIN_MINIMUM then CWIN_MINIMUM else s.cwin / 2;
    if timeout then Sim(SlowStart, ssthresh, CWIN_MINIMUM, 0, env.now, env.sequence)
    else Sim(CongestionAvoidance, ssthresh, ssthresh, 0, env.now, env.sequence)
  }

  /** An acknowledgement in congestion avoidance: the part that is too small for a byte is carried over. */
  function Avoidance(s: Sim, bytes: nat, mtu: nat): Sim
    requires s.cwin > 0
  {
    var delta := bytes * mtu + s.residualAck;
    s.(residualAck := delta % s.cwin, cwin := s.cwin + delta / s.cwin)
  }

  function Acked(s: Sim, bytes: nat, mtu: nat): Sim
    requires s.cwin > 0
  {
    if s.algState == SlowStart then
      var cwin := s.cwin + bytes;
      s.(cwin := cwin, algState := if cwin >= s.ssthresh then CongestionAvoidance else SlowStart)
    else Avoidance(s, bytes, mtu)
  }

  function SimNotify(s: Sim, n: Notification, env: Env): Sim
    requires s.cwin > 0
  {
    match n
    case Acknowledgement(bytes) => Acked(s, bytes, env.sendMtu)
    case EcnEc => if RecoveryOver(s, env) then EnterRecovery(s, false, env) else s
    case Repeat => if RecoveryOver(s, env) then EnterRecovery(s, false, env) else s
    case Timeout => if RecoveryOver(s, env) then EnterRecovery(s, true, env) else s
    case SpuriousRepeat =>
      if InRecovery(s, env) && s.ssthresh != UINT64_MAX && s.cwin < 2 * s.ssthresh
      then s.(cwin := 2 * s.ssthresh, algState := CongestionAvoidance) else s
    case SeedCwin(bytes) =>
      if s.algState == SlowStart && s.ssthresh == UINT64_MAX && bytes > s.cwin
      then s.(cwin := bytes, ssthresh := bytes, algState := CongestionAvoidance) else s
    case Reset => START
    case _ => s
  }

  // ----- The algorithm

  function LongDelayWindow(rttMin: nat): nat {
    CWIN_INITIAL * (if rttMin > TARGET_SATELLITE_RTT then TARGET_SATELLITE_RTT else rttMin) / TARGET_RENO_RTT
  }

  predicate InitialSlowStart(s: Sim) {
    s.algState == SlowStart && s.ssthresh == UINT64_MAX
  }

  function AtLeast(s: Sim, cwin: nat): Sim {
    if cwin > s.cwin then s.(cwin := cwin) else s
  }

  function Notify(s: Sim, n: Notification, env: Env): Sim
    requires s.cwin > 0
  {
    match n
    case Acknowledgement(_) => if env.isSenderLimited then s else SimNotify(s, n, env)
    case RttMeasurement(hystart) =>
      if InitialSlowStart(s) then
        var t := if env.rttMin > TARGET_RENO_RTT then AtLeast(s, LongDelayWindow(env.rttMin)) else s;
        if hystart then t.(ssthresh := t.cwin, algState := CongestionAvoidance) else t
      else s
    case BwMeasurement =>
      if InitialSlowStart(s) then AtLeast(s, env.maxBandwidth * env.smoothedRtt / 1000000 / 2) else s
    case CwinBlocked => s
    case _ => SimNotify(s, n, env)
  }

  // ----- Invariants

  predicate Sound(s: Sim) {
    && s.cwin >= CWIN_MINIMUM && s.ssthresh >= CWIN_MINIMUM
    && s.residualAck < s.cwin
    && (s.algState == CongestionAvoidance ==> s.cwin >= s.ssthresh)
  }

  lemma SimNotifySound(s: Sim, n: Notification, env: Env)
    requires Sound(s)
    ensures Sound(SimNotify(s, n, env))
  {
    match n {
      case Acknowledgement(bytes) => AckedSound(s, bytes, env.sendMtu);
      case _ =>
    }
  }

  lemma AckedSound(s: Sim, bytes: nat, mtu: nat)
    requires Sound(s)
    ensures Sound(Acked(s, bytes, mtu))
  {
    var delta := bytes * mtu + s.residualAck;
    assert delta / s.cwin >= 0;
  }

  lemma NotifySound(s: Sim, n: Notification, env: Env)
    requires Sound(s)
    ensures Sound(Notify(s, n, env))
  {
    hide SimNotify, LongDelayWindow;
    if n.RttMeasurement? || n.BwMeasurement? || n.CwinBlocked? {
    } else {
      SimNotifySound(s, n, env);
    }
  }

  /** What a step does to the window: a loss leaves half of it or the minimum, and only losses and resets shrink it. */
  lemma LossHalves(s: Sim, n: Notification, env: Env)
    requires Sound(s)
    ensures Notify(s, n, env).cwin < s.cwin ==> n.EcnEc? || n.Repeat? || n.Timeout? || n.Reset?
    ensures (n.EcnEc? || n.Repeat?) && RecoveryOver(s, env) ==>
      Notify(s, n, env).cwin == (if s.cwin / 2 < CWIN_MINIMUM then CWIN_MINIMUM else s.cwin / 2)
    ensures n.Timeout? && RecoveryOver(s, env) ==> Notify(s, n, env).cwin == CWIN_MINIMUM
  {
    hide LongDelayWindow, Elapsed, Acked, RecoveryOver, InRecovery;
    if n.Acknowledgement? {
      AckedGrows(s, n.bytes, env.sendMtu);
    }
    if n.BwMeasurement? {
      hide AtLeast;
      NotSmaller(s, env.maxBandwidth * env.smoothedRtt / 1000000 / 2);
    }
  }

  lemma NotSmaller(s: Sim, cwin: nat)
    ensures AtLeast(s, cwin).cwin >= s.cwin
  {
  }

  lemma AckedGrows(s: Sim, bytes: nat, mtu: nat)
    requires s.cwin > 0
    ensures Acked(s, bytes, mtu).cwin >= s.cwin
  {
  }

  datatype Step = Step(n: Notification, env: Env)

  function Run(s: Sim, steps: seq<Step>): Sim
    requires Sound(s)
    decreases |steps|
  {
    if steps == [] then s
    else
      NotifySound(s, steps[0].n, steps[0].env);
      Run(Notify(s, steps[0].n, steps[0].env), steps[1..])
  }

  lemma {:induction false} RunSound(s: Sim, steps: seq<Step>)
    requires Sound(s)
    ensures Sound(Run(s, steps))
    decreases |steps|
  {
    if steps != [] {
      NotifySound(s, steps[0].n, steps[0].env);
      RunSound(Notify(s, steps[0].n, steps[0].env), steps[1..]);
    }
  }

  // ----- One reduction in a round trip

  predicate IsLoss(n: Notification) {
    n.EcnEc? || n.Repeat? || n.Timeout?
  }

  /** The time since `start` on a clock of 64 bits */
  function Since(start: nat, now: nat): int {
    if now >= start then now - start else now + 0x1_0000_0000_0000_0000 - start
  }

  /** A loss is noticed within the round trip behind an earlier one, at `start`, when `sequence` was the next packet: no
      more time has passed, and what was acknowledged last was sent before. */
  predicate SameRound(start: nat, sequence: nat, env: Env) {
    && Since(start, env.now) <= env.smoothedRtt
    && (if env.isMultipath then env.ackSentTime < start else env.ackNumber < sequence)
  }

  /** A loss in the round of the last one changes nothing. Any other starts a round at the present time and packet,
      halves the threshold, but not below two packets, and leaves the window there or, after a timeout, at two packets. */
  lemma LossMeaning(s: Sim, n: Notification, env: Env)
    requires s.cwin > 0 && IsLoss(n) && env.now <= UINT64_MAX && s.recoveryStart <= UINT64_MAX
    ensures var t, half := Notify(s, n, env), if s.cwin / 2 > 3072 then s.cwin / 2 else 3072;
            if SameRound(s.recoveryStart, s.recoverySequence, env) then t == s
            else if n.Timeout? then t == Sim(SlowStart, half, 3072, 0, env.now, env.sequence)
            else t == Sim(CongestionAvoidance, half, half, 0, env.now, env.sequence)
  {
    ElapsedIsSince(s.recoveryStart, env.now);
    hide Elapsed, Since;
  }

  lemma ElapsedIsSince(start: nat, now: nat)
    requires start <= UINT64_MAX && now <= UINT64_MAX
    ensures Elapsed(now, start) == Since(start, now)
  {
    assert now < start ==> now - start == -1 * (UINT64_MAX + 1) + (now + UINT64_MAX + 1 - start);
  }

  /** A run in which every loss is noticed in the round of an earlier one, and nothing is reset */
  predicate InRound(steps: seq<Step>, start: nat, sequence: nat) {
    forall k :: 0 <= k < |steps| ==>
      && !steps[k].n.Reset? && steps[k].env.now <= UINT64_MAX
      && (IsLoss(steps[k].n) ==> SameRound(start, sequence, steps[k].env))
  }

  function WithoutLosses(steps: seq<Step>): seq<Step> {
    if steps == [] then []
    else (if IsLoss(steps[0].n) then [] else [steps[0]]) + WithoutLosses(steps[1..])
  }

  lemma KeepsRound(s: Sim, n: Notification, env: Env)
    requires s.cwin > 0 && !IsLoss(n) && !n.Reset?
    ensures var t := Notify(s, n, env); t.recoveryStart == s.recoveryStart && t.recoverySequence == s.recoverySequence
  {
    hide LongDelayWindow;
  }

  lemma {:induction false} LossesIgnored(s: Sim, steps: seq<Step>)
    requires Sound(s) && s.recoveryStart <= UINT64_MAX && InRound(steps, s.recoveryStart, s.recoverySequence)
    ensures Run(s, steps) == Run(s, WithoutLosses(steps)) && Run(s, steps).cwin >= s.cwin
    decreases |steps|
  {
    hide Notify, Sound;
    if steps != [] {
      var (n, env) := (steps[0].n, steps[0].env);
      SoundWindow(s);
      NotifySound(s, n, env);
      var t := Notify(s, n, env);
      assert steps[0] == Step(n, env);
      if IsLoss(n) {
        LossMeaning(s, n, env);
        LossesIgnored(s, steps[1..]);
        assert [] + WithoutLosses(steps[1..]) == WithoutLosses(steps[1..]);
      } else {
        KeepsRound(s, n, env);
        LossHalves(s, n, env);
        LossesIgnored(t, steps[1..]);
        assert ([steps[0]] + WithoutLosses(steps[1..]))[1..] == WithoutLosses(steps[1..]);
      }
    }
  }

  lemma SoundWindow(s: Sim)
    requires Sound(s)
    ensures s.cwin > 0
  {
  }

  /** One reduction in a round trip: after a loss that starts a round, the run goes on as if the further losses of that
      round had not happened, and the window does not shrink again in it. */
  lemma OneReduction(s: Sim, n: Notification, env: Env, steps: seq<Step>)
    requires Sound(s) && IsLoss(n) && env.now <= UINT64_MAX && s.recoveryStart <= UINT64_MAX
    requires !SameRound(s.recoveryStart, s.recoverySequence, env) && InRound(steps, env.now, env.sequence)
    ensures var t := Notify(s, n, env);
            Sound(t) && Run(t, steps) == Run(t, WithoutLosses(steps)) && Run(t, steps).cwin >= t.cwin
  {
    hide Notify, Sound, Run, InRound;
    SoundWindow(s);
    LossMeaning(s, n, env);
    NotifySound(s, n, env);
    LossesIgnored(Notify(s, n, env), steps);
  }

  /** A repeat that turns out to be spurious counts in the round of the last loss, but not at its very end. Then the
      window is at least twice the threshold, and nothing else changes but that slow start is over. */
  lemma SpuriousMeaning(s: Sim, env: Env)
    requires s.cwin > 0 && env.now <= UINT64_MAX && s.recoveryStart <= UINT64_MAX
    requires s.ssthresh <= UINT64_MAX
    ensures Notify(s, SpuriousRepeat, env)
         == if && SameRound(s.recoveryStart, s.recoverySequence, env)
               && Since(s.recoveryStart, env.now) != env.smoothedRtt
               && s.ssthresh < 0xFFFF_FFFF_FFFF_FFFF && s.cwin < 2 * s.ssthresh
            then s.(cwin := 2 * s.ssthresh, algState := CongestionAvoidance) else s
  {
    ElapsedIsSince(s.recoveryStart, env.now);
    hide Elapsed, Since;
  }

  /** It undoes the loss: the window is again what it was before, down to an even number and at least four packets. */
  lemma SpuriousUndoes(s: Sim, n: Notification, env: Env, env': Env)
    requires Sound(s) && s.cwin <= UINT64_MAX && s.recoveryStart <= UINT64_MAX
    requires IsLoss(n) && env.now <= UINT64_MAX && !SameRound(s.recoveryStart, s.recoverySequence, env)
    requires env'.now <= UINT64_MAX && SameRound(env.now, env.sequence, env')
    requires Since(env.now, env'.now) != env'.smoothedRtt
    ensures var t := Notify(s, n, env);
            && t.cwin > 0
            && Notify(t, SpuriousRepeat, env').cwin == (if s.cwin >= 6144 then s.cwin - s.cwin % 2 else 6144)
            && Notify(t, SpuriousRepeat, env').algState == CongestionAvoidance
  {
    hide Notify, SameRound, Since;
    LossMeaning(s, n, env);
    SpuriousMeaning(Notify(s, n, env), env');
  }

  // ----- Start

  /** In slow start, acknowledging the whole window doubles it, and ends slow start exactly if the threshold is reached. */
  lemma SlowStartDoubles(s: Sim, env: Env)
    requires Sound(s) && s.algState == SlowStart && !env.isSenderLimited
    ensures var t := Notify(s, Acknowledgement(s.cwin), env);
            && t.cwin == 2 * s.cwin && t.ssthresh == s.ssthresh
            && (t.algState == CongestionAvoidance <==> 2 * s.cwin >= s.ssthresh)
  {
  }

  /** What is acknowledged while the sender does not use the window, and its being blocked, say nothing about the path. */
  lemma NothingLearned(s: Sim, bytes: nat, env: Env)
    requires s.cwin > 0
    ensures env.isSenderLimited ==> Notify(s, Acknowledgement(bytes), env) == s
    ensures Notify(s, CwinBlocked, env) == s
    ensures Notify(s, Reset, env) == Sim(SlowStart, 0xFFFF_FFFF_FFFF_FFFF, 15360, 0, 0, 0)
  {
  }

  /** The start, and the window of ten packets for each 100 ms of the round trip, for at most 610 ms */
  lemma StartWindows(rtt: nat)
    ensures START == Sim(SlowStart, 0xFFFF_FFFF_FFFF_FFFF, 15360, 0, 0, 0)
    ensures LongDelayWindow(100000) == 15360
    ensures rtt >= 610000 ==> LongDelayWindow(rtt) == 93696
    ensures rtt <= 610000 ==> 100000 * LongDelayWindow(rtt) <= 15360 * rtt < 100000 * (LongDelayWindow(rtt) + 1)
  {
  }

  /** As long as nothing was lost and slow start was not left, the window is raised to a window that was used before,
      and then kept out of slow start, and to half of the measured product of bandwidth and delay, in microseconds. */
  lemma MeasuredWindow(s: Sim, env: Env, bytes: nat)
    requires s.cwin > 0 && s.algState == SlowStart && s.ssthresh == 0xFFFF_FFFF_FFFF_FFFF
    ensures bytes > s.cwin ==>
      Notify(s, SeedCwin(bytes), env) == Sim(CongestionAvoidance, bytes, bytes, s.residualAck, s.recoveryStart, s.recoverySequence)
    ensures bytes <= s.cwin ==> Notify(s, SeedCwin(bytes), env) == s
    ensures var t := Notify(s, BwMeasurement, env);
            var bdp := env.maxBandwidth * env.smoothedRtt / 1000000;
            t == s.(cwin := t.cwin) && t.cwin >= s.cwin && t.cwin >= bdp / 2 && (t.cwin == s.cwin || t.cwin == bdp / 2)
    ensures var t := Notify(s, RttMeasurement(true), env);
            t.ssthresh == t.cwin && t.algState == CongestionAvoidance
    ensures Notify(s, RttMeasurement(false), env).cwin >= s.cwin
    ensures env.rttMin <= 100000 ==> Notify(s, RttMeasurement(false), env) == s
  {
    hide LongDelayWindow;
    var product := env.maxBandwidth * env.smoothedRtt;
  }

  // ----- Growth in congestion avoidance

  function Acks(s: Sim, acks: seq<nat>, mtu: nat): Sim
    requires s.cwin > 0
    decreases |acks|
  {
    if acks == [] then s else Acks(Avoidance(s, acks[0], mtu), acks[1..], mtu)
  }

  function Sum(acks: seq<nat>): nat {
    if acks == [] then 0 else acks[0] + Sum(acks[1..])
  }

  function Times(a: nat, b: nat): nat {
    a * b
  }

  /** The remainder that is carried over makes the increments telescope: nothing is lost and nothing is gained. */
  lemma {:induction false} GrowthTelescopes(s: Sim, acks: seq<nat>, mtu: nat)
    requires s.cwin > 0 && s.residualAck < s.cwin
    ensures var t := Acks(s, acks, mtu);
            && t.cwin >= s.cwin && t.residualAck < t.cwin
            && Times(t.cwin - s.cwin, s.cwin) + t.residualAck <= Times(mtu, Sum(acks)) + s.residualAck
            && Times(mtu, Sum(acks)) + s.residualAck <= Times(t.cwin - s.cwin, t.cwin) + t.residualAck
    decreases |acks|
  {
    hide Avoidance, Times;
    if acks == [] {
      NoGrowth(mtu, s.cwin);
    } else {
      var s1 := Avoidance(s, acks[0], mtu);
      AvoidanceStep(s, acks[0], mtu);
      GrowthTelescopes(s1, acks[1..], mtu);
      var t := Acks(s1, acks[1..], mtu);
      Telescope(s.cwin, s1.cwin, t.cwin);
      Distributes(mtu, acks[0], Sum(acks[1..]));
    }
  }

  lemma NoGrowth(mtu: nat, cwin: nat)
    ensures Times(mtu, 0) == 0 && Times(0, cwin) == 0
  {
  }

  lemma Distributes(a: nat, b: nat, c: nat)
    ensures Times(a, b + c) == Times(a, b) + Times(a, c)
    ensures Times(b + c, a) == Times(b, a) + Times(c, a)
  {
  }

  lemma Monotone(a: nat, b: nat, c: nat, d: nat)
    requires a <= c && b <= d
    ensures Times(a, b) <= Times(c, d)
  {
  }

  lemma AvoidanceStep(s: Sim, bytes: nat, mtu: nat)
    requires s.cwin > 0
    ensures var t := Avoidance(s, bytes, mtu);
            && t.cwin >= s.cwin && t.residualAck < s.cwin && t.algState == s.algState && t.ssthresh == s.ssthresh
            && Times(t.cwin - s.cwin, s.cwin) + t.residualAck == Times(mtu, bytes) + s.residualAck
  {
  }

  lemma Telescope(a: nat, b: nat, c: nat)
    requires a <= b <= c
    ensures Times(c - a, a) <= Times(b - a, a) + Times(c - b, b)
    ensures Times(b - a, a) + Times(c - b, c) <= Times(c - a, c)
  {
  }

  /** Acknowledging at most one window of bytes adds at most one packet to the window. */
  lemma GrowsAtMostOnePacket(s: Sim, acks: seq<nat>, mtu: nat)
    requires Sound(s) && Sum(acks) <= s.cwin
    ensures Acks(s, acks, mtu).cwin <= s.cwin + mtu
  {
    hide Acks, Times;
    GrowthTelescopes(s, acks, mtu);
    var g := Acks(s, acks, mtu).cwin - s.cwin;
    Monotone(mtu, Sum(acks), mtu, s.cwin);
    if g > mtu {
      Monotone(mtu + 1, s.cwin, g, s.cwin);
      Distributes(s.cwin, mtu, 1);
      One(s.cwin);
    }
  }

  lemma One(a: nat)
    ensures Times(1, a) == a
  {
  }

  /** Acknowledging as many bytes as the window has at the end adds at least one packet to it. */
  lemma GrowsAtLeastOnePacket(s: Sim, acks: seq<nat>, mtu: nat)
    requires Sound(s) && Sum(acks) >= Acks(s, acks, mtu).cwin
    ensures Acks(s, acks, mtu).cwin >= s.cwin + mtu
  {
    hide Acks, Times;
    GrowthTelescopes(s, acks, mtu);
    var t := Acks(s, acks, mtu);
    var g := t.cwin - s.cwin;
    Monotone(mtu, t.cwin, mtu, Sum(acks));
    if g < mtu {
      Monotone(g + 1, t.cwin, mtu, t.cwin);
      Distributes(t.cwin, g, 1);
      One(t.cwin);
    }
  }

  // ----- The state in memory

  class Path {
    var cwin: nat
    var isSsthreshInitialized: bool
  }

  class NewRenoState {
    var algState: AlgState
    var ssthresh: nat
    var cwin: nat
    var residualAck: nat
    var recoveryStart: nat
    var recoverySequence: nat

    function State(): Sim
      reads this
    {
      Sim(algState, ssthresh, cwin, residualAck, recoveryStart, recoverySequence)
    }

    constructor ()
      ensures State() == START
    {
      algState, ssthresh, cwin := SlowStart, UINT64_MAX, CWIN_INITIAL;
      residualAck, recoveryStart, recoverySequence := 0, 0, 0;
    }

    /** `picoquic_newreno_sim_reset` */
    method Restart()
      modifies this
      ensures State() == START
    {
      algState, ssthresh, cwin := SlowStart, UINT64_MAX, CWIN_INITIAL;
      residualAck, recoveryStart, recoverySequence := 0, 0, 0;
    }

    /** `picoquic_newreno_sim_enter_recovery` */
    method SimEnterRecovery(timeout: bool, env: Env)
      modifies this
      ensures State() == EnterRecovery(old(State()), timeout, env)
    {
      ssthresh := cwin / 2;
      if ssthresh < CWIN_MINIMUM {
        ssthresh := CWIN_MINIMUM;
      }
      if timeout {
        cwin := CWIN_MINIMUM;
        algState := SlowStart;
      } else {
        cwin := ssthresh;
        algState := CongestionAvoidance;
      }
      recoveryStart := env.now;
      recoverySequence := env.sequence;
      residualAck := 0;
    }

    /** `picoquic_newreno_sim_notify` */
    method SimNotifyInPlace(n: Notification, env: Env)
      requires Sound(State())
      modifies this
      ensures State() == SimNotify(old(State()), n, env) && Sound(State())
    {
      SimNotifySound(State(), n, env);
      match n {
        case Acknowledgement(bytes) =>
          if algState == SlowStart {
            cwin := cwin + bytes;
            if cwin >= ssthresh {
              algState := CongestionAvoidance;
            }
          } else {
            var delta := bytes * env.sendMtu + residualAck;
            residualAck := delta % cwin;
            cwin := cwin + delta / cwin;
          }
        case EcnEc =>
          if RecoveryOver(State(), env) {
            SimEnterRecovery(false, env);
          }
        case Repeat =>
          if RecoveryOver(State(), env) {
            SimEnterRecovery(false, env);
          }
        case Timeout =>
          if RecoveryOver(State(), env) {
            SimEnterRecovery(true, env);
          }
        case SpuriousRepeat =>
          if InRecovery(State(), env) && ssthresh != UINT64_MAX && cwin < 2 * ssthresh {
            cwin := 2 * ssthresh;
            algState := CongestionAvoidance;
          }
        case SeedCwin(bytes) =>
          if algState == SlowStart && ssthresh == UINT64_MAX && bytes > cwin {
            cwin := bytes;
            ssthresh := bytes;
            algState := CongestionAvoidance;
          }
        case Reset => Restart();
        case _ =>
      }
    }

    /** `picoquic_newreno_notify`: the window of the path is always the one of the simulation. */
    method NotifyInPlace(path: Path, n: Notification, env: Env)
      requires Sound(State()) && path.cwin == cwin
      modifies this, path
      ensures State() == Notify(old(State()), n, env) && Sound(State()) && path.cwin == cwin
    {
      hide SimNotify, LongDelayWindow, Sound;
      NotifySound(State(), n, env);
      match n {
        case Acknowledgement(_) =>
          if !env.isSenderLimited {
            SimNotifyInPlace(n, env);
            path.cwin := cwin;
          }
        case RttMeasurement(hystart) =>
          if algState == SlowStart && ssthresh == UINT64_MAX {
            if env.rttMin > TARGET_RENO_RTT {
              var minWin := LongDelayWindow(env.rttMin);
              if minWin > cwin {
                cwin := minWin;
                path.cwin := minWin;
              }
            }
            if hystart {
              ssthresh := cwin;
              algState := CongestionAvoidance;
              path.cwin := cwin;
              path.isSsthreshInitialized := true;
            }
          }
        case BwMeasurement =>
          if algState == SlowStart && ssthresh == UINT64_MAX {
            var minWin := env.maxBandwidth * env.smoothedRtt / 1000000 / 2;
            if cwin < minWin {
              cwin := minWin;
              path.cwin := minWin;
            }
          }
        case CwinBlocked =>
        case _ =>
          SimNotifyInPlace(n, env);
          path.cwin := cwin;
      }
    }
  }
}
