/** The cubic congestion window of picoquic/cubic.c (section 4.1 of RFC 8312), in exact reals. */
module Cubic {
  import opened CcCommon

  const SSTHRESH_UNKNOWN: nat := 0xFFFF_FFFF_FFFF_FFFF

  function Cube(y: real): real {
    y * y * y
  }

  // ----- The cube root

  /** One Newton step, cleared of its division. */
  lemma NewtonCube(x: real, y: real, y': real)
    requires y > 0.0 && y' == y + (x - Cube(y)) / (3.0 * (y * y))
    ensures Cube(y') * (27.0 * (Cube(y) * Cube(y))) == Cube(2.0 * Cube(y) + x)
  {
    var t, u := 3.0 * (y * y), Cube(y);
    assert t > 0.0;
    assert y' * t == 2.0 * u + x by {
      Quotient(x - u, t);
      assert y' * t == y * t + (x - u) / t * t;
      assert y * t == 3.0 * u;
    }
    CubeProduct(y', t);
    SixthPower(y);
  }

  lemma Quotient(a: real, t: real)
    requires t != 0.0
    ensures a / t * t == a
  {
  }

  lemma CubeProduct(a: real, b: real)
    ensures Cube(a * b) == Cube(a) * Cube(b)
  {
    var p := a * a;
    var q := b * b;
    assert a * b * (a * b) == p * q;
    assert p * q * (a * b) == p * a * (q * b);
  }

  lemma SixthPower(y: real)
    ensures Cube(3.0 * (y * y)) == 27.0 * (Cube(y) * Cube(y))
  {
    var s := y * y;
    CubeProduct(3.0, s);
    assert Cube(s) == s * s * s;
    assert Cube(y) * Cube(y) == s * y * (s * y);
    assert s * y * (s * y) == s * s * (y * y);
  }

  lemma Cancel(a: real, b: real, t: real)
    requires t > 0.0 && a * t <= b * t
    ensures a <= b
  {
  }

  /** The cube of 2 u + x. */
  function Numerator(u: real, x: real): real {
    8.0 * (u * u * u) + 12.0 * (u * u * x) + 6.0 * (u * x * x) + x * x * x
  }

  function Square(u: real): real {
    u * u
  }

  function Denominator(u: real): real {
    27.0 * Square(u)
  }

  lemma CubeOfSum(u: real, x: real)
    ensures Cube(2.0 * u + x) == Numerator(u, x)
  {
  }

  lemma CubePositive(y: real)
    requires y > 0.0
    ensures Cube(y) > 0.0
  {
    assert y * y > 0.0;
  }

  /** One Newton step for the root of x takes y to a number whose cube is Numerator / Denominator. */
  predicate NewtonStep(x: real, y: real, y': real)
    requires y > 0.0
  {
    y' == y + (x - Cube(y)) / (3.0 * (y * y))
  }

  lemma NewtonFraction(x: real, y: real, y': real)
    requires y > 0.0 && NewtonStep(x, y, y')
    ensures Denominator(Cube(y)) > 0.0
    ensures Cube(y') * Denominator(Cube(y)) == Numerator(Cube(y), x)
  {
    hide Cube, Numerator;
    CubePositive(y);
    DenominatorPositive(Cube(y));
    NewtonCube(x, y, y');
    CubeOfSum(Cube(y), x);
  }

  lemma DenominatorPositive(u: real)
    requires u > 0.0
    ensures Denominator(u) > 0.0
  {
    hide Square;
    SquarePositive(u);
  }

  lemma SquarePositive(u: real)
    requires u > 0.0
    ensures Square(u) > 0.0
  {
    ProductPositive(u, u, Square(u));
  }

  lemma ProductPositive(a: real, b: real, c: real)
    requires a > 0.0 && b > 0.0 && c == a * b
    ensures c > 0.0
  {
  }

  /** The estimate is not below the root. */
  lemma Above(u: real, x: real)
    requires u > 0.0 && x > 0.0
    ensures x * Denominator(u) <= Numerator(u, x)
  {
    var d := u - x;
    assert d * d >= 0.0;
    assert d * d * (8.0 * u + x) >= 0.0;
    assert d * d == u * u - 2.0 * (u * x) + x * x;
    assert d * d * (8.0 * u + x)
        == 8.0 * (u * u * u) - 15.0 * (u * u * x) + 6.0 * (u * x * x) + x * x * x;
  }

  predicate Bounded(u: real, x: real, b: real) {
    Numerator(u, x) <= b * x * Denominator(u)
  }

  /** The product of three factors that are not negative when u is between x and a x. */
  lemma Product(u: real, x: real, a: real, c: real)
    requires x > 0.0 && x <= u <= a * x && c >= 0.0
    ensures 0.0 <= -8.0 * (u * u * u) + (8.0 * (1.0 + a) - c) * (u * u * x)
                   + (c * (1.0 + a) - 8.0 * a) * (u * x * x) - c * a * (x * x * x)
  {
    var f := (u - x) * (a * x - u);
    assert f >= 0.0;
    assert f == -(u * u) + (1.0 + a) * (u * x) - a * (x * x);
    assert f * (8.0 * u + c * x) >= 0.0 by {
      assert c * x >= 0.0;
    }
    Expanded(u * u, u * x, x * x, 1.0 + a, a, u, c * x);
    assert u * u * (c * x) == c * (u * u * x);
    assert u * x * (c * x) == c * (u * x * x);
    assert x * x * (c * x) == c * (x * x * x);
    assert x * x * u == u * x * x && u * x * u == u * u * x;
    Regroup(u * u * x, u * x * x, x * x * x, a, c);
  }

  lemma Expanded(p: real, q: real, r: real, k: real, a: real, u: real, w: real)
    ensures (-p + k * q - a * r) * (8.0 * u + w)
         == -8.0 * (p * u) + k * (8.0 * (q * u)) - a * (8.0 * (r * u)) - p * w + k * (q * w) - a * (r * w)
  {
  }

  lemma Regroup(b: real, d: real, e: real, a: real, c: real)
    ensures (1.0 + a) * (8.0 * b) - a * (8.0 * d) - c * b + (1.0 + a) * (c * d) - a * (c * e)
         == (8.0 * (1.0 + a) - c) * b + (c * (1.0 + a) - 8.0 * a) * d - c * a * e
  {
  }

  lemma Scaled(u: real, x: real, a: real)
    requires x > 0.0 && u <= a * x
    ensures u * x * x <= a * (x * x * x) && x * x * x > 0.0
  {
    assert x * x > 0.0;
    assert (a * x - u) * (x * x) >= 0.0;
  }

  lemma Threshold(u: real, x: real, b: real, p: real, q: real, r: real, e: real)
    requires p == u * u * u && q == u * u * x && r == u * x * x && e == x * x * x
    requires 8.0 * p + 12.0 * q + 6.0 * r + e <= 27.0 * b * q
    ensures Bounded(u, x, b)
  {
    assert b * x * (27.0 * (u * u)) == 27.0 * b * (u * u * x);
  }

  /** From within a factor 8 of x, a step leads to within 2.85, then 1.3715, then 1.04. */
  lemma Below1(u: real, x: real)
    requires x > 0.0 && x <= u <= 8.0 * x
    ensures Bounded(u, x, 2.85)
  {
    hide Bounded;
    Product(u, x, 8.0, 7.05);
    Scaled(u, x, 8.0);
    Linear1(u * u * u, u * u * x, u * x * x, x * x * x);
    Threshold(u, x, 2.85, u * u * u, u * u * x, u * x * x, x * x * x);
  }

  lemma Linear1(p: real, q: real, r: real, e: real)
    requires 0.0 <= -8.0 * p + (8.0 * (1.0 + 8.0) - 7.05) * q + (7.05 * (1.0 + 8.0) - 8.0 * 8.0) * r - 7.05 * 8.0 * e
    requires r <= 8.0 * e && e > 0.0
    ensures 8.0 * p + 12.0 * q + 6.0 * r + e <= 27.0 * 2.85 * q
  {
  }

  lemma Below2(u: real, x: real)
    requires x > 0.0 && x <= u <= 2.85 * x
    ensures Bounded(u, x, 1.3715)
  {
    hide Bounded;
    Product(u, x, 2.85, 5.7695);
    Scaled(u, x, 2.85);
    Linear2(u * u * u, u * u * x, u * x * x, x * x * x);
    Threshold(u, x, 1.3715, u * u * u, u * u * x, u * x * x, x * x * x);
  }

  lemma Linear2(p: real, q: real, r: real, e: real)
    requires 0.0 <= -8.0 * p + (8.0 * (1.0 + 2.85) - 5.7695) * q
                    + (5.7695 * (1.0 + 2.85) - 8.0 * 2.85) * r - 5.7695 * 2.85 * e
    requires r <= 2.85 * e && e > 0.0
    ensures 8.0 * p + 12.0 * q + 6.0 * r + e <= 27.0 * 1.3715 * q
  {
  }

  lemma Below3(u: real, x: real)
    requires x > 0.0 && x <= u <= 1.3715 * x
    ensures Bounded(u, x, 1.04)
  {
    hide Bounded;
    Product(u, x, 1.3715, 2.892);
    Scaled(u, x, 1.3715);
    Linear3(u * u * u, u * u * x, u * x * x, x * x * x);
    Threshold(u, x, 1.04, u * u * u, u * u * x, u * x * x, x * x * x);
  }

  lemma Linear3(p: real, q: real, r: real, e: real)
    requires 0.0 <= -8.0 * p + (8.0 * (1.0 + 1.3715) - 2.892) * q
                    + (2.892 * (1.0 + 1.3715) - 8.0 * 1.3715) * r - 2.892 * 1.3715 * e
    requires r <= 1.3715 * e && e > 0.0
    ensures 8.0 * p + 12.0 * q + 6.0 * r + e <= 27.0 * 1.04 * q
  {
  }

  /** `y` is at most a factor `a` above the cube root, in the cube. */
  predicate Near(x: real, y: real, a: real) {
    y > 0.0 && x <= Cube(y) <= a * x
  }

  lemma NewtonContracts(x: real, y: real, y': real)
    requires x > 0.0 && y > 0.0 && x <= Cube(y) && NewtonStep(x, y, y')
    ensures Near(x, y, 8.0) ==> Near(x, y', 2.85)
    ensures Near(x, y, 2.85) ==> Near(x, y', 1.3715)
    ensures Near(x, y, 1.3715) ==> Near(x, y', 1.04)
  {
    hide Cube, Numerator, Denominator, Bounded;
    var u := Cube(y);
    NewtonFraction(x, y, y');
    Above(u, x);
    Cancel(x, Cube(y'), Denominator(u));
    RootPositive(x, y');
    if u <= 8.0 * x {
      Below1(u, x);
    }
    if u <= 2.85 * x {
      Below2(u, x);
    }
    if u <= 1.3715 * x {
      Below3(u, x);
    }
    NewtonBounded(x, y, y', 2.85);
    NewtonBounded(x, y, y', 1.3715);
    NewtonBounded(x, y, y', 1.04);
  }

  lemma NewtonBounded(x: real, y: real, y': real, b: real)
    requires x > 0.0 && y > 0.0 && NewtonStep(x, y, y')
    ensures Bounded(Cube(y), x, b) ==> Cube(y') <= b * x
  {
    hide Cube, Numerator, Denominator, NewtonStep;
    NewtonFraction(x, y, y');
    if Bounded(Cube(y), x, b) {
      Cancel(Cube(y'), b * x, Denominator(Cube(y)));
    }
  }

  lemma RootPositive(x: real, y: real)
    requires 0.0 < x <= Cube(y)
    ensures y > 0.0
  {
    hide Cube;
    if y <= 0.0 {
      CubeNotPositive(y);
    }
  }

  lemma CubeNotPositive(y: real)
    requires y <= 0.0
    ensures Cube(y) <= 0.0
  {
    assert y * y >= 0.0;
  }

  lemma CubeScaled(y: real)
    ensures Cube(y / 2.0) == Cube(y) / 8.0 && Cube(y * 2.0) == Cube(y) * 8.0
  {
  }

  /** `picoquic_cubic_root`: the two loops bring y within a factor 8, and three Newton steps within 1.04. */
  method CubicRoot(x: real) returns (y: real)
    requires x > 0.0
    ensures Near(x, y, 1.04)
  {
    hide NewtonStep, Cube;
    var v := 1.0;
    y := 1.0;
    assert Cube(1.0) == 1.0 by {
      CubeOfOne();
    }
    while v > x * 8.0
      invariant 0.0 < v <= 1.0 && y > 0.0 && v == Cube(y)
      invariant v == 1.0 || v > x
      decreases 1.0 / (8.0 * x) - 1.0 / v
    {
      Shrinks(x, v);
      CubeScaled(y);
      v := v / 8.0;
      y := y / 2.0;
    }
    while v < x
      invariant 0.0 < v <= 8.0 * x && y > 0.0 && v == Cube(y)
      invariant v < x ==> v >= 1.0
      decreases x - v
    {
      CubeScaled(y);
      v := v * 8.0;
      y := y * 2.0;
    }
    for i := 0 to 3
      invariant Near(x, y, if i == 0 then 8.0 else if i == 1 then 2.85 else if i == 2 then 1.3715 else 1.04)
    {
      SquarePositive(y);
      var y2 := y * y;
      var y3 := y2 * y;
      var y' := y + (x - y3) / (3.0 * y2);
      Stepped(x, y, y');
      NewtonContracts(x, y, y');
      y := y';
    }
  }

  lemma CubeOfOne()
    ensures Cube(1.0) == 1.0
  {
  }

  lemma Stepped(x: real, y: real, y': real)
    requires y > 0.0 && y' == y + (x - y * y * y) / (3.0 * (y * y))
    ensures NewtonStep(x, y, y')
  {
  }

  lemma Shrinks(x: real, v: real)
    requires x > 0.0 && 0.0 < v <= 1.0 && v > x * 8.0
    ensures 1.0 / (8.0 * x) - 1.0 / v >= 0.0
    ensures 1.0 / (v / 8.0) >= 1.0 / v + 1.0
  {
    InverseOrder(8.0 * x, v);
    InverseOrder(v, 1.0);
    Reciprocal(v, 1.0 / v);
    Reciprocal(v / 8.0, 8.0 * (1.0 / v));
  }

  lemma InverseOrder(a: real, b: real)
    requires 0.0 < a <= b
    ensures 1.0 / b <= 1.0 / a
  {
    var p, q := 1.0 / a, 1.0 / b;
    Reciprocal(a, p);
    Reciprocal(b, q);
    assert q > 0.0;
    assert q * (b - a) >= 0.0;
    Cancel(q, p, a);
  }

  lemma Reciprocal(v: real, w: real)
    requires v > 0.0
    ensures v * w == 1.0 ==> w == 1.0 / v
    ensures v * (1.0 / v) == 1.0
  {
  }

  // ----- The curve

  const BETA: real := 0.875
  const C: real := 0.4

  /** The window in packets, `t` seconds into the epoch. */
  function Curve(k: real, wMax: real, t: real): real {
    C * Cube(t - k) + wMax
  }

  function Seconds(now: nat, start: nat): real
    requires start <= now
  {
    (now - start) as real / 1000000.0
  }

  /** `K` as it is chosen at the start of an epoch. */
  predicate IsK(k: real, wMax: real) {
    Near(wMax * (1.0 - BETA) / C, k, 1.04)
  }

  /** The epoch starts at 0.87 to 0.875 of the last maximum. */
  lemma CurveStart(k: real, wMax: real)
    requires wMax > 0.0 && IsK(k, wMax)
    ensures 0.87 * wMax <= Curve(k, wMax, 0.0) <= BETA * wMax
  {
    hide Cube;
    CubeNegated(k);
  }

  lemma CubeNegated(y: real)
    ensures Cube(0.0 - y) == -Cube(y)
  {
  }

  lemma CurveRises(k: real, wMax: real, t: real, t': real)
    requires t <= t'
    ensures Curve(k, wMax, t) <= Curve(k, wMax, t')
  {
    hide Cube;
    CubeMonotone(t - k, t' - k);
  }

  lemma CubeMonotone(a: real, b: real)
    requires a <= b
    ensures Cube(a) <= Cube(b)
  {
    SquareNotNegative(a + b);
    SquareNotNegative(a);
    SquareNotNegative(b);
    var q := a * a + a * b + b * b;
    assert 2.0 * q == (a + b) * (a + b) + a * a + b * b;
    ProductNotNegative(b - a, q);
    assert (b - a) * q == b * b * b - a * a * a;
  }

  lemma SquareNotNegative(a: real)
    ensures a * a >= 0.0
  {
  }

  lemma ProductNotNegative(a: real, b: real)
    requires a >= 0.0 && b >= 0.0
    ensures a * b >= 0.0
  {
  }

  lemma CurvePeak(k: real, wMax: real)
    ensures Curve(k, wMax, k) == wMax
  {
  }

  /** Over a whole epoch: the window rises from 0.87 of the last maximum, and passes the maximum after `k` seconds. */
  lemma CurveShape(k: real, wMax: real, t: real)
    requires wMax > 0.0 && IsK(k, wMax) && t >= 0.0
    ensures 0.87 * wMax <= Curve(k, wMax, t)
    ensures t <= k ==> Curve(k, wMax, t) <= wMax
    ensures t >= k ==> Curve(k, wMax, t) >= wMax
  {
    hide Curve, IsK;
    CurveStart(k, wMax);
    CurveRises(k, wMax, 0.0, t);
    CurvePeak(k, wMax);
    if t <= k {
      CurveRises(k, wMax, t, k);
    } else {
      CurveRises(k, wMax, k, t);
    }
  }

  // ----- The state

  datatype AlgState = SlowStart | Recovery | CongestionAvoidance

  class Path {
    var cwin: nat
    var sendMtu: nat
    var isSsthreshInitialized: bool
  }

  class CubicState {
    var algState: AlgState
    var recoverySequence: nat
    var startOfEpoch: nat
    var previousStartOfEpoch: nat
    var k: real
    var wMax: real
    var wLastMax: real
    var wReno: real
    var ssthresh: nat

    /** `picoquic_cubic_enter_avoidance` */
    method EnterAvoidance(now: nat)
      requires wMax > 0.0
      modifies this`k, this`algState, this`startOfEpoch, this`previousStartOfEpoch
      ensures IsK(k, wMax) && algState == CongestionAvoidance
      ensures startOfEpoch == previousStartOfEpoch == now
    {
      hide Near;
      Share(wMax);
      k := CubicRoot(wMax * (1.0 - BETA) / C);
      algState := CongestionAvoidance;
      startOfEpoch := now;
      previousStartOfEpoch := startOfEpoch;
    }

    /** `picoquic_cubic_W_cubic` */
    function WCubic(now: nat): real
      requires startOfEpoch <= now
      reads this
    {
      Curve(k, wMax, Seconds(now, startOfEpoch))
    }

    /** `picoquic_cubic_enter_recovery`: the window drops to at most 7/8, and not below half; it is not above the new
        threshold, and not far below it. */
    method EnterRecovery(path: Path, timeout: bool, now: nat, sequence: nat)
      requires path.cwin > 0 && path.sendMtu > 0
      modifies this, path
      ensures var w := old(path.cwin) as real / old(path.sendMtu) as real;
              wLastMax == w && wMax == if w < old(wLastMax) then w * BETA else w
      ensures recoverySequence == sequence && path.sendMtu == old(path.sendMtu)
      ensures var threshold := Bytes(wMax * BETA, path.sendMtu).Floor;
              if threshold < CWIN_MINIMUM then
                && algState == SlowStart && ssthresh == SSTHRESH_UNKNOWN && path.cwin == CWIN_MINIMUM
                && startOfEpoch == now && previousStartOfEpoch == old(startOfEpoch)
              else
                && ssthresh == threshold
                && if timeout then
                     && algState == SlowStart && path.cwin == CWIN_MINIMUM
                     && startOfEpoch == now && previousStartOfEpoch == old(startOfEpoch)
                   else
                     && algState == CongestionAvoidance && IsK(k, wMax) && startOfEpoch == previousStartOfEpoch == now
                     && old(path.cwin) / 2 <= path.cwin <= ssthresh
                     && (0.87 * Bytes(wMax, path.sendMtu)).Floor <= path.cwin
                     && 8 * path.cwin <= 7 * old(path.cwin)
      ensures algState == CongestionAvoidance ==>
        path.cwin == Larger(CubicBytes(k, wMax, 0.0, path.sendMtu).Floor, old(path.cwin) / 2)
    {
      hide IsK, Curve, Bytes;
      recoverySequence := sequence;
      wMax := path.cwin as real / path.sendMtu as real;
      InPackets(path.cwin, path.sendMtu);
      ghost var w0 := wMax;
      if wMax < wLastMax {
        wLastMax := wMax;
        wMax := wMax * BETA;
      } else {
        wLastMax := wMax;
      }
      Scaling(w0, wMax, path.sendMtu);
      ssthresh := Bytes(wMax * BETA, path.sendMtu).Floor;
      if ssthresh < CWIN_MINIMUM {
        algState := SlowStart;
        ssthresh := SSTHRESH_UNKNOWN;
        path.isSsthreshInitialized := false;
        previousStartOfEpoch := startOfEpoch;
        startOfEpoch := now;
        wReno := CWIN_MINIMUM as real;
        path.cwin := CWIN_MINIMUM;
      } else if timeout {
        path.cwin := CWIN_MINIMUM;
        previousStartOfEpoch := startOfEpoch;
        startOfEpoch := now;
        algState := SlowStart;
      } else {
        EnterAvoidance(now);
        InitialWindow(path);
      }
    }

    /** The window at the start of an epoch is the larger one of Cubic and Reno. */
    method InitialWindow(path: Path)
      requires path.sendMtu > 0 && wMax > 0.0 && IsK(k, wMax)
      requires ssthresh == Bytes(wMax * BETA, path.sendMtu).Floor
      requires BETA * path.cwin as real <= Bytes(wMax, path.sendMtu) <= path.cwin as real
      modifies this`wReno, path`cwin
      ensures path.cwin == Larger(CubicBytes(k, wMax, 0.0, path.sendMtu).Floor, old(path.cwin) / 2)
      ensures old(path.cwin) / 2 <= path.cwin <= ssthresh
      ensures (0.87 * Bytes(wMax, path.sendMtu)).Floor <= path.cwin
      ensures 8 * path.cwin <= 7 * old(path.cwin)
    {
      hide IsK, Curve, Bytes;
      CurveStart(k, wMax);
      NoTime(startOfEpoch);
      var w := WCubic(startOfEpoch);
      CubicBytesIs(k, wMax, 0.0, path.sendMtu);
      Between(wMax, w, path.sendMtu);
      var winCubic: nat := Bytes(w, path.sendMtu).Floor;
      wReno := path.cwin as real / 2.0;
      path.cwin := if winCubic as real > wReno then winCubic else wReno.Floor;
    }

    /** `picoquic_cubic_correct_spurious`: the previous epoch goes on, and the window is where its curve is now. */
    method CorrectSpurious(path: Path, now: nat)
      requires path.sendMtu > 0 && wLastMax > 0.0 && previousStartOfEpoch <= now
      modifies this, path`cwin
      ensures old(ssthresh) == SSTHRESH_UNKNOWN ==> path.cwin == old(path.cwin) && unchanged(this)
      ensures old(ssthresh) != SSTHRESH_UNKNOWN ==>
        && wMax == wLastMax == old(wLastMax) && IsK(k, wMax) && algState == CongestionAvoidance
        && startOfEpoch == previousStartOfEpoch == old(previousStartOfEpoch)
        && path.cwin == CubicBytes(k, wMax, (now - startOfEpoch) as real / 1000000.0, path.sendMtu).Floor
        && ssthresh == Bytes(wMax * BETA, path.sendMtu).Floor
        && (0.87 * Bytes(wMax, path.sendMtu)).Floor <= path.cwin
        && (Seconds(now, startOfEpoch) <= k ==> path.cwin <= Bytes(wMax, path.sendMtu).Floor)
    {
      hide IsK, Curve, Bytes;
      if ssthresh != SSTHRESH_UNKNOWN {
        wMax := wLastMax;
        EnterAvoidance(previousStartOfEpoch);
        var w := WCubic(now);
        CubicBytesIs(k, wMax, Seconds(now, startOfEpoch), path.sendMtu);
        CurveShape(k, wMax, Seconds(now, startOfEpoch));
        Scaling(wMax, wMax, path.sendMtu);
        BytesMonotone(0.87 * wMax, w, path.sendMtu);
        BytesMonotone(w, wMax, path.sendMtu);
        wReno := Bytes(w, path.sendMtu);
        ssthresh := Bytes(wMax * BETA, path.sendMtu).Floor;
        path.cwin := wReno.Floor;
      }
    }
  }

  /** The curve in bytes: 0.4 (t - k)^3 packets from the maximum */
  function CubicBytes(k: real, wMax: real, t: real, mtu: nat): real {
    (0.4 * ((t - k) * (t - k) * (t - k)) + wMax) * mtu as real
  }

  function Larger(a: int, b: int): (r: int)
    ensures r >= a && r >= b && (r == a || r == b)
  {
    if a > b then a else b
  }

  lemma CubicBytesIs(k: real, wMax: real, t: real, mtu: nat)
    ensures Bytes(Curve(k, wMax, t), mtu) == CubicBytes(k, wMax, t, mtu)
  {
  }

  /** The constants: the cube of `k` is the eighth of the maximum that is lost, divided by 0.4, or up to 4 % more. */
  lemma KCubed(k: real, wMax: real)
    requires wMax > 0.0
    ensures BETA == 0.875 && CWIN_MINIMUM == 3072
    ensures IsK(k, wMax) <==> k > 0.0 && 0.3125 * wMax <= k * k * k <= 0.325 * wMax
  {
  }

  /** A window of `w` packets in bytes */
  function Bytes(w: real, mtu: nat): real {
    w * mtu as real
  }

  lemma Share(wMax: real)
    requires wMax > 0.0
    ensures wMax * (1.0 - BETA) / C > 0.0
  {
  }

  lemma NoTime(now: nat)
    ensures Seconds(now, now) == 0.0
  {
  }

  lemma InPackets(cwin: nat, mtu: nat)
    requires cwin > 0 && mtu > 0
    ensures cwin as real / mtu as real > 0.0 && Bytes(cwin as real / mtu as real, mtu) == cwin as real
  {
    Quotient(cwin as real, mtu as real);
  }

  /** In bytes, the maximum is the old window or 7/8 of it. */
  lemma Scaling(w: real, wMax: real, mtu: nat)
    requires mtu > 0 && w > 0.0 && (wMax == w || wMax == w * BETA)
    ensures wMax > 0.0 && Bytes(wMax, mtu) > 0.0
    ensures BETA * Bytes(w, mtu) <= Bytes(wMax, mtu) <= Bytes(w, mtu)
    ensures Bytes(wMax * BETA, mtu) == BETA * Bytes(wMax, mtu)
    ensures Bytes(0.87 * wMax, mtu) == 0.87 * Bytes(wMax, mtu)
  {
    ProductPositive(w, mtu as real, Bytes(w, mtu));
    ProductPositive(wMax, mtu as real, Bytes(wMax, mtu));
    assert Bytes(w * BETA, mtu) == BETA * Bytes(w, mtu);
    assert Bytes(wMax * BETA, mtu) == BETA * Bytes(wMax, mtu);
  }

  lemma BytesMonotone(w: real, w': real, mtu: nat)
    ensures w <= w' ==> Bytes(w, mtu) <= Bytes(w', mtu)
  {
    if w <= w' {
      ProductNotNegative(w' - w, mtu as real);
    }
  }

  lemma Between(wMax: real, w: real, mtu: nat)
    requires mtu > 0 && wMax > 0.0 && 0.87 * wMax <= w <= BETA * wMax
    ensures 0.87 * Bytes(wMax, mtu) <= Bytes(w, mtu) <= BETA * Bytes(wMax, mtu)
    ensures Bytes(wMax * BETA, mtu) == BETA * Bytes(wMax, mtu)
  {
    hide Bytes;
    Scaling(wMax, wMax, mtu);
    BytesMonotone(0.87 * wMax, w, mtu);
    BytesMonotone(w, wMax * BETA, mtu);
  }
}
