/** The standstill reserve under the safety gate: exactly when a tick keeps it, and how far a
    run of any length can eat into it. */
module SafetyReserve {
  import opened SafetyGate

  // ---------------------------------------------------------------- one tick

  lemma MoreStop(v: real, d: real, e: real)
    requires v >= 0.0 && d >= e > 0.0
    ensures -0.5 * v * v / -d <= -0.5 * v * v / -e
  {
    var t, u := -0.5 * v * v / -d, -0.5 * v * v / -e;
    StopDistance(v, d);
    StopDistance(v, e);
    Product(v, v);
    NotNegative(2.0 * d, t);
    Product(d - e, 2.0 * t);
    assert 2.0 * e * (u - t) == 2.0 * e * u - 2.0 * e * t;
    NotNegative(2.0 * e, u - t);
  }

  lemma RollMean(v: real, a: real, dt: real)
    requires v + a * dt >= 0.0
    ensures Travel(v, a, dt) == 0.5 * (v + After(v, a, dt)) * dt
  {
    assert 0.5 * (v + (v + a * dt)) * dt == v * dt + 0.5 * a * dt * dt;
  }

  lemma MeanGrows(x: real, y: real, dt: real)
    requires x <= y && dt > 0.0
    ensures 0.5 * x * dt <= 0.5 * y * dt
  {
    Product(0.5 * (y - x), dt);
  }

  lemma Slowing(v: real, a: real, dt: real)
    requires v >= 0.0 && dt > 0.0 && v + a * dt < 0.0
    ensures a < 0.0 && Travel(v, a, dt) == -0.5 * v * v / a
  {
    if a >= 0.0 {
      Product(a, dt);
    }
  }

  lemma AfterGrows(v: real, a: real, more: real, dt: real)
    requires dt > 0.0 && a <= more
    ensures After(v, a, dt) <= After(v, more, dt)
    ensures v + more * dt < 0.0 ==> v + a * dt < 0.0
  {
    TimesLess(a, more, dt);
  }

  /** Braking harder covers less. */
  lemma TravelGrows(v: real, a: real, more: real, dt: real)
    requires v >= 0.0 && dt > 0.0 && a <= more
    ensures Travel(v, a, dt) <= Travel(v, more, dt)
  {
    hide Travel, After;
    AfterGrows(v, a, more, dt);
    if v + more * dt < 0.0 {
      Slowing(v, a, dt);
      Slowing(v, more, dt);
      MoreStop(v, -a, -more);
    } else {
      TravelAtMost(v, a, dt);
      RollMean(v, more, dt);
      MeanGrows(v + After(v, a, dt), v + After(v, more, dt), dt);
    }
  }

  /** The reserve survives whatever a leader bound to b does if and only if it survives full
      braking. */
  lemma ReserveKeptIff(p: Pair, a: real, b: real, dt: real)
    requires p.vLead >= 0.0 && dt > 0.0
    ensures (forall aLead | aLead >= -b :: PairTick(p, a, aLead, dt).gap >= STANDSTILL)
       <==> Travel(p.v, a, dt) <= p.gap - STANDSTILL + Travel(p.vLead, -b, dt)
  {
    hide Travel, After;
    forall aLead | aLead >= -b ensures PairTick(p, a, aLead, dt).gap >= PairTick(p, a, -b, dt).gap {
      TravelGrows(p.vLead, -b, aLead, dt);
    }
    assert PairTick(p, a, -b, dt).gap == p.gap + Travel(p.vLead, -b, dt) - Travel(p.v, a, dt);
  }

  /** What the leader covers at full braking, in speed-square terms. */
  lemma LeaderBrakes(v: real, b: real, dt: real)
    requires v >= 0.0 && b > 0.0 && dt > 0.0
    ensures Shed(b, Travel(v, -b, dt)) == Sq(v) - Sq(Max0(v - Brake(b, dt)))
  {
    hide Sq, Span;
    var c := Brake(b, dt);
    MinusBrake(b, dt);
    SqFacts(v);
    if v < c {
      StopDistance(v, b);
      SquareIs(v);
    } else {
      RollSheds(v, -b, b, dt);
      SqLess(v, c);
      assert v + After(v, -b, dt) == 2.0 * v - c;
    }
  }

  lemma SquareIs(v: real)
    ensures Sq(v) == v * v
  {
  }

  lemma ShedOrder(b: real, x: real, y: real)
    requires b > 0.0
    ensures x <= y <==> Shed(b, x) <= Shed(b, y)
  {
    if x < y {
      PositiveProduct(2.0 * b, y - x);
    } else {
      Product(2.0 * b, x - y);
    }
    if x > y {
      PositiveProduct(2.0 * b, x - y);
    }
  }

  lemma SpanDifference(c: real, x: real, y: real)
    ensures Span(c, x - y) == Span(c, x) - Span(c, y) && Span(c, x + y) == Span(c, x) + Span(c, y)
    ensures Span(c, c) == Sq(c) && Span(c, 2.0 * x) == 2.0 * Span(c, x)
  {
  }

  /** Over everything a gated follower and a leader bound to b may do, that is one inequality
      in their speeds and the root, which can be checked before the tick. */
  lemma GateKeepsReserveIff(p: Pair, b: real, dt: real, s: real)
    requires b > 0.0 && dt > 0.0 && Safe(p, b, dt) && Root(s, p.vLead, Room(p.gap), b, dt) && p.gap >= STANDSTILL
    ensures (forall a, aLead | a <= Gate(p.v, b, dt, s) && aLead >= -b :: PairTick(p, a, aLead, dt).gap >= STANDSTILL)
       <==> Span(Brake(b, dt), p.v + s) + Sq(Max0(p.vLead - Brake(b, dt))) <= Sq(s)
  {
    hide Travel, Gate, PairTick, Shed, Sq, Span, Brake, Max0;
    var g := Gate(p.v, b, dt, s);
    AtTheGate(p, b, dt, s);
    ReserveKeptIff(p, g, b, dt);
    forall a, aLead | a <= g && aLead >= -b ensures PairTick(p, a, aLead, dt).gap >= PairTick(p, g, aLead, dt).gap {
      GapShrinks(p, a, g, aLead, dt);
    }
    if forall a, aLead | a <= g && aLead >= -b :: PairTick(p, a, aLead, dt).gap >= STANDSTILL {
      assert forall aLead | aLead >= -b :: PairTick(p, g, aLead, dt).gap >= STANDSTILL;
    }
  }

  lemma GapShrinks(p: Pair, a: real, more: real, aLead: real, dt: real)
    requires p.v >= 0.0 && dt > 0.0 && a <= more
    ensures PairTick(p, a, aLead, dt).gap >= PairTick(p, more, aLead, dt).gap
  {
    hide Travel, After;
    TravelGrows(p.v, a, more, dt);
  }

  lemma AtTheGate(p: Pair, b: real, dt: real, s: real)
    requires b > 0.0 && dt > 0.0 && Safe(p, b, dt) && Root(s, p.vLead, Room(p.gap), b, dt) && p.gap >= STANDSTILL
    ensures Travel(p.v, Gate(p.v, b, dt, s), dt) <= p.gap - STANDSTILL + Travel(p.vLead, -b, dt)
       <==> Span(Brake(b, dt), p.v + s) + Sq(Max0(p.vLead - Brake(b, dt))) <= Sq(s)
  {
    hide Travel, Gate, PairTick, Shed, Sq, Span, Brake, Max0;
    var a, c, room := Gate(p.v, b, dt, s), Brake(b, dt), p.gap - STANDSTILL;
    var t, tLead := Travel(p.v, a, dt), Travel(p.vLead, -b, dt);
    assert Room(p.gap) == room by { RoomIs(p.gap); }
    ShedOrder(b, t, room + tLead);
    ShedSum(b, room, tLead, 0.0);
    NothingShed(b);
    LeaderBrakes(p.vLead, b, dt);
    RootBounds(p, b, dt, s);
    GateWithinReach(p, b, dt, s);
    RollSheds(p.v, a, b, dt);
    SpanDifference(c, p.v + s, c);
    assert p.v + After(p.v, a, dt) == p.v + s - c;
  }

  lemma RoomIs(gap: real)
    requires gap >= STANDSTILL
    ensures Room(gap) == gap - STANDSTILL
  {
  }

  /** In particular it is kept whenever the gate does not ask the follower to slow down. */
  lemma KeptUnlessBraking(p: Pair, b: real, dt: real, s: real)
    requires b > 0.0 && dt > 0.0 && Safe(p, b, dt) && Root(s, p.vLead, Room(p.gap), b, dt) && p.gap >= STANDSTILL
    requires Gate(p.v, b, dt, s) >= 0.0
    ensures forall a, aLead | a <= Gate(p.v, b, dt, s) && aLead >= -b :: PairTick(p, a, aLead, dt).gap >= STANDSTILL
  {
    hide Travel, Gate, PairTick, Shed, Sq, Span, Brake, Root, Safe;
    var c := Brake(b, dt);
    GateKeepsReserveIff(p, b, dt, s);
    RootBounds(p, b, dt, s);
    GateWithinReach(p, b, dt, s);
    Product(Gate(p.v, b, dt, s), dt);
    BrakePositive(b, dt);
    SpanGrows(c, p.v + s, 2.0 * s - c);
    SqLess(s, c);
    SqGrows(Max0(p.vLead - c), s - c);
  }

  // ---------------------------------------------------------------- the toll

  /** What the reserve may be charged for one tick of a leader braking from speed x. */
  function Fee(c: real, x: real): real
    requires x > 0.0
  {
    c * c * c / x
  }

  lemma StepsLeft(c: real, x: real)
    requires c > 0.0 && x >= c
    ensures 0 <= ((x - c) / c).Floor < (x / c).Floor
  {
    var q, r := (x - c) / c, x / c;
    DivTimes(x - c, c);
    DivTimes(x, c);
    assert c * (q + 1.0 - r) == q * c + c - r * c;
    NotNegative(c, q + 1.0 - r);
    assert c * (r - 1.0 - q) == r * c - c - q * c;
    NotNegative(c, r - 1.0 - q);
    DivAtLeast(x - c, 0.0, c);
  }

  /** What it may be charged while a leader brakes from speed x to a stop. */
  ghost function Toll(c: real, x: real): real
    requires c > 0.0 && x >= 0.0
    decreases if x < c then 0 else 1 + (x / c).Floor
  {
    if x < c then Span(c, x)
    else
      StepsLeft(c, x);
      Toll(c, x - c) + Fee(c, x)
  }

  lemma FeeTimes(c: real, x: real)
    requires x > 0.0
    ensures Fee(c, x) * x == c * c * c
  {
  }

  lemma CubePositive(c: real)
    requires c > 0.0
    ensures c * c > 0.0 && c * c * c > 0.0
  {
    SqGrows(0.0, c);
    PositiveProduct(Sq(c), c);
    assert Sq(c) == c * c;
  }

  lemma FeeSigns(c: real, x: real)
    requires c > 0.0 && x >= c
    ensures 0.0 <= Fee(c, x) <= Sq(c)
  {
    CubePositive(c);
    FeeTimes(c, x);
    NotNegative(x, Fee(c, x));
    Product(c * c, x - c);
    assert x * (c * c - Fee(c, x)) == c * c * x - c * c * c;
    NotNegative(x, Sq(c) - Fee(c, x));
  }

  lemma FeeFalls(c: real, x: real, y: real)
    requires c > 0.0 && c <= x <= y
    ensures Fee(c, y) <= Fee(c, x)
  {
    FeeSigns(c, y);
    FeeTimes(c, x);
    FeeTimes(c, y);
    Product(y - x, Fee(c, y));
    assert x * (Fee(c, x) - Fee(c, y)) == Fee(c, x) * x - Fee(c, y) * y + (y - x) * Fee(c, y);
    NotNegative(x, Fee(c, x) - Fee(c, y));
  }

  /** The fee covers what the root keeps beyond the leader's speed. */
  lemma FeeCovers(c: real, x: real, s: real)
    requires c > 0.0 && x >= c && s >= x && Sq(s) == Sq(c) + Sq(x)
    ensures Span(c, 2.0 * (s - x)) <= Fee(c, x)
  {
    var d := s - x;
    FeeTimes(c, x);
    SqDifference(x, s);
    assert d * (s + x) == c * c;
    Product(d, s - x);
    assert d * (2.0 * x) <= c * c;
    Product(c, c * c - d * (2.0 * x));
    assert x * (Fee(c, x) - c * (2.0 * d)) == c * c * c - c * (d * (2.0 * x));
    NotNegative(x, Fee(c, x) - c * (2.0 * d));
  }

  lemma {:induction false} TollBounds(c: real, x: real)
    requires c > 0.0 && x >= 0.0
    ensures 0.0 <= Toll(c, x) <= Span(c, x)
    decreases if x < c then 0 else 1 + (x / c).Floor
  {
    hide Span, Fee, Sq;
    if x < c {
      SpanSign(c, x);
    } else {
      StepsLeft(c, x);
      TollBounds(c, x - c);
      FeeSigns(c, x);
      SpanDifference(c, x, c);
    }
  }

  lemma SpanSign(c: real, x: real)
    requires c >= 0.0 && x >= 0.0
    ensures Span(c, x) >= 0.0
  {
    Product(c, x);
  }

  /** The toll of y is at most that of x and c a unit of speed more. */
  lemma {:induction false} TollGrows(c: real, x: real, y: real)
    requires c > 0.0 && 0.0 <= x <= y
    ensures Toll(c, y) <= Toll(c, x) + Span(c, y - x)
    decreases if x < c then 0 else 1 + (x / c).Floor
  {
    hide Span, Fee, Sq;
    SpanDifference(c, y, x);
    if x < c {
      TollBounds(c, y);
    } else {
      StepsLeft(c, x);
      TollGrows(c, x - c, y - c);
      FeeFalls(c, x, y);
      assert (y - c) - (x - c) == y - x;
    }
  }

  /** The harmonic sum 1 + 1/2 + ... + 1/n. */
  function Harmonic(n: nat): (h: real)
    ensures h >= 0.0
  {
    if n == 0 then 0.0 else Harmonic(n - 1) + 1.0 / n as real
  }

  /** What a leader slower than n + 1 ticks' braking can ever charge. */
  function Levy(c: real, n: nat): real {
    Sq(c) * (1.0 + Harmonic(n))
  }

  lemma LevySteps(c: real, n: nat)
    requires n > 0
    ensures Levy(c, n) == Levy(c, n - 1) + Sq(c) * (1.0 / n as real)
    ensures Levy(c, n) >= Levy(c, n - 1)
  {
    Product(c * c, 1.0 / n as real) by { SqFacts(c); }
    assert Sq(c) * (1.0 + Harmonic(n)) == Sq(c) * (1.0 + Harmonic(n - 1)) + Sq(c) * (1.0 / n as real);
  }

  lemma FeeAtMost(c: real, x: real, n: nat)
    requires c > 0.0 && n > 0 && x >= n as real * c
    ensures x >= c && Fee(c, x) <= Sq(c) * (1.0 / n as real)
  {
    Product((n - 1) as real, c);
    assert n as real * c == (n - 1) as real * c + c;
    FeeFalls(c, n as real * c, x);
    PositiveProduct(n as real, c);
    FeeTimes(c, n as real * c);
    var f, r := Fee(c, n as real * c), 1.0 / n as real;
    assert r * n as real == 1.0;
    assert n as real * c * (f - c * c * r) == c * c * c - c * c * c * (r * n as real);
    if f - c * c * r > 0.0 {
      PositiveProduct(n as real * c, f - c * c * r);
    }
  }

  /** The toll grows with the logarithm of the speed. */
  lemma {:induction false} TollIsLogarithmic(c: real, x: real, n: nat)
    requires c > 0.0 && 0.0 <= x <= (n + 1) as real * c
    ensures Toll(c, x) <= Levy(c, n)
    decreases n
  {
    hide Fee, Levy, Sq, Span, Harmonic;
    if x < c {
      FirstToll(c, x, n);
    } else if n == 0 {
      assert x == c;
      FeeSigns(c, c);
      OneToll(c);
    } else {
      LevySteps(c, n);
      MoreTicks(n, c);
      if x >= n as real * c {
        StepsLeft(c, x);
        TollIsLogarithmic(c, x - c, n - 1);
        FeeAtMost(c, x, n);
      } else {
        TollIsLogarithmic(c, x, n - 1);
      }
    }
  }

  lemma MoreTicks(n: nat, c: real)
    ensures (n + 1) as real * c == n as real * c + c
  {
  }

  lemma FirstToll(c: real, x: real, n: nat)
    requires c > 0.0 && 0.0 <= x < c
    ensures Span(c, x) <= Levy(c, n)
  {
    SpanGrows(c, x, c);
    SqFacts(c);
    Product(Sq(c), Harmonic(n));
    assert Sq(c) * (1.0 + Harmonic(n)) == Sq(c) + Sq(c) * Harmonic(n);
  }

  lemma OneToll(c: real)
    requires c > 0.0
    ensures Toll(c, c) == Fee(c, c) && Sq(c) == Levy(c, 0)
  {
    assert Toll(c, 0.0) == Span(c, 0.0) == 0.0;
  }

  // ---------------------------------------------------------------- what a tick charges

  /** The room left once follower and leader have braked one tick's worth of their speeds. */
  function Mid(p: Pair, b: real, dt: real): real {
    Shed(b, p.gap - STANDSTILL) + Span(Brake(b, dt), p.vLead - p.v)
  }

  /** The leader's speeds before and after a tick, and what it covered, in shed speed. */
  ghost predicate Leads(v: real, w: real, lead: real, c: real) {
    && v >= 0.0 && w >= 0.0 && w >= v - c
    && (lead == Span(c, v + w) || (w == 0.0 && v < c && lead >= Sq(v)))
  }

  lemma LeaderMoves(v: real, a: real, b: real, dt: real)
    requires v >= 0.0 && dt > 0.0 && b > 0.0 && a >= -b
    ensures Leads(v, After(v, a, dt), Shed(b, Travel(v, a, dt)), Brake(b, dt))
  {
    hide Shed, Sq, Span, Brake, Travel;
    SpeedAfter(v, a, b, dt);
    if v + a * dt < 0.0 {
      StopSheds(v, a, b, dt);
    } else {
      RollSheds(v, a, b, dt);
    }
  }

  /** The follower's: at most the mean of its two speeds, the second within the gate's. */
  lemma FollowerMoves(p: Pair, a: real, aLead: real, b: real, dt: real, s: real)
    requires Driven(p, a, aLead, b, dt, s)
    ensures var w, c := After(p.v, a, dt), Brake(b, dt);
      0.0 <= w <= s - c && Shed(b, Travel(p.v, a, dt)) <= Span(c, p.v + w)
  {
    hide Shed, Sq, Span, Brake, Travel, Gate, After, Root;
    Gated(p, a, aLead, b, dt, s);
    TravelAtMost(p.v, a, dt);
    MeanShed(p.v, After(p.v, a, dt), Travel(p.v, a, dt), b, dt);
  }

  lemma RoomChanges(p: Pair, a: real, aLead: real, b: real, dt: real)
    ensures Shed(b, PairTick(p, a, aLead, dt).gap - STANDSTILL)
         == Shed(b, p.gap - STANDSTILL) + Shed(b, Travel(p.vLead, aLead, dt)) - Shed(b, Travel(p.v, a, dt))
  {
    hide Travel, Shed;
    ShedSum(b, p.gap - STANDSTILL, Travel(p.vLead, aLead, dt), Travel(p.v, a, dt));
    assert PairTick(p, a, aLead, dt).gap - STANDSTILL
      == p.gap - STANDSTILL + Travel(p.vLead, aLead, dt) - Travel(p.v, a, dt);
  }

  lemma SmallRoot(v: real, c: real, s: real)
    requires Sq(s) == Sq(c) + Sq(v)
    ensures 2.0 * Span(c, s) - 2.0 * Sq(c) <= Sq(v)
  {
    hide Sq, Span;
    SqLess(s, c);
    SqFacts(s - c);
    SpanDifference(c, s, c);
  }

  lemma SlowSquare(v: real, c: real)
    requires 0.0 <= v <= c
    ensures Sq(v) <= Span(c, v)
  {
    Product(c - v, v);
  }

  /** A leader rolling on from a tick's braking speed or more. */
  lemma TollOfRolling(v: real, w: real, c: real, s: real)
    requires c > 0.0 && v >= c && w >= v - c && s >= v && Sq(s) == Sq(c) + Sq(v)
    ensures 2.0 * Span(c, w) - 2.0 * Span(c, s) + 2.0 * Sq(c) >= Toll(c, w) - Toll(c, v)
  {
    hide Sq, Span, Fee;
    FeeCovers(c, v, s);
    SpanDifference(c, s - v, 0.0);
    SpanDifference(c, s, v);
    TollGrows(c, v - c, w);
    assert w - (v - c) == w - v + c;
    SpanDifference(c, w - v, c);
    SpanDifference(c, w, v);
    SpanSign(c, w - v + c);
  }

  /** Without room, what a tick takes is paid out of the leader's toll. */
  lemma TollPaid(v: real, w: real, lead: real, c: real, s: real)
    requires c > 0.0 && Leads(v, w, lead, c) && s >= c && s >= v && Sq(s) == Sq(c) + Sq(v)
    ensures lead + Span(c, w) - Span(c, v) - (2.0 * Span(c, s) - 2.0 * Sq(c)) >= Toll(c, w) - Toll(c, v)
  {
    hide Sq, Span, Fee;
    SpanDifference(c, v, w);
    if v >= c {
      TollOfRolling(v, w, c, s);
    } else {
      TollBounds(c, w);
      SmallRoot(v, c, s);
      SlowSquare(v, c);
      SpanSign(c, w);
      SpanDifference(c, 0.0, 0.0);
    }
  }

  lemma MidKept(p: Pair, a: real, aLead: real, b: real, dt: real, s: real)
    requires Driven(p, a, aLead, b, dt, s) && p.gap <= STANDSTILL
    ensures var q, c := PairTick(p, a, aLead, dt), Brake(b, dt);
      && c > 0.0 && q.vLead >= 0.0
      && Mid(q, b, dt) - Toll(c, q.vLead) >= Mid(p, b, dt) - Toll(c, p.vLead)
  {
    hide Shed, Sq, Span, Brake, Travel, Gate, After;
    var q, c := PairTick(p, a, aLead, dt), Brake(b, dt);
    BrakePositive(b, dt);
    LeaderMoves(p.vLead, aLead, b, dt);
    FollowerMoves(p, a, aLead, b, dt, s);
    RoomChanges(p, a, aLead, b, dt);
    RootBounds(p, b, dt, s);
    NothingShed(b);
    TollPaid(p.vLead, q.vLead, Shed(b, Travel(p.vLead, aLead, dt)), c, s);
    SpanDifference(c, p.vLead, p.v);
    SpanDifference(c, p.v, q.v);
    SpanDifference(c, q.vLead, q.v);
    SpanGrows(c, q.v, s - c);
    SpanDifference(c, s, c);
  }

  lemma Quadratics(x: real, c: real)
    ensures Sq(x) - Span(c, x) >= -0.25 * Sq(c)
    ensures Sq(x) - 3.0 * Span(c, x) >= -2.25 * Sq(c)
  {
    assert Sq(x - 0.5 * c) == Sq(x) - Span(c, x) + 0.25 * Sq(c);
    SqFacts(x - 0.5 * c);
    assert Sq(x - 1.5 * c) == Sq(x) - 3.0 * Span(c, x) + 2.25 * Sq(c);
    SqFacts(x - 1.5 * c);
  }

  lemma SquareGap(v: real, s: real, c: real)
    requires 0.0 <= v <= s
    ensures Sq(s) - Sq(v) >= Sq(s - v)
    ensures v >= c ==> Sq(s) - Sq(v) >= Sq(s - v) + 2.0 * Span(c, s - v)
  {
    var d := s - v;
    SqDifference(v, s);
    Product(d, v);
    assert Sq(d) + 2.0 * (d * v) == Sq(s) - Sq(v);
    if v >= c {
      Product(d, v - c);
      assert d * v - Span(c, d) == d * (v - c);
    }
  }

  /** With room to begin with, a tick's worth of braking on both sides is left short by no more
      than 5/4 of a tick's. */
  lemma MidFromRoom(p: Pair, a: real, aLead: real, b: real, dt: real, s: real)
    requires Driven(p, a, aLead, b, dt, s) && p.gap >= STANDSTILL
    ensures Mid(PairTick(p, a, aLead, dt), b, dt) >= -1.25 * Sq(Brake(b, dt))
  {
    hide Shed, Sq, Span, Brake, Travel, Gate, After;
    var q, c := PairTick(p, a, aLead, dt), Brake(b, dt);
    BrakePositive(b, dt);
    LeaderMoves(p.vLead, aLead, b, dt);
    FollowerMoves(p, a, aLead, b, dt, s);
    RoomChanges(p, a, aLead, b, dt);
    RootBounds(p, b, dt, s);
    MidSpent(p.v, q.v, s, c);
    SpanDifference(c, q.vLead, q.v);
    LeaderCovers(p.vLead, q.vLead, Shed(b, Travel(p.vLead, aLead, dt)), c, s);
  }

  lemma MidSpent(v: real, w: real, s: real, c: real)
    requires c >= 0.0 && v <= s && w <= s - c
    ensures Span(c, v + w) + Span(c, w) <= 3.0 * Span(c, s) - 2.0 * Sq(c)
  {
    hide Sq, Span;
    SpanDifference(c, v, w);
    SpanGrows(c, v, s);
    SpanGrows(c, w, s - c);
    SpanDifference(c, s, c);
  }

  lemma LeaderCovers(v: real, w: real, lead: real, c: real, s: real)
    requires c > 0.0 && Leads(v, w, lead, c) && s >= v
    ensures Sq(s) - Sq(c) - Sq(v) + lead + Span(c, w) - (3.0 * Span(c, s) - 2.0 * Sq(c)) >= -1.25 * Sq(c)
  {
    hide Sq, Span;
    SpanDifference(c, v, w);
    if v >= c {
      Quadratics(s - v, c);
      SquareGap(v, s, c);
      SpanDifference(c, s, v);
      SpanGrows(c, v - c, w);
      SpanDifference(c, v, c);
    } else {
      Quadratics(s, c);
      SlowSquare(v, c);
      SpanSign(c, w);
    }
  }

  lemma MidAtStart(p: Pair, b: real, dt: real, s: real)
    requires b > 0.0 && dt > 0.0 && Safe(p, b, dt) && Root(s, p.vLead, Room(p.gap), b, dt)
    ensures Mid(p, b, dt) >= Shed(b, Least(p.gap, STANDSTILL) - STANDSTILL) - 1.25 * Sq(Brake(b, dt))
  {
    hide Shed, Sq, Span, Brake;
    var c := Brake(b, dt);
    BrakePositive(b, dt);
    RootBounds(p, b, dt, s);
    SpanGrows(c, p.v, s);
    SpanDifference(c, p.vLead, p.v);
    SpanDifference(c, s, p.vLead);
    Quadratics(s - p.vLead, c);
    SquareGap(p.vLead, s, c);
    NothingShed(b);
    SqFacts(c);
  }

  /** The room a tick leaves is at least what one of the two mid-ways showed. */
  lemma RoomFromMid(p: Pair, a: real, aLead: real, b: real, dt: real, s: real)
    requires Driven(p, a, aLead, b, dt, s)
    ensures var q := PairTick(p, a, aLead, dt);
      Shed(b, q.gap - STANDSTILL) >= Least(Mid(p, b, dt), Mid(q, b, dt))
  {
    hide Shed, Sq, Span, Brake, Travel, Gate, After;
    var q, c := PairTick(p, a, aLead, dt), Brake(b, dt);
    BrakePositive(b, dt);
    LeaderMoves(p.vLead, aLead, b, dt);
    FollowerMoves(p, a, aLead, b, dt, s);
    RoomChanges(p, a, aLead, b, dt);
    SpanDifference(c, p.vLead, p.v);
    SpanDifference(c, p.v, q.v);
    SpanDifference(c, p.vLead, q.vLead);
    SpanDifference(c, q.vLead, q.v);
    if q.vLead <= q.v {
      SpanGrows(c, q.vLead, q.v);
    } else {
      SpanGrows(c, q.v, q.vLead);
    }
  }

  // ---------------------------------------------------------------- whole runs

  /** The leader never drives faster than `top`. */
  ghost predicate Capped(p: Pair, drives: seq<Drive>, dt: real, top: real)
    decreases |drives|
  {
    && p.vLead <= top
    && (drives == [] || Capped(PairTick(p, drives[0].a, drives[0].aLead, dt), drives[1..], dt, top))
  }

  lemma {:induction false} RoomKept(p: Pair, drives: seq<Drive>, b: real, dt: real, n: nat, floor: real)
    requires b > 0.0 && dt > 0.0 && Safe(p, b, dt) && Legal(p, drives, b, dt)
    requires Capped(p, drives, dt, (n + 1) as real * Brake(b, dt)) && Brake(b, dt) > 0.0
    requires floor <= -1.25 * Sq(Brake(b, dt)) - Levy(Brake(b, dt), n)
    requires Mid(p, b, dt) - Toll(Brake(b, dt), p.vLead) >= floor && Shed(b, p.gap - STANDSTILL) >= floor
    ensures Shed(b, RunPair(p, drives, dt).gap - STANDSTILL) >= floor
    decreases |drives|
  {
    hide Safe, Root, Gate, PairTick, Shed, Sq, Levy, Mid, Brake, Toll;
    if drives != [] {
      var d, c := drives[0], Brake(b, dt);
      var q := PairTick(p, d.a, d.aLead, dt);
      GateKeepsSafe(p, d.a, d.aLead, b, dt, d.s);
      SafeSpeeds(p, b, dt);
      SafeSpeeds(q, b, dt);
      TollIsLogarithmic(c, q.vLead, n);
      TollBounds(c, p.vLead);
      TollBounds(c, q.vLead);
      RoomFromMid(p, d.a, d.aLead, b, dt, d.s);
      if p.gap <= STANDSTILL {
        MidKept(p, d.a, d.aLead, b, dt, d.s);
      } else {
        MidFromRoom(p, d.a, d.aLead, b, dt, d.s);
      }
      RoomKept(q, drives[1..], b, dt, n, floor);
    }
  }

  lemma SafeSpeeds(p: Pair, b: real, dt: real)
    requires Safe(p, b, dt)
    ensures p.v >= 0.0 && p.vLead >= 0.0
  {
  }

  lemma ShedLoss(b: real, dt: real, from: real, gap: real, h: real)
    requires b > 0.0
    ensures gap >= from - 0.5 * (b * dt * dt) * h <==> Shed(b, gap - STANDSTILL) >= Shed(b, from - STANDSTILL) - Sq(Brake(b, dt)) * h
  {
    ShedOrder(b, from - 0.5 * (b * dt * dt) * h - STANDSTILL, gap - STANDSTILL);
    assert Shed(b, from - 0.5 * (b * dt * dt) * h - STANDSTILL) == Shed(b, from - STANDSTILL) - Sq(Brake(b, dt)) * h;
  }

  /** However long the run, the gap never falls further below the reserve - or below where it
      began, if closer - than half a tick's braking, 9/4 and a harmonic sum times: the sum over
      the ticks in which the leader, at its fastest, could brake to a stop. */
  lemma RunKeepsGap(p: Pair, drives: seq<Drive>, b: real, dt: real, n: nat)
    requires b > 0.0 && dt > 0.0 && Safe(p, b, dt) && Legal(p, drives, b, dt)
    requires Capped(p, drives, dt, (n + 1) as real * Brake(b, dt))
    ensures RunPair(p, drives, dt).gap >= Least(p.gap, STANDSTILL) - 0.5 * (b * dt * dt) * (2.25 + Harmonic(n))
  {
    hide Safe, Root, Gate, PairTick, Shed, Sq, Mid, Brake, Toll, Harmonic, Legal, RunPair;
    if drives != [] {
      var c, from := Brake(b, dt), Least(p.gap, STANDSTILL);
      BrakePositive(b, dt);
      var floor := Shed(b, from - STANDSTILL) - 1.25 * Sq(c) - Levy(c, n);
      NothingShed(b);
      ShedGrows(b, from - STANDSTILL, 0.0);
      ShedGrows(b, from - STANDSTILL, p.gap - STANDSTILL);
      SqFacts(c);
      SafeSpeeds(p, b, dt);
      TollIsLogarithmic(c, p.vLead, n);
      TollBounds(c, p.vLead);
      FirstRoot(p, drives, b, dt);
      MidAtStart(p, b, dt, drives[0].s);
      RoomKept(p, drives, b, dt, n, floor);
      ShedLoss(b, dt, from, RunPair(p, drives, dt).gap, 2.25 + Harmonic(n));
      LevySum(c, n);
    } else {
      NothingRun(p, b, dt, n);
    }
  }

  lemma FirstRoot(p: Pair, drives: seq<Drive>, b: real, dt: real)
    requires dt > 0.0 && Legal(p, drives, b, dt) && drives != []
    ensures Root(drives[0].s, p.vLead, Room(p.gap), b, dt)
  {
  }

  lemma LevySum(c: real, n: nat)
    ensures Sq(c) * (2.25 + Harmonic(n)) == 1.25 * Sq(c) + Levy(c, n)
  {
  }

  lemma NothingRun(p: Pair, b: real, dt: real, n: nat)
    requires b > 0.0
    ensures RunPair(p, [], dt).gap >= Least(p.gap, STANDSTILL) - 0.5 * (b * dt * dt) * (2.25 + Harmonic(n))
  {
    Product(b, dt * dt) by { SqFacts(dt); }
    Product(b * dt * dt, 2.25 + Harmonic(n));
  }
}
