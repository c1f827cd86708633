/** The longitudinal safety gate: what it keeps of a pair of vehicles on one lane, tick by tick,
    under the ballistic update with its exact stop. */
module SafetyGate {
  /** The gap the gate refuses to close. */
  const STANDSTILL := 0.25

  // ---------------------------------------------------------------- the ballistic update

  /** Speed after a tick; a vehicle that would go backwards stops. */
  function After(v: real, a: real, dt: real): real {
    if v + a * dt < 0.0 then 0.0 else v + a * dt
  }

  /** Distance covered in a tick; a stop is exact. */
  function Travel(v: real, a: real, dt: real): real {
    if v + a * dt < 0.0 then (if a < 0.0 then -0.5 * v * v / a else 0.0)
    else v * dt + 0.5 * a * dt * dt
  }

  datatype Body = Body(s: real, v: real, acc: real)

  /** Moves every vehicle at once. */
  method Integrate(bodies: array<Body>, dt: real)
    modifies bodies
    ensures forall k | 0 <= k < bodies.Length ::
      var was := old(bodies[k]);
      bodies[k] == Body(was.s + Travel(was.v, was.acc, dt), After(was.v, was.acc, dt), was.acc)
  {
    for i := 0 to bodies.Length
      invariant forall k | i <= k < bodies.Length :: bodies[k] == old(bodies[k])
      invariant forall k | 0 <= k < i ::
        var was := old(bodies[k]);
        bodies[k] == Body(was.s + Travel(was.v, was.acc, dt), After(was.v, was.acc, dt), was.acc)
    {
      var x := bodies[i];
      var a := x.acc;
      if x.v + a * dt < 0.0 {
        if a < 0.0 {
          x := x.(s := x.s + -0.5 * x.v * x.v / a);
        }
        x := x.(v := 0.0);
      } else {
        x := x.(s := x.s + (x.v * dt + 0.5 * a * dt * dt), v := x.v + a * dt);
      }
      bodies[i] := x;
    }
  }

  // ---------------------------------------------------------------- squares and distances

  function Sq(x: real): real {
    x * x
  }

  /** The speed one tick's braking takes off. */
  function Brake(b: real, dt: real): real {
    b * dt
  }

  /** A distance measured by the square of the speed that braking at b takes off over it. */
  function Shed(b: real, x: real): real {
    2.0 * b * x
  }

  /** What a mean of two speeds covers in a tick, in that measure, as a speed times a tick's
      braking. */
  function Span(c: real, sum: real): real {
    c * sum
  }

  lemma Product(a: real, b: real)
    requires a >= 0.0 && b >= 0.0
    ensures a * b >= 0.0
  {
  }

  lemma PositiveProduct(a: real, b: real)
    requires a > 0.0 && b > 0.0
    ensures a * b > 0.0
  {
  }

  lemma NegativeProduct(d: real, x: real)
    requires d > 0.0 && x < 0.0
    ensures d * x < 0.0
  {
  }

  lemma NotNegative(d: real, x: real)
    requires d > 0.0 && d * x >= 0.0
    ensures x >= 0.0
  {
    if x < 0.0 {
      NegativeProduct(d, x);
    }
  }

  lemma SqFacts(x: real)
    ensures Sq(x) >= 0.0 && Sq(0.0) == 0.0
  {
  }

  lemma SqDifference(x: real, y: real)
    ensures Sq(y) - Sq(x) == (y - x) * (y + x)
  {
  }

  lemma SqGrows(x: real, y: real)
    requires 0.0 <= x <= y
    ensures Sq(x) <= Sq(y) && (x < y ==> Sq(x) < Sq(y))
  {
    Product(y - x, y + x);
    SqDifference(x, y);
    if x < y {
      PositiveProduct(y - x, y + x);
    }
  }

  lemma SqOrder(x: real, y: real)
    requires x >= 0.0 && y >= 0.0 && Sq(x) <= Sq(y)
    ensures x <= y
  {
    if x > y {
      SqGrows(y, x);
    }
  }

  lemma BrakePositive(b: real, dt: real)
    requires b > 0.0 && dt > 0.0
    ensures Brake(b, dt) > 0.0
  {
  }

  lemma ShedSigns(b: real, x: real)
    requires b > 0.0
    ensures x >= 0.0 <==> Shed(b, x) >= 0.0
  {
    if x >= 0.0 {
      Product(2.0 * b, x);
    } else {
      NegativeProduct(2.0 * b, x);
    }
  }

  lemma ShedSum(b: real, x: real, y: real, z: real)
    ensures Shed(b, x + y - z) == Shed(b, x) + Shed(b, y) - Shed(b, z)
  {
  }

  lemma ShedGrows(b: real, x: real, y: real)
    requires b > 0.0 && x <= y
    ensures Shed(b, x) <= Shed(b, y)
  {
    Product(2.0 * b, y - x);
  }

  lemma SpanGrows(c: real, x: real, y: real)
    requires c >= 0.0 && x <= y
    ensures Span(c, x) <= Span(c, y)
  {
    Product(c, y - x);
  }

  lemma SquareOfDifference(s: real, c: real)
    ensures (s - c) * (s - c) == s * s - c * (2.0 * s - c)
    ensures c * (2.0 * s - c) == c * (2.0 * s) - c * c
  {
    assert c * (2.0 * s - c) == c * (2.0 * s) - c * c;
    assert (s - c) * (s - c) == s * (s - c) - c * (s - c);
    assert s * (s - c) == s * s - s * c;
    assert c * (s - c) == c * s - c * c;
    assert c * (2.0 * s) == c * s + c * s;
  }

  /** Slowing from s by c in square terms. */
  lemma SqLess(s: real, c: real)
    ensures Sq(s - c) == Sq(s) - Span(c, 2.0 * s - c)
    ensures Span(c, 2.0 * s - c) == Span(c, 2.0 * s) - Sq(c)
  {
    SquareOfDifference(s, c);
    assert Sq(s - c) == (s - c) * (s - c);
    assert Span(c, 2.0 * s - c) == c * (2.0 * s - c);
    assert Span(c, 2.0 * s) == c * (2.0 * s);
  }

  // ---------------------------------------------------------------- what a tick covers

  /** A stop over distance t from speed v at deceleration d. */
  lemma StopDistance(v: real, d: real)
    requires d > 0.0
    ensures 2.0 * d * (-0.5 * v * v / -d) == v * v
  {
    var t := -0.5 * v * v / -d;
    assert t * -d == -0.5 * v * v;
  }

  /** No tick covers more than the mean of its two speeds. */
  lemma TravelAtMost(v: real, a: real, dt: real)
    requires v >= 0.0 && dt > 0.0
    ensures Travel(v, a, dt) <= 0.5 * (v + After(v, a, dt)) * dt
  {
    if v + a * dt < 0.0 {
      if a >= 0.0 {
        Product(a, dt);
      }
      var d, t := -a, Travel(v, a, dt);
      StopDistance(v, d);
      assert 2.0 * d * t == v * v;
      Product(v, d * dt - v);
      assert d * (v * dt - 2.0 * t) == v * (d * dt - v);
      NotNegative(d, v * dt - 2.0 * t);
    }
  }

  lemma MeanShed(v: real, w: real, t: real, b: real, dt: real)
    requires b > 0.0 && t <= 0.5 * (v + w) * dt
    ensures Shed(b, t) <= Span(Brake(b, dt), v + w)
    ensures t == 0.5 * (v + w) * dt ==> Shed(b, t) == Span(Brake(b, dt), v + w)
  {
    Product(2.0 * b, 0.5 * (v + w) * dt - t);
    assert 2.0 * b * (0.5 * (v + w) * dt) == b * dt * (v + w);
  }

  lemma SpeedAfter(v: real, a: real, b: real, dt: real)
    requires v >= 0.0 && dt > 0.0 && a >= -b
    ensures After(v, a, dt) >= 0.0 && After(v, a, dt) >= v - Brake(b, dt)
    ensures v + a * dt < 0.0 ==> v < Brake(b, dt)
  {
    Product(a + b, dt);
  }

  /** A vehicle that stops sheds at least its whole speed. */
  lemma StopSheds(v: real, a: real, b: real, dt: real)
    requires v >= 0.0 && dt > 0.0 && b > 0.0 && a >= -b && v + a * dt < 0.0
    ensures Shed(b, Travel(v, a, dt)) >= Sq(v)
  {
    if a >= 0.0 {
      Product(a, dt);
    }
    var d, t := -a, Travel(v, a, dt);
    StopDistance(v, d);
    assert 2.0 * d * t == v * v;
    NotNegative(2.0 * d, t);
    Product(b - d, 2.0 * t);
  }

  lemma RollSheds(v: real, a: real, b: real, dt: real)
    requires v >= 0.0 && dt > 0.0 && b > 0.0 && v + a * dt >= 0.0
    ensures Shed(b, Travel(v, a, dt)) == Span(Brake(b, dt), v + After(v, a, dt))
  {
    var w, t := After(v, a, dt), Travel(v, a, dt);
    assert t == 0.5 * (v + w) * dt;
    MeanShed(v, w, t, b, dt);
  }

  lemma SpanCovers(v: real, w: real, c: real)
    requires v >= 0.0 && w >= 0.0 && w >= v - c && c >= 0.0
    ensures Span(c, v + w) >= Sq(v) - Sq(w)
    ensures Span(c, v + w) >= if v < c then Sq(v) else Span(c, 2.0 * v - c)
  {
    Product(c - (v - w), v + w);
    Product(c, w);
    if v < c {
      Product(c - v, v);
    } else {
      Product(c, w - (v - c));
    }
  }

  /** Braking no harder than b, a vehicle gives up speed only for distance. */
  lemma TravelAtLeast(v: real, a: real, b: real, dt: real)
    requires v >= 0.0 && dt > 0.0 && b > 0.0 && a >= -b
    ensures var w, c, shed := After(v, a, dt), Brake(b, dt), Shed(b, Travel(v, a, dt));
      && w >= 0.0 && w >= v - c && shed >= Sq(v) - Sq(w)
      && shed >= if v < c then Sq(v) else Span(c, 2.0 * v - c)
  {
    hide Shed, Sq, Span, Brake, Travel;
    BrakePositive(b, dt);
    SpeedAfter(v, a, b, dt);
    if v + a * dt < 0.0 {
      StopSheds(v, a, b, dt);
      SqFacts(0.0);
    } else {
      RollSheds(v, a, b, dt);
      SpanCovers(v, After(v, a, dt), Brake(b, dt));
    }
  }

  // ---------------------------------------------------------------- the gate

  function Max0(x: real): real {
    if x < 0.0 then 0.0 else x
  }

  /** s is the square root that the gate takes. */
  ghost predicate Root(s: real, vLead: real, room: real, b: real, dt: real) {
    s >= 0.0 && Sq(s) == Sq(Brake(b, dt)) + Sq(vLead) + Shed(b, room)
  }

  /** The largest acceleration the gate allows, for the root s over the room it counts. */
  function Gate(v: real, b: real, dt: real, s: real): real
    requires dt > 0.0
  {
    var vMax := Max0(-Brake(b, dt) + s);
    var a := (vMax - v) / dt;
    if a < -b then -b else a
  }

  function Room(gap: real): real {
    Max0(gap - STANDSTILL)
  }

  datatype Pair = Pair(v: real, vLead: real, gap: real)

  function PairTick(p: Pair, a: real, aLead: real, dt: real): Pair {
    Pair(After(p.v, a, dt), After(p.vLead, aLead, dt), p.gap + Travel(p.vLead, aLead, dt) - Travel(p.v, a, dt))
  }

  /** The follower can stop behind its leader, with a tick in reserve. */
  ghost predicate Safe(p: Pair, b: real, dt: real) {
    p.v >= 0.0 && p.vLead >= 0.0 && Sq(p.v) <= Sq(p.vLead) + Shed(b, Room(p.gap)) + Sq(Brake(b, dt))
  }

  /** A safe pair, and a tick in which the follower obeys the gate and the leader brakes no
      harder than b. */
  ghost predicate Driven(p: Pair, a: real, aLead: real, b: real, dt: real, s: real) {
    && b > 0.0 && dt > 0.0 && Safe(p, b, dt) && Root(s, p.vLead, Room(p.gap), b, dt)
    && a <= Gate(p.v, b, dt, s) && aLead >= -b
  }

  /** The root is at least a tick's braking, the leader's speed and the follower's. */
  lemma RootBounds(p: Pair, b: real, dt: real, s: real)
    requires b > 0.0 && dt > 0.0 && Safe(p, b, dt) && Root(s, p.vLead, Room(p.gap), b, dt)
    ensures Brake(b, dt) <= s && p.v <= s && p.vLead <= s
  {
    hide Shed, Sq, Brake;
    BrakePositive(b, dt);
    SqFacts(p.vLead);
    SqFacts(Brake(b, dt));
    ShedSigns(b, Room(p.gap));
    SqOrder(Brake(b, dt), s);
    SqOrder(p.v, s);
    SqOrder(p.vLead, s);
  }

  lemma DivAtLeast(x: real, y: real, dt: real)
    requires dt > 0.0 && x >= y * dt
    ensures x / dt >= y
  {
    var q := x / dt;
    assert dt * (q - y) == x - y * dt;
    NotNegative(dt, q - y);
  }

  lemma DivTimes(x: real, dt: real)
    requires dt > 0.0
    ensures x / dt * dt == x
  {
  }

  lemma MinusBrake(b: real, dt: real)
    ensures -b * dt == -Brake(b, dt)
  {
  }

  /** While the invariant holds the gate never asks for more than b. */
  lemma GateWithinReach(p: Pair, b: real, dt: real, s: real)
    requires b > 0.0 && dt > 0.0 && Safe(p, b, dt) && Root(s, p.vLead, Room(p.gap), b, dt)
    ensures (Max0(-Brake(b, dt) + s) - p.v) / dt >= -b
    ensures Gate(p.v, b, dt, s) * dt == s - Brake(b, dt) - p.v
  {
    hide Shed, Sq, Brake, Safe, Root;
    RootBounds(p, b, dt, s);
    MinusBrake(b, dt);
    DivAtLeast(s - Brake(b, dt) - p.v, -b, dt);
    DivTimes(s - Brake(b, dt) - p.v, dt);
  }

  lemma TimesLess(a: real, g: real, dt: real)
    requires a <= g && dt > 0.0
    ensures a * dt <= g * dt
  {
    Product(g - a, dt);
  }

  lemma SpeedLeft(v: real, a: real, dt: real, most: real)
    requires v + a * dt <= most && most >= 0.0
    ensures 0.0 <= After(v, a, dt) <= most
  {
  }

  lemma BrakingSpent(v: real, w: real, spent: real, c: real, s: real)
    requires c >= 0.0 && v <= s && 0.0 <= w <= s - c && spent <= Span(c, v + w)
    ensures Sq(w) + spent <= Sq(s) && spent <= Span(c, 2.0 * s - c)
  {
    hide Sq, Span;
    SpanGrows(c, v + w, 2.0 * s - c);
    SqGrows(w, s - c);
    SqLess(s, c);
  }

  /** A gated tick leaves the follower at most the speed the gate allows, having spent no more
      than the braking distance it had. */
  lemma Gated(p: Pair, a: real, aLead: real, b: real, dt: real, s: real)
    requires Driven(p, a, aLead, b, dt, s)
    ensures var w, c, spent := After(p.v, a, dt), Brake(b, dt), Shed(b, Travel(p.v, a, dt));
      0.0 <= w <= s - c && Sq(w) + spent <= Sq(s) && spent <= Span(c, 2.0 * s - c)
  {
    hide After, Travel, Gate, Root, Shed, Sq, Span, Brake;
    var w := After(p.v, a, dt);
    RootBounds(p, b, dt, s);
    GateWithinReach(p, b, dt, s);
    TimesLess(a, Gate(p.v, b, dt, s), dt);
    SpeedLeft(p.v, a, dt, s - Brake(b, dt));
    TravelAtMost(p.v, a, dt);
    MeanShed(p.v, w, Travel(p.v, a, dt), b, dt);
    BrakePositive(b, dt);
    BrakingSpent(p.v, w, Shed(b, Travel(p.v, a, dt)), Brake(b, dt), s);
  }

  /** The gate invariant is kept by every gated tick, the exact stop included, whatever else
      the follower does and however the leader drives, as long as it brakes no harder than b -
      also for a pair already closer than the standstill reserve. */
  lemma GateKeepsSafe(p: Pair, a: real, aLead: real, b: real, dt: real, s: real)
    requires Driven(p, a, aLead, b, dt, s)
    ensures Safe(PairTick(p, a, aLead, dt), b, dt)
  {
    hide After, Travel, Gate, Root, Shed, Sq, Span, Brake;
    var q := PairTick(p, a, aLead, dt);
    Gated(p, a, aLead, b, dt, s);
    TravelAtLeast(p.vLead, aLead, b, dt);
    if p.gap >= STANDSTILL {
      RoomSpent(p, a, aLead, b, dt, s);
      ShedGrows(b, q.gap - STANDSTILL, Room(q.gap));
    } else {
      NoRoom(p, q, b, dt, s);
    }
  }

  /** With room to begin with, what is left still covers the follower's stop - exactly, and not
      only in the room the gate counts. */
  lemma RoomSpent(p: Pair, a: real, aLead: real, b: real, dt: real, s: real)
    requires Driven(p, a, aLead, b, dt, s) && p.gap >= STANDSTILL
    ensures var q := PairTick(p, a, aLead, dt);
      Sq(q.v) <= Sq(q.vLead) + Shed(b, q.gap - STANDSTILL) + Sq(Brake(b, dt))
  {
    hide After, Travel, Gate, Shed, Sq, Span, Brake;
    Gated(p, a, aLead, b, dt, s);
    TravelAtLeast(p.vLead, aLead, b, dt);
    ShedSum(b, p.gap - STANDSTILL, Travel(p.vLead, aLead, dt), Travel(p.v, a, dt));
    assert PairTick(p, a, aLead, dt).gap - STANDSTILL == p.gap - STANDSTILL + Travel(p.vLead, aLead, dt) - Travel(p.v, a, dt);
  }

  /** Without room, the speed left is within what the leader's braking can leave it. */
  lemma NoRoom(p: Pair, q: Pair, b: real, dt: real, s: real)
    requires b > 0.0 && dt > 0.0 && Safe(p, b, dt) && Root(s, p.vLead, Room(p.gap), b, dt) && p.gap < STANDSTILL
    requires 0.0 <= q.v <= s - Brake(b, dt) && q.vLead >= 0.0 && q.vLead >= p.vLead - Brake(b, dt)
    ensures Safe(q, b, dt)
  {
    hide Shed, Sq, Span, Brake;
    var c := Brake(b, dt);
    BrakePositive(b, dt);
    RootBounds(p, b, dt, s);
    ShedSigns(b, Room(q.gap));
    NothingShed(b);
    SqGrows(q.v, s - c);
    LeadLeaves(p.vLead, q.vLead, c, s);
  }

  lemma NothingShed(b: real)
    ensures Shed(b, 0.0) == 0.0
  {
  }

  /** The triangle inequality behind it. */
  lemma LeadLeaves(vLead: real, wLead: real, c: real, s: real)
    requires c >= 0.0 && vLead >= 0.0 && wLead >= 0.0 && wLead >= vLead - c && c <= s && vLead <= s
    requires Sq(s) == Sq(c) + Sq(vLead)
    ensures Sq(s - c) <= Sq(wLead) + Sq(c)
  {
    hide Sq, Span;
    SqLess(s, c);
    if vLead >= c {
      SqGrows(vLead - c, wLead);
      SqLess(vLead, c);
      SpanGrows(c, 2.0 * vLead, 2.0 * s);
    } else {
      SqGrows(vLead, c);
      SqFacts(wLead);
      SpanGrows(c, 2.0 * c, 2.0 * s);
      SqTwice(c);
    }
  }

  lemma SqTwice(c: real)
    ensures Span(c, 2.0 * c) == 2.0 * Sq(c)
  {
  }

  // ---------------------------------------------------------------- how much room a tick can cost

  /** Braking distance against reserve: what the leader covers and the room there is make up
      for all but one tick's braking. */
  lemma ReserveCovers(vLead: real, lead: real, room: real, c: real, s: real)
    requires 0.0 <= c <= s && 0.0 <= vLead <= s && Sq(s) == Sq(c) + Sq(vLead) + room
    requires lead >= if vLead < c then Sq(vLead) else Span(c, 2.0 * vLead - c)
    ensures lead + room + Sq(c) >= Span(c, 2.0 * s - c)
  {
    hide Sq, Span;
    SqLess(s, c);
    if vLead < c {
      SqFacts(s - c);
    } else {
      SqLess(vLead, c);
      SqGrows(vLead - c, s - c);
    }
  }

  function Least(x: real, y: real): real {
    if x < y then x else y
  }

  /** However hard the leader brakes, a tick costs a pair at most b dt^2 / 2 below the reserve,
      or below where it was if it was closer. */
  lemma RoomLost(p: Pair, a: real, aLead: real, b: real, dt: real, s: real)
    requires Driven(p, a, aLead, b, dt, s)
    ensures 2.0 * PairTick(p, a, aLead, dt).gap >= 2.0 * Least(p.gap, STANDSTILL) - b * dt * dt
  {
    hide After, Travel, Gate, Shed, Sq, Span, Brake;
    var t, tLead := Travel(p.v, a, dt), Travel(p.vLead, aLead, dt);
    Gated(p, a, aLead, b, dt, s);
    RootBounds(p, b, dt, s);
    BrakePositive(b, dt);
    TravelAtLeast(p.vLead, aLead, b, dt);
    ReserveCovers(p.vLead, Shed(b, tLead), Shed(b, Room(p.gap)), Brake(b, dt), s);
    Cancel(b, Room(p.gap), tLead, t, dt);
  }

  lemma Cancel(b: real, room: real, tLead: real, t: real, dt: real)
    requires b > 0.0 && Shed(b, tLead) + Shed(b, room) + Sq(Brake(b, dt)) >= Shed(b, t)
    ensures 2.0 * tLead + 2.0 * room + b * dt * dt >= 2.0 * t
  {
    assert b * (2.0 * tLead + 2.0 * room + b * dt * dt - 2.0 * t)
      == 2.0 * b * tLead + 2.0 * b * room + b * dt * (b * dt) - 2.0 * b * t;
    NotNegative(b, 2.0 * tLead + 2.0 * room + b * dt * dt - 2.0 * t);
  }

  /** And a tick can cost exactly that: behind a standing leader, at the reserve and at one
      tick's braking speed, the follower stops inside the reserve. */
  lemma RoomCanRunOut(b: real, dt: real)
    requires b > 0.0 && dt > 0.0
    ensures var p := Pair(Brake(b, dt), 0.0, STANDSTILL);
      && Driven(p, -b, 0.0, b, dt, Brake(b, dt))
      && 2.0 * PairTick(p, -b, 0.0, dt).gap == 2.0 * STANDSTILL - b * dt * dt
  {
    hide Sq, Shed;
    var c := Brake(b, dt);
    var p := Pair(c, 0.0, STANDSTILL);
    BrakePositive(b, dt);
    SqFacts(0.0);
    NothingShed(b);
    GateWithinReach(p, b, dt, c);
    DivTimes(-c, dt);
    MinusBrake(b, dt);
    assert 0.0 - c == -c;
    Quotient(-b, dt);
    assert b * dt * dt - 0.5 * b * dt * dt == 0.5 * b * dt * dt;
  }

  lemma Quotient(x: real, dt: real)
    requires dt > 0.0
    ensures x * dt / dt == x
  {
  }

  // ---------------------------------------------------------------- whole runs

  datatype Drive = Drive(a: real, aLead: real, s: real)

  /** Every tick the follower obeys the gate, whatever root it finds for the room it counts,
      and the leader brakes no harder than b. */
  ghost predicate Legal(p: Pair, drives: seq<Drive>, b: real, dt: real)
    requires dt > 0.0
    decreases |drives|
  {
    drives == []
    || (var d := drives[0];
        && Root(d.s, p.vLead, Room(p.gap), b, dt) && d.a <= Gate(p.v, b, dt, d.s) && d.aLead >= -b
        && Legal(PairTick(p, d.a, d.aLead, dt), drives[1..], b, dt))
  }

  function RunPair(p: Pair, drives: seq<Drive>, dt: real): Pair
    decreases |drives|
  {
    if drives == [] then p else RunPair(PairTick(p, drives[0].a, drives[0].aLead, dt), drives[1..], dt)
  }

  /** From a safe pair on, the gate can always be obeyed within b, and the gap never falls more
      than half a tick's braking per tick below the reserve. */
  lemma {:induction false} RunStaysSafe(p: Pair, drives: seq<Drive>, b: real, dt: real)
    requires b > 0.0 && dt > 0.0 && Safe(p, b, dt) && Legal(p, drives, b, dt)
    ensures var q := RunPair(p, drives, dt);
      Safe(q, b, dt) && 2.0 * q.gap >= 2.0 * Least(p.gap, STANDSTILL) - |drives| as real * (b * dt * dt)
    decreases |drives|
  {
    hide Safe, Root, Gate, PairTick;
    if drives != [] {
      var d := drives[0];
      var next := PairTick(p, d.a, d.aLead, dt);
      GateKeepsSafe(p, d.a, d.aLead, b, dt, d.s);
      RoomLost(p, d.a, d.aLead, b, dt, d.s);
      RunStaysSafe(next, drives[1..], b, dt);
      Product(b * dt, dt) by { Product(b, dt); }
      OneMoreLoss(|drives| - 1, b * dt * dt);
    }
  }

  lemma OneMoreLoss(n: nat, loss: real)
    requires loss >= 0.0
    ensures (n + 1) as real * loss == n as real * loss + loss && n as real * loss >= 0.0
  {
  }

  /** The speed the gate steers for is the one w >= 0 from which, after a tick at w, braking at
      b stops within the leader's own braking distance and the gap less a quarter of a metre:
      w * w + 2 b dt w == vLead * vLead + 2 b max(0, gap - 0.25). The gate reaches it in a tick,
      or brakes at b. */
  lemma GateSpeed(p: Pair, b: real, dt: real, s: real)
    requires b > 0.0 && dt > 0.0 && p.vLead >= 0.0 && Root(s, p.vLead, Room(p.gap), b, dt)
    ensures var w, after := s - b * dt, p.v + Gate(p.v, b, dt, s) * dt;
      && w >= 0.0
      && w * w + 2.0 * b * dt * w == p.vLead * p.vLead + 2.0 * b * (if p.gap > 0.25 then p.gap - 0.25 else 0.0)
      && after == if w >= p.v - b * dt then w else p.v - b * dt
  {
    hide Root;
    var c, w, v := b * dt, s - b * dt, p.v;
    RootMeans(s, p.vLead, Room(p.gap), b, dt);
    SquareOfDifference(s, c);
    assert 2.0 * b * dt * w == c * (2.0 * w);
    assert c * (2.0 * w) == c * (2.0 * s) - c * (2.0 * c);
    var a := (w - v) / dt;
    DivTimes(w - v, dt);
    if a < -b {
      PositiveProduct(-b - a, dt);
      assert (-b - a) * dt == -c - (w - v);
    } else {
      Product(a + b, dt);
      assert (a + b) * dt == w - v + c;
    }
  }

  lemma RootMeans(s: real, vLead: real, room: real, b: real, dt: real)
    requires b > 0.0 && dt > 0.0 && vLead >= 0.0 && room >= 0.0 && Root(s, vLead, room, b, dt)
    ensures s >= b * dt >= 0.0 && s * s == b * dt * (b * dt) + vLead * vLead + 2.0 * b * room
  {
    BrakePositive(b, dt);
    SqFacts(vLead);
    Product(2.0 * b, room);
    SqOrder(Brake(b, dt), s);
  }

  // ---------------------------------------------------------------- the guardrail

  datatype Leader = NoLeader | Leader(gap: real, v: real)

  /** Caps an acceleration. Off at b <= 0 and without a leader; `root` is the square root over
      the room counted. */
  method ApplyGate(v: real, acc: real, lead: Leader, b: real, dt: real, root: real -> real)
    returns (capped: real, overlapped: bool, gated: bool)
    requires dt > 0.0
    ensures b <= 0.0 || lead.NoLeader? ==> capped == acc && !gated && !overlapped
    ensures b > 0.0 && lead.Leader? ==>
      var g := Gate(v, b, dt, root(Sq(Brake(b, dt)) + Sq(lead.v) + Shed(b, Room(lead.gap))));
      capped == Least(acc, g) && gated == (g < acc) && overlapped == (lead.gap < 0.0)
  {
    capped, overlapped, gated := acc, false, false;
    if b <= 0.0 || lead.NoLeader? {
      return;
    }
    var room := lead.gap - STANDSTILL;
    if room < 0.0 {
      room := 0.0;
    }
    overlapped := lead.gap < 0.0;
    assert room == Room(lead.gap);
    var bdt := b * dt;
    var reach := bdt * bdt + lead.v * lead.v + 2.0 * b * room;
    assert reach == Sq(Brake(b, dt)) + Sq(lead.v) + Shed(b, Room(lead.gap));
    var vMax := -bdt + root(reach);
    if vMax < 0.0 {
      vMax := 0.0;
    }
    var a := (vMax - v) / dt;
    if a < -b {
      a := -b;
    }
    gated := a < acc;
    if a < acc {
      capped := a;
    }
  }
}
