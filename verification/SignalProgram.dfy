/** Fixed-time signal programs: the compiled tick grid of a program and the phase
    that the schedule shows at a tick. */
module SignalProgram {
  import opened Arith

  datatype Option<+T> = None | Some(value: T)

  /** A program whose durations already lie on the tick grid. `states[i]` holds one
      character per signal link for phase i. */
  datatype Program = Program(
    id: string,
    phaseTicks: seq<nat>,
    states: seq<string>,
    offsetTicks: nat,
    clearance: nat)
  {
    ghost predicate Valid() {
      && |phaseTicks| > 0
      && |states| == |phaseTicks|
      && forall i | 0 <= i < |phaseTicks| :: phaseTicks[i] > 0
    }

    function Cycle(): nat {
      Sum(phaseTicks)
    }
  }

  function Sum(ticks: seq<nat>): nat {
    if ticks == [] then 0 else ticks[0] + Sum(ticks[1..])
  }

  lemma {:induction false} SumAppend(a: seq<nat>, b: seq<nat>)
    ensures Sum(a + b) == Sum(a) + Sum(b)
  {
    if a == [] {
      assert a + b == b;
    } else {
      assert (a + b)[1..] == a[1..] + b;
      SumAppend(a[1..], b);
    }
  }

  lemma {:induction false} SumTake(ticks: seq<nat>, i: nat)
    requires i < |ticks|
    ensures Sum(ticks[..i + 1]) == Sum(ticks[..i]) + ticks[i] <= Sum(ticks)
  {
    assert ticks[..i + 1] == ticks[..i] + [ticks[i]];
    SumAppend(ticks[..i], [ticks[i]]);
    assert ticks == ticks[..i + 1] + ticks[i + 1..];
    SumAppend(ticks[..i + 1], ticks[i + 1..]);
  }

  lemma {:induction false} SumPositive(ticks: seq<nat>)
    requires |ticks| > 0
    requires forall i | 0 <= i < |ticks| :: ticks[i] > 0
    ensures Sum(ticks) > 0
  {
    assert Sum(ticks) >= ticks[0];
  }

  // ---------------------------------------------------------------- compilation

  /** Rounding to the nearest integer, halves upwards (the arguments are positive). */
  function Round(x: real): (r: int)
    ensures x - 0.5 < r as real <= x + 0.5
  {
    (x + 0.5).Floor
  }

  datatype Compiled =
    | CompileError(phase: nat)
    | BadTickLength
    | Compiled(phaseTicks: seq<nat>, cycle: nat, offsetTicks: nat, clearance: nat)

  const CLEARANCE_SECONDS := 3.0

  /** Puts durations and offset on the tick grid. Fails on the first phase that the
      tick cannot represent, so a compiled program never has an empty phase. */
  method CompileTicks(durations: seq<real>, offset: real, dt: real) returns (r: Compiled)
    requires |durations| > 0
    requires forall i | 0 <= i < |durations| :: durations[i] > 0.0
    requires offset >= 0.0
    ensures r.BadTickLength? <==> dt <= 0.0
    ensures r.CompileError? ==>
      && dt > 0.0 && r.phase < |durations| && Round(durations[r.phase] / dt) == 0
      && forall i | 0 <= i < r.phase :: Round(durations[i] / dt) > 0
    ensures r.Compiled? ==>
      && |r.phaseTicks| == |durations|
      && (forall i | 0 <= i < |durations| :: r.phaseTicks[i] == Round(durations[i] / dt) > 0)
      && r.cycle == Sum(r.phaseTicks) > 0
      && r.offsetTicks == Round(offset / dt)
      && r.clearance == Round(3.0 / dt)
  {
    if dt <= 0.0 {
      return BadTickLength;
    }
    var ticks: seq<nat> := [];
    var cycle := 0;
    for i := 0 to |durations|
      invariant |ticks| == i
      invariant forall j | 0 <= j < i :: ticks[j] == Round(durations[j] / dt) > 0
      invariant cycle == Sum(ticks)
    {
      assert durations[i] / dt > 0.0;
      var tk := Round(durations[i] / dt);
      if tk == 0 {
        return CompileError(i);
      }
      SumAppend(ticks, [tk]);
      ticks := ticks + [tk];
      cycle := cycle + tk;
    }
    SumPositive(ticks);
    assert offset / dt >= 0.0;
    return Compiled(ticks, cycle, Round(offset / dt), Round(CLEARANCE_SECONDS / dt));
  }

  // ---------------------------------------------------------------- phase at a tick

  datatype At = At(phase: nat, elapsed: nat)

  /** The phase holding position x of the cycle, and the position inside that phase. */
  function Locate(ticks: seq<nat>, x: nat): (r: At)
    requires x < Sum(ticks)
    ensures r.phase < |ticks| && r.elapsed < ticks[r.phase] && r.elapsed <= x
  {
    if x < ticks[0] then At(0, x)
    else
      var r := Locate(ticks[1..], x - ticks[0]);
      At(r.phase + 1, r.elapsed)
  }

  /** The position in the cycle that the schedule has reached at `tick`. */
  function CycleTick(p: Program, tick: nat): (x: nat)
    requires p.Valid()
    ensures x < p.Cycle()
  {
    SumPositive(p.phaseTicks);
    var c := p.Cycle();
    (tick % c + c - p.offsetTicks % c) % c
  }

  function PhaseAtElapsed(p: Program, tick: nat): (r: At)
    requires p.Valid()
    ensures r.phase < |p.phaseTicks| && r.elapsed < p.phaseTicks[r.phase]
  {
    Locate(p.phaseTicks, CycleTick(p, tick))
  }

  /** The loop of the engine: subtract phases until the remainder falls inside one. */
  method ComputePhaseAtElapsed(p: Program, tick: nat) returns (phase: nat, elapsed: nat)
    requires p.Valid()
    ensures At(phase, elapsed) == PhaseAtElapsed(p, tick)
  {
    var x: nat := CycleTick(p, tick);
    for i := 0 to |p.phaseTicks|
      invariant x < Sum(p.phaseTicks[i..])
      invariant Locate(p.phaseTicks[i..], x).phase + i == PhaseAtElapsed(p, tick).phase
      invariant Locate(p.phaseTicks[i..], x).elapsed == PhaseAtElapsed(p, tick).elapsed
    {
      assert p.phaseTicks[i..][1..] == p.phaseTicks[i + 1..];
      if x < p.phaseTicks[i] {
        return i, x;
      }
      x := x - p.phaseTicks[i];
    }
    assert false;
  }

  /** Locate is the inverse of "sum of the phases before, plus the elapsed ticks". */
  lemma {:induction false} LocateInverse(ticks: seq<nat>, x: nat)
    requires x < Sum(ticks)
    ensures var r := Locate(ticks, x); x == Sum(ticks[..r.phase]) + r.elapsed
  {
    if x >= ticks[0] {
      LocateInverse(ticks[1..], x - ticks[0]);
      var r := Locate(ticks[1..], x - ticks[0]);
      assert ticks[..r.phase + 1] == [ticks[0]] + ticks[1..][..r.phase];
    }
  }

  lemma {:induction false} LocateUnique(ticks: seq<nat>, i: nat, e: nat)
    requires i < |ticks| && e < ticks[i]
    ensures Sum(ticks[..i]) + e < Sum(ticks)
    ensures Locate(ticks, Sum(ticks[..i]) + e) == At(i, e)
  {
    SumTake(ticks, i);
    if i > 0 {
      assert ticks[..i] == [ticks[0]] + ticks[1..][..i - 1];
      LocateUnique(ticks[1..], i - 1, e);
    }
  }

  /** Exact placement: the schedule shows phase i, e ticks old, exactly at the ticks
      whose position in the cycle is the start of phase i plus e. */
  lemma {:induction false} PhaseAtPlacement(p: Program, tick: nat, i: nat, e: nat)
    requires p.Valid() && i < |p.phaseTicks| && e < p.phaseTicks[i]
    ensures PhaseAtElapsed(p, tick) == At(i, e) <==> CycleTick(p, tick) == Sum(p.phaseTicks[..i]) + e
  {
    LocateInverse(p.phaseTicks, CycleTick(p, tick));
    LocateUnique(p.phaseTicks, i, e);
  }

  lemma ModStep(a: int, c: int)
    requires c > 0
    ensures (a + 1) % c == if a % c == c - 1 then 0 else a % c + 1
  {
    var q, r := a / c, a % c;
    assert a == q * c + r;
    if r == c - 1 {
      DivModUnique(a + 1, q + 1, 0, c);
    } else {
      DivModUnique(a + 1, q, r + 1, c);
    }
  }

  lemma CycleTickIsModular(p: Program, tick: nat)
    requires p.Valid()
    ensures p.Cycle() > 0
    ensures CycleTick(p, tick) == (tick - p.offsetTicks) % p.Cycle()
  {
    SumPositive(p.phaseTicks);
    var c := p.Cycle();
    var a, b := tick % c, p.offsetTicks % c;
    var x := (a + c - b) % c;
    var qa, qb, qx := tick / c, p.offsetTicks / c, (a + c - b) / c;
    assert tick == qa * c + a && p.offsetTicks == qb * c + b && a + c - b == qx * c + x;
    calc {
      tick - p.offsetTicks;
      qa * c - qb * c + (a - b);
      qa * c - qb * c + qx * c - c + x;
      (qa - qb + qx - 1) * c + x;
    }
    DivModUnique(tick - p.offsetTicks, qa - qb + qx - 1, x, c);
  }

  lemma CycleTickStep(p: Program, tick: nat)
    requires p.Valid()
    ensures CycleTick(p, tick + 1) ==
            if CycleTick(p, tick) == p.Cycle() - 1 then 0 else CycleTick(p, tick) + 1
  {
    CycleTickIsModular(p, tick);
    CycleTickIsModular(p, tick + 1);
    ModStep(tick - p.offsetTicks, p.Cycle());
  }

  /** The schedule repeats every cycle. */
  lemma PhaseAtPeriodic(p: Program, tick: nat)
    requires p.Valid()
    ensures PhaseAtElapsed(p, tick + p.Cycle()) == PhaseAtElapsed(p, tick)
  {
    CycleTickIsModular(p, tick);
    CycleTickIsModular(p, tick + p.Cycle());
    var c := p.Cycle();
    var a := tick - p.offsetTicks;
    assert a + c == (a / c + 1) * c + a % c;
    DivModUnique(a + c, a / c + 1, a % c, c);
  }

  /** Going back d ticks inside the running phase stays in that phase. */
  lemma {:induction false} PhaseRunsBackwards(p: Program, tick: nat, d: nat)
    requires p.Valid() && d <= tick && d <= PhaseAtElapsed(p, tick).elapsed
    ensures PhaseAtElapsed(p, tick - d) == At(PhaseAtElapsed(p, tick).phase, PhaseAtElapsed(p, tick).elapsed - d)
  {
    if d > 0 {
      PhaseRunsBackwards(p, tick, d - 1);
      var t := tick - d + 1;
      var now := PhaseAtElapsed(p, t);
      LocateInverse(p.phaseTicks, CycleTick(p, t));
      CycleTickStep(p, t - 1);
      assert CycleTick(p, t - 1) == Sum(p.phaseTicks[..now.phase]) + (now.elapsed - 1);
      PhaseAtPlacement(p, t - 1, now.phase, now.elapsed - 1);
    }
  }

  // ------------------------------------------------- each phase gets its own ticks

  /** Ticks of [from, from + n) at which the schedule shows phase i. */
  ghost function Shown(p: Program, i: nat, from: nat, n: nat): nat
    requires p.Valid()
  {
    if n == 0 then 0
    else Shown(p, i, from, n - 1) + if PhaseAtElapsed(p, from + n - 1).phase == i then 1 else 0
  }

  ghost function Located(ticks: seq<nat>, i: nat, n: nat): nat
    requires n <= Sum(ticks)
  {
    if n == 0 then 0
    else Located(ticks, i, n - 1) + if Locate(ticks, n - 1).phase == i then 1 else 0
  }

  lemma {:induction false} LocatedIsOverlap(ticks: seq<nat>, i: nat, n: nat)
    requires i < |ticks| && n <= Sum(ticks)
    ensures Located(ticks, i, n) ==
      var lo, hi := Sum(ticks[..i]), Sum(ticks[..i]) + ticks[i];
      if n <= lo then 0 else if n <= hi then n - lo else ticks[i]
  {
    if n > 0 {
      LocatedIsOverlap(ticks, i, n - 1);
      var r := Locate(ticks, n - 1);
      LocateInverse(ticks, n - 1);
      if Sum(ticks[..i]) <= n - 1 < Sum(ticks[..i]) + ticks[i] {
        LocateUnique(ticks, i, n - 1 - Sum(ticks[..i]));
      }
    }
  }

  lemma {:induction false} ShownSlides(p: Program, i: nat, from: nat)
    requires p.Valid()
    ensures Shown(p, i, from, p.Cycle()) == Shown(p, i, from + 1, p.Cycle())
  {
    SumPositive(p.phaseTicks);
    ShownDropFirst(p, i, from, p.Cycle());
    PhaseAtPeriodic(p, from);
  }

  lemma {:induction false} ShownDropFirst(p: Program, i: nat, from: nat, n: nat)
    requires p.Valid() && n > 0
    ensures Shown(p, i, from, n) ==
            Shown(p, i, from + 1, n - 1) + if PhaseAtElapsed(p, from).phase == i then 1 else 0
  {
    if n > 1 {
      ShownDropFirst(p, i, from, n - 1);
    }
  }

  lemma {:induction false} ShownFromOffset(p: Program, i: nat, n: nat)
    requires p.Valid() && i < |p.phaseTicks| && n <= p.Cycle()
    ensures Shown(p, i, p.offsetTicks, n) == Located(p.phaseTicks, i, n)
  {
    if n > 0 {
      ShownFromOffset(p, i, n - 1);
      CycleTickIsModular(p, p.offsetTicks + n - 1);
      DivModUnique(n - 1, 0, n - 1, p.Cycle());
    }
  }

  lemma {:induction false} ShownAnywhere(p: Program, i: nat, from: nat)
    requires p.Valid()
    ensures Shown(p, i, from, p.Cycle()) == Shown(p, i, p.offsetTicks, p.Cycle())
    decreases if from <= p.offsetTicks then p.offsetTicks - from else from - p.offsetTicks
  {
    if from < p.offsetTicks {
      ShownSlides(p, i, from);
      ShownAnywhere(p, i, from + 1);
    } else if from > p.offsetTicks {
      ShownSlides(p, i, from - 1);
      ShownAnywhere(p, i, from - 1);
    }
  }

  /** Whatever tick a window of one cycle starts at, phase i is shown on exactly
      phaseTicks[i] of its ticks. */
  lemma {:induction false} PhaseGetsItsTicks(p: Program, i: nat, from: nat)
    requires p.Valid() && i < |p.phaseTicks|
    ensures Shown(p, i, from, p.Cycle()) == p.phaseTicks[i]
  {
    ShownAnywhere(p, i, from);
    ShownFromOffset(p, i, p.Cycle());
    LocatedIsOverlap(p.phaseTicks, i, p.Cycle());
    SumTake(p.phaseTicks, i);
  }
}
