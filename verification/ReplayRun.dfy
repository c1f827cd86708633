/** The replay loop: three cursors over the logs, driving a fresh engine. */
module ReplayRun {
  import D = Director
  import G = LaneGraph
  import I = Intents
  import SC = SignalControl
  import SE = SignalEngine
  import opened TickEngine
  import opened Replay
  import E = Engine

  datatype Outcome =
    | Reproduced(relog: RunLog)
    | RefusedSpawn(requestId: string)
    | RefusedSignal(requestId: string)
    | WrongLength
    | Diverged(tick: nat)

  ghost predicate FirstDifference(a: seq<nat>, b: seq<nat>, i: nat) {
    i < |a| && i < |b| && a[i] != b[i] && a[..i] == b[..i]
  }

  /** What a replay of a log over `ticks` ticks reports. */
  ghost predicate Reports<W>(plan: Plan, ph: Physics<W>, log: RunLog, ticks: nat, r: Outcome)
    requires plan.Valid()
  {
    match ReplayTo(plan, ph, log, ticks)
    case SpawnRefused(id) => r == RefusedSpawn(id)
    case SignalRefused(id) => r == RefusedSignal(id)
    case Fed(st) =>
      if |st.crcs| != |log.crcs| then r == WrongLength
      else if st.crcs == log.crcs then r == Reproduced(LogOf(st))
      else r.Diverged? && r.tick > 0 && FirstDifference(st.crcs, log.crcs, r.tick - 1)
  }

  // ---------------------------------------------------------------- cursors

  /** Entries before the cursor were due by `tick`. */
  ghost predicate Passed<T>(log: seq<T>, tickOf: T -> nat, i: nat, tick: nat) {
    i <= |log| && forall k | 0 <= k < i :: tickOf(log[k]) <= tick
  }

  lemma NothingYet<T>(log: seq<T>, tickOf: T -> nat, i: nat, tick: nat)
    requires Passed(log, tickOf, i, tick)
    ensures i <= |log| && Passed(log, tickOf, i, tick + 1)
    ensures AtTick(log[..i], tickOf, tick + 1) == []
  {
    AtTickNone(log[..i], tickOf, 0, tick, tick + 1);
  }

  lemma NothingMore<T>(log: seq<T>, tickOf: T -> nat, i: nat, tick: nat)
    requires Chronological(log, tickOf) && i <= |log| && (i < |log| ==> tickOf(log[i]) > tick)
    ensures AtTick(log, tickOf, tick) == AtTick(log[..i], tickOf, tick)
  {
    var rest := log[i..];
    assert log == log[..i] + rest;
    AtTickAppends(log[..i], rest, tickOf, tick);
    if rest != [] {
      forall k | 0 <= k < |rest| ensures tickOf(rest[k]) >= tickOf(log[i]) {
        assert rest[k] == log[i + k];
      }
      var hi := tickOf(rest[|rest| - 1]);
      forall k | 0 <= k < |rest| ensures tickOf(rest[k]) <= hi {
        assert rest[k] == log[i + k] && rest[|rest| - 1] == log[|log| - 1];
      }
      AtTickNone(rest, tickOf, tick + 1, hi, tick);
    }
  }

  lemma NextEntry<T>(log: seq<T>, tickOf: T -> nat, i: nat, tick: nat)
    requires i < |log|
    ensures AtTick(log[..i + 1], tickOf, tick) == AtTick(log[..i], tickOf, tick) + if tickOf(log[i]) == tick then [log[i]] else []
    ensures Passed(log, tickOf, i, tick) && tickOf(log[i]) <= tick ==> Passed(log, tickOf, i + 1, tick)
  {
    assert log[..i + 1][..i] == log[..i];
  }

  lemma {:induction false} RefusedSpawnsStay<W>(plan: Plan, st: State<W>, a: seq<D.TickedSpawn>, b: seq<D.TickedSpawn>)
    requires plan.Valid() && !FeedSpawns(plan, st, a).Fed?
    ensures FeedSpawns(plan, st, a + b) == FeedSpawns(plan, st, a)
  {
    if b == [] {
      assert a + b == a;
    } else {
      RefusedSpawnsStay(plan, st, a, b[..|b| - 1]);
      assert (a + b)[..|a + b| - 1] == a + b[..|b| - 1];
    }
  }

  lemma {:induction false} RefusedSignalsStay<W>(plan: Plan, st: State<W>, a: seq<SC.TickedSignal>, b: seq<SC.TickedSignal>)
    requires plan.Valid() && !FeedSignals(plan, st, a).Fed?
    ensures FeedSignals(plan, st, a + b) == FeedSignals(plan, st, a)
  {
    if b == [] {
      assert a + b == a;
    } else {
      RefusedSignalsStay(plan, st, a, b[..|b| - 1]);
      assert (a + b)[..|a + b| - 1] == a + b[..|b| - 1];
    }
  }

  lemma FeedOneIntent<W>(plan: Plan, st: State<W>, es: seq<I.TickedIntent>, x: I.TickedIntent)
    requires plan.Valid()
    ensures FeedIntents(st, es + [x]) == Enqueue(plan, FeedIntents(st, es), Drive(x.keyed))
  {
    assert I.Keyed(es + [x]) == I.Keyed(es) + [x.keyed];
  }

  lemma FeedNoIntents<W>(st: State<W>)
    ensures FeedIntents(st, []) == st
  {
  }

  lemma FeedOneSpawn<W>(plan: Plan, st: State<W>, es: seq<D.TickedSpawn>, x: D.TickedSpawn, cur: State<W>)
    requires plan.Valid() && FeedSpawns(plan, st, es) == Fed(cur)
    ensures FeedSpawns(plan, st, es + [x])
      == if D.Judge(plan.site, cur.dirQueue, cur.dirNew, x.directive).Accepted? then Fed(Enqueue(plan, cur, Spawn(x.directive)))
         else SpawnRefused(x.directive.requestId)
  {
    hide D.Judge, SC.TableBounded;
    assert (es + [x])[..|es|] == es;
  }

  lemma FeedOneSignal<W>(plan: Plan, st: State<W>, es: seq<SC.TickedSignal>, x: SC.TickedSignal, cur: State<W>)
    requires plan.Valid() && FeedSignals(plan, st, es) == Fed(cur)
    ensures FeedSignals(plan, st, es + [x])
      == if SE.Judge(plan.net, cur.sigNew, cur.sigOv, VerbOf(x)).Accepted? then Fed(Enqueue(plan, cur, Signal(VerbOf(x))))
         else SignalRefused(x.requestId)
  {
    hide SE.Judge, SC.TableBounded;
    assert (es + [x])[..|es|] == es;
  }

  lemma FeedNoSpawns<W>(plan: Plan, st: State<W>)
    requires plan.Valid()
    ensures FeedSpawns(plan, st, []) == Fed(st) && FeedSignals(plan, st, []) == Fed(st)
  {
  }

  // ---------------------------------------------------------------- one tick

  method HandIntents<W>(e: E.Engine<W>, log: seq<I.TickedIntent>, from: nat) returns (next: nat)
    requires e.Valid() && Passed(log, IntentTick, from, e.tick) && Chronological(log, IntentTick)
    modifies e.intents
    ensures e.Valid() && Passed(log, IntentTick, next, e.tick + 1)
    ensures e.View() == FeedIntents(old(e.View()), AtTick(log, IntentTick, e.tick + 1))
  {
    hide D.QueueInv, SC.TableBounded, D.Judge, SE.Judge, AtTick, D.CountAll, SC.AllApplicable, Passed, Chronological, FeedIntents, Enqueue;
    next := from;
    NothingYet(log, IntentTick, next, e.tick);
    FeedNoIntents(e.View());
    ghost var handed := AtTick(log[..next], IntentTick, e.tick + 1);
    while next < |log| && log[next].tick <= e.tick + 1
      invariant e.Valid() && next <= |log| && Passed(log, IntentTick, next, e.tick + 1)
      invariant handed == AtTick(log[..next], IntentTick, e.tick + 1)
      invariant e.View() == FeedIntents(old(e.View()), handed)
      decreases |log| - next
    {
      NextEntry(log, IntentTick, next, e.tick + 1);
      if log[next].tick == e.tick + 1 {
        FeedOneIntent(e.plan, old(e.View()), handed, log[next]);
        e.EnqueueIntent(log[next].keyed);
      }
      next := next + 1;
      assert handed + [] == handed;
      handed := AtTick(log[..next], IntentTick, e.tick + 1);
    }
    NothingMore(log, IntentTick, next, e.tick + 1);
  }

  method HandSpawns<W>(e: E.Engine<W>, log: seq<D.TickedSpawn>, from: nat) returns (next: nat, refused: G.Option<string>)
    requires e.Valid() && Passed(log, SpawnTick, from, e.tick) && Chronological(log, SpawnTick)
    modifies e.director
    ensures e.Valid()
    ensures var f := FeedSpawns(e.plan, old(e.View()), AtTick(log, SpawnTick, e.tick + 1));
      if refused.None? then f == Fed(e.View()) && Passed(log, SpawnTick, next, e.tick + 1)
      else f == SpawnRefused(refused.value)
  {
    hide D.QueueInv, SC.TableBounded, D.Judge, SE.Judge, AtTick, D.CountAll, SC.AllApplicable, Passed, Chronological, FeedSpawns, Enqueue;
    next := from;
    NothingYet(log, SpawnTick, next, e.tick);
    FeedNoSpawns(e.plan, e.View());
    ghost var handed := AtTick(log[..next], SpawnTick, e.tick + 1);
    while next < |log| && log[next].tick <= e.tick + 1
      invariant e.Valid() && next <= |log| && Passed(log, SpawnTick, next, e.tick + 1)
      invariant handed == AtTick(log[..next], SpawnTick, e.tick + 1)
      invariant FeedSpawns(e.plan, old(e.View()), handed) == Fed(e.View())
      decreases |log| - next
    {
      NextEntry(log, SpawnTick, next, e.tick + 1);
      if log[next].tick == e.tick + 1 {
        FeedOneSpawn(e.plan, old(e.View()), handed, log[next], e.View());
        var v := e.EnqueueSpawn(log[next].directive);
        if v.Refused? {
          RefusedFirst(e.plan, old(e.View()), log, next, e.tick + 1);
          return next, G.Some(log[next].directive.requestId);
        }
      }
      next := next + 1;
      assert handed + [] == handed;
      handed := AtTick(log[..next], SpawnTick, e.tick + 1);
    }
    NothingMore(log, SpawnTick, next, e.tick + 1);
    refused := G.None;
  }

  lemma RefusedFirst<W>(plan: Plan, st: State<W>, log: seq<D.TickedSpawn>, i: nat, tick: nat)
    requires plan.Valid() && i < |log| && log[i].tick == tick
    requires !FeedSpawns(plan, st, AtTick(log[..i], SpawnTick, tick) + [log[i]]).Fed?
    ensures FeedSpawns(plan, st, AtTick(log, SpawnTick, tick)) == FeedSpawns(plan, st, AtTick(log[..i], SpawnTick, tick) + [log[i]])
  {
    NextEntry(log, SpawnTick, i, tick);
    assert log == log[..i + 1] + log[i + 1..];
    AtTickAppends(log[..i + 1], log[i + 1..], SpawnTick, tick);
    RefusedSpawnsStay(plan, st, AtTick(log[..i + 1], SpawnTick, tick), AtTick(log[i + 1..], SpawnTick, tick));
  }

  method HandSignals<W>(e: E.Engine<W>, log: seq<SC.TickedSignal>, from: nat) returns (next: nat, refused: G.Option<string>)
    requires e.Valid() && Passed(log, SignalTick, from, e.tick) && Chronological(log, SignalTick)
    modifies e.signals
    ensures e.Valid()
    ensures var f := FeedSignals(e.plan, old(e.View()), AtTick(log, SignalTick, e.tick + 1));
      if refused.None? then f == Fed(e.View()) && Passed(log, SignalTick, next, e.tick + 1)
      else f == SignalRefused(refused.value)
  {
    hide D.QueueInv, SC.TableBounded, D.Judge, SE.Judge, AtTick, D.CountAll, SC.AllApplicable, Passed, Chronological, FeedSignals, Enqueue;
    next := from;
    NothingYet(log, SignalTick, next, e.tick);
    FeedNoSpawns(e.plan, e.View());
    ghost var handed := AtTick(log[..next], SignalTick, e.tick + 1);
    while next < |log| && log[next].tick <= e.tick + 1
      invariant e.Valid() && next <= |log| && Passed(log, SignalTick, next, e.tick + 1)
      invariant handed == AtTick(log[..next], SignalTick, e.tick + 1)
      invariant FeedSignals(e.plan, old(e.View()), handed) == Fed(e.View())
      decreases |log| - next
    {
      NextEntry(log, SignalTick, next, e.tick + 1);
      if log[next].tick == e.tick + 1 {
        FeedOneSignal(e.plan, old(e.View()), handed, log[next], e.View());
        var v := e.EnqueueSignal(VerbOf(log[next]));
        if !v.Accepted? {
          RefusedFirstSignal(e.plan, old(e.View()), log, next, e.tick + 1);
          return next, G.Some(log[next].requestId);
        }
      }
      next := next + 1;
      assert handed + [] == handed;
      handed := AtTick(log[..next], SignalTick, e.tick + 1);
    }
    NothingMore(log, SignalTick, next, e.tick + 1);
    refused := G.None;
  }

  lemma RefusedFirstSignal<W>(plan: Plan, st: State<W>, log: seq<SC.TickedSignal>, i: nat, tick: nat)
    requires plan.Valid() && i < |log| && log[i].tick == tick
    requires !FeedSignals(plan, st, AtTick(log[..i], SignalTick, tick) + [log[i]]).Fed?
    ensures FeedSignals(plan, st, AtTick(log, SignalTick, tick)) == FeedSignals(plan, st, AtTick(log[..i], SignalTick, tick) + [log[i]])
  {
    NextEntry(log, SignalTick, i, tick);
    assert log == log[..i + 1] + log[i + 1..];
    AtTickAppends(log[..i + 1], log[i + 1..], SignalTick, tick);
    RefusedSignalsStay(plan, st, AtTick(log[..i + 1], SignalTick, tick), AtTick(log[i + 1..], SignalTick, tick));
  }

  // ---------------------------------------------------------------- the loop

  ghost predicate Due(log: RunLog, ii: nat, si: nat, gi: nat, tick: nat) {
    Passed(log.intents, IntentTick, ii, tick) && Passed(log.spawns, SpawnTick, si, tick) && Passed(log.signals, SignalTick, gi, tick)
  }

  ghost predicate InOrder(log: RunLog) {
    Chronological(log.intents, IntentTick) && Chronological(log.spawns, SpawnTick) && Chronological(log.signals, SignalTick)
  }

  ghost function FeedNext<W>(plan: Plan, st: State<W>, log: RunLog): (r: Fed<W>)
    requires plan.Valid()
    ensures r.Fed? && SignalsInRange(plan.net, st.sigNew) ==> SignalsInRange(plan.net, r.st.sigNew)
  {
    var n := st.tick + 1;
    FeedTick(plan, st, AtTick(log.intents, IntentTick, n), AtTick(log.spawns, SpawnTick, n), AtTick(log.signals, SignalTick, n))
  }

  /** Everything recorded for the next tick is handed over, up to the first refusal. */
  method HandTick<W>(e: E.Engine<W>, log: RunLog, ii0: nat, si0: nat, gi0: nat)
    returns (ii: nat, si: nat, gi: nat, refused: G.Option<Outcome>)
    requires e.Valid() && InOrder(log) && Due(log, ii0, si0, gi0, e.tick)
    modifies e.intents, e.director, e.signals
    ensures e.Valid()
    ensures match FeedNext(e.plan, old(e.View()), log)
      case Fed(st) => refused.None? && e.View() == st && Due(log, ii, si, gi, e.tick + 1)
      case SpawnRefused(id) => refused == G.Some(RefusedSpawn(id))
      case SignalRefused(id) => refused == G.Some(RefusedSignal(id))
  {
    hide D.QueueInv, SC.TableBounded, AtTick, FeedSpawns, FeedSignals, FeedIntents, D.CountAll, SC.AllApplicable, Passed, Chronological;
    ii := HandIntents(e, log.intents, ii0);
    si, gi := si0, gi0;
    var id;
    si, id := HandSpawns(e, log.spawns, si0);
    if id.Some? {
      refused := G.Some(RefusedSpawn(id.value));
      return;
    }
    gi, id := HandSignals(e, log.signals, gi0);
    refused := if id.Some? then G.Some(RefusedSignal(id.value)) else G.None;
  }

  lemma ReplayTick<W>(plan: Plan, ph: Physics<W>, log: RunLog, n: nat, st: State<W>)
    requires plan.Valid() && ReplayTo(plan, ph, log, n) == Fed(st) && st.tick == n
    ensures SignalsInRange(plan.net, st.sigNew)
    ensures ReplayTo(plan, ph, log, n + 1)
      == match FeedNext(plan, st, log)
         case Fed(fed) => Fed(StepState(plan, ph, fed))
         case SpawnRefused(id) => SpawnRefused(id)
         case SignalRefused(id) => SignalRefused(id)
  {
    hide FeedTick, AtTick, StepState, SC.TableBounded;
  }

  lemma {:induction false} RefusedForGood<W>(plan: Plan, ph: Physics<W>, log: RunLog, n: nat, m: nat)
    requires plan.Valid() && n <= m && !ReplayTo(plan, ph, log, n).Fed?
    ensures ReplayTo(plan, ph, log, m) == ReplayTo(plan, ph, log, n)
  {
    hide FeedTick, AtTick, StepState, SC.TableBounded;
    if n < m {
      RefusedForGood(plan, ph, log, n, m - 1);
    }
  }

  /** The replayed engine's checksums against the recorded ones. */
  method Compare(a: seq<nat>, b: seq<nat>, relog: RunLog) returns (r: Outcome)
    ensures if |a| != |b| then r == WrongLength
      else if a == b then r == Reproduced(relog)
      else r.Diverged? && r.tick > 0 && FirstDifference(a, b, r.tick - 1)
  {
    if |a| != |b| {
      return WrongLength;
    }
    for i := 0 to |b|
      invariant a[..i] == b[..i]
    {
      if a[i] != b[i] {
        return Diverged(i + 1);
      }
    }
    assert a[..|a|] == a && b[..|b|] == b;
    r := Reproduced(relog);
  }

  /** Re-executes a recorded run. */
  method RunReplay<W>(plan: Plan, physics: Physics<W>, log: RunLog, ticks: nat) returns (r: Outcome)
    requires plan.Valid() && InOrder(log)
    ensures Reports(plan, physics, log, ticks, r)
  {
    hide D.QueueInv, SC.TableBounded, FeedNext, StepState, ReplayTo, D.CountAll, SC.AllApplicable, InOrder, Due;
    var e := new E.Engine<W>(plan, physics);
    ReplayStarts(plan, physics, log);
    var ii, si, gi := 0, 0, 0;
    while e.tick < ticks
      invariant fresh(e) && fresh(e.intents) && fresh(e.director) && fresh(e.signals)
      invariant e.Valid() && e.plan == plan && e.physics == physics && e.tick <= ticks
      invariant Due(log, ii, si, gi, e.tick)
      invariant ReplayTo(plan, physics, log, e.tick) == Fed(e.View())
      decreases ticks - e.tick
    {
      ReplayTick(plan, physics, log, e.tick, e.View());
      var refused;
      ghost var n := e.tick;
      ii, si, gi, refused := HandTick(e, log, ii, si, gi);
      if refused.Some? {
        RefusedForGood(plan, physics, log, n + 1, ticks);
        return refused.value;
      }
      e.Step();
    }
    r := Compare(e.crcs, log.crcs, RunLog(e.intents.intentLog, e.director.spawnLog, e.signals.sigLog, e.crcs));
  }

  lemma ReplayStarts<W>(plan: Plan, ph: Physics<W>, log: RunLog)
    requires plan.Valid()
    ensures ReplayTo(plan, ph, log, 0) == Fed(TickEngine.Fresh(ph)) && Due(log, 0, 0, 0, 0)
  {
  }

  /** Whatever commands a run was given, replaying its log reproduces it: never a refusal,
      never a divergence, and the same log again. */
  lemma RunReproduced<W>(plan: Plan, ph: Physics<W>, batches: seq<seq<Command>>, r: Outcome)
    requires plan.Valid()
    requires Reports(plan, ph, LogOf(RunState(plan, ph, batches)), |batches|, r)
    ensures r == Reproduced(LogOf(RunState(plan, ph, batches)))
  {
    hide ReplayTo, RunState, SC.TableBounded;
    RunReplays(plan, ph, batches, |batches|);
    assert batches[..|batches|] == batches;
  }
}
