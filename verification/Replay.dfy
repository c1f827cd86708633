/** Replay of a recorded run: intents, spawn directives and signal verbs are handed over
    again before the tick that applied them, and nothing else is. */
module Replay {
  import D = Director
  import I = Intents
  import SC = SignalControl
  import SE = SignalEngine
  import SR = SignalReplay
  import opened TickEngine

  datatype RunLog = RunLog(
    intents: seq<I.TickedIntent>, spawns: seq<D.TickedSpawn>, signals: seq<SC.TickedSignal>, crcs: seq<nat>)

  function LogOf<W>(st: State<W>): RunLog {
    RunLog(st.intentLog, st.spawnLog, st.sigLog, st.crcs)
  }

  // ---------------------------------------------------------------- the record of one tick

  function IntentTick(e: I.TickedIntent): nat { e.tick }

  function SpawnTick(e: D.TickedSpawn): nat { e.tick }

  function SignalTick(e: SC.TickedSignal): nat { e.tick }

  /** The entries of a log at one tick, in log order. */
  function AtTick<T>(log: seq<T>, tickOf: T -> nat, tick: nat): (r: seq<T>)
    ensures forall i | 0 <= i < |r| :: tickOf(r[i]) == tick
  {
    if log == [] then []
    else
      var n := |log| - 1;
      AtTick(log[..n], tickOf, tick) + if tickOf(log[n]) == tick then [log[n]] else []
  }

  ghost predicate AllTicks<T>(log: seq<T>, tickOf: T -> nat, lo: nat, hi: nat) {
    forall i | 0 <= i < |log| :: lo <= tickOf(log[i]) <= hi
  }

  ghost predicate Chronological<T>(log: seq<T>, tickOf: T -> nat) {
    forall i, j | 0 <= i < j < |log| :: tickOf(log[i]) <= tickOf(log[j])
  }

  lemma {:induction false} AtTickAppends<T>(a: seq<T>, b: seq<T>, tickOf: T -> nat, tick: nat)
    ensures AtTick(a + b, tickOf, tick) == AtTick(a, tickOf, tick) + AtTick(b, tickOf, tick)
  {
    if b == [] {
      assert a + b == a;
    } else {
      var n := |b| - 1;
      AtTickAppends(a, b[..n], tickOf, tick);
      assert (a + b)[..|a + b| - 1] == a + b[..n];
    }
  }

  lemma {:induction false} AtTickAll<T>(log: seq<T>, tickOf: T -> nat, tick: nat)
    requires AllTicks(log, tickOf, tick, tick)
    ensures AtTick(log, tickOf, tick) == log
  {
    if log != [] {
      AtTickAll(log[..|log| - 1], tickOf, tick);
    }
  }

  lemma {:induction false} AtTickNone<T>(log: seq<T>, tickOf: T -> nat, lo: nat, hi: nat, tick: nat)
    requires AllTicks(log, tickOf, lo, hi) && (tick < lo || tick > hi)
    ensures AtTick(log, tickOf, tick) == []
  {
    if log != [] {
      AtTickNone(log[..|log| - 1], tickOf, lo, hi, tick);
    }
  }

  /** A log grows by the entries of each tick, so what it holds for a tick is what that tick
      added. */
  ghost predicate GrownBy<T>(before: seq<T>, added: seq<T>, later: seq<T>, tickOf: T -> nat, tick: nat, last: nat) {
    && tick > 0
    && AllTicks(before, tickOf, 0, tick - 1)
    && AllTicks(added, tickOf, tick, tick)
    && AllTicks(later, tickOf, tick + 1, last)
  }

  lemma AtTickOfGrown<T>(before: seq<T>, added: seq<T>, later: seq<T>, tickOf: T -> nat, tick: nat, last: nat)
    requires GrownBy(before, added, later, tickOf, tick, last)
    ensures AtTick(before + added + later, tickOf, tick) == added
  {
    AtTickAppends(before + added, later, tickOf, tick);
    AtTickAppends(before, added, tickOf, tick);
    AtTickNone(before, tickOf, 0, tick - 1, tick);
    AtTickNone(later, tickOf, tick + 1, last, tick);
    AtTickAll(added, tickOf, tick);
  }

  // ---------------------------------------------------------------- feeding a tick

  /** Replay stops at the first verb the engine refuses. */
  datatype Fed<W> = Fed(st: State<W>) | SpawnRefused(requestId: string) | SignalRefused(requestId: string)

  function FeedIntents<W>(st: State<W>, es: seq<I.TickedIntent>): State<W> {
    st.(intentQ := st.intentQ + I.Keyed(es))
  }

  function FeedSpawns<W>(plan: Plan, st: State<W>, es: seq<D.TickedSpawn>): (r: Fed<W>)
    requires plan.Valid()
    ensures r.Fed? ==> r.st.sigNew == st.sigNew
  {
    if es == [] then Fed(st)
    else
      var n := |es| - 1;
      var r := FeedSpawns(plan, st, es[..n]);
      if !r.Fed? then r
      else
        var v := D.Judge(plan.site, r.st.dirQueue, r.st.dirNew, es[n].directive);
        if v.Accepted? then Fed(r.st.(dirNew := r.st.dirNew + [v.spawn])) else SpawnRefused(es[n].directive.requestId)
  }

  function VerbOf(e: SC.TickedSignal): SE.Directive {
    SE.Directive(e.requestId, e.signal, e.phase, e.holdTicks)
  }

  function FeedSignals<W>(plan: Plan, st: State<W>, es: seq<SC.TickedSignal>): (r: Fed<W>)
    requires plan.Valid()
    ensures r.Fed? && SignalsInRange(plan.net, st.sigNew) ==> SignalsInRange(plan.net, r.st.sigNew)
  {
    if es == [] then Fed(st)
    else
      var n := |es| - 1;
      var r := FeedSignals(plan, st, es[..n]);
      if !r.Fed? then r
      else
        var v := SE.Judge(plan.net, r.st.sigNew, r.st.sigOv, VerbOf(es[n]));
        if v.Accepted? then Fed(r.st.(sigNew := r.st.sigNew + [v.ticked])) else SignalRefused(es[n].requestId)
  }

  /** Everything recorded for a tick: intents, then spawn directives, then signal verbs. */
  function FeedTick<W>(plan: Plan, st: State<W>, intents: seq<I.TickedIntent>, spawns: seq<D.TickedSpawn>, signals: seq<SC.TickedSignal>): (r: Fed<W>)
    requires plan.Valid()
    ensures r.Fed? && SignalsInRange(plan.net, st.sigNew) ==> SignalsInRange(plan.net, r.st.sigNew)
  {
    var r := FeedSpawns(plan, FeedIntents(st, intents), spawns);
    if !r.Fed? then r else FeedSignals(plan, r.st, signals)
  }

  /** The replayed engine after n ticks. */
  function ReplayTo<W>(plan: Plan, ph: Physics<W>, log: RunLog, n: nat): (r: Fed<W>)
    requires plan.Valid()
    ensures r.Fed? ==> SignalsInRange(plan.net, r.st.sigNew)
  {
    if n == 0 then Fed(TickEngine.Fresh(ph))
    else
      var r := ReplayTo(plan, ph, log, n - 1);
      if !r.Fed? then r
      else
        var f := FeedTick(plan, r.st, AtTick(log.intents, IntentTick, n), AtTick(log.spawns, SpawnTick, n), AtTick(log.signals, SignalTick, n));
        if !f.Fed? then f else Fed(StepState(plan, ph, f.st))
  }

  // ---------------------------------------------------------------- feeding reproduces the buffers

  lemma {:induction false} SpawnsFeed<W>(plan: Plan, st: State<W>, ds: seq<D.TickedSpawn>, now: nat, k: nat)
    requires plan.Valid() && st.dirNew == [] && k <= |ds| && SpawnsAccepted(plan.site, st.dirQueue, ds)
    ensures FeedSpawns(plan, st, D.Stamped(ds, now)[..k]) == Fed(st.(dirNew := ds[..k]))
  {
    hide D.Judge, SC.TableBounded;
    if k > 0 {
      var es := D.Stamped(ds, now);
      SpawnsFeed(plan, st, ds, now, k - 1);
      assert es[..k][..k - 1] == es[..k - 1];
      assert D.Judge(plan.site, st.dirQueue, ds[..k - 1], ds[k - 1].directive) == D.Accepted(ds[k - 1]);
      assert ds[..k] == ds[..k - 1] + [ds[k - 1]];
    } else {
      assert ds[..0] == [];
    }
  }

  ghost predicate Resubmitted(net: SC.Network, rs: seq<SC.TickedSignal>, es: seq<SC.TickedSignal>) {
    |es| == |rs| && forall k | 0 <= k < |rs| :: rs[k].signalIdx < |net.programs| && es[k] == SR.Resubmit(net, rs[k])
  }

  lemma RecordAccepted(net: SC.Network, ov: SC.Table, before: seq<SC.TickedSignal>, after: seq<SC.TickedSignal>, d: SC.TickedSignal, r: SC.TickedSignal)
    requires SignalAccepted(net, ov, before, d) && r == d.(tick := r.tick, holdTicks := r.holdTicks)
    requires |after| == |before| && forall k | 0 <= k < |before| :: after[k].requestId == before[k].requestId
    ensures SE.Judge(net, after, ov, VerbOf(r)) == SE.Accepted(SR.Resubmit(net, r))
  {
    forall k | 0 <= k < |after| ensures after[k].requestId != d.requestId {
      assert before[k].requestId != d.requestId;
    }
  }

  ghost predicate SameRequests(a: seq<SC.TickedSignal>, b: seq<SC.TickedSignal>) {
    |a| == |b| && forall k | 0 <= k < |b| :: a[k].requestId == b[k].requestId
  }

  lemma ResubmittedRequests(net: SC.Network, ds: seq<SC.TickedSignal>, rs: seq<SC.TickedSignal>, es: seq<SC.TickedSignal>, k: nat)
    requires SR.RecordsAlike(ds, rs) && k <= |ds| && Resubmitted(net, rs[..k], es)
    ensures SameRequests(es, ds[..k])
  {
    forall j | 0 <= j < k ensures es[j].requestId == ds[..k][j].requestId {
      assert rs[..k][j] == rs[j];
    }
  }

  lemma SignalFeeds<W>(plan: Plan, st: State<W>, ds: seq<SC.TickedSignal>, rs: seq<SC.TickedSignal>, k: nat, es: seq<SC.TickedSignal>)
    requires plan.Valid() && st.sigNew == [] && k < |ds| && SignalsAccepted(plan.net, st.sigOv, ds) && SR.RecordsAlike(ds, rs)
    requires FeedSignals(plan, st, rs[..k]) == Fed(st.(sigNew := es)) && Resubmitted(plan.net, rs[..k], es)
    ensures rs[k].signalIdx < |plan.net.programs|
    ensures FeedSignals(plan, st, rs[..k + 1]) == Fed(st.(sigNew := es + [SR.Resubmit(plan.net, rs[k])]))
  {
    hide SE.Judge, SR.Resubmit, SC.TableBounded;
    assert rs[..k + 1][..k] == rs[..k];
    assert SignalAccepted(plan.net, st.sigOv, ds[..k], ds[k]);
    ResubmittedRequests(plan.net, ds, rs, es, k);
    RecordAccepted(plan.net, st.sigOv, ds[..k], es, ds[k], rs[k]);
  }

  lemma FeedsNothing<W>(plan: Plan, st: State<W>)
    requires plan.Valid()
    ensures FeedSignals(plan, st, []) == Fed(st) && Resubmitted(plan.net, [], [])
  {
  }

  lemma ResubmittedGrows(net: SC.Network, rs: seq<SC.TickedSignal>, es: seq<SC.TickedSignal>, k: nat)
    requires k < |rs| && Resubmitted(net, rs[..k], es) && rs[k].signalIdx < |net.programs|
    ensures Resubmitted(net, rs[..k + 1], es + [SR.Resubmit(net, rs[k])])
  {
    forall j | 0 <= j < k + 1
      ensures rs[..k + 1][j].signalIdx < |net.programs| && (es + [SR.Resubmit(net, rs[k])])[j] == SR.Resubmit(net, rs[..k + 1][j])
    {
      if j < k {
        assert rs[..k + 1][j] == rs[..k][j];
      }
    }
  }

  lemma {:induction false} SignalsFeed<W>(plan: Plan, st: State<W>, ds: seq<SC.TickedSignal>, rs: seq<SC.TickedSignal>, k: nat)
    returns (es: seq<SC.TickedSignal>)
    requires plan.Valid() && st.sigNew == [] && k <= |ds| && SignalsAccepted(plan.net, st.sigOv, ds) && SR.RecordsAlike(ds, rs)
    ensures FeedSignals(plan, st, rs[..k]) == Fed(st.(sigNew := es))
    ensures Resubmitted(plan.net, rs[..k], es)
  {
    hide SR.Resubmit, SignalsAccepted, FeedSignals, Resubmitted;
    if k == 0 {
      es := [];
      FeedsNothing(plan, st);
      assert rs[..0] == [];
    } else {
      var fs := SignalsFeed(plan, st, ds, rs, k - 1);
      SignalFeeds(plan, st, ds, rs, k - 1, fs);
      es := fs + [SR.Resubmit(plan.net, rs[k - 1])];
      ResubmittedGrows(plan.net, rs, fs, k - 1);
    }
  }

  // ---------------------------------------------------------------- one tick replays

  lemma AcceptedDistinct(net: SC.Network, ov: SC.Table, ds: seq<SC.TickedSignal>)
    requires SignalsAccepted(net, ov, ds)
    ensures SR.DistinctIds(ds)
  {
    forall i, j | 0 <= i < j < |ds| ensures ds[i].requestId != ds[j].requestId {
      assert SignalAccepted(net, ov, ds[..j], ds[j]);
      assert ds[..j][i] == ds[i];
    }
  }

  /** Handing a settled engine the record of a tick fills its buffers with what filled them
      then: the same directives, the intents in arbitrated order, and signal verbs that
      install the same holds. */
  lemma TickFeeds<W>(plan: Plan, base: State<W>, st: State<W>) returns (es: seq<SC.TickedSignal>)
    requires Settled(plan, base) && Commanded(plan, base, st) && SignalsInRange(plan.net, st.sigNew)
    ensures SC.AllApplicable(plan.net, st.sigNew)
    ensures FeedTick(plan, base, NewIntents(st), NewSpawns(st), NewSignals(plan, st).applied)
            == Fed(base.(intentQ := I.Keyed(NewIntents(st)), dirNew := st.dirNew, sigNew := es))
    ensures SR.IsReplayOf(plan.net, base.sigOv, st.sigNew, es, base.tick + 1)
  {
    hide SC.ApplyAll, SC.TableBounded, SR.Resubmit, I.Arbitrate, D.Judge, FeedSpawns, FeedSignals;
    var now, rs := base.tick + 1, NewSignals(plan, st).applied;
    AcceptedApply(plan.net, st.sigOv, st.sigNew);
    AcceptedDistinct(plan.net, st.sigOv, st.sigNew);
    SR.RecordsAreAlike(plan.net, st.sigOv, st.sigNew, now);
    var fed := FeedIntents(base, NewIntents(st));
    SpawnsFeed(plan, fed, st.dirNew, now, |st.dirNew|);
    var ds := D.Stamped(st.dirNew, now);
    assert ds[..|st.dirNew|] == ds && st.dirNew[..|st.dirNew|] == st.dirNew;
    var fed' := fed.(dirNew := st.dirNew);
    es := SignalsFeed(plan, fed', st.sigNew, rs, |rs|);
    assert rs[..|rs|] == rs;
  }

  /** The replayed tick ends in the same state - world, queues, override table, counters,
      logs and checksum. */
  lemma TickReplays<W>(plan: Plan, ph: Physics<W>, base: State<W>, st: State<W>)
    requires Settled(plan, base) && Commanded(plan, base, st) && SignalsInRange(plan.net, st.sigNew)
    ensures var f := FeedTick(plan, base, NewIntents(st), NewSpawns(st), NewSignals(plan, st).applied);
      f.Fed? && SignalsInRange(plan.net, f.st.sigNew) && StepState(plan, ph, f.st) == StepState(plan, ph, st)
  {
    hide SC.ApplyAll, SC.TableBounded, I.Arbitrate, I.ApplyWinners, D.Drain, SR.IsReplayOf, FeedTick, SpawnsAccepted, SignalsAccepted, SC.AllApplicable;
    var es := TickFeeds(plan, base, st);
    AcceptedDistinct(plan.net, st.sigOv, st.sigNew);
    SR.BatchReplays(plan.net, base.sigOv, st.sigNew, es, base.tick + 1);
    I.ArbitrateReplays(st.intentQ, base.tick + 1);
    ApplicableInRange(plan.net, es);
  }

  lemma ApplicableInRange(net: SC.Network, es: seq<SC.TickedSignal>)
    requires SC.AllApplicable(net, es)
    ensures SignalsInRange(net, es)
  {
  }

  // ---------------------------------------------------------------- the whole run replays

  /** The entries of three logs lie within some ticks. */
  ghost predicate LogWithin(log: RunLog, lo: nat, hi: nat) {
    && AllTicks(log.intents, IntentTick, lo, hi)
    && AllTicks(log.spawns, SpawnTick, lo, hi)
    && AllTicks(log.signals, SignalTick, lo, hi)
  }

  function Joined(a: RunLog, b: RunLog): RunLog {
    RunLog(a.intents + b.intents, a.spawns + b.spawns, a.signals + b.signals, a.crcs + b.crcs)
  }

  /** What one tick adds to the logs. */
  function NewLog<W>(plan: Plan, ph: Physics<W>, st: State<W>): RunLog
    requires SignalsInRange(plan.net, st.sigNew)
  {
    RunLog(NewIntents(st), NewSpawns(st), NewSignals(plan, st).applied, StepState(plan, ph, st).crcs[|st.crcs|..])
  }

  lemma StepAddsLog<W>(plan: Plan, ph: Physics<W>, st: State<W>)
    requires SignalsInRange(plan.net, st.sigNew)
    ensures LogOf(StepState(plan, ph, st)) == Joined(LogOf(st), NewLog(plan, ph, st))
  {
    hide SC.ApplyAll, I.Arbitrate, I.SortStable, D.Stamped, D.Drain, SC.StepTable, I.ApplyWinners;
  }

  lemma NewLogTicks<W>(plan: Plan, ph: Physics<W>, st: State<W>)
    requires SignalsInRange(plan.net, st.sigNew) && SC.AllApplicable(plan.net, st.sigNew)
    requires plan.net.Valid() && SC.TableBounded(plan.net, st.sigOv, st.tick) && SR.DistinctIds(st.sigNew)
    ensures LogWithin(NewLog(plan, ph, st), st.tick + 1, st.tick + 1)
  {
    hide SC.TableBounded, SC.ApplyAll, I.SortStable, StepState, SC.AllApplicable, SR.DistinctIds;
    SR.RecordsAreAlike(plan.net, st.sigOv, st.sigNew, st.tick + 1);
  }

  lemma StepLogs<W>(plan: Plan, ph: Physics<W>, base: State<W>, st: State<W>)
    requires Settled(plan, base) && Commanded(plan, base, st) && SignalsInRange(plan.net, st.sigNew)
    ensures LogOf(StepState(plan, ph, st)) == Joined(LogOf(base), NewLog(plan, ph, st))
    ensures LogWithin(NewLog(plan, ph, st), base.tick + 1, base.tick + 1)
  {
    hide SC.TableBounded, SpawnsAccepted, SignalsAccepted, StepState, LogWithin, NewLog;
    AcceptedApply(plan.net, st.sigOv, st.sigNew);
    AcceptedDistinct(plan.net, st.sigOv, st.sigNew);
    StepAddsLog(plan, ph, st);
    NewLogTicks(plan, ph, st);
  }

  lemma JoinedAssociates(a: RunLog, b: RunLog, c: RunLog)
    ensures Joined(Joined(a, b), c) == Joined(a, Joined(b, c))
  {
    assert (a.intents + b.intents) + c.intents == a.intents + (b.intents + c.intents);
    assert (a.spawns + b.spawns) + c.spawns == a.spawns + (b.spawns + c.spawns);
    assert (a.signals + b.signals) + c.signals == a.signals + (b.signals + c.signals);
    assert (a.crcs + b.crcs) + c.crcs == a.crcs + (b.crcs + c.crcs);
  }

  /** The last tick of a run, taken apart. */
  lemma LastTick<W>(plan: Plan, ph: Physics<W>, batches: seq<seq<Command>>) returns (base: State<W>, st: State<W>)
    requires plan.Valid() && batches != []
    ensures base == RunState(plan, ph, batches[..|batches| - 1]) && base.tick == |batches| - 1
    ensures Settled(plan, base) && Commanded(plan, base, st) && SignalsInRange(plan.net, st.sigNew)
    ensures RunState(plan, ph, batches) == StepState(plan, ph, st)
  {
    hide SC.TableBounded;
    var n := |batches| - 1;
    base := RunState(plan, ph, batches[..n]);
    st := EnqueueAll(plan, base, batches[n]);
    RunSettles(plan, ph, batches[..n]);
    EnqueueAllCommands(plan, base, batches[n]);
  }

  lemma RunOfNothing<W>(plan: Plan, ph: Physics<W>)
    requires plan.Valid()
    ensures RunState(plan, ph, []) == TickEngine.Fresh(ph)
  {
  }

  lemma {:induction false} RunLogWithin<W>(plan: Plan, ph: Physics<W>, batches: seq<seq<Command>>)
    requires plan.Valid()
    ensures LogWithin(LogOf(RunState(plan, ph, batches)), 0, |batches|)
  {
    hide SC.TableBounded, RunState, StepState, NewIntents, NewSpawns, NewSignals, EnqueueAll, SpawnsAccepted, SignalsAccepted;
    if batches == [] {
      RunOfNothing(plan, ph);
    } else {
      RunLogWithin(plan, ph, batches[..|batches| - 1]);
      var base, st := LastTick(plan, ph, batches);
      StepLogs(plan, ph, base, st);
    }
  }

  /** The logs of a longer run extend those of its beginning, by later entries only. */
  lemma {:induction false} RunLogs<W>(plan: Plan, ph: Physics<W>, batches: seq<seq<Command>>, n: nat) returns (later: RunLog)
    requires plan.Valid() && n <= |batches|
    ensures LogOf(RunState(plan, ph, batches)) == Joined(LogOf(RunState(plan, ph, batches[..n])), later)
    ensures LogWithin(later, n + 1, |batches|)
    decreases |batches|
  {
    hide SC.TableBounded, RunState, StepState, NewIntents, NewSpawns, NewSignals, EnqueueAll, SpawnsAccepted, SignalsAccepted;
    if n == |batches| {
      later := RunLog([], [], [], []);
      assert batches[..n] == batches;
    } else {
      var prev := batches[..|batches| - 1];
      assert prev[..n] == batches[..n];
      var l := RunLogs(plan, ph, prev, n);
      var base, st := LastTick(plan, ph, batches);
      StepLogs(plan, ph, base, st);
      JoinedAssociates(LogOf(RunState(plan, ph, batches[..n])), l, NewLog(plan, ph, st));
      later := Joined(l, NewLog(plan, ph, st));
    }
  }

  /** The record of tick n in the log of a run is what tick n added. */
  lemma TickOfLog<W>(plan: Plan, ph: Physics<W>, batches: seq<seq<Command>>, n: nat, base: State<W>, st: State<W>)
    requires plan.Valid() && 0 < n <= |batches|
    requires base == RunState(plan, ph, batches[..n - 1]) && base.tick == n - 1
    requires Settled(plan, base) && Commanded(plan, base, st) && SignalsInRange(plan.net, st.sigNew)
    requires RunState(plan, ph, batches[..n]) == StepState(plan, ph, st)
    ensures var log := LogOf(RunState(plan, ph, batches));
      && AtTick(log.intents, IntentTick, n) == NewIntents(st)
      && AtTick(log.spawns, SpawnTick, n) == NewSpawns(st)
      && AtTick(log.signals, SignalTick, n) == NewSignals(plan, st).applied
  {
    hide SC.TableBounded, RunState, StepState, NewIntents, NewSpawns, NewSignals, EnqueueAll, SpawnsAccepted, SignalsAccepted;
    var later := RunLogs(plan, ph, batches, n);
    StepLogs(plan, ph, base, st);
    RunLogWithin(plan, ph, batches[..n - 1]);
    var before, added := LogOf(base), NewLog(plan, ph, st);
    AtTickOfGrown(before.intents, added.intents, later.intents, IntentTick, n, |batches|);
    AtTickOfGrown(before.spawns, added.spawns, later.spawns, SpawnTick, n, |batches|);
    AtTickOfGrown(before.signals, added.signals, later.signals, SignalTick, n, |batches|);
  }

  /** Replaying the log of any run is never refused, and after every tick the replayed
      engine is in the very state - world, queues, override table, logs, checksums - the
      recorded one was in. */
  lemma {:induction false} RunReplays<W>(plan: Plan, ph: Physics<W>, batches: seq<seq<Command>>, n: nat)
    requires plan.Valid() && n <= |batches|
    ensures ReplayTo(plan, ph, LogOf(RunState(plan, ph, batches)), n) == Fed(RunState(plan, ph, batches[..n]))
    decreases n
  {
    hide SC.TableBounded, RunState, StepState, NewIntents, NewSpawns, NewSignals, EnqueueAll, SpawnsAccepted, SignalsAccepted, AtTick, FeedTick;
    if n == 0 {
      assert batches[..0] == [];
      RunOfNothing(plan, ph);
    } else {
      RunReplays(plan, ph, batches, n - 1);
      var prefix := batches[..n];
      assert prefix[..n - 1] == batches[..n - 1];
      var base, st := LastTick(plan, ph, prefix);
      TickOfLog(plan, ph, batches, n, base, st);
      TickReplays(plan, ph, base, st);
    }
  }
}
