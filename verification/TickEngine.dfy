/** The tick: fixed phase order over the director queue, the signal override table and the
    intent queue. The physics between those phases is a deterministic function of the state. */
module TickEngine {
  import D = Director
  import G = LaneGraph
  import I = Intents
  import SC = SignalControl
  import SE = SignalEngine

  /** The parts of a tick that no command touches, in phase order. `start` is the world a
      fresh engine builds. */
  datatype Physics<!W> = Physics(
    start: W,
    begin: (W, SC.Table, nat) -> W,
    attempt: (W, SC.Table, nat, D.TickedSpawn) -> G.Option<W>,
    applyIntent: (W, nat, I.Intent) -> W,
    finish: (W, SC.Table, nat) -> W,
    crc: (nat, W, seq<D.TickedSpawn>, SC.Table, nat) -> nat)

  /** What commands are resolved against. */
  datatype Plan = Plan(site: D.Site, net: SC.Network) {
    ghost predicate Valid() {
      site.Valid() && net.Valid()
    }
  }

  datatype State<W> = State(
    tick: nat, world: W,
    dirQueue: seq<D.TickedSpawn>, dirNew: seq<D.TickedSpawn>, tally: D.Tally, spawnLog: seq<D.TickedSpawn>,
    sigOv: SC.Table, sigNew: seq<SC.TickedSignal>, sigLog: seq<SC.TickedSignal>,
    intentQ: seq<I.KeyedIntent>, intentLog: seq<I.TickedIntent>,
    crcs: seq<nat>)

  datatype Command =
    | Drive(k: I.KeyedIntent)
    | Spawn(d: D.SpawnDirective)
    | Signal(v: SE.Directive)

  predicate SignalsInRange(net: SC.Network, ds: seq<SC.TickedSignal>) {
    forall i | 0 <= i < |ds| :: ds[i].signalIdx < |net.programs|
  }

  function Fresh<W>(ph: Physics<W>): State<W> {
    State(0, ph.start, [], [], D.NO_TALLY, [], map[], [], [], [], [], [])
  }

  /** A command handed over between ticks; a refused one leaves the state as it was. */
  function Enqueue<W>(plan: Plan, st: State<W>, c: Command): (r: State<W>)
    requires plan.Valid()
    ensures SignalsInRange(plan.net, st.sigNew) ==> SignalsInRange(plan.net, r.sigNew)
  {
    match c
    case Drive(k) => st.(intentQ := st.intentQ + [k])
    case Spawn(d) =>
      var v := D.Judge(plan.site, st.dirQueue, st.dirNew, d);
      if v.Accepted? then st.(dirNew := st.dirNew + [v.spawn]) else st
    case Signal(s) =>
      var v := SE.Judge(plan.net, st.sigNew, st.sigOv, s);
      if v.Accepted? then st.(sigNew := st.sigNew + [v.ticked]) else st
  }

  function EnqueueAll<W>(plan: Plan, st: State<W>, cs: seq<Command>): (r: State<W>)
    requires plan.Valid()
    ensures SignalsInRange(plan.net, st.sigNew) ==> SignalsInRange(plan.net, r.sigNew)
  {
    if cs == [] then st else Enqueue(plan, EnqueueAll(plan, st, cs[..|cs| - 1]), cs[|cs| - 1])
  }

  // ---------------------------------------------------------------- one tick

  function NewSpawns<W>(st: State<W>): seq<D.TickedSpawn> {
    D.Stamped(st.dirNew, st.tick + 1)
  }

  function NewSignals<W>(plan: Plan, st: State<W>): SC.Folded
    requires SignalsInRange(plan.net, st.sigNew)
  {
    SC.ApplyAll(plan.net, st.sigOv, st.sigNew, st.tick + 1)
  }

  function NewIntents<W>(st: State<W>): seq<I.TickedIntent> {
    I.Arbitrate(I.SortStable(st.intentQ), st.tick + 1)
  }

  /** Spawn verbs are tried against the signals of the tick before; then signal verbs are
      installed. */
  function AfterEvents<W>(plan: Plan, ph: Physics<W>, st: State<W>): State<W>
    requires SignalsInRange(plan.net, st.sigNew)
  {
    var now := st.tick + 1;
    var drained := D.Drain(ph.attempt, st.sigOv, ph.begin(st.world, st.sigOv, now), st.dirQueue + NewSpawns(st), now);
    st.(
      tick := now, world := drained.world,
      dirQueue := drained.kept, dirNew := [], tally := D.CountAll(st.tally, drained.left), spawnLog := st.spawnLog + NewSpawns(st),
      sigOv := SC.StepTable(plan.net, st.sigOv, st.sigNew, now), sigNew := [], sigLog := st.sigLog + NewSignals(plan, st).applied)
  }

  /** Intents apply, then everything moves. */
  function AfterMotion<W>(ph: Physics<W>, st: State<W>): State<W> {
    var applied := I.Arbitrate(I.SortStable(st.intentQ), st.tick);
    st.(
      world := ph.finish(I.ApplyWinners(ph.applyIntent, st.world, applied, st.tick), st.sigOv, st.tick),
      intentQ := [], intentLog := st.intentLog + applied)
  }

  /** The checksum rolls on. */
  function Checked<W>(ph: Physics<W>, st: State<W>): State<W> {
    var last := if st.crcs == [] then 0 else st.crcs[|st.crcs| - 1];
    st.(crcs := st.crcs + [ph.crc(last, st.world, st.dirQueue, st.sigOv, st.tick)])
  }

  /** One tick, in the fixed phase order. */
  function StepState<W>(plan: Plan, ph: Physics<W>, st: State<W>): (r: State<W>)
    requires SignalsInRange(plan.net, st.sigNew)
  {
    Checked(ph, AfterMotion(ph, AfterEvents(plan, ph, st)))
  }

  /** A run: the commands of `batches[t]` arrive between ticks t and t + 1. */
  function RunState<W>(plan: Plan, ph: Physics<W>, batches: seq<seq<Command>>): (r: State<W>)
    requires plan.Valid()
    ensures SignalsInRange(plan.net, r.sigNew)
  {
    if batches == [] then Fresh(ph)
    else
      var n := |batches| - 1;
      StepState(plan, ph, EnqueueAll(plan, RunState(plan, ph, batches[..n]), batches[n]))
  }

  // ---------------------------------------------------------------- what every run keeps

  /** The state between ticks. */
  ghost predicate Settled<W>(plan: Plan, st: State<W>) {
    && plan.Valid()
    && st.dirNew == [] && st.sigNew == [] && st.intentQ == []
    && SC.TableBounded(plan.net, st.sigOv, st.tick)
  }

  /** Buffered verbs as they were accepted, each against the ones before it. */
  ghost predicate SpawnsAccepted(site: D.Site, queue: seq<D.TickedSpawn>, ds: seq<D.TickedSpawn>)
    requires site.Valid()
  {
    forall k | 0 <= k < |ds| :: D.Judge(site, queue, ds[..k], ds[k].directive) == D.Accepted(ds[k])
  }

  ghost predicate SignalAccepted(net: SC.Network, ov: SC.Table, before: seq<SC.TickedSignal>, d: SC.TickedSignal) {
    && |d.requestId| <= SE.MAX_REQUEST_ID_BYTES
    && SE.IsProgram(net, d.signal) && d.signalIdx == SE.IndexOf(net, d.signal)
    && SC.Applicable(net, d)
    && !SE.Buffered(before, d.requestId)
    && !SE.Live(ov, d.requestId)
  }

  ghost predicate SignalsAccepted(net: SC.Network, ov: SC.Table, ds: seq<SC.TickedSignal>) {
    forall k | 0 <= k < |ds| :: SignalAccepted(net, ov, ds[..k], ds[k])
  }

  /** The state after commands: everything but the three buffers is as it was settled. */
  ghost predicate Commanded<W>(plan: Plan, base: State<W>, st: State<W>)
    requires plan.Valid()
  {
    && st == base.(dirNew := st.dirNew, sigNew := st.sigNew, intentQ := st.intentQ)
    && SpawnsAccepted(plan.site, st.dirQueue, st.dirNew)
    && SignalsAccepted(plan.net, st.sigOv, st.sigNew)
  }

  lemma SpawnAppended(site: D.Site, queue: seq<D.TickedSpawn>, ds: seq<D.TickedSpawn>, d: D.TickedSpawn)
    requires site.Valid() && SpawnsAccepted(site, queue, ds)
    requires D.Judge(site, queue, ds, d.directive) == D.Accepted(d)
    ensures SpawnsAccepted(site, queue, ds + [d])
  {
    var es := ds + [d];
    forall k | 0 <= k < |es| ensures D.Judge(site, queue, es[..k], es[k].directive) == D.Accepted(es[k]) {
      if k < |ds| {
        assert es[..k] == ds[..k];
      } else {
        assert es[..k] == ds;
      }
    }
  }

  lemma SignalAppended(net: SC.Network, ov: SC.Table, ds: seq<SC.TickedSignal>, d: SC.TickedSignal)
    requires SignalsAccepted(net, ov, ds) && SignalAccepted(net, ov, ds, d)
    ensures SignalsAccepted(net, ov, ds + [d])
  {
    var es := ds + [d];
    forall k | 0 <= k < |es| ensures SignalAccepted(net, ov, es[..k], es[k]) {
      if k < |ds| {
        assert es[..k] == ds[..k];
      } else {
        assert es[..k] == ds;
      }
    }
  }

  lemma EnqueueCommands<W>(plan: Plan, base: State<W>, st: State<W>, c: Command)
    requires plan.Valid() && Commanded(plan, base, st)
    ensures Commanded(plan, base, Enqueue(plan, st, c))
  {
    match c
    case Drive(k) =>
    case Spawn(d) =>
      var v := D.Judge(plan.site, st.dirQueue, st.dirNew, d);
      if v.Accepted? {
        SpawnAppended(plan.site, st.dirQueue, st.dirNew, v.spawn);
      }
    case Signal(s) =>
      var v := SE.Judge(plan.net, st.sigNew, st.sigOv, s);
      if v.Accepted? {
        SE.AcceptedIsApplicable(plan.net, st.sigNew, st.sigOv, s);
        SignalAppended(plan.net, st.sigOv, st.sigNew, v.ticked);
      }
  }

  lemma {:induction false} EnqueueAllCommands<W>(plan: Plan, base: State<W>, cs: seq<Command>)
    requires Settled(plan, base)
    ensures Commanded(plan, base, EnqueueAll(plan, base, cs))
  {
    if cs != [] {
      EnqueueAllCommands(plan, base, cs[..|cs| - 1]);
      EnqueueCommands(plan, base, EnqueueAll(plan, base, cs[..|cs| - 1]), cs[|cs| - 1]);
    }
  }

  lemma AcceptedApply(net: SC.Network, ov: SC.Table, ds: seq<SC.TickedSignal>)
    requires SignalsAccepted(net, ov, ds)
    ensures SC.AllApplicable(net, ds) && SignalsInRange(net, ds)
  {
    forall k | 0 <= k < |ds| ensures SC.Applicable(net, ds[k]) {
      assert SignalAccepted(net, ov, ds[..k], ds[k]);
    }
  }

  lemma StepSettles<W>(plan: Plan, ph: Physics<W>, base: State<W>, st: State<W>)
    requires Settled(plan, base) && Commanded(plan, base, st)
    ensures SignalsInRange(plan.net, st.sigNew)
    ensures Settled(plan, StepState(plan, ph, st))
  {
    hide SC.TableBounded, SC.StepTable, SignalsAccepted, SpawnsAccepted;
    AcceptedApply(plan.net, st.sigOv, st.sigNew);
    SC.StepTableBounded(plan.net, st.sigOv, st.sigNew, st.tick);
  }

  lemma {:induction false} RunSettles<W>(plan: Plan, ph: Physics<W>, batches: seq<seq<Command>>)
    requires plan.Valid()
    ensures Settled(plan, RunState(plan, ph, batches))
    ensures RunState(plan, ph, batches).tick == |batches|
  {
    if batches != [] {
      var n := |batches| - 1;
      RunSettles(plan, ph, batches[..n]);
      var base := RunState(plan, ph, batches[..n]);
      EnqueueAllCommands(plan, base, batches[n]);
      StepSettles(plan, ph, base, EnqueueAll(plan, base, batches[n]));
    }
  }

  lemma {:induction false} AcceptedQueue(site: D.Site, queue: seq<D.TickedSpawn>, ds: seq<D.TickedSpawn>, log: seq<D.TickedSpawn>, gone: seq<D.Departure>, now: nat)
    requires site.Valid() && SpawnsAccepted(site, queue, ds) && D.QueueInv(queue, [], log, gone, now)
    ensures D.QueueInv(queue, ds, log, gone, now)
  {
    hide D.QueueInv, D.Judge;
    if ds != [] {
      var n := |ds| - 1;
      forall k | 0 <= k < n ensures D.Judge(site, queue, ds[..n][..k], ds[..n][k].directive) == D.Accepted(ds[..n][k]) {
        assert ds[..n][..k] == ds[..k];
      }
      AcceptedQueue(site, queue, ds[..n], log, gone, now);
      assert D.Judge(site, queue, ds[..n], ds[n].directive) == D.Accepted(ds[n]);
      D.EnqueueKeepsInv(site, queue, ds[..n], log, gone, now, ds[n].directive);
      assert ds == ds[..n] + [ds[n]];
    }
  }

  /** So every run keeps its spawn queue: with the departures so far, what was accepted is
      injected, expired or waiting, no id waits twice, every wait is bounded, and the counters
      count those departures. */
  lemma {:induction false} RunKeepsQueue<W>(plan: Plan, ph: Physics<W>, batches: seq<seq<Command>>) returns (gone: seq<D.Departure>)
    requires plan.Valid()
    ensures var st := RunState(plan, ph, batches);
      D.QueueInv(st.dirQueue, [], st.spawnLog, gone, st.tick) && st.tally == D.CountAll(D.NO_TALLY, gone)
  {
    hide D.QueueInv, D.CountAll, D.Drain, SC.StepTable, SC.TableBounded, SignalsAccepted, SpawnsAccepted, AfterMotion;
    if batches == [] {
      gone := [];
      NoQueue();
    } else {
      var n := |batches| - 1;
      var before := RunKeepsQueue(plan, ph, batches[..n]);
      RunSettles(plan, ph, batches[..n]);
      var base := RunState(plan, ph, batches[..n]);
      EnqueueAllCommands(plan, base, batches[n]);
      var st := EnqueueAll(plan, base, batches[n]);
      AcceptedQueue(plan.site, st.dirQueue, st.dirNew, st.spawnLog, before, st.tick);
      gone := TickKeepsQueue(plan, ph, st, before);
    }
  }

  lemma NoQueue()
    ensures D.QueueInv([], [], [], [], 0) && D.CountAll(D.NO_TALLY, []) == D.NO_TALLY
  {
  }

  lemma TickKeepsQueue<W>(plan: Plan, ph: Physics<W>, st: State<W>, before: seq<D.Departure>) returns (gone: seq<D.Departure>)
    requires SignalsInRange(plan.net, st.sigNew)
    requires D.QueueInv(st.dirQueue, st.dirNew, st.spawnLog, before, st.tick) && st.tally == D.CountAll(D.NO_TALLY, before)
    ensures var r := StepState(plan, ph, st);
      D.QueueInv(r.dirQueue, [], r.spawnLog, gone, r.tick) && r.tally == D.CountAll(D.NO_TALLY, gone)
  {
    hide D.QueueInv, D.CountAll, D.Drain, SC.StepTable, SC.ApplyAll, SignalsInRange;
    var now := st.tick + 1;
    var world := ph.begin(st.world, st.sigOv, now);
    D.BoundaryKeepsInv(ph.attempt, st.sigOv, world, st.dirQueue, st.dirNew, st.spawnLog, before, now);
    var left := D.Drain(ph.attempt, st.sigOv, world, st.dirQueue + NewSpawns(st), now).left;
    gone := before + left;
    D.CountAllAppends(D.NO_TALLY, before, left);
  }
}
