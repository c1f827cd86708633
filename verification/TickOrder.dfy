/** The order of a tick, seen from the inside: over a physics whose world is the record of the
    calls made to it. As a tick treats the world as a value it knows nothing about, this is
    the order for every physics. */
module TickOrder {
  import D = Director
  import G = LaneGraph
  import I = Intents
  import SC = SignalControl
  import opened TickEngine

  /** What can be asked of a physics in a tick. */
  datatype Call =
    | Began(ov: SC.Table, tick: nat)
    | Tried(ov: SC.Table, tick: nat, spawn: D.TickedSpawn)
    | Applied(tick: nat, intent: I.Intent)
    | Moved(ov: SC.Table, tick: nat)

  type Trace = seq<Call>

  function Try(w: Trace, ov: SC.Table, tick: nat, d: D.TickedSpawn): G.Option<Trace> {
    G.Some(w + [Tried(ov, tick, d)])
  }

  function Steer(w: Trace, tick: nat, i: I.Intent): Trace {
    w + [Applied(tick, i)]
  }

  /** Every attempt to inject a vehicle succeeds. */
  function Tracer(): Physics<Trace> {
    Physics(
      [],
      (w: Trace, ov: SC.Table, tick: nat) => w + [Began(ov, tick)],
      Try,
      Steer,
      (w: Trace, ov: SC.Table, tick: nat) => w + [Moved(ov, tick)],
      (last: nat, w: Trace, queue: seq<D.TickedSpawn>, ov: SC.Table, tick: nat) => last)
  }

  /** The attempts of a tick: the directives whose time has come and has not run out, in the
      order of the queue. */
  function Tries(ov: SC.Table, ds: seq<D.TickedSpawn>, now: nat): Trace {
    if ds == [] then []
    else
      var d := ds[|ds| - 1];
      Tries(ov, ds[..|ds| - 1], now)
      + if d.directive.earliestTick <= now <= d.directive.earliestTick + 600 then [Tried(ov, now, d)] else []
  }

  function Steers(won: seq<I.Intent>, now: nat): Trace {
    seq(|won|, k requires 0 <= k < |won| => Applied(now, won[k]))
  }

  lemma {:induction false} DrainTraced(ov: SC.Table, w: Trace, ds: seq<D.TickedSpawn>, now: nat)
    ensures D.Drain(Try, ov, w, ds, now).world == w + Tries(ov, ds, now)
  {
    if ds != [] {
      DrainTraced(ov, w, ds[..|ds| - 1], now);
    }
  }

  lemma {:induction false} WinnersTraced(w: Trace, log: seq<I.TickedIntent>, now: nat)
    ensures I.ApplyWinners(Steer, w, log, now) == w + Steers(I.Winners(log), now)
  {
    if log != [] {
      var n := |log| - 1;
      WinnersTraced(w, log[..n], now);
      assert log[n].superseded ==> I.Winners(log) == I.Winners(log[..n]);
    }
  }

  /** One tick: the spawner under the lights of the tick before; under these too, the directives
      in turn; then the intents that won, in their order; and only then everything moves, under
      the lights that the verbs of this tick have set. */
  lemma TickTraced(plan: Plan, st: State<Trace>)
    requires SignalsInRange(plan.net, st.sigNew)
    ensures var r, now := StepState(plan, Tracer(), st), st.tick + 1;
      && r.tick == now
      && r.world == st.world
         + [Began(st.sigOv, now)]
         + Tries(st.sigOv, st.dirQueue + D.Stamped(st.dirNew, now), now)
         + Steers(I.Winners(I.Arbitrate(I.SortStable(st.intentQ), now)), now)
         + [Moved(SC.StepTable(plan.net, st.sigOv, st.sigNew, now), now)]
      && r.sigOv == SC.StepTable(plan.net, st.sigOv, st.sigNew, now)
  {
    hide SC.StepTable, SC.ApplyAll, D.Drain, D.CountAll, D.Stamped, I.Arbitrate, I.ApplyWinners, I.SortStable, I.Winners;
    var now := st.tick + 1;
    var ds := st.dirQueue + D.Stamped(st.dirNew, now);
    DrainTraced(st.sigOv, st.world + [Began(st.sigOv, now)], ds, now);
    var log := I.Arbitrate(I.SortStable(st.intentQ), now);
    WinnersTraced(st.world + [Began(st.sigOv, now)] + Tries(st.sigOv, ds, now), log, now);
  }

  /** And for every physics the checksum of a tick covers the state the tick leaves. */
  lemma ChecksumCloses<W>(plan: Plan, ph: Physics<W>, st: State<W>)
    requires SignalsInRange(plan.net, st.sigNew)
    ensures var r := StepState(plan, ph, st);
      r.crcs == st.crcs + [ph.crc(if st.crcs == [] then 0 else st.crcs[|st.crcs| - 1], r.world, r.dirQueue, r.sigOv, st.tick + 1)]
  {
    hide SC.StepTable, SC.ApplyAll, D.Drain, D.CountAll, D.Stamped, I.Arbitrate, I.ApplyWinners;
  }
}
