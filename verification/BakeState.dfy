/** What a bake computes: the state reached by re-simulating a recorded stream, or nothing once
    a message does not decode, a verb is refused, or a checksum differs. */
module BakeState {
  import D = Director
  import I = Intents
  import SC = SignalControl
  import SE = SignalEngine
  import R = Replay
  import opened LogCursor
  import opened TickEngine

  ghost predicate DecodesAt(log: seq<Message>, tick: nat) {
    forall i | 0 <= i < |log| && log[i].tick == tick :: Decodes(log[i])
  }

  function HandSpawns<W>(plan: Plan, st: State<W>, ds: seq<D.SpawnDirective>): (r: Option<State<W>>)
    requires plan.Valid()
    ensures r.Some? ==> r.value.sigNew == st.sigNew
  {
    if ds == [] then Some(st)
    else
      var n := |ds| - 1;
      var r := HandSpawns(plan, st, ds[..n]);
      if r.None? then None
      else
        var v := D.Judge(plan.site, r.value.dirQueue, r.value.dirNew, ds[n]);
        if v.Accepted? then Some(r.value.(dirNew := r.value.dirNew + [v.spawn])) else None
  }

  function HandSignals<W>(plan: Plan, st: State<W>, vs: seq<SE.Directive>): (r: Option<State<W>>)
    requires plan.Valid()
    ensures r.Some? && SignalsInRange(plan.net, st.sigNew) ==> SignalsInRange(plan.net, r.value.sigNew)
  {
    if vs == [] then Some(st)
    else
      var n := |vs| - 1;
      var r := HandSignals(plan, st, vs[..n]);
      if r.None? then None
      else
        var v := SE.Judge(plan.net, r.value.sigNew, r.value.sigOv, vs[n]);
        if v.Accepted? then Some(r.value.(sigNew := r.value.sigNew + [v.ticked])) else None
  }

  /** One tick's records handed to the engine: intents, then spawn verbs, then signal verbs. */
  function Handed<W>(plan: Plan, st: State<W>, rec: TickRecords): (r: Option<State<W>>)
    requires plan.Valid()
    ensures r.Some? && SignalsInRange(plan.net, st.sigNew) ==> SignalsInRange(plan.net, r.value.sigNew)
  {
    var r := HandSpawns(plan, st.(intentQ := st.intentQ + rec.intents), rec.verbs);
    if r.None? then None else HandSignals(plan, r.value, rec.sverbs)
  }

  predicate ChecksumHolds(rec: TickRecords, crcs: seq<nat>) {
    rec.crc.Some? ==> crcs != [] && crcs[|crcs| - 1] == rec.crc.value
  }

  /** One tick of the bake. */
  ghost function BakeOne<W>(plan: Plan, ph: Physics<W>, st: State<W>, log: seq<Message>, tick: nat): (r: Option<State<W>>)
    requires plan.Valid() && SignalsInRange(plan.net, st.sigNew)
    ensures r.Some? ==> r.value.sigNew == []
  {
    var rec := RecordsAt(log, tick);
    if !DecodesAt(log, tick) then None
    else
      var fed := Handed(plan, st, rec);
      if fed.None? then None
      else
        var next := StepState(plan, ph, fed.value);
        if ChecksumHolds(rec, next.crcs) then Some(next) else None
  }

  ghost function BakeTo<W>(plan: Plan, ph: Physics<W>, log: seq<Message>, n: nat): (r: Option<State<W>>)
    requires plan.Valid()
    ensures r.Some? ==> r.value.sigNew == []
  {
    if n == 0 then Some(Fresh(ph))
    else
      var r := BakeTo(plan, ph, log, n - 1);
      if r.None? then None else BakeOne(plan, ph, r.value, log, n)
  }

  lemma {:induction false} AbortsForGood<W>(plan: Plan, ph: Physics<W>, log: seq<Message>, n: nat, m: nat)
    requires plan.Valid() && n <= m && BakeTo(plan, ph, log, n).None?
    ensures BakeTo(plan, ph, log, m).None?
  {
    hide BakeOne;
    if n < m {
      AbortsForGood(plan, ph, log, n, m - 1);
    }
  }

  // ---------------------------------------------------------------- the record of a run

  function Directives(es: seq<D.TickedSpawn>): (r: seq<D.SpawnDirective>)
    ensures |r| == |es| && forall i | 0 <= i < |es| :: r[i] == es[i].directive
  {
    seq(|es|, i requires 0 <= i < |es| => es[i].directive)
  }

  function Verbs(es: seq<SC.TickedSignal>): (r: seq<SE.Directive>)
    ensures |r| == |es| && forall i | 0 <= i < |es| :: r[i] == R.VerbOf(es[i])
  {
    seq(|es|, i requires 0 <= i < |es| => R.VerbOf(es[i]))
  }

  /** A stream records a log over n ticks when each tick's messages decode to the tick's entries,
      and to its checksum where it has one. */
  ghost predicate Records(log: seq<Message>, run: R.RunLog, n: nat) {
    |run.crcs| == n && forall t | 1 <= t <= n :: RecordsTick(log, run, t)
  }

  ghost predicate RecordsTick(log: seq<Message>, run: R.RunLog, t: nat)
    requires 1 <= t <= |run.crcs|
  {
    var rec := RecordsAt(log, t);
    && DecodesAt(log, t)
    && rec.intents == I.Keyed(R.AtTick(run.intents, R.IntentTick, t))
    && rec.verbs == Directives(R.AtTick(run.spawns, R.SpawnTick, t))
    && rec.sverbs == Verbs(R.AtTick(run.signals, R.SignalTick, t))
    && (rec.crc.Some? ==> rec.crc.value == run.crcs[t - 1])
  }

  lemma {:induction false} HandSpawnsFeeds<W>(plan: Plan, st: State<W>, es: seq<D.TickedSpawn>)
    requires plan.Valid()
    ensures HandSpawns(plan, st, Directives(es))
      == match R.FeedSpawns(plan, st, es) case Fed(s) => Some(s) case SpawnRefused(_) => None case SignalRefused(_) => None
  {
    hide D.Judge;
    if es != [] {
      var n := |es| - 1;
      HandSpawnsFeeds(plan, st, es[..n]);
      assert Directives(es)[..n] == Directives(es[..n]);
    }
  }

  lemma {:induction false} HandSignalsFeeds<W>(plan: Plan, st: State<W>, es: seq<SC.TickedSignal>)
    requires plan.Valid()
    ensures HandSignals(plan, st, Verbs(es))
      == match R.FeedSignals(plan, st, es) case Fed(s) => Some(s) case SpawnRefused(_) => None case SignalRefused(_) => None
  {
    hide SE.Judge;
    if es != [] {
      var n := |es| - 1;
      HandSignalsFeeds(plan, st, es[..n]);
      assert Verbs(es)[..n] == Verbs(es[..n]);
    }
  }

  /** A tick of the bake hands over what a tick of the replay feeds. */
  lemma HandedFeeds<W>(plan: Plan, st: State<W>, run: R.RunLog, log: seq<Message>, t: nat)
    requires plan.Valid() && 1 <= t <= |run.crcs| && RecordsTick(log, run, t)
    ensures Handed(plan, st, RecordsAt(log, t))
      == match R.FeedTick(plan, st, R.AtTick(run.intents, R.IntentTick, t), R.AtTick(run.spawns, R.SpawnTick, t), R.AtTick(run.signals, R.SignalTick, t))
         case Fed(s) => Some(s) case SpawnRefused(_) => None case SignalRefused(_) => None
  {
    hide HandSpawns, HandSignals, R.FeedSpawns, R.FeedSignals, R.AtTick, DecodesAt, RecordsAt;
    var es, gs := R.AtTick(run.spawns, R.SpawnTick, t), R.AtTick(run.signals, R.SignalTick, t);
    var fed := R.FeedIntents(st, R.AtTick(run.intents, R.IntentTick, t));
    HandSpawnsFeeds(plan, fed, es);
    var r := R.FeedSpawns(plan, fed, es);
    if r.Fed? {
      HandSignalsFeeds(plan, r.st, gs);
    }
  }

  lemma StepAddsChecksum<W>(plan: Plan, ph: Physics<W>, st: State<W>)
    requires SignalsInRange(plan.net, st.sigNew)
    ensures var r := StepState(plan, ph, st);
      |r.crcs| == |st.crcs| + 1 && r.crcs[..|st.crcs|] == st.crcs && r.tick == st.tick + 1 && r.sigNew == []
  {
    hide SC.StepTable, SC.ApplyAll, I.Arbitrate, I.ApplyWinners, D.Drain;
  }

  lemma {:induction false} EnqueueKeepsChecksums<W>(plan: Plan, st: State<W>, cs: seq<Command>)
    requires plan.Valid()
    ensures EnqueueAll(plan, st, cs).crcs == st.crcs
  {
    hide D.Judge, SE.Judge;
    if cs != [] {
      EnqueueKeepsChecksums(plan, st, cs[..|cs| - 1]);
    }
  }

  /** The checksums of a longer run begin with those of its beginning. */
  lemma {:induction false} RunChecksums<W>(plan: Plan, ph: Physics<W>, batches: seq<seq<Command>>, n: nat)
    requires plan.Valid() && n <= |batches|
    ensures |RunState(plan, ph, batches).crcs| == |batches|
    ensures RunState(plan, ph, batches[..n]).crcs == RunState(plan, ph, batches).crcs[..n]
    decreases |batches|
  {
    hide StepState, EnqueueAll;
    if batches == [] {
      assert batches[..n] == batches;
    } else {
      var m := |batches| - 1;
      var fed := EnqueueAll(plan, RunState(plan, ph, batches[..m]), batches[m]);
      EnqueueKeepsChecksums(plan, RunState(plan, ph, batches[..m]), batches[m]);
      StepAddsChecksum(plan, ph, fed);
      RunChecksums(plan, ph, batches[..m], if n < m then n else m);
      if n <= m {
        assert batches[..m][..n] == batches[..n];
        assert fed.crcs[..n] == RunState(plan, ph, batches).crcs[..n];
      } else {
        assert batches[..n] == batches;
      }
    }
  }

  /** Baking the record of any run succeeds, and after every tick the engine is in the very
      state the recorded run was in. */
  lemma {:induction false} BakeReproduces<W>(plan: Plan, ph: Physics<W>, batches: seq<seq<Command>>, log: seq<Message>, n: nat)
    requires plan.Valid() && n <= |batches|
    requires Records(log, R.LogOf(RunState(plan, ph, batches)), |batches|)
    ensures BakeTo(plan, ph, log, n) == Some(RunState(plan, ph, batches[..n]))
    decreases n
  {
    hide StepState, RunState, R.FeedTick, R.AtTick, Handed, RecordsAt, RecordsTick;
    var run := R.LogOf(RunState(plan, ph, batches));
    R.RunReplays(plan, ph, batches, n);
    if n > 0 {
      BakeReproduces(plan, ph, batches, log, n - 1);
      R.RunReplays(plan, ph, batches, n - 1);
      assert RecordsTick(log, run, n);
      HandedFeeds(plan, RunState(plan, ph, batches[..n - 1]), run, log, n);
      RunChecksums(plan, ph, batches, n);
      RecordedChecksum(log, run, n, RunState(plan, ph, batches[..n]).crcs);
    }
  }

  lemma RecordedChecksum(log: seq<Message>, run: R.RunLog, t: nat, crcs: seq<nat>)
    requires 1 <= t <= |run.crcs| && RecordsTick(log, run, t) && crcs == run.crcs[..t]
    ensures DecodesAt(log, t) && ChecksumHolds(RecordsAt(log, t), crcs)
  {
  }
}
