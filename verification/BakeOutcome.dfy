/** When a bake succeeds and when it aborts, told from the messages of the stream. */
module BakeOutcome {
  import D = Director
  import SE = SignalEngine
  import TE = TickEngine
  import opened LogCursor
  import opened BakeState

  /** The checksum of a tick in the stream: its last one counts. */
  ghost predicate LastChecksum(log: seq<Message>, tick: nat, i: nat) {
    && i < |log| && log[i].tick == tick && log[i].content.Checksum?
    && forall j | i < j < |log| && log[j].tick == tick :: !log[j].content.Checksum?
  }

  lemma {:induction false} ChecksumIsLast(log: seq<Message>, tick: nat) returns (i: nat)
    ensures match RecordsAt(log, tick).crc
      case None => forall j | 0 <= j < |log| && log[j].tick == tick :: !log[j].content.Checksum?
      case Some(crc) => LastChecksum(log, tick, i) && log[i].content.crc == crc
  {
    i := 0;
    if log != [] {
      var n := |log| - 1;
      i := ChecksumIsLast(log[..n], tick);
      if log[n].tick == tick && log[n].content.Checksum? {
        i := n;
      }
    }
  }

  /** A message that cannot be read, or a batch with an intent of another tick. */
  ghost predicate Unreadable(m: Message) {
    m.content.Malformed? || (m.content.IntentBatch? && exists i | 0 <= i < |m.content.ts| :: m.content.ts[i].tick != m.tick)
  }

  /** Spawn verb k is refused after those before it were taken. */
  ghost predicate SpawnRefusedAt<W>(plan: TE.Plan, st: TE.State<W>, ds: seq<D.SpawnDirective>, k: nat)
    requires plan.Valid()
  {
    && k < |ds| && HandSpawns(plan, st, ds[..k]).Some?
    && var s := HandSpawns(plan, st, ds[..k]).value; D.Judge(plan.site, s.dirQueue, s.dirNew, ds[k]).Refused?
  }

  ghost predicate SignalRefusedAt<W>(plan: TE.Plan, st: TE.State<W>, vs: seq<SE.Directive>, k: nat)
    requires plan.Valid()
  {
    && k < |vs| && HandSignals(plan, st, vs[..k]).Some?
    && var s := HandSignals(plan, st, vs[..k]).value; !SE.Judge(plan.net, s.sigNew, s.sigOv, vs[k]).Accepted?
  }

  /** Some verb of the tick is refused. */
  ghost predicate SomeRefused<W>(plan: TE.Plan, st: TE.State<W>, rec: TickRecords)
    requires plan.Valid()
  {
    var fed := st.(intentQ := st.intentQ + rec.intents);
    || (exists k: nat :: SpawnRefusedAt(plan, fed, rec.verbs, k))
    || (HandSpawns(plan, fed, rec.verbs).Some?
        && exists k: nat :: SignalRefusedAt(plan, HandSpawns(plan, fed, rec.verbs).value, rec.sverbs, k))
  }

  lemma SpawnPrefix<W>(plan: TE.Plan, st: TE.State<W>, ds: seq<D.SpawnDirective>, k: nat)
    requires plan.Valid() && ds != []
    ensures k < |ds| - 1 ==> SpawnRefusedAt(plan, st, ds[..|ds| - 1], k) == SpawnRefusedAt(plan, st, ds, k)
    ensures k >= |ds| - 1 ==> !SpawnRefusedAt(plan, st, ds[..|ds| - 1], k)
    ensures SpawnRefusedAt(plan, st, ds, |ds| - 1) <==> HandSpawns(plan, st, ds[..|ds| - 1]).Some? && HandSpawns(plan, st, ds).None?
  {
    hide D.Judge;
    if k < |ds| - 1 {
      assert ds[..|ds| - 1][..k] == ds[..k];
    }
  }

  lemma {:induction false} SpawnRefused<W>(plan: TE.Plan, st: TE.State<W>, ds: seq<D.SpawnDirective>)
    requires plan.Valid()
    ensures HandSpawns(plan, st, ds).None? <==> exists k: nat :: SpawnRefusedAt(plan, st, ds, k)
  {
    hide SpawnRefusedAt;
    if ds == [] {
      forall k: nat ensures !SpawnRefusedAt(plan, st, ds, k) {
        NoSpawn(plan, st, k);
      }
    } else {
      var n := |ds| - 1;
      SpawnRefused(plan, st, ds[..n]);
      SpawnPrefix(plan, st, ds, n);
      if k: nat :| SpawnRefusedAt(plan, st, ds[..n], k) {
        SpawnPrefix(plan, st, ds, k);
      }
      if k: nat :| SpawnRefusedAt(plan, st, ds, k) {
        SpawnPrefix(plan, st, ds, k);
        SpawnWithin(plan, st, ds, k);
      }
    }
  }

  lemma NoSpawn<W>(plan: TE.Plan, st: TE.State<W>, k: nat)
    requires plan.Valid()
    ensures !SpawnRefusedAt(plan, st, [], k)
  {
  }

  lemma SpawnWithin<W>(plan: TE.Plan, st: TE.State<W>, ds: seq<D.SpawnDirective>, k: nat)
    requires plan.Valid() && SpawnRefusedAt(plan, st, ds, k)
    ensures k < |ds|
  {
  }

  lemma SignalPrefix<W>(plan: TE.Plan, st: TE.State<W>, vs: seq<SE.Directive>, k: nat)
    requires plan.Valid() && vs != []
    ensures k < |vs| - 1 ==> SignalRefusedAt(plan, st, vs[..|vs| - 1], k) == SignalRefusedAt(plan, st, vs, k)
    ensures k >= |vs| - 1 ==> !SignalRefusedAt(plan, st, vs[..|vs| - 1], k)
    ensures k >= |vs| ==> !SignalRefusedAt(plan, st, vs, k)
    ensures SignalRefusedAt(plan, st, vs, |vs| - 1) <==> HandSignals(plan, st, vs[..|vs| - 1]).Some? && HandSignals(plan, st, vs).None?
  {
    hide SE.Judge;
    if k < |vs| - 1 {
      assert vs[..|vs| - 1][..k] == vs[..k];
    }
  }

  lemma {:induction false} SignalRefused<W>(plan: TE.Plan, st: TE.State<W>, vs: seq<SE.Directive>)
    requires plan.Valid()
    ensures HandSignals(plan, st, vs).None? <==> exists k: nat :: SignalRefusedAt(plan, st, vs, k)
  {
    hide SignalRefusedAt;
    if vs == [] {
      forall k: nat ensures !SignalRefusedAt(plan, st, vs, k) {
        NoSignal(plan, st, k);
      }
    } else {
      var n := |vs| - 1;
      SignalRefused(plan, st, vs[..n]);
      SignalPrefix(plan, st, vs, n);
      if k: nat :| SignalRefusedAt(plan, st, vs[..n], k) {
        SignalPrefix(plan, st, vs, k);
      }
      if k: nat :| SignalRefusedAt(plan, st, vs, k) {
        SignalPrefix(plan, st, vs, k);
      }
    }
  }

  lemma NoSignal<W>(plan: TE.Plan, st: TE.State<W>, k: nat)
    requires plan.Valid()
    ensures !SignalRefusedAt(plan, st, [], k)
  {
  }

  lemma HandedIff<W>(plan: TE.Plan, st: TE.State<W>, rec: TickRecords)
    requires plan.Valid()
    ensures Handed(plan, st, rec).None? <==> SomeRefused(plan, st, rec)
  {
    hide HandSpawns, HandSignals, D.Judge, SE.Judge;
    var fed := st.(intentQ := st.intentQ + rec.intents);
    SpawnRefused(plan, fed, rec.verbs);
    if HandSpawns(plan, fed, rec.verbs).Some? {
      SignalRefused(plan, HandSpawns(plan, fed, rec.verbs).value, rec.sverbs);
    }
  }

  /** The checksum in the stream is not the one that was reached. */
  ghost predicate Mismatch(log: seq<Message>, tick: nat, crcs: seq<nat>, i: nat) {
    LastChecksum(log, tick, i) && (crcs == [] || crcs[|crcs| - 1] != log[i].content.crc)
  }

  /** What can go wrong at a tick: an unreadable message, a refused verb, or a checksum in the
      stream that is not the one of the tick as re-simulated. */
  ghost predicate Aborts<W>(plan: TE.Plan, ph: TE.Physics<W>, st: TE.State<W>, log: seq<Message>, tick: nat)
    requires plan.Valid() && TE.SignalsInRange(plan.net, st.sigNew)
  {
    var rec := RecordsAt(log, tick);
    || (exists i | 0 <= i < |log| && log[i].tick == tick :: Unreadable(log[i]))
    || SomeRefused(plan, st, rec)
    || (Handed(plan, st, rec).Some?
        && exists i: nat :: Mismatch(log, tick, TE.StepState(plan, ph, Handed(plan, st, rec).value).crcs, i))
  }

  lemma DecodesIff(log: seq<Message>, tick: nat)
    ensures DecodesAt(log, tick) <==> !exists i | 0 <= i < |log| && log[i].tick == tick :: Unreadable(log[i])
  {
    forall i | 0 <= i < |log| ensures Decodes(log[i]) <==> !Unreadable(log[i]) {
    }
  }

  lemma UniqueChecksum(log: seq<Message>, tick: nat, i: nat, j: nat)
    requires LastChecksum(log, tick, i) && LastChecksum(log, tick, j)
    ensures i == j
  {
  }

  lemma ChecksumIff(log: seq<Message>, tick: nat, crcs: seq<nat>)
    ensures !ChecksumHolds(RecordsAt(log, tick), crcs) <==> exists i: nat :: Mismatch(log, tick, crcs, i)
  {
    hide RecordsAt;
    var i := ChecksumIsLast(log, tick);
    if RecordsAt(log, tick).crc.Some? {
      assert !ChecksumHolds(RecordsAt(log, tick), crcs) <==> Mismatch(log, tick, crcs, i);
      forall j: nat | Mismatch(log, tick, crcs, j) ensures j == i {
        UniqueChecksum(log, tick, i, j);
      }
    }
  }

  /** A tick of the bake fails exactly for one of these reasons. */
  lemma BakeOneIff<W>(plan: TE.Plan, ph: TE.Physics<W>, st: TE.State<W>, log: seq<Message>, tick: nat)
    requires plan.Valid() && TE.SignalsInRange(plan.net, st.sigNew)
    ensures BakeOne(plan, ph, st, log, tick).None? <==> Aborts(plan, ph, st, log, tick)
  {
    hide RecordsAt, DecodesAt, Handed, ChecksumHolds, SomeRefused, TE.StepState, LastChecksum, Unreadable, Mismatch;
    var rec := RecordsAt(log, tick);
    DecodesIff(log, tick);
    HandedIff(plan, st, rec);
    if Handed(plan, st, rec).Some? {
      ChecksumIff(log, tick, TE.StepState(plan, ph, Handed(plan, st, rec).value).crcs);
    }
  }

  /** Tick t is reached by re-simulating those before it, and fails. */
  ghost predicate AbortsAt<W>(plan: TE.Plan, ph: TE.Physics<W>, log: seq<Message>, t: nat)
    requires plan.Valid()
  {
    t >= 1 && BakeTo(plan, ph, log, t - 1).Some? && Aborts(plan, ph, BakeTo(plan, ph, log, t - 1).value, log, t)
  }

  /** So a bake to tick n fails exactly when one of its ticks, reached by re-simulating those
      before, has an unreadable message, a refused verb or a wrong checksum. */
  lemma {:induction false} BakeFailsIff<W>(plan: TE.Plan, ph: TE.Physics<W>, log: seq<Message>, n: nat)
    requires plan.Valid()
    ensures BakeTo(plan, ph, log, n).None? <==> exists t: nat :: t <= n && AbortsAt(plan, ph, log, t)
  {
    hide BakeOne, Aborts;
    if n > 0 {
      BakeFailsIff(plan, ph, log, n - 1);
      if BakeTo(plan, ph, log, n - 1).Some? {
        BakeOneIff(plan, ph, BakeTo(plan, ph, log, n - 1).value, log, n);
        assert AbortsAt(plan, ph, log, n) <==> BakeTo(plan, ph, log, n).None?;
      }
    }
  }
}
