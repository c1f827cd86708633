/** Baking a recording: the whole record is re-simulated and verified, and every message of
    it goes into the record digest exactly once. */
module Bake {
  import D = Director
  import I = Intents
  import SC = SignalControl
  import SE = SignalEngine
  import opened BakeState
  import opened LogCursor
  import TE = TickEngine
  import E = Engine

  /** Folds messages into the digest; a message offered again is not folded again. */
  class RecordHasher {
    var folded: seq<Message>
    var lastSeq: nat

    constructor ()
      ensures folded == [] && lastSeq == 0
    {
      folded, lastSeq := [], 0;
    }

    method Add(seqNo: nat, m: Message)
      modifies this
      ensures if seqNo <= old(lastSeq) then folded == old(folded) && lastSeq == old(lastSeq)
              else folded == old(folded) + [m] && lastSeq == seqNo
    {
      if seqNo <= lastSeq {
        return;
      }
      lastSeq := seqNo;
      folded := folded + [m];
    }
  }

  /** The digest covers exactly what the cursor delivered; `pending` is the last of it. */
  ghost predicate Digesting(c: Cursor, h: RecordHasher, pending: Option<Message>)
    reads c, h
  {
    && c.Valid() && c.pending.None?
    && h.folded == c.log[..c.Position()] && h.lastSeq == c.Position()
    && (pending.Some? ==> c.Position() > 0 && pending.value == c.log[c.Position() - 1])
  }

  ghost function Unread(c: Cursor, pending: Option<Message>): int
    reads c
  {
    c.Position() - if pending.Some? then 1 else 0
  }

  lemma DigestStarts(c: Cursor, h: RecordHasher)
    requires c.Valid() && c.pending.None? && c.Position() == 0 && h.folded == [] && h.lastSeq == 0
    ensures Digesting(c, h, None)
  {
    assert c.log[..0] == [];
  }

  /** The message held back - already digested - or the next one. */
  method Offer(c: Cursor, h: RecordHasher, pending: Option<Message>) returns (m: Option<Message>)
    requires Digesting(c, h, pending)
    modifies c, h
    ensures Digesting(c, h, m)
    ensures if old(Unread(c, pending)) < |c.log| then m == Some(c.log[old(Unread(c, pending))]) && c.Position() == old(Unread(c, pending)) + 1
            else m.None? && c.Position() == old(Unread(c, pending))
  {
    m := pending;
    if m.None? {
      m := c.NextMsg();
    }
    if m.Some? {
      h.Add(m.value.seqNo, m.value);
    }
  }

  /** The messages of a tick among the first p all decode. */
  ghost predicate DecodesUpTo(log: seq<Message>, p: nat, tick: nat) {
    p <= |log| && forall i | 0 <= i < p && log[i].tick == tick :: Decodes(log[i])
  }

  lemma DecodesNext(log: seq<Message>, p: nat, tick: nat)
    requires p < |log|
    ensures DecodesUpTo(log, p, tick) && (log[p].tick == tick ==> Decodes(log[p])) ==> DecodesUpTo(log, p + 1, tick)
    ensures log[p].tick == tick && !Decodes(log[p]) ==> !DecodesAt(log, tick)
  {
    hide Decodes;
  }

  lemma DecodesStart(log: seq<Message>, p: nat, tick: nat)
    requires Behind(log, p, tick)
    ensures DecodesUpTo(log, p, tick)
  {
    hide Decodes;
  }

  lemma DecodesEnd(log: seq<Message>, p: nat, tick: nat)
    requires IsStream(log) && DecodesUpTo(log, p, tick) && (p < |log| ==> log[p].tick > tick)
    ensures DecodesAt(log, tick)
  {
    hide Decodes;
  }

  /** Groups one tick's records, digesting what passes by. */
  method GroupTick(c: Cursor, h: RecordHasher, pending0: Option<Message>, next: nat)
    returns (ok: bool, pending: Option<Message>, rec: TickRecords)
    requires Digesting(c, h, pending0) && Unread(c, pending0) >= 0 && Behind(c.log, Unread(c, pending0), next)
    modifies c, h
    ensures ok <==> DecodesAt(c.log, next)
    ensures ok ==> Digesting(c, h, pending) && Unread(c, pending) >= 0 && Behind(c.log, Unread(c, pending), next + 1)
    ensures ok ==> rec == RecordsAt(c.log, next)
  {
    hide AddTo, RecordsAt, Decodes, DecodesAt, DecodesUpTo;
    rec, pending, ok := EMPTY, pending0, true;
    NothingBehind(c.log, Unread(c, pending), next);
    DecodesStart(c.log, Unread(c, pending), next);
    while true
      invariant Digesting(c, h, pending) && Unread(c, pending) >= 0 && Behind(c.log, Unread(c, pending), next + 1)
      invariant ok && rec == RecordsAt(c.log[..Unread(c, pending)], next) && DecodesUpTo(c.log, Unread(c, pending), next)
      decreases |c.log| - Unread(c, pending)
    {
      ghost var p: nat := Unread(c, pending);
      var m := Offer(c, h, pending);
      pending := None;
      if m.None? {
        assert c.log[..p] == c.log;
        DecodesEnd(c.log, p, next);
        return;
      }
      NextMessage(c.log, p, next);
      DecodesNext(c.log, p, next);
      if m.value.tick > next {
        pending := m;
        NothingAhead(c.log, p, next);
        DecodesEnd(c.log, p, next);
        return;
      }
      if m.value.tick == next {
        if !Decodes(m.value) {
          ok := false;
          return;
        }
        rec := AddTo(rec, m.value);
      }
    }
  }

  /** What is left of the record goes into the digest too. */
  method Drain(c: Cursor, h: RecordHasher, pending0: Option<Message>)
    requires Digesting(c, h, pending0)
    modifies c, h
    ensures h.folded == c.log
  {
    var pending := pending0;
    while true
      invariant Digesting(c, h, pending)
      decreases |c.log| - Unread(c, pending)
    {
      var m := Offer(c, h, pending);
      pending := None;
      if m.None? {
        assert c.log[..c.Position()] == c.log;
        return;
      }
    }
  }

  lemma OneSpawn<W>(plan: TE.Plan, st: TE.State<W>, ds: seq<D.SpawnDirective>, i: nat, cur: TE.State<W>)
    requires plan.Valid() && i < |ds| && HandSpawns(plan, st, ds[..i]) == Some(cur)
    ensures HandSpawns(plan, st, ds[..i + 1])
      == if D.Judge(plan.site, cur.dirQueue, cur.dirNew, ds[i]).Accepted? then Some(TE.Enqueue(plan, cur, TE.Spawn(ds[i]))) else None
  {
    hide D.Judge;
    assert ds[..i + 1][..i] == ds[..i];
  }

  lemma OneSignal<W>(plan: TE.Plan, st: TE.State<W>, vs: seq<SE.Directive>, i: nat, cur: TE.State<W>)
    requires plan.Valid() && i < |vs| && HandSignals(plan, st, vs[..i]) == Some(cur)
    ensures HandSignals(plan, st, vs[..i + 1])
      == if SE.Judge(plan.net, cur.sigNew, cur.sigOv, vs[i]).Accepted? then Some(TE.Enqueue(plan, cur, TE.Signal(vs[i]))) else None
  {
    hide SE.Judge;
    assert vs[..i + 1][..i] == vs[..i];
  }

  lemma {:induction false} SpawnRefusalStays<W>(plan: TE.Plan, st: TE.State<W>, ds: seq<D.SpawnDirective>, i: nat)
    requires plan.Valid() && i <= |ds| && HandSpawns(plan, st, ds[..i]).None?
    ensures HandSpawns(plan, st, ds).None?
  {
    if i < |ds| {
      assert ds[..|ds| - 1][..i] == ds[..i];
      SpawnRefusalStays(plan, st, ds[..|ds| - 1], i);
    } else {
      assert ds[..i] == ds;
    }
  }

  lemma {:induction false} SignalRefusalStays<W>(plan: TE.Plan, st: TE.State<W>, vs: seq<SE.Directive>, i: nat)
    requires plan.Valid() && i <= |vs| && HandSignals(plan, st, vs[..i]).None?
    ensures HandSignals(plan, st, vs).None?
  {
    if i < |vs| {
      assert vs[..|vs| - 1][..i] == vs[..i];
      SignalRefusalStays(plan, st, vs[..|vs| - 1], i);
    } else {
      assert vs[..i] == vs;
    }
  }

  method EnqueueIntents<W>(e: E.Engine<W>, ks: seq<I.KeyedIntent>)
    requires e.Valid()
    modifies e.intents
    ensures e.Valid() && e.View() == old(e.View()).(intentQ := old(e.View()).intentQ + ks)
  {
    hide D.QueueInv, SC.TableBounded, D.CountAll, SC.AllApplicable;
    for i := 0 to |ks|
      invariant e.Valid() && e.View() == old(e.View()).(intentQ := old(e.View()).intentQ + ks[..i])
    {
      e.EnqueueIntent(ks[i]);
      assert ks[..i + 1] == ks[..i] + [ks[i]];
    }
    assert ks[..|ks|] == ks;
  }

  method EnqueueSpawns<W>(e: E.Engine<W>, ds: seq<D.SpawnDirective>) returns (ok: bool)
    requires e.Valid()
    modifies e.director
    ensures e.Valid()
    ensures HandSpawns(e.plan, old(e.View()), ds) == if ok then Some(e.View()) else None
  {
    hide D.QueueInv, SC.TableBounded, D.Judge, D.CountAll, SC.AllApplicable, HandSpawns, TE.Enqueue;
    NothingHanded(e.plan, e.View());
    assert ds[..0] == [];
    for i := 0 to |ds|
      invariant e.Valid() && HandSpawns(e.plan, old(e.View()), ds[..i]) == Some(e.View())
    {
      OneSpawn(e.plan, old(e.View()), ds, i, e.View());
      var v := e.EnqueueSpawn(ds[i]);
      if !v.Accepted? {
        SpawnRefusalStays(e.plan, old(e.View()), ds, i + 1);
        return false;
      }
    }
    assert ds[..|ds|] == ds;
    ok := true;
  }

  method EnqueueSignals<W>(e: E.Engine<W>, vs: seq<SE.Directive>) returns (ok: bool)
    requires e.Valid()
    modifies e.signals
    ensures e.Valid()
    ensures HandSignals(e.plan, old(e.View()), vs) == if ok then Some(e.View()) else None
  {
    hide D.QueueInv, SC.TableBounded, SE.Judge, D.CountAll, SC.AllApplicable, HandSignals, TE.Enqueue;
    NothingHanded(e.plan, e.View());
    assert vs[..0] == [];
    for i := 0 to |vs|
      invariant e.Valid() && HandSignals(e.plan, old(e.View()), vs[..i]) == Some(e.View())
    {
      OneSignal(e.plan, old(e.View()), vs, i, e.View());
      var v := e.EnqueueSignal(vs[i]);
      if !v.Accepted? {
        SignalRefusalStays(e.plan, old(e.View()), vs, i + 1);
        return false;
      }
    }
    assert vs[..|vs|] == vs;
    ok := true;
  }

  lemma NothingHanded<W>(plan: TE.Plan, st: TE.State<W>)
    requires plan.Valid()
    ensures HandSpawns(plan, st, []) == Some(st) && HandSignals(plan, st, []) == Some(st)
  {
  }

  /** Hands one tick's records to the engine; a refusal aborts. */
  method Enqueue<W>(e: E.Engine<W>, rec: TickRecords) returns (ok: bool)
    requires e.Valid()
    modifies e.intents, e.director, e.signals
    ensures e.Valid()
    ensures Handed(e.plan, old(e.View()), rec) == if ok then Some(e.View()) else None
  {
    hide D.QueueInv, SC.TableBounded, D.CountAll, SC.AllApplicable, HandSpawns, HandSignals;
    EnqueueIntents(e, rec.intents);
    ok := EnqueueSpawns(e, rec.verbs);
    if ok {
      ok := EnqueueSignals(e, rec.sverbs);
    }
  }

  /** Where the bake stands after e.tick ticks. */
  ghost predicate Baking<W>(e: E.Engine<W>, c: Cursor, h: RecordHasher, pending: Option<Message>)
    reads e, e.intents, e.director, e.signals, c, h
  {
    && e.Valid() && Digesting(c, h, pending) && Unread(c, pending) >= 0
    && Behind(c.log, Unread(c, pending), e.tick + 1)
    && BakeTo(e.plan, e.physics, c.log, e.tick) == Some(e.View())
  }

  /** One tick of the record: grouped, digested, re-simulated, verified. */
  method BakeTick<W>(e: E.Engine<W>, c: Cursor, h: RecordHasher, pending0: Option<Message>) returns (ok: bool, pending: Option<Message>)
    requires Baking(e, c, h, pending0)
    modifies e, e.intents, e.director, e.signals, c, h
    ensures if ok then Baking(e, c, h, pending) && e.tick == old(e.tick) + 1
            else BakeTo(e.plan, e.physics, c.log, old(e.tick) + 1).None?
  {
    hide RecordsAt, IsStream, D.QueueInv, SC.TableBounded, SC.AllApplicable, D.CountAll, Handed, DecodesAt, TE.StepState, ChecksumHolds, Cursor.Valid;
    var rec;
    ok, pending, rec := GroupTick(c, h, pending0, e.tick + 1);
    if ok {
      ok := Advance(e, rec);
    }
  }

  lemma BakingStarts<W>(e: E.Engine<W>, c: Cursor, h: RecordHasher)
    requires e.Valid() && e.View() == TE.Fresh(e.physics)
    requires c.Valid() && c.pending.None? && c.Position() == 0 && h.folded == [] && h.lastSeq == 0
    ensures Baking(e, c, h, None)
  {
    DigestStarts(c, h);
  }

  lemma BakingMeans<W>(e: E.Engine<W>, c: Cursor, h: RecordHasher, pending: Option<Message>)
    requires Baking(e, c, h, pending)
    ensures Digesting(c, h, pending) && BakeTo(e.plan, e.physics, c.log, e.tick) == Some(e.View())
  {
  }

  lemma PlanHolds<W>(e: E.Engine<W>)
    requires e.Valid()
    ensures e.plan.Valid()
  {
  }

  /** Re-simulates the record to its horizon. A bake succeeds exactly when every message of
      every tick decodes, no verb is refused and no logged checksum differs; then the engine is
      in the state so reached, and the digest covers every message once, in stream order -
      although boundary messages are offered twice. */
  method Run<W>(e: E.Engine<W>, log: seq<Message>, endTick: nat) returns (done: bool, h: RecordHasher)
    requires e.Valid() && e.View() == TE.Fresh(e.physics) && IsStream(log)
    modifies e, e.intents, e.director, e.signals
    ensures if done then BakeTo(e.plan, e.physics, log, endTick) == Some(e.View()) && h.folded == log
            else BakeTo(e.plan, e.physics, log, endTick).None?
  {
    hide Baking, Digesting, BakeTo, RecordsAt, IsStream, E.Engine.Valid, Cursor.Valid;
    PlanHolds(e);
    h := new RecordHasher();
    var c := new Cursor(log);
    var pending: Option<Message> := None;
    BakingStarts(e, c, h);
    while e.tick < endTick
      invariant e.tick <= endTick && fresh(c) && fresh(h) && c.log == log && Baking(e, c, h, pending)
      decreases endTick - e.tick
    {
      var ok;
      ghost var n := e.tick + 1;
      ok, pending := BakeTick(e, c, h, pending);
      if !ok {
        AbortsForGood(e.plan, e.physics, log, n, endTick);
        return false, h;
      }
    }
    BakingMeans(e, c, h, pending);
    Drain(c, h, pending);
    done := true;
  }

  /** One verified tick. */
  method Advance<W>(e: E.Engine<W>, rec: TickRecords) returns (ok: bool)
    requires e.Valid()
    modifies e, e.intents, e.director, e.signals
    ensures e.Valid()
    ensures var fed := Handed(e.plan, old(e.View()), rec);
      if ok then
        && fed.Some? && TE.SignalsInRange(e.plan.net, fed.value.sigNew)
        && e.View() == TE.StepState(e.plan, e.physics, fed.value) && e.tick == old(e.tick) + 1 && ChecksumHolds(rec, e.crcs)
      else
        fed.Some? && TE.SignalsInRange(e.plan.net, fed.value.sigNew)
        ==> !ChecksumHolds(rec, TE.StepState(e.plan, e.physics, fed.value).crcs)
  {
    hide TE.AfterEvents, TE.AfterMotion, D.QueueInv, SC.TableBounded, Handed;
    ok := Enqueue(e, rec);
    if !ok {
      return;
    }
    e.Step();
    ok := rec.crc.None? || (e.crcs != [] && e.crcs[|e.crcs| - 1] == rec.crc.value);
  }
}
