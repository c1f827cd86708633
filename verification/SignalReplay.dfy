/** Replaying recorded signal verbs. The record holds effective holds - shortened by the
    chain clamp, 0 for a renewal declined at its bound, 0 for a verb superseded within its
    own boundary - yet re-enqueuing it reproduces the table and the record. */
module SignalReplay {
  import opened SignalProgram
  import opened SignalDisplay
  import opened SignalHistory
  import opened SignalControl
  import opened SignalEngine

  ghost predicate DistinctIds(ds: seq<TickedSignal>) {
    forall i, j | 0 <= i < j < |ds| :: ds[i].requestId != ds[j].requestId
  }

  /** Some verb from position k on names program i. */
  predicate Pending(ds: seq<TickedSignal>, k: nat, i: nat) {
    exists m | k <= m < |ds| :: ds[m].signalIdx == i
  }

  /** The program's newest hold, if it began at this boundary, came from verb j. */
  ghost predicate TopIs(net: Network, ov: Table, i: nat, now: nat, requestId: string)
    requires i < |net.programs|
  {
    var h := Hist(ov, net.programs[i].id);
    |h| > 0 && h[|h| - 1].since == now && h[|h| - 1].requestId == requestId
  }

  /** The newest hold of program i, if it began at this boundary, came from one of the
      first k verbs. */
  ghost predicate TopKnown(h: History, ds: seq<TickedSignal>, k: nat, now: nat, i: nat)
    requires k <= |ds|
  {
    |h| > 0 && h[|h| - 1].since == now ==>
      exists j | 0 <= j < k :: ds[j].signalIdx == i && ds[j].requestId == h[|h| - 1].requestId
  }

  ghost predicate TopsFromBatch(net: Network, ov: Table, ds: seq<TickedSignal>, k: nat, now: nat)
    requires k <= |ds|
  {
    forall i | 0 <= i < |net.programs| :: TopKnown(Hist(ov, net.programs[i].id), ds, k, now, i)
  }

  function InstallAt(net: Network, ov: Table, ds: seq<TickedSignal>, k: nat, now: nat): Installed
    requires k < |ds| && forall i | 0 <= i < |ds| :: ds[i].signalIdx < |net.programs|
  {
    Install(Hist(ApplyAll(net, ov, ds[..k], now).ov, net.programs[ds[k].signalIdx].id),
            ds[k].phase, ds[k].holdTicks, ds[k].requestId, now, net.bound)
  }

  lemma ApplyAllStep(net: Network, ov: Table, ds: seq<TickedSignal>, k: nat, now: nat)
    requires k < |ds| && forall i | 0 <= i < |ds| :: ds[i].signalIdx < |net.programs|
    ensures ApplyAll(net, ov, ds[..k + 1], now) == ApplyOne(net, ApplyAll(net, ov, ds[..k], now), ds[k], now)
  {
    assert ds[..k + 1][..k] == ds[..k];
  }

  lemma DroppedIsTop(h: History, p: Program, now: nat, bound: nat)
    requires Bounded(h, p, now, bound)
    ensures Dropped(h, now).Some? <==> |h| > 0 && h[|h| - 1].since == now
    ensures Dropped(h, now).Some? ==> Dropped(h, now).value == h[|h| - 1].requestId
  {
  }

  /** After installing, the top of the program named is the new verb, unless it was declined
      and the history is as before. */
  lemma TopInstalled(h: History, p: Program, ds: seq<TickedSignal>, k: nat, now: nat, bound: nat, i: nat)
    requires k < |ds| && ds[k].signalIdx == i && ds[k].holdTicks >= 1 && bound >= 1
    requires Bounded(h, p, now, bound) && TopKnown(h, ds, k, now, i)
    ensures TopKnown(Install(h, ds[k].phase, ds[k].holdTicks, ds[k].requestId, now, bound).h, ds, k + 1, now, i)
  {
    var d := ds[k];
    InstallGoverns(h, p, d.phase, d.holdTicks, d.requestId, now, bound, now);
  }

  lemma TopsAfterOne(net: Network, st: Folded, ds: seq<TickedSignal>, k: nat, now: nat)
    requires net.Valid() && AllApplicable(net, ds) && k < |ds|
    requires TableBounded(net, st.ov, now) && TopsFromBatch(net, st.ov, ds, k, now)
    ensures TopsFromBatch(net, ApplyOne(net, st, ds[k], now).ov, ds, k + 1, now)
  {
    var ov' := ApplyOne(net, st, ds[k], now).ov;
    forall i | 0 <= i < |net.programs| ensures TopKnown(Hist(ov', net.programs[i].id), ds, k + 1, now, i) {
      var h := Hist(st.ov, net.programs[i].id);
      assert TopKnown(h, ds, k, now, i);
      assert Hist(ov', net.programs[i].id) == HistAfter(net, st.ov, ds[k], now, i) by {
        ApplyOneHist(net, st, ds[k], now, i);
      }
      assert Applicable(net, ds[k]);
      if ds[k].signalIdx == i {
        TopInstalled(h, net.programs[i], ds, k, now, net.bound, i);
      }
    }
  }

  lemma NoTopsYet(net: Network, ov: Table, ds: seq<TickedSignal>, now: nat)
    requires net.Valid() && now > 0 && TableBounded(net, ov, now - 1)
    ensures TopsFromBatch(net, ov, ds, 0, now)
  {
    forall i | 0 <= i < |net.programs| ensures TopKnown(Hist(ov, net.programs[i].id), ds, 0, now, i) {
      assert Bounded(Hist(ov, net.programs[i].id), net.programs[i], now - 1, net.bound);
    }
  }

  lemma TableAfter(net: Network, ov: Table, ds: seq<TickedSignal>, k: nat, now: nat)
    requires net.Valid() && now > 0 && TableBounded(net, ov, now - 1) && AllApplicable(net, ds) && k <= |ds|
    ensures TableBounded(net, ApplyAll(net, ov, ds[..k], now).ov, now)
  {
    hide TableBounded;
    TableBoundedLater(net, ov, now - 1);
    ApplyAllBounded(net, ov, ds[..k], now);
  }

  lemma {:induction false} BatchTops(net: Network, ov: Table, ds: seq<TickedSignal>, k: nat, now: nat)
    requires net.Valid() && now > 0 && TableBounded(net, ov, now - 1) && AllApplicable(net, ds) && k <= |ds|
    ensures TopsFromBatch(net, ApplyAll(net, ov, ds[..k], now).ov, ds, k, now)
    ensures TableBounded(net, ApplyAll(net, ov, ds[..k], now).ov, now)
  {
    hide TableBounded;
    TableAfter(net, ov, ds, k, now);
    if k == 0 {
      NoTopsYet(net, ov, ds, now);
    } else {
      BatchTops(net, ov, ds, k - 1, now);
      ApplyAllStep(net, ov, ds, k - 1, now);
      TopsAfterOne(net, ApplyAll(net, ov, ds[..k - 1], now), ds, k - 1, now);
    }
  }

  // ---------------------------------------------------------------- recorded holds

  /** Marking by a distinct id is setting one record's hold to 0. */
  lemma MarkOnly(applied: seq<TickedSignal>, ds: seq<TickedSignal>, j: nat)
    requires DistinctIds(ds) && |applied| <= |ds| && j < |applied|
    requires forall m | 0 <= m < |applied| :: applied[m].requestId == ds[m].requestId
    ensures MarkLast(applied, ds[j].requestId) == applied[j := applied[j].(holdTicks := 0)]
  {
    MarkLastAt(applied, ds[j].requestId, j);
  }

  /** A record after the first k verbs: what its verb installed, or 0 because a later verb
      of the boundary superseded it. */
  ghost predicate RecordOf(net: Network, ov: Table, ds: seq<TickedSignal>, k: nat, now: nat, j: nat, r: TickedSignal)
    requires j < k <= |ds| && forall i | 0 <= i < |ds| :: ds[i].signalIdx < |net.programs|
  {
    || r == ds[j].(tick := now, holdTicks := InstallAt(net, ov, ds, j, now).hold)
    || (r == ds[j].(tick := now, holdTicks := 0) && exists m | j < m < k :: ds[m].signalIdx == ds[j].signalIdx)
  }

  ghost predicate AllRecords(net: Network, ov: Table, ds: seq<TickedSignal>, k: nat, now: nat, applied: seq<TickedSignal>)
    requires k <= |ds| && AllApplicable(net, ds)
  {
    |applied| == k && forall j | 0 <= j < k :: RecordOf(net, ov, ds, k, now, j, applied[j])
  }

  /** A later verb of the boundary leaves the first k records alone, but for showing 0 on
      one of its own program. */
  ghost predicate MarkedFor(before: seq<TickedSignal>, after: seq<TickedSignal>, ds: seq<TickedSignal>, k: nat, i: nat)
    requires |before| == k < |ds| && |after| == k + 1
  {
    forall j | 0 <= j < k ::
      after[j] == before[j] || (after[j] == before[j].(holdTicks := 0) && ds[j].signalIdx == i)
  }

  ghost predicate SameIds(applied: seq<TickedSignal>, ds: seq<TickedSignal>) {
    |applied| <= |ds| && forall j | 0 <= j < |applied| :: applied[j].requestId == ds[j].requestId
  }

  /** One verb appends its record and marks at most record t. */
  ghost predicate Marks(before: seq<TickedSignal>, after: seq<TickedSignal>, t: int) {
    && |after| == |before| + 1
    && -1 <= t < |before|
    && forall j | 0 <= j < |before| :: after[j] == if j == t then before[j].(holdTicks := 0) else before[j]
  }

  /** The record marked is the one of the newest hold, when that began at this boundary. */
  lemma MarksOf(net: Network, st: Folded, ds: seq<TickedSignal>, d: TickedSignal, now: nat) returns (t: int)
    requires DistinctIds(ds) && d.signalIdx < |net.programs| && SameIds(st.applied, ds)
    requires Bounded(Hist(st.ov, net.programs[d.signalIdx].id), net.programs[d.signalIdx], now, net.bound)
    requires TopKnown(Hist(st.ov, net.programs[d.signalIdx].id), ds, |st.applied|, now, d.signalIdx)
    ensures Marks(st.applied, ApplyOne(net, st, d, now).applied, t)
    ensures var dropped := Dropped(Hist(st.ov, net.programs[d.signalIdx].id), now);
      if dropped.None? then t == -1 else t >= 0 && ds[t].signalIdx == d.signalIdx && ds[t].requestId == dropped.value
  {
    var h := Hist(st.ov, net.programs[d.signalIdx].id);
    DroppedIsTop(h, net.programs[d.signalIdx], now, net.bound);
    t := -1;
    if Dropped(h, now).Some? {
      var u :| 0 <= u < |st.applied| && ds[u].signalIdx == d.signalIdx && ds[u].requestId == h[|h| - 1].requestId;
      MarkOnly(st.applied, ds, u);
      t := u;
    }
  }

  lemma TableAt(net: Network, ov: Table, d: TickedSignal, now: nat)
    requires net.Valid() && TableBounded(net, ov, now) && Applicable(net, d)
    ensures Bounded(Hist(ov, d.signal), net.programs[d.signalIdx], now, net.bound)
  {
  }

  lemma TopAt(net: Network, ov: Table, ds: seq<TickedSignal>, k: nat, now: nat)
    requires k < |ds| && Applicable(net, ds[k]) && TopsFromBatch(net, ov, ds, k, now)
    ensures TopKnown(Hist(ov, ds[k].signal), ds, k, now, ds[k].signalIdx)
  {
  }

  lemma AllRecordsIds(net: Network, ov: Table, ds: seq<TickedSignal>, k: nat, now: nat, applied: seq<TickedSignal>)
    requires k <= |ds| && AllApplicable(net, ds) && AllRecords(net, ov, ds, k, now, applied)
    ensures SameIds(applied, ds)
  {
    forall j | 0 <= j < |applied| ensures applied[j].requestId == ds[j].requestId {
      assert RecordOf(net, ov, ds, k, now, j, applied[j]);
    }
  }

  lemma RecordsAfterOne(net: Network, ov: Table, st: Folded, ds: seq<TickedSignal>, k: nat, now: nat)
    requires net.Valid() && AllApplicable(net, ds) && k < |ds|
    requires st == ApplyAll(net, ov, ds[..k], now)
    requires AllRecords(net, ov, ds, k, now, st.applied)
    requires MarkedFor(st.applied, ApplyOne(net, st, ds[k], now).applied, ds, k, ds[k].signalIdx)
    ensures AllRecords(net, ov, ds, k + 1, now, ApplyOne(net, st, ds[k], now).applied)
  {
    hide ApplyAll, Install;
    var applied := ApplyOne(net, st, ds[k], now).applied;
    forall j | 0 <= j < k ensures RecordOf(net, ov, ds, k + 1, now, j, applied[j]) {
      assert RecordOf(net, ov, ds, k, now, j, st.applied[j]);
    }
    assert RecordOf(net, ov, ds, k + 1, now, k, applied[k]);
  }

  /** What is known of the boundary after its first k verbs. */
  ghost predicate BatchKnown(net: Network, st: Folded, ds: seq<TickedSignal>, k: nat, now: nat)
    requires k < |ds| && Applicable(net, ds[k])
  {
    && TopKnown(Hist(st.ov, ds[k].signal), ds, k, now, ds[k].signalIdx)
    && Bounded(Hist(st.ov, ds[k].signal), net.programs[ds[k].signalIdx], now, net.bound)
  }

  lemma BatchIsKnown(net: Network, ov: Table, ds: seq<TickedSignal>, k: nat, now: nat)
    requires net.Valid() && now > 0 && TableBounded(net, ov, now - 1) && AllApplicable(net, ds)
    requires k < |ds| && Applicable(net, ds[k])
    ensures BatchKnown(net, ApplyAll(net, ov, ds[..k], now), ds, k, now)
  {
    BatchTops(net, ov, ds, k, now);
    var st := ApplyAll(net, ov, ds[..k], now);
    TopAt(net, st.ov, ds, k, now);
    TableAt(net, st.ov, ds[k], now);
  }

  lemma RecordsStep(net: Network, ov: Table, st: Folded, ds: seq<TickedSignal>, k: nat, now: nat)
    requires net.Valid() && AllApplicable(net, ds) && DistinctIds(ds) && k < |ds| && Applicable(net, ds[k])
    requires st == ApplyAll(net, ov, ds[..k], now) && BatchKnown(net, st, ds, k, now)
    requires AllRecords(net, ov, ds, k, now, st.applied)
    ensures AllRecords(net, ov, ds, k + 1, now, ApplyOne(net, st, ds[k], now).applied)
  {
    hide ApplyAll, Install, Bounded, TopKnown, DistinctIds;
    AllRecordsIds(net, ov, ds, k, now, st.applied);
    var t := MarksOf(net, st, ds, ds[k], now);
    RecordsAfterOne(net, ov, st, ds, k, now);
  }

  lemma NoRecords(net: Network, ov: Table, ds: seq<TickedSignal>, now: nat)
    requires AllApplicable(net, ds)
    ensures AllRecords(net, ov, ds, 0, now, ApplyAll(net, ov, ds[..0], now).applied)
  {
    assert ds[..0] == [];
  }

  lemma {:induction false} RecordsOf(net: Network, ov: Table, ds: seq<TickedSignal>, k: nat, now: nat)
    requires net.Valid() && now > 0 && TableBounded(net, ov, now - 1) && AllApplicable(net, ds) && DistinctIds(ds) && k <= |ds|
    ensures AllRecords(net, ov, ds, k, now, ApplyAll(net, ov, ds[..k], now).applied)
  {
    hide TableBounded, AllRecords, BatchKnown, ApplyOne, ApplyAll, DistinctIds;
    if k == 0 {
      NoRecords(net, ov, ds, now);
    } else {
      RecordsOf(net, ov, ds, k - 1, now);
      ApplyAllStep(net, ov, ds, k - 1, now);
      assert Applicable(net, ds[k - 1]);
      BatchIsKnown(net, ov, ds, k - 1, now);
      RecordsStep(net, ov, ApplyAll(net, ov, ds[..k - 1], now), ds, k - 1, now);
    }
  }

  /** The verbs of a record, one per verb of the batch, alike but for tick and hold. */
  ghost predicate RecordsAlike(ds: seq<TickedSignal>, rs: seq<TickedSignal>) {
    |rs| == |ds| && forall k | 0 <= k < |ds| :: rs[k] == ds[k].(tick := rs[k].tick, holdTicks := rs[k].holdTicks)
  }

  lemma RecordsAreAlike(net: Network, ov: Table, ds: seq<TickedSignal>, now: nat)
    requires net.Valid() && now > 0 && TableBounded(net, ov, now - 1) && AllApplicable(net, ds) && DistinctIds(ds)
    ensures RecordsAlike(ds, ApplyAll(net, ov, ds, now).applied)
    ensures forall k | 0 <= k < |ds| :: ApplyAll(net, ov, ds, now).applied[k].tick == now
  {
    hide TableBounded, ApplyAll, DistinctIds, InstallAt;
    var applied := ApplyAll(net, ov, ds, now).applied;
    RecordsOf(net, ov, ds, |ds|, now);
    assert ds[..|ds|] == ds;
    forall k | 0 <= k < |ds| ensures applied[k] == ds[k].(tick := now, holdTicks := applied[k].holdTicks) {
      assert RecordOf(net, ov, ds, |ds|, now, k, applied[k]);
    }
  }

  // ---------------------------------------------------------------- the replayed batch

  /** What the engine buffers when the record is enqueued again. */
  function Resubmit(net: Network, r: TickedSignal): TickedSignal
    requires r.signalIdx < |net.programs|
  {
    r.(tick := 0, holdTicks := EffectiveHold(net.programs[r.signalIdx], r.holdTicks, net.bound))
  }

  /** `es` is `ds` as re-enqueued from its record. */
  ghost predicate IsReplayOf(net: Network, ov: Table, ds: seq<TickedSignal>, es: seq<TickedSignal>, now: nat)
    requires forall i | 0 <= i < |ds| :: ds[i].signalIdx < |net.programs|
  {
    && |es| == |ds|
    && var applied := ApplyAll(net, ov, ds, now).applied;
    forall j | 0 <= j < |ds| :: applied[j].signalIdx == ds[j].signalIdx && es[j] == Resubmit(net, applied[j])
  }

  /** Two histories midway: equal, or differing only in where a hold begun at this boundary
      ends - a hold that a verb still to come will drop. */
  ghost predicate SameSoFar(a: History, b: History, now: nat, pending: bool) {
    || a == b
    || (pending && |a| == |b| > 0
        && a[..|a| - 1] == b[..|b| - 1]
        && a[|a| - 1].since == now && a[|a| - 1].until > now && b[|b| - 1].until > now
        && b[|b| - 1] == a[|a| - 1].(until := b[|b| - 1].until))
  }

  lemma SameSoFarParts(a: History, b: History, phase: nat, now: nat, pending: bool)
    requires SameSoFar(a, b, now, pending)
    ensures ChainStartFor(a, phase, now) == ChainStartFor(b, phase, now)
    ensures Dropped(a, now) == Dropped(b, now) && Remaining(a, now) == Remaining(b, now)
  {
    if a != b {
      assert Truncated(a, now)[..|a| - 1] == a[..|a| - 1];
      assert Truncated(b, now)[..|b| - 1] == b[..|b| - 1];
    }
  }

  lemma SameSoFarInstall(a: History, b: History, p: Program, d: TickedSignal, e: TickedSignal, now: nat, bound: nat, before: bool, after: bool)
    requires Bounded(a, p, now, bound) && SameSoFar(a, b, now, before) && bound >= 1
    requires d.holdTicks >= 1 && e.holdTicks >= 1 && e.phase == d.phase && e.requestId == d.requestId
    requires var r := Install(a, d.phase, d.holdTicks, d.requestId, now, bound);
      r.hold > 0 ==> e.holdTicks == r.hold || after
    ensures var r, s := Install(a, d.phase, d.holdTicks, d.requestId, now, bound), Install(b, e.phase, e.holdTicks, e.requestId, now, bound);
      && SameSoFar(r.h, s.h, now, after)
      && Dropped(a, now) == Dropped(b, now)
      && (r.hold == 0 <==> s.hold == 0)
      && (s.hold == r.hold || (r.hold > 0 && after))
  {
    hide Remaining, Dropped, ChainStartFor;
    var r, s := Install(a, d.phase, d.holdTicks, d.requestId, now, bound), Install(b, e.phase, e.holdTicks, e.requestId, now, bound);
    SameSoFarParts(a, b, d.phase, now, before);
    if r.hold > 0 {
      assert r.h[..|r.h| - 1] == Remaining(a, now) && s.h[..|s.h| - 1] == Remaining(b, now);
    } else {
      InstallGoverns(a, p, d.phase, d.holdTicks, d.requestId, now, bound, now);
      DeclinedKeeps(a, p, d, now, bound);
    }
  }

  /** A declined renewal finds the newest hold ending at this very boundary. */
  lemma DeclinedKeeps(h: History, p: Program, d: TickedSignal, now: nat, bound: nat)
    requires Bounded(h, p, now, bound) && d.holdTicks >= 1 && bound >= 1
    requires Install(h, d.phase, d.holdTicks, d.requestId, now, bound).hold == 0
    ensures |h| > 0 && h[|h| - 1].until == now && Install(h, d.phase, d.holdTicks, d.requestId, now, bound).h == h
  {
    InstallGoverns(h, p, d.phase, d.holdTicks, d.requestId, now, bound, now);
  }

  /** Record j of the two runs midway. */
  ghost predicate RecordSoFar(net: Network, ov: Table, ds: seq<TickedSignal>, k: nat, now: nat, j: nat, a: TickedSignal, b: TickedSignal)
    requires j < |ds| && ds[j].signalIdx < |net.programs|
  {
    || a == b
    || (b == a.(holdTicks := b.holdTicks) && Pending(ds, k, ds[j].signalIdx) && TopIs(net, ov, ds[j].signalIdx, now, ds[j].requestId))
  }

  ghost predicate HistoriesSoFar(net: Network, a: Table, b: Table, ds: seq<TickedSignal>, k: nat, now: nat) {
    && a.Keys == b.Keys
    && forall i | 0 <= i < |net.programs| ::
         SameSoFar(Hist(a, net.programs[i].id), Hist(b, net.programs[i].id), now, Pending(ds, k, i))
  }

  ghost predicate RecordsSoFar(net: Network, f: Folded, g: Folded, ds: seq<TickedSignal>, k: nat, now: nat)
    requires k <= |ds| && AllApplicable(net, ds)
  {
    && |f.applied| == |g.applied| == k
    && forall j | 0 <= j < k :: RecordSoFar(net, f.ov, ds, k, now, j, f.applied[j], g.applied[j])
  }

  ghost predicate Midway(net: Network, ds: seq<TickedSignal>, f: Folded, g: Folded, k: nat, now: nat)
    requires k <= |ds| && AllApplicable(net, ds)
  {
    && HistoriesSoFar(net, f.ov, g.ov, ds, k, now)
    && RecordsSoFar(net, f, g, ds, k, now)
    && SameIds(f.applied, ds) && SameIds(g.applied, ds)
  }

  lemma PendingLater(ds: seq<TickedSignal>, k: nat, i: nat)
    requires k < |ds| && Pending(ds, k, i) && ds[k].signalIdx != i
    ensures Pending(ds, k + 1, i)
  {
  }

  /** Verb k as enqueued again: the same verb, with a hold that comes to the same - or one
      that a later verb of the boundary makes irrelevant. */
  ghost predicate Resent(net: Network, ov: Table, ds: seq<TickedSignal>, k: nat, e: TickedSignal, now: nat)
    requires k < |ds| && Applicable(net, ds[k])
  {
    && e == ds[k].(tick := e.tick, holdTicks := e.holdTicks) && e.holdTicks >= 1
    && var r := Install(Hist(ov, ds[k].signal), ds[k].phase, ds[k].holdTicks, ds[k].requestId, now, net.bound);
    r.hold > 0 ==> e.holdTicks == r.hold || Pending(ds, k + 1, ds[k].signalIdx)
  }

  /** The program named, after verb k and its copy. */
  lemma SameInstalled(net: Network, a: Table, b: Table, ds: seq<TickedSignal>, k: nat, e: TickedSignal, now: nat)
    requires net.Valid() && k < |ds| && Applicable(net, ds[k]) && Resent(net, a, ds, k, e, now)
    requires TableBounded(net, a, now) && HistoriesSoFar(net, a, b, ds, k, now)
    ensures var d := ds[k];
      var h, g := Hist(a, d.signal), Hist(b, d.signal);
      var r, s := Install(h, d.phase, d.holdTicks, d.requestId, now, net.bound), Install(g, e.phase, e.holdTicks, e.requestId, now, net.bound);
      && SameSoFar(r.h, s.h, now, Pending(ds, k + 1, d.signalIdx))
      && Dropped(h, now) == Dropped(g, now)
      && (s.hold == r.hold || (r.hold > 0 && Pending(ds, k + 1, d.signalIdx)))
  {
    hide TableBounded, Bounded, Install, Dropped;
    var d := ds[k];
    var i := d.signalIdx;
    assert SameSoFar(Hist(a, net.programs[i].id), Hist(b, net.programs[i].id), now, Pending(ds, k, i));
    TableAt(net, a, d, now);
    SameSoFarInstall(Hist(a, d.signal), Hist(b, d.signal), net.programs[i], d, e, now, net.bound, Pending(ds, k, i), Pending(ds, k + 1, i));
  }

  lemma HistoriesAfterOne(net: Network, f: Folded, g: Folded, ds: seq<TickedSignal>, k: nat, e: TickedSignal, now: nat)
    requires net.Valid() && k < |ds| && Applicable(net, ds[k]) && Resent(net, f.ov, ds, k, e, now)
    requires TableBounded(net, f.ov, now) && HistoriesSoFar(net, f.ov, g.ov, ds, k, now)
    ensures HistoriesSoFar(net, ApplyOne(net, f, ds[k], now).ov, ApplyOne(net, g, e, now).ov, ds, k + 1, now)
  {
    hide TableBounded, Install, Dropped, MarkLast;
    var f', g' := ApplyOne(net, f, ds[k], now).ov, ApplyOne(net, g, e, now).ov;
    SameInstalled(net, f.ov, g.ov, ds, k, e, now);
    assert f'.Keys == g'.Keys;
    forall i | 0 <= i < |net.programs|
      ensures SameSoFar(Hist(f', net.programs[i].id), Hist(g', net.programs[i].id), now, Pending(ds, k + 1, i))
    {
      ApplyOneHist(net, f, ds[k], now, i);
      ApplyOneHist(net, g, e, now, i);
      assert SameSoFar(Hist(f.ov, net.programs[i].id), Hist(g.ov, net.programs[i].id), now, Pending(ds, k, i));
      if i != ds[k].signalIdx && Hist(f.ov, net.programs[i].id) != Hist(g.ov, net.programs[i].id) {
        PendingLater(ds, k, i);
      }
    }
  }

  /** The newest record of the two runs. */
  lemma RecordAdded(net: Network, f: Folded, g: Folded, ds: seq<TickedSignal>, k: nat, e: TickedSignal, now: nat)
    requires net.Valid() && k < |ds| && Applicable(net, ds[k]) && Resent(net, f.ov, ds, k, e, now)
    requires TableBounded(net, f.ov, now) && HistoriesSoFar(net, f.ov, g.ov, ds, k, now)
    requires |f.applied| == |g.applied| == k
    ensures var f', g' := ApplyOne(net, f, ds[k], now), ApplyOne(net, g, e, now);
      RecordSoFar(net, f'.ov, ds, k + 1, now, k, f'.applied[k], g'.applied[k])
  {
    hide TableBounded, HistoriesSoFar, SameSoFar, Bounded;
    SameInstalled(net, f.ov, g.ov, ds, k, e, now);
    ApplyOneHist(net, f, ds[k], now, ds[k].signalIdx);
  }

  /** An earlier record of the two runs: if the two differ and this verb names the same
      program, this verb drops its hold and both now show 0. */
  lemma RecordKept(net: Network, f: Folded, g: Folded, ds: seq<TickedSignal>, k: nat, e: TickedSignal, now: nat, j: nat, t: int)
    requires net.Valid() && DistinctIds(ds) && j < k < |ds| && Applicable(net, ds[k]) && ds[j].signalIdx < |net.programs|
    requires |f.applied| == |g.applied| == k && e.signalIdx == ds[k].signalIdx
    requires RecordSoFar(net, f.ov, ds, k, now, j, f.applied[j], g.applied[j])
    requires var f', g' := ApplyOne(net, f, ds[k], now), ApplyOne(net, g, e, now);
      Marks(f.applied, f'.applied, t) && Marks(g.applied, g'.applied, t)
    requires Bounded(Hist(f.ov, ds[k].signal), net.programs[ds[k].signalIdx], now, net.bound)
    requires var dropped := Dropped(Hist(f.ov, ds[k].signal), now);
      if dropped.None? then t == -1 else t >= 0 && ds[t].requestId == dropped.value
    ensures var f', g' := ApplyOne(net, f, ds[k], now), ApplyOne(net, g, e, now);
      RecordSoFar(net, f'.ov, ds, k + 1, now, j, f'.applied[j], g'.applied[j])
  {
    if j != t && f.applied[j] != g.applied[j] {
      if ds[j].signalIdx == ds[k].signalIdx {
        DroppedIsTop(Hist(f.ov, ds[k].signal), net.programs[ds[k].signalIdx], now, net.bound);
        assert false;
      } else {
        ApplyOneHist(net, f, ds[k], now, ds[j].signalIdx);
        PendingLater(ds, k, ds[j].signalIdx);
      }
    }
  }

  lemma BoundedSame(a: History, b: History, p: Program, ds: seq<TickedSignal>, k: nat, now: nat, i: nat, pending: bool)
    requires k <= |ds| && SameSoFar(a, b, now, pending) && TopKnown(a, ds, k, now, i)
    ensures TopKnown(b, ds, k, now, i)
  {
  }

  /** The two runs mark the same record. */
  lemma SameMarks(net: Network, f: Folded, g: Folded, ds: seq<TickedSignal>, k: nat, e: TickedSignal, now: nat) returns (t: int)
    requires net.Valid() && DistinctIds(ds) && k < |ds| && Applicable(net, ds[k]) && Resent(net, f.ov, ds, k, e, now)
    requires TableBounded(net, f.ov, now) && TableBounded(net, g.ov, now) && HistoriesSoFar(net, f.ov, g.ov, ds, k, now)
    requires |f.applied| == |g.applied| == k && SameIds(f.applied, ds) && SameIds(g.applied, ds)
    requires TopKnown(Hist(f.ov, ds[k].signal), ds, k, now, ds[k].signalIdx)
    ensures Marks(f.applied, ApplyOne(net, f, ds[k], now).applied, t)
    ensures Marks(g.applied, ApplyOne(net, g, e, now).applied, t)
    ensures var dropped := Dropped(Hist(f.ov, ds[k].signal), now);
      if dropped.None? then t == -1 else t >= 0 && ds[t].requestId == dropped.value
  {
    hide TableBounded, Install, ApplyOne, Bounded, Marks;
    var i := ds[k].signalIdx;
    TableAt(net, f.ov, ds[k], now);
    TableAt(net, g.ov, ds[k], now);
    SameInstalled(net, f.ov, g.ov, ds, k, e, now);
    assert SameSoFar(Hist(f.ov, net.programs[i].id), Hist(g.ov, net.programs[i].id), now, Pending(ds, k, i));
    BoundedSame(Hist(f.ov, ds[k].signal), Hist(g.ov, ds[k].signal), net.programs[i], ds, k, now, i, Pending(ds, k, i));
    t := MarksOf(net, f, ds, ds[k], now);
    var u := MarksOf(net, g, ds, e, now);
  }

  lemma SameIdsAfter(net: Network, st: Folded, ds: seq<TickedSignal>, k: nat, d: TickedSignal, now: nat, t: int)
    requires k < |ds| && |st.applied| == k && SameIds(st.applied, ds) && d.signalIdx < |net.programs|
    requires d.requestId == ds[k].requestId && Marks(st.applied, ApplyOne(net, st, d, now).applied, t)
    ensures SameIds(ApplyOne(net, st, d, now).applied, ds)
  {
    hide Install;
  }

  lemma MidwayStep(net: Network, ds: seq<TickedSignal>, f: Folded, g: Folded, k: nat, now: nat, e: TickedSignal)
    requires net.Valid() && AllApplicable(net, ds) && DistinctIds(ds)
    requires k < |ds| && Midway(net, ds, f, g, k, now)
    requires TableBounded(net, f.ov, now) && TableBounded(net, g.ov, now)
    requires Applicable(net, ds[k]) && Resent(net, f.ov, ds, k, e, now) && BatchKnown(net, f, ds, k, now)
    ensures Midway(net, ds, ApplyOne(net, f, ds[k], now), ApplyOne(net, g, e, now), k + 1, now)
  {
    hide DistinctIds, SameSoFar, TableBounded, HistoriesSoFar, Install, Bounded, ApplyOne, TopKnown;
    var f', g' := ApplyOne(net, f, ds[k], now), ApplyOne(net, g, e, now);
    HistoriesAfterOne(net, f, g, ds, k, e, now);
    RecordAdded(net, f, g, ds, k, e, now);
    TableAt(net, f.ov, ds[k], now);
    var t := SameMarks(net, f, g, ds, k, e, now);
    SameIdsAfter(net, f, ds, k, ds[k], now, t);
    SameIdsAfter(net, g, ds, k, e, now, t);
    forall j | 0 <= j < k + 1 ensures RecordSoFar(net, f'.ov, ds, k + 1, now, j, f'.applied[j], g'.applied[j]) {
      if j < k {
        assert RecordSoFar(net, f.ov, ds, k, now, j, f.applied[j], g.applied[j]);
        assert Applicable(net, ds[j]);
        RecordKept(net, f, g, ds, k, e, now, j, t);
      }
    }
  }

  /** A verb re-enqueued from its record. */
  lemma ResentFromRecord(net: Network, ov: Table, ds: seq<TickedSignal>, k: nat, r: TickedSignal, now: nat)
    requires net.Valid() && k < |ds| && AllApplicable(net, ds) && RecordOf(net, ov, ds, |ds|, now, k, r)
    requires Applicable(net, ds[k])
    ensures Resent(net, ApplyAll(net, ov, ds[..k], now).ov, ds, k, Resubmit(net, r), now)
  {
    hide ApplyAll;
    var d := ds[k];
    assert net.programs[d.signalIdx].Valid();
    SumPositive(net.programs[d.signalIdx].phaseTicks);
  }

  lemma IsResent(net: Network, ov: Table, ds: seq<TickedSignal>, es: seq<TickedSignal>, now: nat, k: nat)
    requires net.Valid() && now > 0 && TableBounded(net, ov, now - 1) && AllApplicable(net, ds) && DistinctIds(ds)
    requires IsReplayOf(net, ov, ds, es, now) && k < |ds| && Applicable(net, ds[k])
    ensures Resent(net, ApplyAll(net, ov, ds[..k], now).ov, ds, k, es[k], now)
  {
    hide TableBounded, ApplyAll, DistinctIds, Resent, RecordOf;
    RecordsOf(net, ov, ds, |ds|, now);
    assert ds[..|ds|] == ds;
    var r := ApplyAll(net, ov, ds, now).applied[k];
    assert RecordOf(net, ov, ds, |ds|, now, k, r);
    ResentFromRecord(net, ov, ds, k, r, now);
  }

  lemma ReplayStep(net: Network, ov: Table, ds: seq<TickedSignal>, es: seq<TickedSignal>, now: nat, k: nat)
    requires net.Valid() && now > 0 && TableBounded(net, ov, now - 1) && AllApplicable(net, ds) && DistinctIds(ds)
    requires IsReplayOf(net, ov, ds, es, now) && AllApplicable(net, es)
    requires k < |ds| && Midway(net, ds, ApplyAll(net, ov, ds[..k], now), ApplyAll(net, ov, es[..k], now), k, now)
    ensures Midway(net, ds, ApplyAll(net, ov, ds[..k + 1], now), ApplyAll(net, ov, es[..k + 1], now), k + 1, now)
  {
    hide TableBounded, Resent, Midway, DistinctIds, BatchKnown, ApplyAll, ApplyOne;
    ApplyAllStep(net, ov, ds, k, now);
    ApplyAllStep(net, ov, es, k, now);
    assert Applicable(net, ds[k]);
    BatchIsKnown(net, ov, ds, k, now);
    IsResent(net, ov, ds, es, now, k);
    TableAfter(net, ov, ds, k, now);
    TableAfter(net, ov, es, k, now);
    MidwayStep(net, ds, ApplyAll(net, ov, ds[..k], now), ApplyAll(net, ov, es[..k], now), k, now, es[k]);
  }

  lemma MidwayStarts(net: Network, ov: Table, ds: seq<TickedSignal>, es: seq<TickedSignal>, now: nat)
    requires AllApplicable(net, ds) && AllApplicable(net, es)
    ensures Midway(net, ds, ApplyAll(net, ov, ds[..0], now), ApplyAll(net, ov, es[..0], now), 0, now)
  {
    assert ds[..0] == [] && es[..0] == [];
  }

  lemma {:induction false} ReplayMidway(net: Network, ov: Table, ds: seq<TickedSignal>, es: seq<TickedSignal>, now: nat, k: nat)
    requires net.Valid() && now > 0 && TableBounded(net, ov, now - 1) && AllApplicable(net, ds) && DistinctIds(ds) && k <= |ds|
    requires IsReplayOf(net, ov, ds, es, now)
    requires AllApplicable(net, es)
    ensures Midway(net, ds, ApplyAll(net, ov, ds[..k], now), ApplyAll(net, ov, es[..k], now), k, now)
  {
    hide TableBounded, Midway, DistinctIds, ApplyAll;
    if k == 0 {
      MidwayStarts(net, ov, ds, es, now);
    } else {
      ReplayMidway(net, ov, ds, es, now, k - 1);
      ReplayStep(net, ov, ds, es, now, k - 1);
    }
  }

  lemma MidwayEnds(net: Network, ds: seq<TickedSignal>, f: Folded, g: Folded, now: nat)
    requires net.Valid() && AllApplicable(net, ds) && Midway(net, ds, f, g, |ds|, now)
    requires forall id | id in f.ov :: exists i | 0 <= i < |net.programs| :: net.programs[i].id == id
    ensures f == g
  {
    hide SameIds;
    forall id | id in f.ov ensures f.ov[id] == g.ov[id] {
      var i :| 0 <= i < |net.programs| && net.programs[i].id == id;
      assert !Pending(ds, |ds|, i);
      assert SameSoFar(Hist(f.ov, net.programs[i].id), Hist(g.ov, net.programs[i].id), now, Pending(ds, |ds|, i));
    }
    forall j | 0 <= j < |ds| ensures f.applied[j] == g.applied[j] {
      assert RecordSoFar(net, f.ov, ds, |ds|, now, j, f.applied[j], g.applied[j]);
    }
  }

  lemma ResubmitApplicable(net: Network, d: TickedSignal, r: TickedSignal)
    requires net.Valid() && Applicable(net, d) && r == d.(tick := r.tick, holdTicks := r.holdTicks)
    ensures Applicable(net, Resubmit(net, r))
  {
    assert net.programs[d.signalIdx].Valid();
    SumPositive(net.programs[d.signalIdx].phaseTicks);
  }

  lemma ReplayApplicable(net: Network, ov: Table, ds: seq<TickedSignal>, es: seq<TickedSignal>, now: nat)
    requires net.Valid() && now > 0 && TableBounded(net, ov, now - 1) && AllApplicable(net, ds) && DistinctIds(ds)
    requires IsReplayOf(net, ov, ds, es, now)
    ensures AllApplicable(net, es)
  {
    hide TableBounded, ApplyAll, DistinctIds, InstallAt;
    var applied := ApplyAll(net, ov, ds, now).applied;
    RecordsOf(net, ov, ds, |ds|, now);
    assert ds[..|ds|] == ds;
    forall k | 0 <= k < |es| ensures Applicable(net, es[k]) {
      assert RecordOf(net, ov, ds, |ds|, now, k, applied[k]);
      assert Applicable(net, ds[k]);
      ResubmitApplicable(net, ds[k], applied[k]);
    }
  }

  /** Re-enqueuing the record of a boundary installs the same holds and leaves the same
      record. */
  lemma {:induction false} BatchReplays(net: Network, ov: Table, ds: seq<TickedSignal>, es: seq<TickedSignal>, now: nat)
    requires net.Valid() && now > 0 && TableBounded(net, ov, now - 1) && AllApplicable(net, ds) && DistinctIds(ds)
    requires IsReplayOf(net, ov, ds, es, now)
    ensures AllApplicable(net, es)
    ensures ApplyAll(net, ov, es, now) == ApplyAll(net, ov, ds, now)
  {
    ReplayApplicable(net, ov, ds, es, now);
    ReplayMidway(net, ov, ds, es, now, |ds|);
    assert ds[..|ds|] == ds && es[..|es|] == es;
    BatchTops(net, ov, ds, |ds|, now);
    MidwayEnds(net, ds, ApplyAll(net, ov, ds, now), ApplyAll(net, ov, es, now), now);
  }
}
