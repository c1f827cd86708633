/** Runtime signal control: the override table of all programs, the verbs that change it
    at a tick boundary, and the claim that bounded retention loses nothing. */
module SignalControl {
  import opened SignalProgram
  import opened SignalDisplay
  import opened SignalHistory

  /** The programs in network order and the compiled bound on a hold chain. */
  datatype Network = Network(programs: seq<Program>, bound: nat) {
    ghost predicate Valid() {
      && bound >= 1
      && (forall i | 0 <= i < |programs| :: programs[i].Valid())
      && (forall i, j | 0 <= i < j < |programs| :: programs[i].id != programs[j].id)
    }
  }

  type Table = map<string, History>

  /** An accepted directive. `tick` is stamped when it is applied; `holdTicks` is the
      bounded request when buffered and the effective hold when recorded. */
  datatype TickedSignal = TickedSignal(
    tick: nat, signalIdx: nat, requestId: string, signal: string, phase: nat, holdTicks: nat)

  function Hist(ov: Table, id: string): History {
    if id in ov then ov[id] else []
  }

  ghost predicate Applicable(net: Network, d: TickedSignal) {
    && d.signalIdx < |net.programs|
    && d.phase < |net.programs[d.signalIdx].phaseTicks|
    && 1 <= d.holdTicks <= net.bound
    && d.signal == net.programs[d.signalIdx].id
  }

  ghost predicate AllApplicable(net: Network, ds: seq<TickedSignal>) {
    forall i | 0 <= i < |ds| :: Applicable(net, ds[i])
  }

  ghost predicate TableBounded(net: Network, ov: Table, now: nat)
    requires net.Valid()
  {
    && (forall i | 0 <= i < |net.programs| :: Bounded(Hist(ov, net.programs[i].id), net.programs[i], now, net.bound))
    && (forall id | id in ov :: ov[id] != [] && exists i | 0 <= i < |net.programs| :: net.programs[i].id == id)
  }

  // ---------------------------------------------------------------- applying verbs

  datatype Folded = Folded(ov: Table, applied: seq<TickedSignal>)

  /** The newest record with this id shows hold 0: accepted, but enforced nothing. */
  function MarkLast(applied: seq<TickedSignal>, requestId: string): (r: seq<TickedSignal>)
    ensures |r| == |applied|
  {
    if applied == [] then []
    else
      var n := |applied| - 1;
      if applied[n].requestId == requestId then applied[n := applied[n].(holdTicks := 0)]
      else MarkLast(applied[..n], requestId) + [applied[n]]
  }

  function ApplyOne(net: Network, st: Folded, d: TickedSignal, now: nat): (r: Folded)
    requires d.signalIdx < |net.programs|
    ensures |r.applied| == |st.applied| + 1
  {
    var id := net.programs[d.signalIdx].id;
    var r := Install(Hist(st.ov, id), d.phase, d.holdTicks, d.requestId, now, net.bound);
    var marked := if r.dropped.Some? then MarkLast(st.applied, r.dropped.value) else st.applied;
    Folded(if r.h == [] then st.ov else st.ov[id := r.h], marked + [d.(tick := now, holdTicks := r.hold)])
  }

  function ApplyAll(net: Network, ov: Table, ds: seq<TickedSignal>, now: nat): (r: Folded)
    requires forall i | 0 <= i < |ds| :: ds[i].signalIdx < |net.programs|
    ensures |r.applied| == |ds|
  {
    if ds == [] then Folded(ov, [])
    else ApplyOne(net, ApplyAll(net, ov, ds[..|ds| - 1], now), ds[|ds| - 1], now)
  }

  /** The history of program i after one verb: installed into if the verb names it. */
  function HistAfter(net: Network, ov: Table, d: TickedSignal, now: nat, i: nat): History
    requires i < |net.programs|
  {
    var h := Hist(ov, net.programs[i].id);
    if d.signalIdx == i then Install(h, d.phase, d.holdTicks, d.requestId, now, net.bound).h else h
  }

  lemma ApplyOneHist(net: Network, st: Folded, d: TickedSignal, now: nat, i: nat)
    requires net.Valid() && d.signalIdx < |net.programs| && i < |net.programs|
    ensures Hist(ApplyOne(net, st, d, now).ov, net.programs[i].id) == HistAfter(net, st.ov, d, now, i)
  {
    var id := net.programs[d.signalIdx].id;
    var r := Install(Hist(st.ov, id), d.phase, d.holdTicks, d.requestId, now, net.bound);
    if i != d.signalIdx {
      assert net.programs[i].id != id;
    } else if r.h == [] {
      assert Hist(st.ov, id) == [] by { assert |Truncated(Hist(st.ov, id), now)| == |Hist(st.ov, id)|; }
    }
  }

  lemma ApplyOneBounded(net: Network, st: Folded, d: TickedSignal, now: nat)
    requires net.Valid() && TableBounded(net, st.ov, now) && Applicable(net, d)
    ensures TableBounded(net, ApplyOne(net, st, d, now).ov, now)
  {
    var r := ApplyOne(net, st, d, now);
    forall i | 0 <= i < |net.programs|
      ensures Bounded(Hist(r.ov, net.programs[i].id), net.programs[i], now, net.bound)
    {
      ApplyOneHist(net, st, d, now, i);
      if i == d.signalIdx {
        InstallKeepsBounded(Hist(st.ov, d.signal), net.programs[i], d.phase, d.holdTicks, d.requestId, now, net.bound);
      }
    }
  }

  lemma {:induction false} ApplyAllBounded(net: Network, ov: Table, ds: seq<TickedSignal>, now: nat)
    requires net.Valid() && TableBounded(net, ov, now) && AllApplicable(net, ds)
    ensures TableBounded(net, ApplyAll(net, ov, ds, now).ov, now)
  {
    if ds != [] {
      ApplyAllBounded(net, ov, ds[..|ds| - 1], now);
      ApplyOneBounded(net, ApplyAll(net, ov, ds[..|ds| - 1], now), ds[|ds| - 1], now);
    }
  }

  // ---------------------------------------------------------------- lapses and sweep

  datatype SigLapse = SigLapse(signal: string, phase: nat, since: nat, until: nat, requestId: string)

  function LapsesOf(net: Network, ov: Table, now: nat, k: nat): seq<SigLapse>
    requires k <= |net.programs|
  {
    if k == 0 then []
    else
      var id := net.programs[k - 1].id;
      var h := Hist(ov, id);
      LapsesOf(net, ov, now, k - 1) +
      if Lapses(h, now) then
        var last := h[|h| - 1];
        [SigLapse(id, last.phase, last.chainStart, last.until, last.requestId)]
      else []
  }

  function WithHistory(ov: Table, id: string, h: History): Table {
    if h == [] then ov - {id} else ov[id := h]
  }

  /** The first k programs swept. */
  function SweepTable(net: Network, ov: Table, now: nat, k: nat): Table
    requires k <= |net.programs|
  {
    if k == 0 then ov
    else
      var p := net.programs[k - 1];
      var prev := SweepTable(net, ov, now, k - 1);
      WithHistory(prev, p.id, Sweep(Hist(prev, p.id), now, p.clearance))
  }

  lemma {:induction false} SweepTableMeaning(net: Network, ov: Table, now: nat, k: nat)
    requires net.Valid() && k <= |net.programs|
    ensures forall i | 0 <= i < |net.programs| ::
      Hist(SweepTable(net, ov, now, k), net.programs[i].id) ==
        if i < k then Sweep(Hist(ov, net.programs[i].id), now, net.programs[i].clearance)
        else Hist(ov, net.programs[i].id)
    ensures forall id | id in SweepTable(net, ov, now, k) :: id in ov
    ensures (forall id | id in ov :: ov[id] != []) ==> forall id | id in SweepTable(net, ov, now, k) :: SweepTable(net, ov, now, k)[id] != []
  {
    hide Sweep;
    if k > 0 {
      SweepTableMeaning(net, ov, now, k - 1);
      assert forall i | 0 <= i < |net.programs| && i != k - 1 :: net.programs[i].id != net.programs[k - 1].id;
    }
  }

  lemma SweepTableBounded(net: Network, ov: Table, now: nat)
    requires net.Valid() && TableBounded(net, ov, now)
    ensures TableBounded(net, SweepTable(net, ov, now, |net.programs|), now)
  {
    SweepTableMeaning(net, ov, now, |net.programs|);
    forall i | 0 <= i < |net.programs|
      ensures Bounded(Hist(SweepTable(net, ov, now, |net.programs|), net.programs[i].id), net.programs[i], now, net.bound)
    {
      var h := Hist(ov, net.programs[i].id);
      SweepForgets(h, now, net.programs[i].clearance);
      BoundedSuffix(h, Sweep(h, now, net.programs[i].clearance), net.programs[i], now, net.bound, net.programs[i].clearance);
    }
  }

  /** One tick boundary of the override table. */
  function StepTable(net: Network, ov: Table, ds: seq<TickedSignal>, now: nat): Table
    requires forall i | 0 <= i < |ds| :: ds[i].signalIdx < |net.programs|
  {
    SweepTable(net, ApplyAll(net, ov, ds, now).ov, now, |net.programs|)
  }

  // ---------------------------------------------------------------- whole runs

  lemma TableBoundedLater(net: Network, ov: Table, now: nat)
    requires net.Valid() && TableBounded(net, ov, now)
    ensures TableBounded(net, ov, now + 1)
  {
  }

  lemma StepTableBounded(net: Network, ov: Table, ds: seq<TickedSignal>, now: nat)
    requires net.Valid() && TableBounded(net, ov, now) && AllApplicable(net, ds)
    ensures TableBounded(net, StepTable(net, ov, ds, now + 1), now + 1)
  {
    hide TableBounded;
    TableBoundedLater(net, ov, now);
    ApplyAllBounded(net, ov, ds, now + 1);
    SweepTableBounded(net, ApplyAll(net, ov, ds, now + 1).ov, now + 1);
  }

  /** The table after a run in which the verbs of boundary t + 1 are `batches[t]`. */
  function RunTable(net: Network, batches: seq<seq<TickedSignal>>): Table
    requires forall t, i | 0 <= t < |batches| && 0 <= i < |batches[t]| :: batches[t][i].signalIdx < |net.programs|
  {
    if batches == [] then map[]
    else
      var n := |batches| - 1;
      assert forall i | 0 <= i < |batches[n]| :: batches[n][i].signalIdx < |net.programs|;
      StepTable(net, RunTable(net, batches[..n]), batches[n], |batches|)
  }

  /** The same run without the sweep: a table that never forgets. */
  ghost function RunFull(net: Network, batches: seq<seq<TickedSignal>>): Table
    requires forall t, i | 0 <= t < |batches| && 0 <= i < |batches[t]| :: batches[t][i].signalIdx < |net.programs|
  {
    if batches == [] then map[]
    else
      var n := |batches| - 1;
      assert forall i | 0 <= i < |batches[n]| :: batches[n][i].signalIdx < |net.programs|;
      ApplyAll(net, RunFull(net, batches[..n]), batches[n], |batches|).ov
  }

  ghost predicate RunApplicable(net: Network, batches: seq<seq<TickedSignal>>) {
    forall t, i | 0 <= t < |batches| && 0 <= i < |batches[t]| :: Applicable(net, batches[t][i])
  }

  ghost predicate TableForgets(net: Network, full: Table, live: Table, now: nat) {
    forall i | 0 <= i < |net.programs| ::
      Forgets(Hist(full, net.programs[i].id), Hist(live, net.programs[i].id), now, net.programs[i].clearance)
  }

  lemma ApplyOneForgets(net: Network, full: Folded, live: Folded, d: TickedSignal, now: nat)
    requires net.Valid() && TableBounded(net, full.ov, now) && Applicable(net, d)
    requires TableForgets(net, full.ov, live.ov, now) && full.applied == live.applied
    ensures TableForgets(net, ApplyOne(net, full, d, now).ov, ApplyOne(net, live, d, now).ov, now)
    ensures ApplyOne(net, full, d, now).applied == ApplyOne(net, live, d, now).applied
  {
    var p := net.programs[d.signalIdx];
    InstallForgets(Hist(full.ov, p.id), Hist(live.ov, p.id), p, d.phase, d.holdTicks, d.requestId, now, net.bound, p.clearance);
    var f, l := ApplyOne(net, full, d, now).ov, ApplyOne(net, live, d, now).ov;
    forall i | 0 <= i < |net.programs|
      ensures Forgets(Hist(f, net.programs[i].id), Hist(l, net.programs[i].id), now, net.programs[i].clearance)
    {
      ApplyOneHist(net, full, d, now, i);
      ApplyOneHist(net, live, d, now, i);
    }
  }

  lemma {:induction false} ApplyAllForgets(net: Network, full: Table, live: Table, ds: seq<TickedSignal>, now: nat)
    requires net.Valid() && TableBounded(net, full, now) && AllApplicable(net, ds)
    requires TableForgets(net, full, live, now)
    ensures TableForgets(net, ApplyAll(net, full, ds, now).ov, ApplyAll(net, live, ds, now).ov, now)
    ensures ApplyAll(net, full, ds, now).applied == ApplyAll(net, live, ds, now).applied
  {
    if ds != [] {
      var init := ds[..|ds| - 1];
      ApplyAllForgets(net, full, live, init, now);
      ApplyAllBounded(net, full, init, now);
      ApplyOneForgets(net, ApplyAll(net, full, init, now), ApplyAll(net, live, init, now), ds[|ds| - 1], now);
    }
  }

  lemma {:induction false} RunForgets(net: Network, batches: seq<seq<TickedSignal>>)
    requires net.Valid() && RunApplicable(net, batches)
    ensures TableBounded(net, RunFull(net, batches), |batches|)
    ensures TableForgets(net, RunFull(net, batches), RunTable(net, batches), |batches|)
  {
    if batches != [] {
      var n := |batches| - 1;
      var now := |batches|;
      RunForgets(net, batches[..n]);
      var full, live := RunFull(net, batches[..n]), RunTable(net, batches[..n]);
      TableBoundedLater(net, full, n);
      assert AllApplicable(net, batches[n]);
      ApplyAllForgets(net, full, live, batches[n], now);
      ApplyAllBounded(net, full, batches[n], now);
      var f, l := ApplyAll(net, full, batches[n], now).ov, ApplyAll(net, live, batches[n], now).ov;
      SweepTableMeaning(net, l, now, |net.programs|);
      forall i | 0 <= i < |net.programs|
        ensures Forgets(Hist(f, net.programs[i].id), Hist(StepTable(net, live, batches[n], now), net.programs[i].id), now, net.programs[i].clearance)
      {
        ForgetsThenSweeps(Hist(f, net.programs[i].id), Hist(l, net.programs[i].id), now, net.programs[i].clearance);
      }
    }
  }

  /** Bounded retention loses nothing. After every tick of every run, phase, light,
      permissive green and red clearance read from the swept table are those of a table
      that kept every hold ever commanded, and so are the reported lapses. */
  lemma {:induction false} RetentionLosesNothing(net: Network, batches: seq<seq<TickedSignal>>, i: nat, link: nat)
    requires net.Valid() && RunApplicable(net, batches) && i < |net.programs|
    ensures var p, now := net.programs[i], |batches|;
      var full, live := Hist(RunFull(net, batches), p.id), Hist(RunTable(net, batches), p.id);
      && PhasesOf(full, p) && PhasesOf(live, p)
      && SigPhaseAt(full, p, now) == SigPhaseAt(live, p, now)
      && LightAt(full, p, link, now) == LightAt(live, p, link, now)
      && SigPermissive(full, p, link, now) == SigPermissive(live, p, link, now)
      && SigInClearance(full, p, link, now) == SigInClearance(live, p, link, now)
      && Lapses(full, now) == Lapses(live, now)
  {
    RunForgets(net, batches);
    var p, now := net.programs[i], |batches|;
    var full, live := Hist(RunFull(net, batches), p.id), Hist(RunTable(net, batches), p.id);
    var gone := full[..|full| - |live|];
    assert full == gone + live;
    BoundedSuffix(full, live, p, now, net.bound, p.clearance);
    ForgettingIsInvisible(gone, live, p, link, now);
    LapsesForgets(full, live, now, p.clearance);
  }

  /** In every run every history is chronological and disjoint, each hold ends within the
      bound of its chain, and a lapse is reported at a tick exactly when the tick before
      was commanded and this one is not. */
  lemma RunsStayBounded(net: Network, batches: seq<seq<TickedSignal>>, i: nat)
    requires net.Valid() && RunApplicable(net, batches) && i < |net.programs|
    ensures var p, now := net.programs[i], |batches|;
      var full, live := Hist(RunFull(net, batches), p.id), Hist(RunTable(net, batches), p.id);
      && Bounded(full, p, now, net.bound) && Bounded(live, p, now, net.bound)
      && (now > 0 ==> (Lapses(live, now) <==> InForce(full, now - 1).Some? && InForce(full, now).None?))
  {
    RunForgets(net, batches);
    var p, now := net.programs[i], |batches|;
    var full, live := Hist(RunFull(net, batches), p.id), Hist(RunTable(net, batches), p.id);
    BoundedSuffix(full, live, p, now, net.bound, p.clearance);
    LapsesForgets(full, live, now, p.clearance);
    if now > 0 {
      LapseExactly(full, p, now, net.bound);
    }
  }

  /** None of the verbs breaks a chain of program i as it is applied. */
  ghost predicate Unbroken(net: Network, ov: Table, ds: seq<TickedSignal>, now: nat, i: nat)
    requires AllApplicable(net, ds) && i < |net.programs|
  {
    ds == []
    || (var n := |ds| - 1;
        && Unbroken(net, ov, ds[..n], now, i)
        && (ds[n].signalIdx == i ==>
              !BreaksChain(Hist(ApplyAll(net, ov, ds[..n], now).ov, net.programs[i].id), ds[n].phase, now)))
  }

  lemma ApplyOneChains(net: Network, st: Folded, d: TickedSignal, now: nat, i: nat)
    requires net.Valid() && Applicable(net, d) && i < |net.programs|
    requires var h := Hist(st.ov, net.programs[i].id);
      && Bounded(h, net.programs[i], now, net.bound) && ChainsJoined(h)
      && (d.signalIdx == i ==> !BreaksChain(h, d.phase, now))
    ensures ChainsJoined(Hist(ApplyOne(net, st, d, now).ov, net.programs[i].id))
  {
    ApplyOneHist(net, st, d, now, i);
    if d.signalIdx == i {
      var h := Hist(st.ov, net.programs[i].id);
      InstallKeepsChains(h, net.programs[i], d.phase, d.holdTicks, d.requestId, now, net.bound);
    }
  }

  lemma HistBounded(net: Network, ov: Table, now: nat, i: nat)
    requires net.Valid() && TableBounded(net, ov, now) && i < |net.programs|
    ensures Bounded(Hist(ov, net.programs[i].id), net.programs[i], now, net.bound)
  {
  }

  lemma {:induction false} ApplyAllChains(net: Network, ov: Table, ds: seq<TickedSignal>, now: nat, i: nat)
    requires net.Valid() && TableBounded(net, ov, now) && AllApplicable(net, ds) && i < |net.programs|
    requires ChainsJoined(Hist(ov, net.programs[i].id)) && Unbroken(net, ov, ds, now, i)
    ensures ChainsJoined(Hist(ApplyAll(net, ov, ds, now).ov, net.programs[i].id))
  {
    hide TableBounded, Bounded, ChainsJoined, BreaksChain, ApplyOne, Hist;
    if ds != [] {
      var n := |ds| - 1;
      ApplyAllChains(net, ov, ds[..n], now, i);
      ApplyAllBounded(net, ov, ds[..n], now);
      var st := ApplyAll(net, ov, ds[..n], now);
      HistBounded(net, st.ov, now, i);
      ApplyOneChains(net, st, ds[n], now, i);
    }
  }

  /** No verb of the run breaks a chain of program i. */
  ghost predicate RunUnbroken(net: Network, batches: seq<seq<TickedSignal>>, i: nat)
    requires RunApplicable(net, batches) && i < |net.programs|
  {
    batches == []
    || (var n := |batches| - 1;
        && RunUnbroken(net, batches[..n], i)
        && AllApplicable(net, batches[n])
        && Unbroken(net, RunFull(net, batches[..n]), batches[n], |batches|, i))
  }

  lemma {:induction false} RunChains(net: Network, batches: seq<seq<TickedSignal>>, i: nat)
    requires net.Valid() && RunApplicable(net, batches) && i < |net.programs| && RunUnbroken(net, batches, i)
    ensures ChainsJoined(Hist(RunFull(net, batches), net.programs[i].id))
  {
    hide TableBounded, Unbroken;
    if batches != [] {
      var n := |batches| - 1;
      RunChains(net, batches[..n], i);
      RunForgets(net, batches[..n]);
      var full := RunFull(net, batches[..n]);
      TableBoundedLater(net, full, n);
      ApplyAllChains(net, full, batches[n], |batches|, i);
    }
  }

  /** The starvation rail over whole runs: while no verb breaks a chain, no uninterrupted run
      of one commanded phase outlasts the bound. */
  lemma NoStarvation(net: Network, batches: seq<seq<TickedSignal>>, i: nat, phase: nat, from: nat, to: nat)
    requires net.Valid() && RunApplicable(net, batches) && i < |net.programs| && RunUnbroken(net, batches, i)
    requires from <= to && CommandedThroughout(Hist(RunFull(net, batches), net.programs[i].id), phase, from, to)
    ensures to - from <= net.bound
  {
    RunChains(net, batches, i);
    RunForgets(net, batches);
    NoRunOutlastsBound(Hist(RunFull(net, batches), net.programs[i].id), net.programs[i], |batches|, net.bound, phase, from, to);
  }

  // ---------------------------------------------------------------- the rail, exactly

  /** However long they had asked to hold, none of the verbs for program i, as it is applied,
      lets a command outlast the bound. */
  ghost predicate Railed(net: Network, ov: Table, ds: seq<TickedSignal>, now: nat, i: nat)
    requires AllApplicable(net, ds) && i < |net.programs|
  {
    ds == []
    || (var n := |ds| - 1;
        && Railed(net, ov, ds[..n], now, i)
        && (ds[n].signalIdx == i ==>
              AnyHoldWithin(Hist(ApplyAll(net, ov, ds[..n], now).ov, net.programs[i].id), ds[n], now, net.bound)))
  }

  ghost predicate AnyHoldWithin(h: History, d: TickedSignal, now: nat, bound: nat) {
    forall hold: nat | hold >= 1 :: WithinBound(Install(h, d.phase, hold, d.requestId, now, bound).h, bound)
  }

  ghost predicate RunRailed(net: Network, batches: seq<seq<TickedSignal>>, i: nat)
    requires RunApplicable(net, batches) && i < |net.programs|
  {
    batches == []
    || (var n := |batches| - 1;
        && RunRailed(net, batches[..n], i)
        && AllApplicable(net, batches[n])
        && Railed(net, RunFull(net, batches[..n]), batches[n], |batches|, i))
  }

  lemma {:induction false} UnbrokenIffRailed(net: Network, ov: Table, ds: seq<TickedSignal>, now: nat, i: nat)
    requires net.Valid() && TableBounded(net, ov, now) && AllApplicable(net, ds) && i < |net.programs|
    requires ChainsJoined(Hist(ov, net.programs[i].id))
    ensures Unbroken(net, ov, ds, now, i) <==> Railed(net, ov, ds, now, i)
  {
    hide TableBounded, Bounded, ChainsJoined, BreaksChain, ApplyOne, ApplyAll, Hist, Install, WithinBound;
    if ds != [] {
      var n := |ds| - 1;
      UnbrokenIffRailed(net, ov, ds[..n], now, i);
      if Unbroken(net, ov, ds[..n], now, i) && ds[n].signalIdx == i {
        ApplyAllChains(net, ov, ds[..n], now, i);
        ApplyAllBounded(net, ov, ds[..n], now);
        var st := ApplyAll(net, ov, ds[..n], now);
        HistBounded(net, st.ov, now, i);
        BoundHoldsIff(Hist(st.ov, net.programs[i].id), net.programs[i], ds[n].phase, ds[n].requestId, now, net.bound);
      }
    }
  }

  /** Over whole runs: no verb breaks a chain if and only if no verb, however long it had asked
      to hold, lets a command outlast the bound. */
  lemma {:induction false} RunUnbrokenIff(net: Network, batches: seq<seq<TickedSignal>>, i: nat)
    requires net.Valid() && RunApplicable(net, batches) && i < |net.programs|
    ensures RunUnbroken(net, batches, i) <==> RunRailed(net, batches, i)
  {
    hide TableBounded, Unbroken, Railed;
    if batches != [] {
      var n := |batches| - 1;
      RunUnbrokenIff(net, batches[..n], i);
      if RunUnbroken(net, batches[..n], i) {
        RunChains(net, batches[..n], i);
        RunForgets(net, batches[..n]);
        var full := RunFull(net, batches[..n]);
        TableBoundedLater(net, full, n);
        UnbrokenIffRailed(net, full, batches[n], |batches|, i);
      }
    }
  }

  // ---------------------------------------------------------------- one verb a boundary

  ghost predicate OneVerbPerBoundary(ds: seq<TickedSignal>) {
    forall i, j | 0 <= i < j < |ds| :: ds[i].signalIdx != ds[j].signalIdx
  }

  lemma {:induction false} ApplyAllUntouched(net: Network, ov: Table, ds: seq<TickedSignal>, now: nat, i: nat)
    requires net.Valid() && AllApplicable(net, ds) && i < |net.programs|
    requires forall j | 0 <= j < |ds| :: ds[j].signalIdx != i
    ensures Hist(ApplyAll(net, ov, ds, now).ov, net.programs[i].id) == Hist(ov, net.programs[i].id)
  {
    if ds != [] {
      ApplyAllUntouched(net, ov, ds[..|ds| - 1], now, i);
      ApplyOneHist(net, ApplyAll(net, ov, ds[..|ds| - 1], now), ds[|ds| - 1], now, i);
    }
  }

  lemma {:induction false} OneVerbUnbroken(net: Network, ov: Table, ds: seq<TickedSignal>, now: nat, i: nat)
    requires net.Valid() && AllApplicable(net, ds) && OneVerbPerBoundary(ds) && i < |net.programs|
    requires var h := Hist(ov, net.programs[i].id); |h| > 0 ==> h[|h| - 1].since < now
    ensures Unbroken(net, ov, ds, now, i)
  {
    hide ApplyOne, ApplyAll, Applicable, BreaksChain;
    if ds != [] {
      var n := |ds| - 1;
      OneVerbUnbroken(net, ov, ds[..n], now, i);
      if ds[n].signalIdx == i {
        ApplyAllUntouched(net, ov, ds[..n], now, i);
        OneVerbNeverBreaks(Hist(ov, net.programs[i].id), ds[n].phase, now);
      }
    }
  }

  /** At most one verb per program and boundary is enough, whatever the verbs. */
  lemma {:induction false} OneVerbRunUnbroken(net: Network, batches: seq<seq<TickedSignal>>, i: nat)
    requires net.Valid() && RunApplicable(net, batches) && i < |net.programs|
    requires forall t | 0 <= t < |batches| :: OneVerbPerBoundary(batches[t])
    ensures RunUnbroken(net, batches, i)
  {
    hide Unbroken, ApplyAll, OneVerbPerBoundary;
    if batches != [] {
      var n := |batches| - 1;
      OneVerbRunUnbroken(net, batches[..n], i);
      RunForgets(net, batches[..n]);
      var h := Hist(RunFull(net, batches[..n]), net.programs[i].id);
      assert |h| > 0 ==> h[|h| - 1].since <= n;
      assert AllApplicable(net, batches[n]);
      OneVerbUnbroken(net, RunFull(net, batches[..n]), batches[n], |batches|, i);
    }
  }
}
