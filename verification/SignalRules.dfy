/** The rules of signal verbs in plain terms: which are accepted and as what, how long a hold is
    granted, what the record of a boundary says of it, when it lapses and when it is forgotten. */
module SignalRules {
  import Arith
  import opened SignalProgram
  import opened SignalDisplay
  import opened SignalHistory
  import opened SignalControl
  import opened SignalEngine

  // ---------------------------------------------------------------- the verb

  predicate SomeProgram(net: Network, id: string) {
    exists i | 0 <= i < |net.programs| :: net.programs[i].id == id
  }

  ghost predicate InUse(buffer: seq<TickedSignal>, ov: Table, requestId: string) {
    || (exists i | 0 <= i < |buffer| :: buffer[i].requestId == requestId)
    || exists id | id in ov :: exists i | 0 <= i < |ov[id]| :: ov[id][i].requestId == requestId
  }

  /** The ticks asked for: a whole cycle when none are, and never more than the bound. */
  function Asked(p: Program, holdTicks: nat, bound: nat): nat {
    if holdTicks > 0 then (if holdTicks <= bound then holdTicks else bound)
    else if Sum(p.phaseTicks) <= bound then Sum(p.phaseTicks) else bound
  }

  /** A verb is accepted if and only if its id is short enough and in use nowhere, there is a
      program of the name, and the program has the phase; it is then resolved to that program
      and its hold bounded. A refusal names a reason that holds. */
  lemma VerbAcceptedIff(net: Network, buffer: seq<TickedSignal>, ov: Table, d: Directive)
    requires net.Valid()
    ensures match Judge(net, buffer, ov, d)
      case RequestIdTooLong => |d.requestId| > 65535
      case UnknownSignal => !SomeProgram(net, d.signal)
      case PhaseOutOfRange => forall i | 0 <= i < |net.programs| && net.programs[i].id == d.signal :: !(0 <= d.phase < |net.programs[i].phaseTicks|)
      case DuplicateBuffered => exists i | 0 <= i < |buffer| :: buffer[i].requestId == d.requestId
      case DuplicateLive => exists id | id in ov :: exists i | 0 <= i < |ov[id]| :: ov[id][i].requestId == d.requestId
      case Accepted(t) =>
        && |d.requestId| <= 65535 && !InUse(buffer, ov, d.requestId)
        && t.signalIdx < |net.programs| && net.programs[t.signalIdx].id == d.signal == t.signal
        && 0 <= d.phase < |net.programs[t.signalIdx].phaseTicks|
        && t.tick == 0 && t.requestId == d.requestId && t.phase == d.phase
        && t.holdTicks == Asked(net.programs[t.signalIdx], d.holdTicks, net.bound)
  {
  }

  // ---------------------------------------------------------------- the hold

  /** The ticks granted: those asked for, cut at the bound - counted from the start of the
      chain when the newest hold shows the same phase and reaches this tick. */
  lemma HoldGranted(h: History, p: Program, phase: nat, hold: nat, id: string, now: nat, bound: nat)
    requires Bounded(h, p, now, bound) && hold >= 1 && bound >= 1
    ensures var r := Install(h, phase, hold, id, now, bound);
      if h != [] && h[|h| - 1].phase == phase && now <= h[|h| - 1].until then
        r.hold == Min(hold, h[|h| - 1].chainStart + bound - now)
        && (r.hold > 0 ==> r.h[|r.h| - 1] == Override(phase, now, now + r.hold, h[|h| - 1].chainStart, id))
      else
        r.hold == Min(hold, bound) && r.h[|r.h| - 1] == Override(phase, now, now + r.hold, now, id)
  {
    hide Remaining, Truncated, Dropped;
  }

  /** A hold is kept through one clearance window past its end, and no longer. */
  lemma {:induction false} KeptIff(h: History, now: nat, clearance: nat, ov: Override)
    ensures ov in Sweep(h, now, clearance) <==> ov in h && now - ov.until <= clearance
  {
    if h != [] {
      KeptIff(h[1..], now, clearance, ov);
      assert h == [h[0]] + h[1..];
    }
  }

  // ---------------------------------------------------------------- the offset

  lemma ModShift(a: int, c: int)
    requires c > 0
    ensures (a + c) % c == a % c
  {
    Arith.DivModUnique(a + c, a / c + 1, a % c, c);
  }

  /** The schedule starts its cycle an offset late. */
  lemma OffsetDelays(p: Program, tick: nat)
    requires p.Valid()
    ensures p.Cycle() > 0 && CycleTick(p, tick) == (tick - p.offsetTicks) % p.Cycle()
  {
    SumPositive(p.phaseTicks);
    var c, t, o := p.Cycle(), tick as int, p.offsetTicks as int;
    var a := t % c + c - o % c;
    var q := t / c - o / c - 1;
    assert (t / c - o / c) * c == t / c * c - o / c * c;
    assert (q + 1) * c == q * c + c;
    assert a == t - o - q * c;
    assert a == a / c * c + a % c;
    assert (q + a / c) * c == q * c + a / c * c;
    Arith.DivModUnique(t - o, q + a / c, a % c, c);
  }

  // ---------------------------------------------------------------- the light

  /** The light of a link at tick x is the letter a phase has for it: g and G for green, g alone
      for one that has to yield, y for amber, r for red, and anything else, or no letter, for
      no signal. */
  ghost predicate Displays(h: History, p: Program, link: nat, x: nat, phase: nat)
    requires p.Valid() && PhasesOf(h, p) && phase < |p.states|
  {
    var letter := if link < |p.states[phase]| then p.states[phase][link] else ' ';
    && (LightAt(h, p, link, x) == SigGreen <==> letter in "gG")
    && (LightAt(h, p, link, x) == SigAmber <==> letter == 'y')
    && (LightAt(h, p, link, x) == SigRed <==> letter == 'r')
    && (SigPermissive(h, p, link, x) <==> letter == 'g')
  }

  /** Under a hold it is the phase commanded, with the age of the hold. */
  lemma HeldLight(h: History, p: Program, link: nat, x: nat, i: nat)
    requires p.Valid() && PhasesOf(h, p) && Chronological(h) && i < |h| && h[i].since <= x < h[i].until
    ensures SigPhaseAt(h, p, x) == At(h[i].phase, x - h[i].since) && Displays(h, p, link, x, h[i].phase)
  {
    hide HeldAt;
    HeldAtUnique(h, i, x);
  }

  /** Otherwise it is the phase at whose place in the cycle the tick falls. */
  lemma ScheduledLight(h: History, p: Program, link: nat, x: nat, i: nat, e: nat)
    requires p.Valid() && PhasesOf(h, p) && i < |p.phaseTicks| && e < p.phaseTicks[i] && Sum(p.phaseTicks) > 0
    requires forall k | 0 <= k < |h| :: !(h[k].since <= x < h[k].until)
    requires (x - p.offsetTicks) % Sum(p.phaseTicks) == Sum(p.phaseTicks[..i]) + e
    ensures SigPhaseAt(h, p, x) == At(i, e) && Displays(h, p, link, x, i)
  {
    hide HeldAt, CycleTick, PhaseAtElapsed;
    HeldAtNone(h, x);
    OffsetDelays(p, x);
    PhaseAtPlacement(p, x, i, e);
  }

  // ---------------------------------------------------------------- the record

  /** Ticks from `now` for which the newest hold, if it is this verb's and of this boundary,
      was granted. */
  function Granted(h: History, requestId: string, now: nat): int {
    if h != [] && h[|h| - 1].since == now && h[|h| - 1].requestId == requestId then h[|h| - 1].until - now else 0
  }

  ghost predicate DistinctVerbs(ds: seq<TickedSignal>) {
    forall i, j | 0 <= i < j < |ds| :: ds[i].requestId != ds[j].requestId
  }

  /** The holds that begin at this boundary are those of its verbs. */
  ghost predicate OfThisBoundary(net: Network, ov: Table, ds: seq<TickedSignal>, now: nat) {
    forall i | 0 <= i < |net.programs| ::
      var h := Hist(ov, net.programs[i].id);
      h != [] && h[|h| - 1].since == now
      ==> exists j | 0 <= j < |ds| :: ds[j].signalIdx == i && ds[j].requestId == h[|h| - 1].requestId
  }

  /** Each record shows what its verb enforces. */
  ghost predicate Truthful(net: Network, st: Folded, ds: seq<TickedSignal>, now: nat) {
    && |st.applied| == |ds|
    && forall j | 0 <= j < |ds| ::
         && ds[j].signalIdx < |net.programs|
         && st.applied[j] == ds[j].(tick := now, holdTicks := st.applied[j].holdTicks)
         && st.applied[j].holdTicks == Granted(Hist(st.ov, net.programs[ds[j].signalIdx].id), ds[j].requestId, now)
  }

  /** Marking changes the newest record of the id, which is the only one where ids differ. */
  lemma {:induction false} MarksOnly(applied: seq<TickedSignal>, requestId: string)
    requires DistinctVerbs(applied)
    ensures forall j | 0 <= j < |applied| ::
      MarkLast(applied, requestId)[j] == if applied[j].requestId == requestId then applied[j].(holdTicks := 0) else applied[j]
  {
    if applied != [] {
      MarksOnly(applied[..|applied| - 1], requestId);
    }
  }

  lemma InstallNewest(h: History, p: Program, d: TickedSignal, now: nat, bound: nat)
    requires Bounded(h, p, now, bound) && d.holdTicks >= 1 && bound >= 1
    ensures var r := Install(h, d.phase, d.holdTicks, d.requestId, now, bound);
      && (r.hold == 0 ==> r.h == h && r.dropped == None)
      && (r.hold > 0 ==> r.h != [] && r.h[|r.h| - 1].since == now && r.h[|r.h| - 1].requestId == d.requestId && r.h[|r.h| - 1].until == now + r.hold)
      && (r.dropped.Some? <==> r.hold > 0 && h != [] && h[|h| - 1].since == now)
      && (r.dropped.Some? ==> r.dropped == Some(h[|h| - 1].requestId))
  {
    hide Remaining;
  }

  /** Right after a verb, its own record shows what it was granted. */
  lemma NewRecord(net: Network, st: Folded, ds: seq<TickedSignal>, d: TickedSignal, now: nat)
    requires net.Valid() && TableBounded(net, st.ov, now) && Applicable(net, d) && |st.applied| == |ds|
    requires DistinctVerbs(ds + [d]) && OfThisBoundary(net, st.ov, ds, now)
    ensures var r := ApplyOne(net, st, d, now);
      && |r.applied| == |ds| + 1 && r.applied[|ds|] == d.(tick := now, holdTicks := r.applied[|ds|].holdTicks)
      && r.applied[|ds|].holdTicks == Granted(Hist(r.ov, net.programs[d.signalIdx].id), d.requestId, now)
  {
    hide Install, MarkLast, TableBounded, OfThisBoundary, Bounded, DistinctVerbs;
    var p := net.programs[d.signalIdx];
    ProgramBounded(net, st.ov, now, d.signalIdx);
    InstallNewest(Hist(st.ov, p.id), p, d, now, net.bound);
    ApplyOneHist(net, st, d, now, d.signalIdx);
    NewIsNone(net, st.ov, ds, d, now);
  }

  /** The records before it change where one was superseded by it, and only there. */
  lemma OldRecord(net: Network, st: Folded, ds: seq<TickedSignal>, d: TickedSignal, now: nat, j: nat)
    requires net.Valid() && TableBounded(net, st.ov, now) && Applicable(net, d) && j < |ds| == |st.applied|
    requires DistinctVerbs(st.applied) && st.applied[j].requestId == ds[j].requestId != d.requestId
    requires st.applied[j].holdTicks == Granted(Hist(st.ov, net.programs[d.signalIdx].id), ds[j].requestId, now)
    ensures var r := ApplyOne(net, st, d, now);
      && |r.applied| == |ds| + 1 && r.applied[j] == st.applied[j].(holdTicks := r.applied[j].holdTicks)
      && r.applied[j].holdTicks == Granted(Hist(r.ov, net.programs[d.signalIdx].id), ds[j].requestId, now)
  {
    hide Install, MarkLast, TableBounded, Bounded, DistinctVerbs;
    var p := net.programs[d.signalIdx];
    var h := Hist(st.ov, p.id);
    ProgramBounded(net, st.ov, now, d.signalIdx);
    InstallNewest(h, p, d, now, net.bound);
    ApplyOneHist(net, st, d, now, d.signalIdx);
    var r := Install(h, d.phase, d.holdTicks, d.requestId, now, net.bound);
    if r.dropped.Some? {
      MarksOnly(st.applied, r.dropped.value);
    }
  }

  /** So they do for verbs of other programs, where nothing is superseded. */
  lemma OtherRecord(net: Network, st: Folded, ds: seq<TickedSignal>, d: TickedSignal, now: nat, j: nat)
    requires net.Valid() && TableBounded(net, st.ov, now) && Applicable(net, d) && j < |ds| == |st.applied|
    requires DistinctVerbs(st.applied) && st.applied[j].requestId == ds[j].requestId
    requires ds[j].signalIdx < |net.programs| && ds[j].signalIdx != d.signalIdx
    requires var h := Hist(st.ov, net.programs[d.signalIdx].id);
      h != [] && h[|h| - 1].since == now ==> h[|h| - 1].requestId != ds[j].requestId
    ensures var r := ApplyOne(net, st, d, now);
      && |r.applied| == |ds| + 1 && r.applied[j] == st.applied[j]
      && Hist(r.ov, net.programs[ds[j].signalIdx].id) == Hist(st.ov, net.programs[ds[j].signalIdx].id)
  {
    hide Install, MarkLast, TableBounded, Bounded, DistinctVerbs;
    var p := net.programs[d.signalIdx];
    ProgramBounded(net, st.ov, now, d.signalIdx);
    InstallNewest(Hist(st.ov, p.id), p, d, now, net.bound);
    ApplyOneHist(net, st, d, now, ds[j].signalIdx);
    var r := Install(Hist(st.ov, p.id), d.phase, d.holdTicks, d.requestId, now, net.bound);
    if r.dropped.Some? {
      MarksOnly(st.applied, r.dropped.value);
    }
  }

  /** What one verb does to the record: the newest of this boundary's holds on its program, if
      it was superseded, is marked; the verb's own record follows. */
  lemma StepRecords(net: Network, st: Folded, ds: seq<TickedSignal>, d: TickedSignal, now: nat, j: nat)
    requires net.Valid() && TableBounded(net, st.ov, now) && Applicable(net, d) && AllApplicable(net, ds)
    requires DistinctVerbs(ds + [d]) && OfThisBoundary(net, st.ov, ds, now) && Truthful(net, st, ds, now) && j <= |ds|
    ensures var r, x := ApplyOne(net, st, d, now), (ds + [d])[j];
      && |r.applied| == |ds| + 1 && r.applied[j] == x.(tick := now, holdTicks := r.applied[j].holdTicks)
      && r.applied[j].holdTicks == Granted(Hist(r.ov, net.programs[x.signalIdx].id), x.requestId, now)
  {
    hide ApplyOne, TableBounded, OfThisBoundary, Granted;
    if j == |ds| {
      NewRecord(net, st, ds, d, now);
    } else {
      assert (ds + [d])[j] == ds[j] && (ds + [d])[|ds|] == d;
      assert Applicable(net, ds[j]);
      RecordsDistinct(net, st, ds, d, now);
      DroppedIsOf(net, st.ov, ds, now, d.signalIdx, j);
      if ds[j].signalIdx == d.signalIdx {
        OldRecord(net, st, ds, d, now, j);
      } else {
        OtherRecord(net, st, ds, d, now, j);
      }
    }
  }

  lemma ProgramBounded(net: Network, ov: Table, now: nat, i: nat)
    requires net.Valid() && TableBounded(net, ov, now) && i < |net.programs|
    ensures Bounded(Hist(ov, net.programs[i].id), net.programs[i], now, net.bound)
  {
  }

  lemma RecordsDistinct(net: Network, st: Folded, ds: seq<TickedSignal>, d: TickedSignal, now: nat)
    requires DistinctVerbs(ds + [d]) && Truthful(net, st, ds, now)
    ensures DistinctVerbs(st.applied)
  {
    forall i, j | 0 <= i < j < |st.applied| ensures st.applied[i].requestId != st.applied[j].requestId {
      assert (ds + [d])[i] == ds[i] && (ds + [d])[j] == ds[j];
    }
  }

  /** A hold of this boundary on one program is no verb's of another. */
  lemma DroppedIsOf(net: Network, ov: Table, ds: seq<TickedSignal>, now: nat, i: nat, j: nat)
    requires i < |net.programs| && OfThisBoundary(net, ov, ds, now) && j < |ds|
    requires forall a, b | 0 <= a < b < |ds| :: ds[a].requestId != ds[b].requestId
    ensures var h := Hist(ov, net.programs[i].id);
      h != [] && h[|h| - 1].since == now && h[|h| - 1].requestId == ds[j].requestId ==> ds[j].signalIdx == i
  {
  }

  lemma NewIsNone(net: Network, ov: Table, ds: seq<TickedSignal>, d: TickedSignal, now: nat)
    requires d.signalIdx < |net.programs| && OfThisBoundary(net, ov, ds, now) && DistinctVerbs(ds + [d])
    ensures Granted(Hist(ov, net.programs[d.signalIdx].id), d.requestId, now) == 0
  {
    forall k | 0 <= k < |ds| ensures ds[k].requestId != d.requestId {
      assert (ds + [d])[k] == ds[k] && (ds + [d])[|ds|] == d;
    }
  }

  lemma StepOfBoundary(net: Network, st: Folded, ds: seq<TickedSignal>, d: TickedSignal, now: nat)
    requires net.Valid() && TableBounded(net, st.ov, now) && Applicable(net, d) && OfThisBoundary(net, st.ov, ds, now)
    ensures OfThisBoundary(net, ApplyOne(net, st, d, now).ov, ds + [d], now)
  {
    hide Install, MarkLast, TableBounded, Bounded;
    var ov, all := ApplyOne(net, st, d, now).ov, ds + [d];
    forall i | 0 <= i < |net.programs| && Hist(ov, net.programs[i].id) != []
               && Hist(ov, net.programs[i].id)[|Hist(ov, net.programs[i].id)| - 1].since == now
      ensures exists j | 0 <= j < |all| :: all[j].signalIdx == i
                && all[j].requestId == Hist(ov, net.programs[i].id)[|Hist(ov, net.programs[i].id)| - 1].requestId
    {
      var h := Hist(st.ov, net.programs[i].id);
      ApplyOneHist(net, st, d, now, i);
      if i == d.signalIdx {
        ProgramBounded(net, st.ov, now, i);
        InstallNewest(h, net.programs[i], d, now, net.bound);
        assert all[|ds|] == d;
      }
      if Hist(ov, net.programs[i].id) == h {
        var j :| 0 <= j < |ds| && ds[j].signalIdx == i && ds[j].requestId == h[|h| - 1].requestId;
        assert all[j] == ds[j];
      }
    }
  }

  /** At a boundary whose verbs have ids of their own, the record of each shows the ticks its
      hold is granted from now on - and 0 for one that was declined, or superseded before it
      governed a tick. */
  lemma {:induction false} RecordShowsEnforced(net: Network, ov: Table, ds: seq<TickedSignal>, now: nat)
    requires net.Valid() && TableBounded(net, ov, now) && AllApplicable(net, ds) && DistinctVerbs(ds)
    requires forall i | 0 <= i < |net.programs| ::
      var h := Hist(ov, net.programs[i].id); h != [] ==> h[|h| - 1].since < now
    ensures OfThisBoundary(net, ApplyAll(net, ov, ds, now).ov, ds, now)
    ensures Truthful(net, ApplyAll(net, ov, ds, now), ds, now)
  {
    hide ApplyOne, TableBounded, Granted, OfThisBoundary;
    if ds == [] {
      NoneOfBoundary(net, ov, now);
    } else {
      var n := |ds| - 1;
      var init, d := ds[..n], ds[n];
      assert init + [d] == ds;
      RecordShowsEnforced(net, ov, init, now);
      ApplyAllBounded(net, ov, init, now);
      var st := ApplyAll(net, ov, init, now);
      StepOfBoundary(net, st, init, d, now);
      forall j | 0 <= j < |ds|
        ensures
          && ds[j].signalIdx < |net.programs|
          && ApplyOne(net, st, d, now).applied[j] == ds[j].(tick := now, holdTicks := ApplyOne(net, st, d, now).applied[j].holdTicks)
          && ApplyOne(net, st, d, now).applied[j].holdTicks
             == Granted(Hist(ApplyOne(net, st, d, now).ov, net.programs[ds[j].signalIdx].id), ds[j].requestId, now)
      {
        StepRecords(net, st, init, d, now, j);
      }
    }
  }

  lemma NoneOfBoundary(net: Network, ov: Table, now: nat)
    requires forall i | 0 <= i < |net.programs| ::
      var h := Hist(ov, net.programs[i].id); h != [] ==> h[|h| - 1].since < now
    ensures OfThisBoundary(net, ov, [], now)
  {
  }
}
