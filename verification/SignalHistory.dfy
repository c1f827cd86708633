/** The history of commanded holds of one signal program: installing a verb, the chain
    rail that bounds it, lapses, and bounded retention. */
module SignalHistory {
  import opened SignalProgram
  import opened SignalDisplay

  function Min(a: nat, b: nat): nat {
    if a < b then a else b
  }

  /** The invariant of a history at tick `now`: holds are disjoint, none starts in the
      future, and each ends within `bound` of the start of its chain. */
  ghost predicate Bounded(h: History, p: Program, now: nat, bound: nat) {
    && Chronological(h)
    && PhasesOf(h, p)
    && forall i | 0 <= i < |h| :: h[i].chainStart <= h[i].since <= now && h[i].until <= h[i].chainStart + bound
  }

  // ---------------------------------------------------------------- installing a verb

  datatype Installed = Installed(h: History, hold: nat, dropped: Option<string>)

  /** A verb for the phase still in force (or ending just now) renews its chain. */
  function ChainStartFor(h: History, phase: nat, now: nat): nat {
    if |h| > 0 && h[|h| - 1].phase == phase && h[|h| - 1].until >= now then h[|h| - 1].chainStart else now
  }

  function Truncated(h: History, now: nat): (r: History)
    ensures |r| == |h|
  {
    if h == [] then []
    else h[|h| - 1 := h[|h| - 1].(until := Min(h[|h| - 1].until, now))]
  }

  /** What superseding leaves of a history: the newest hold is cut at `now`, and goes
      entirely when it began there. */
  function Remaining(h: History, now: nat): History {
    var cut := Truncated(h, now);
    if cut != [] && cut[|cut| - 1].until <= cut[|cut| - 1].since then cut[..|cut| - 1] else cut
  }

  function Dropped(h: History, now: nat): Option<string> {
    var cut := Truncated(h, now);
    if cut != [] && cut[|cut| - 1].until <= cut[|cut| - 1].since then Some(cut[|cut| - 1].requestId) else None
  }

  function Install(h: History, phase: nat, hold: nat, requestId: string, now: nat, bound: nat): Installed {
    var chainStart := ChainStartFor(h, phase, now);
    var until := Min(now + hold, chainStart + bound);
    if until > now then
      Installed(Remaining(h, now) + [Override(phase, now, until, chainStart, requestId)], until - now, Dropped(h, now))
    else
      Installed(Truncated(h, now), 0, Dropped(h, now))
  }

  /** The command in force at a tick: its phase and the tick it took effect. */
  datatype Command = Command(phase: nat, since: nat)

  function InForce(h: History, x: nat): Option<Command> {
    match HeldAt(h, x)
    case Some(ov) => Some(Command(ov.phase, ov.since))
    case None => None
  }

  lemma CutKeepsBounded(h: History, p: Program, now: nat, bound: nat)
    requires Bounded(h, p, now, bound)
    ensures Bounded(Remaining(h, now), p, now, bound) && forall i | 0 <= i < |Remaining(h, now)| :: Remaining(h, now)[i].until <= now
    ensures h != [] && h[|h| - 1].since < now ==> Bounded(Truncated(h, now), p, now, bound)
  {
  }

  lemma InstallKeepsBounded(h: History, p: Program, phase: nat, hold: nat, id: string, now: nat, bound: nat)
    requires Bounded(h, p, now, bound) && phase < |p.phaseTicks| && hold >= 1 && bound >= 1
    ensures Bounded(Install(h, phase, hold, id, now, bound).h, p, now, bound)
  {
    hide Remaining, Truncated;
    CutKeepsBounded(h, p, now, bound);
  }

  /** What a verb does to the signal: the past is untouched; from `now` on the commanded
      phase is in force for exactly the effective hold, and nothing is afterwards. The
      effective hold is 0 exactly when the verb renews a chain already at its bound, and
      then the history is left as it was. */
  lemma InstallGoverns(h: History, p: Program, phase: nat, hold: nat, id: string, now: nat, bound: nat, x: nat)
    requires Bounded(h, p, now, bound) && hold >= 1 && bound >= 1
    ensures var r := Install(h, phase, hold, id, now, bound);
      && (x < now ==> InForce(r.h, x) == InForce(h, x))
      && (now <= x < now + r.hold ==> InForce(r.h, x) == Some(Command(phase, now)))
      && (x >= now + r.hold ==> InForce(r.h, x) == None)
      && r.hold == Min(hold, ChainStartFor(h, phase, now) + bound - now)
      && (r.hold == 0 ==> r.h == h && r.dropped.None?)
  {
    var r := Install(h, phase, hold, id, now, bound);
    if r.hold == 0 {
      assert h[|h| - 1].until == now;
      assert Truncated(h, now) == h;
      if x >= now {
        HeldAtNone(h, x);
      }
    } else {
      assert r.h[..|r.h| - 1] == Remaining(h, now);
      if x >= now + r.hold {
        RemainingEnds(h, now);
        HeldAtNone(r.h, x);
      } else if x < now {
        HeldAtTruncated(h, now, x);
      }
    }
  }

  lemma RemainingEnds(h: History, now: nat)
    requires Chronological(h) && forall i | 0 <= i < |h| :: h[i].since <= now
    ensures forall i | 0 <= i < |Remaining(h, now)| :: Remaining(h, now)[i].until <= now
  {
    if h != [] {
      forall i | 0 <= i < |h| - 1 ensures h[i].until <= now {
        assert h[i].until <= h[|h| - 1].since;
      }
    }
  }

  /** Cutting the newest hold at `now`, and dropping it when nothing is left of it, does
      not change what was in force before `now`. */
  lemma HeldAtTruncated(h: History, now: nat, x: nat)
    requires Chronological(h) && x < now
    requires forall i | 0 <= i < |h| :: h[i].since <= now
    ensures InForce(Remaining(h, now), x) == InForce(h, x)
  {
    if h != [] {
      var cut := Truncated(h, now);
      assert cut[..|cut| - 1] == h[..|h| - 1];
    }
  }

  // ---------------------------------------------------------------- the starvation rail

  /** Back-to-back holds of one phase count as one chain. */
  ghost predicate ChainsJoined(h: History) {
    forall i | 0 < i < |h| ::
      h[i - 1].until == h[i].since && h[i - 1].phase == h[i].phase ==> h[i - 1].chainStart == h[i].chainStart
  }

  /** The one way a verb can break a chain: an earlier verb of the same boundary, for
      another phase, is the newest hold, and the hold before it - of this verb's phase -
      was cut at this very boundary. Dropping the empty hold puts the two back to back,
      but the chain start was already taken afresh. */
  predicate BreaksChain(h: History, phase: nat, now: nat) {
    && |h| >= 2
    && h[|h| - 1].since == now && h[|h| - 1].phase != phase
    && h[|h| - 2].until == now && h[|h| - 2].phase == phase
  }

  /** Chains stay joined exactly when the verb is not of that kind. */
  lemma InstallKeepsChains(h: History, p: Program, phase: nat, hold: nat, id: string, now: nat, bound: nat)
    requires Bounded(h, p, now, bound) && ChainsJoined(h) && hold >= 1 && bound >= 1
    ensures ChainsJoined(Install(h, phase, hold, id, now, bound).h) <==> !BreaksChain(h, phase, now)
  {
    var r := Install(h, phase, hold, id, now, bound);
    var n := |h|;
    if BreaksChain(h, phase, now) {
      assert r.h[n - 2] == h[n - 2] && r.h[n - 1].chainStart == now;
      assert !ChainsJoined(r.h);
    } else if n > 0 {
      forall i | 0 < i < |r.h| && r.h[i - 1].until == r.h[i].since && r.h[i - 1].phase == r.h[i].phase
        ensures r.h[i - 1].chainStart == r.h[i].chainStart
      {
        if i < n - 1 {
          assert r.h[i - 1] == h[i - 1] && r.h[i] == h[i];
        } else if i == n - 1 && h[n - 1].since < now {
          assert r.h[i - 1] == h[i - 1];
        }
      }
    }
  }

  /** At most one verb per program per boundary is enough: the newest hold then started
      earlier, so no verb is of the chain-breaking kind. */
  lemma OneVerbNeverBreaks(h: History, phase: nat, now: nat)
    requires |h| > 0 ==> h[|h| - 1].since < now
    ensures !BreaksChain(h, phase, now)
  {
  }

  ghost predicate CommandedThroughout(h: History, phase: nat, from: nat, to: nat) {
    forall x | from <= x < to :: HeldAt(h, x).Some? && HeldAt(h, x).value.phase == phase
  }

  lemma {:induction false} RunSharesChain(h: History, phase: nat, from: nat, to: nat, i: nat, j: nat)
    requires Chronological(h) && ChainsJoined(h) && CommandedThroughout(h, phase, from, to)
    requires i <= j < |h| && Covers(h[i], from) && from < to && Covers(h[j], to - 1)
    ensures h[i].chainStart == h[j].chainStart && h[j].phase == phase
  {
    HeldAtUnique(h, j, to - 1);
    if i < j {
      var x := h[j].since - 1;
      assert h[i].until <= h[j].since;
      assert from <= x < to;
      var k :| 0 <= k < |h| && h[k] == HeldAt(h, x).value;
      assert Covers(h[k], x);
      assert h[j - 1].since < h[j - 1].until <= h[j].since;
      assert k == j - 1;
      HeldAtUnique(h, j - 1, x);
      CommandedPrefix(h, phase, from, x + 1, to);
      RunSharesChain(h, phase, from, x + 1, i, j - 1);
    }
  }

  lemma CommandedPrefix(h: History, phase: nat, from: nat, mid: nat, to: nat)
    requires CommandedThroughout(h, phase, from, to) && mid <= to
    ensures CommandedThroughout(h, phase, from, mid)
  {
  }

  /** The rail: while chains are joined, no uninterrupted run of one commanded phase
      outlasts the bound. */
  lemma NoRunOutlastsBound(h: History, p: Program, now: nat, bound: nat, phase: nat, from: nat, to: nat)
    requires Bounded(h, p, now, bound) && ChainsJoined(h)
    requires from <= to && CommandedThroughout(h, phase, from, to)
    ensures to - from <= bound
  {
    if from < to {
      var a, b := HeldAt(h, from).value, HeldAt(h, to - 1).value;
      var i :| 0 <= i < |h| && h[i] == a;
      var j :| 0 <= j < |h| && h[j] == b;
      if j < i {
        assert false;
      }
      RunSharesChain(h, phase, from, to, i, j);
    }
  }

  /** No uninterrupted run of one commanded phase outlasts the bound. */
  ghost predicate WithinBound(h: History, bound: nat) {
    forall phase: nat, from: nat, to: nat | from <= to && CommandedThroughout(h, phase, from, to) :: to - from <= bound
  }

  /** A verb that breaks a chain, asking for as long as a verb may, keeps its phase in force
      from the start of the hold it joins up with to a whole bound from now. */
  lemma BreakOutlastsBound(h: History, p: Program, phase: nat, id: string, now: nat, bound: nat)
    requires Bounded(h, p, now, bound) && bound >= 1 && BreaksChain(h, phase, now)
    ensures h[|h| - 2].since < now
    ensures CommandedThroughout(Install(h, phase, bound, id, now, bound).h, phase, h[|h| - 2].since, now + bound)
  {
    var r, n := Install(h, phase, bound, id, now, bound).h, |h|;
    assert r == h[..n - 1] + [Override(phase, now, now + bound, now, id)];
    assert Covers(h[n - 2], h[n - 2].since);
    InstallKeepsChronology(h, p, phase, id, now, bound);
    forall x | h[n - 2].since <= x < now + bound ensures HeldAt(r, x).Some? && HeldAt(r, x).value.phase == phase {
      HeldAtUnique(r, if x < now then n - 2 else n - 1, x);
    }
  }

  lemma InstallKeepsChronology(h: History, p: Program, phase: nat, id: string, now: nat, bound: nat)
    requires Bounded(h, p, now, bound) && bound >= 1
    ensures Chronological(Install(h, phase, bound, id, now, bound).h)
  {
    hide Remaining, Truncated;
    CutKeepsBounded(h, p, now, bound);
  }

  /** The rail, exactly: of a history with joined chains a verb keeps every uninterrupted run
      within the bound, however long it asks to hold, if and only if it breaks no chain. */
  lemma BoundHoldsIff(h: History, p: Program, phase: nat, id: string, now: nat, bound: nat)
    requires Bounded(h, p, now, bound) && ChainsJoined(h) && bound >= 1 && phase < |p.phaseTicks|
    ensures (forall hold: nat | hold >= 1 :: WithinBound(Install(h, phase, hold, id, now, bound).h, bound))
      <==> !BreaksChain(h, phase, now)
  {
    hide Bounded, ChainsJoined, Install, CommandedThroughout;
    if BreaksChain(h, phase, now) {
      BreakOutlastsBound(h, p, phase, id, now, bound);
      var from: nat, to: nat := h[|h| - 2].since, now + bound;
      assert CommandedThroughout(Install(h, phase, bound, id, now, bound).h, phase, from, to) && to - from > bound;
    } else {
      forall hold: nat | hold >= 1 ensures WithinBound(Install(h, phase, hold, id, now, bound).h, bound) {
        InstallKeepsChains(h, p, phase, hold, id, now, bound);
        InstallKeepsBounded(h, p, phase, hold, id, now, bound);
        JoinedWithinBound(Install(h, phase, hold, id, now, bound).h, p, now, bound);
      }
    }
  }

  lemma JoinedWithinBound(h: History, p: Program, now: nat, bound: nat)
    requires Bounded(h, p, now, bound) && ChainsJoined(h)
    ensures WithinBound(h, bound)
  {
    hide Bounded, ChainsJoined, CommandedThroughout;
    forall phase: nat, from: nat, to: nat | from <= to && CommandedThroughout(h, phase, from, to) ensures to - from <= bound {
      NoRunOutlastsBound(h, p, now, bound, phase, from, to);
    }
  }

  /** Without the restriction the cumulative bound fails: with bound 10, phase 0 held from
      tick 1 and commanded "1 then 0" at tick 6 stays in force for 15 ticks. */
  lemma TwoVerbsOutlastBound()
    ensures var h1 := Install([], 0, 10, "a", 1, 10).h;
      var h2 := Install(h1, 1, 10, "b", 6, 10).h;
      var h3 := Install(h2, 0, 10, "c", 6, 10).h;
      && BreaksChain(h2, 0, 6)
      && CommandedThroughout(h3, 0, 1, 16)
  {
    var h1 := Install([], 0, 10, "a", 1, 10).h;
    assert h1 == [Override(0, 1, 11, 1, "a")];
    var h2 := Install(h1, 1, 10, "b", 6, 10).h;
    assert h2 == [Override(0, 1, 6, 1, "a"), Override(1, 6, 16, 6, "b")];
    var h3 := Install(h2, 0, 10, "c", 6, 10).h;
    assert Truncated(h2, 6)[..1] == [Override(0, 1, 6, 1, "a")];
    assert h3 == [Override(0, 1, 6, 1, "a"), Override(0, 6, 16, 6, "c")];
    forall x | 1 <= x < 16 ensures HeldAt(h3, x).Some? && HeldAt(h3, x).value.phase == 0 {
      if x < 6 { HeldAtUnique(h3, 0, x); } else { HeldAtUnique(h3, 1, x); }
    }
  }

  // ---------------------------------------------------------------- lapses

  predicate Lapses(h: History, now: nat) {
    |h| > 0 && h[|h| - 1].until == now
  }

  /** A lapse is reported at a tick exactly when the tick before was commanded and this
      one is not. */
  lemma LapseExactly(h: History, p: Program, now: nat, bound: nat)
    requires Bounded(h, p, now, bound) && now > 0
    ensures Lapses(h, now) <==> HeldAt(h, now - 1).Some? && HeldAt(h, now).None?
  {
    if Lapses(h, now) {
      HeldAtUnique(h, |h| - 1, now - 1);
      HeldAtNone(h, now);
    }
    if HeldAt(h, now - 1).Some? && HeldAt(h, now).None? {
      var i :| 0 <= i < |h| && h[i] == HeldAt(h, now - 1).value;
      assert h[i].until == now by { assert !Covers(h[i], now); }
      assert i == |h| - 1 by { assert !Covers(h[|h| - 1], now); }
    }
  }

  // ---------------------------------------------------------------- retention

  /** Holds survive the sweep through one clearance window past their end. */
  function Sweep(h: History, now: nat, clearance: nat): (r: History)
    ensures |r| <= |h|
  {
    if h == [] then []
    else (if now <= h[0].until + clearance then [h[0]] else []) + Sweep(h[1..], now, clearance)
  }

  /** `live` is `full` without some oldest holds, all of which ended more than a
      clearance window before `now`. */
  ghost predicate Forgets(full: History, live: History, now: nat, clearance: nat) {
    && |live| <= |full|
    && full[|full| - |live|..] == live
    && forall i | 0 <= i < |full| - |live| :: full[i].until + clearance < now
  }

  lemma {:induction false} SweepForgets(h: History, now: nat, clearance: nat)
    requires Chronological(h)
    ensures Forgets(h, Sweep(h, now, clearance), now, clearance)
  {
    if h != [] {
      SweepForgets(h[1..], now, clearance);
      if now <= h[0].until + clearance {
        SweepKeepsAll(h, now, clearance);
      }
    }
  }

  lemma {:induction false} SweepKeepsAll(h: History, now: nat, clearance: nat)
    requires forall i | 0 <= i < |h| :: now <= h[i].until + clearance
    ensures Sweep(h, now, clearance) == h
  {
    if h != [] {
      SweepKeepsAll(h[1..], now, clearance);
    }
  }

  lemma ForgetsSplit(full: History, live: History, now: nat, clearance: nat)
    requires Forgets(full, live, now, clearance)
    ensures var gone := full[..|full| - |live|];
      full == gone + live && forall i | 0 <= i < |gone| :: gone[i].until + clearance < now
  {
  }

  lemma SuffixChronological(gone: History, live: History)
    requires Chronological(gone + live)
    ensures Chronological(live)
  {
    var full := gone + live;
    assert forall i | 0 <= i < |live| :: live[i] == full[|gone| + i];
  }

  /** Forgetting composes with a later sweep. */
  lemma ForgetsThenSweeps(full: History, live: History, now: nat, clearance: nat)
    requires Chronological(full) && Forgets(full, live, now, clearance)
    ensures Forgets(full, Sweep(live, now, clearance), now, clearance)
  {
    hide Sweep, Forgets, Chronological;
    ForgetsSplit(full, live, now, clearance);
    var s, a := Sweep(live, now, clearance), full[..|full| - |live|];
    SuffixChronological(a, live);
    SweepForgets(live, now, clearance);
    ForgetsSplit(live, s, now, clearance);
    var b := live[..|live| - |s|];
    assert a + (b + s) == (a + b) + s;
    ForgetsPrefix(a + b, s, now, clearance);
  }

  /** A verb acts alike on the swept history and on the one that forgets nothing. */
  lemma InstallForgets(full: History, live: History, p: Program, phase: nat, hold: nat, id: string,
                       now: nat, bound: nat, clearance: nat)
    requires Bounded(full, p, now, bound) && Forgets(full, live, now, clearance)
    requires hold >= 1 && bound >= 1
    ensures var f, l := Install(full, phase, hold, id, now, bound), Install(live, phase, hold, id, now, bound);
            Forgets(f.h, l.h, now, clearance) && f.hold == l.hold && f.dropped == l.dropped
  {
    var k := |full| - |live|;
    var gone := full[..k];
    assert full == gone + live;
    var l := Install(live, phase, hold, id, now, bound);
    InstallBehind(gone, live, phase, hold, id, now, bound);
    ForgetsPrefix(gone, l.h, now, clearance);
  }

  lemma ForgetsPrefix(gone: History, live: History, now: nat, clearance: nat)
    requires forall i | 0 <= i < |gone| :: gone[i].until + clearance < now
    ensures Forgets(gone + live, live, now, clearance)
  {
  }

  lemma CutBehind(gone: History, live: History, now: nat)
    requires forall i | 0 <= i < |gone| :: gone[i].since < gone[i].until < now
    ensures Truncated(gone + live, now) == gone + Truncated(live, now)
    ensures Remaining(gone + live, now) == gone + Remaining(live, now)
    ensures Dropped(gone + live, now) == Dropped(live, now)
  {
    var full := gone + live;
    if live == [] {
      assert full == gone;
      assert Truncated(gone, now) == gone;
    } else {
      var cut := Truncated(live, now);
      assert full[|full| - 1] == live[|live| - 1];
      assert Truncated(full, now) == gone + cut;
      assert (gone + cut)[..|gone + cut| - 1] == gone + cut[..|cut| - 1];
    }
  }

  lemma ChainBehind(gone: History, live: History, phase: nat, now: nat)
    requires forall i | 0 <= i < |gone| :: gone[i].until < now
    ensures ChainStartFor(gone + live, phase, now) == ChainStartFor(live, phase, now)
  {
    var full := gone + live;
    if live == [] {
      assert full == gone;
    } else {
      assert full[|full| - 1] == live[|live| - 1];
    }
  }

  lemma InstallBehind(gone: History, live: History, phase: nat, hold: nat, id: string, now: nat, bound: nat)
    requires forall i | 0 <= i < |gone| :: gone[i].since < gone[i].until < now
    requires hold >= 1 && bound >= 1
    ensures var f, l := Install(gone + live, phase, hold, id, now, bound), Install(live, phase, hold, id, now, bound);
            f.h == gone + l.h && f.hold == l.hold && f.dropped == l.dropped
  {
    hide Truncated, Remaining, Dropped, ChainStartFor;
    CutBehind(gone, live, now);
    ChainBehind(gone, live, phase, now);
  }

  lemma BoundedSuffix(full: History, live: History, p: Program, now: nat, bound: nat, clearance: nat)
    requires Bounded(full, p, now, bound) && Forgets(full, live, now, clearance)
    ensures Bounded(live, p, now, bound)
  {
    assert forall i | 0 <= i < |live| :: live[i] == full[|full| - |live| + i];
  }

  lemma LapsesForgets(full: History, live: History, now: nat, clearance: nat)
    requires Forgets(full, live, now, clearance)
    ensures Lapses(full, now) == Lapses(live, now)
  {
    if live != [] {
      assert full[|full| - 1] == live[|live| - 1];
    }
  }
}
