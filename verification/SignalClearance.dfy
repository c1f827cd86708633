/** When red clearance is granted: exactly. The onset walk of a query is characterised by the
    lights shown and by where spans begin, not by how it is walked. */
module SignalClearance {
  import opened SignalProgram
  import opened SignalDisplay

  // ---------------------------------------------------------------- spans

  lemma FixedSpanSame(p: Program, x: nat, y: nat)
    requires p.Valid() && FixedSpan(p, x).onset <= y <= x
    ensures FixedSpan(p, y) == FixedSpan(p, x)
  {
    PhaseRunsBackwards(p, x, x - y);
  }

  /** A span is the same for every tick in it. */
  lemma {:induction false} SpanSame(h: History, p: Program, x: nat, y: nat)
    requires p.Valid() && PhasesOf(h, p) && Chronological(h) && SigSpanOnset(h, p, x).onset <= y <= x
    ensures SigSpanOnset(h, p, y) == SigSpanOnset(h, p, x)
  {
    if h == [] {
      FixedSpanSame(p, x, y);
    } else {
      var last := h[|h| - 1];
      if Covers(last, x) {
      } else if last.until <= x {
        FixedSpanSame(p, x, y);
      } else {
        SpanSame(h[..|h| - 1], p, x, y);
      }
    }
  }

  /** A tick at which a hold begins or ends. */
  ghost predicate HoldTurns(h: History, x: nat) {
    exists i | 0 <= i < |h| :: h[i].since == x || h[i].until == x
  }

  lemma EarlierTurns(h: History, x: nat)
    requires h != [] && x < h[|h| - 1].since < h[|h| - 1].until
    ensures HoldTurns(h[..|h| - 1], x) <==> HoldTurns(h, x)
  {
    var n := |h| - 1;
    if HoldTurns(h, x) {
      var i :| 0 <= i < |h| && (h[i].since == x || h[i].until == x);
      assert h[..n][i].since == x || h[..n][i].until == x;
    }
  }

  /** A span begins at a boundary exactly when a hold begins or ends there. */
  lemma {:induction false} BoundaryMeans(h: History, p: Program, x: nat)
    requires p.Valid() && PhasesOf(h, p) && Chronological(h)
    ensures SigSpanOnset(h, p, x).boundary <==> HoldTurns(h, SigSpanOnset(h, p, x).onset)
  {
    if h != [] {
      var n := |h| - 1;
      var last, onset := h[n], SigSpanOnset(h, p, x).onset;
      assert forall i | 0 <= i < n :: h[i].until <= last.since;
      if Covers(last, x) {
        assert HoldTurns(h, onset);
      } else if last.until <= x {
        assert last.until == onset ==> h[n].until == onset;
      } else {
        BoundaryMeans(h[..n], p, x);
        EarlierTurns(h, onset);
      }
    }
  }

  // ---------------------------------------------------------------- the walk

  /** Every span that the walk goes past began at a boundary. */
  lemma {:induction false} WalkPasses(h: History, p: Program, link: nat, tick: nat, light: SigState, span: Span, x: nat, y: nat)
    requires p.Valid() && PhasesOf(h, p) && Chronological(h)
    requires span.onset <= x <= tick && span == SigSpanOnset(h, p, x)
    requires MergeWalk(h, p, link, tick, light, span) <= y <= x
    ensures var s := SigSpanOnset(h, p, y);
      s.onset >= MergeWalk(h, p, link, tick, light, span)
      && (s.onset == MergeWalk(h, p, link, tick, light, span) || s.boundary)
    decreases span.onset
  {
    hide SigSpanOnset, LightOf, Chronological;
    if y >= span.onset {
      SpanSame(h, p, x, y);
    } else {
      WalkPasses(h, p, link, tick, light, SigSpanOnset(h, p, span.onset - 1), span.onset - 1, y);
    }
  }

  /** The light changed to what is shown at `on`, within the window and right after an amber:
      either from another light, or from an amber of the schedule to the next. It has been
      shown since, and the schedule alone has begun no span since. */
  ghost predicate Clears(h: History, p: Program, link: nat, tick: nat, on: nat)
    requires p.Valid() && PhasesOf(h, p)
  {
    && 0 < on <= tick <= on + p.clearance
    && LightAt(h, p, link, on - 1) == SigAmber
    && ShownSince(h, p, link, on, tick)
    && (forall y | on <= y <= tick :: SigSpanOnset(h, p, y).onset <= on || HoldTurns(h, SigSpanOnset(h, p, y).onset))
    && (LightAt(h, p, link, tick) != SigAmber
        || exists y | on <= y <= tick :: SigSpanOnset(h, p, y).onset == on && !HoldTurns(h, on))
  }

  /** Clearance is granted if and only if there is such a tick; it is then the displayed onset. */
  lemma ClearanceIff(h: History, p: Program, link: nat, tick: nat)
    requires p.Valid() && PhasesOf(h, p) && Chronological(h)
    ensures SigInClearance(h, p, link, tick) <==> exists on: nat :: Clears(h, p, link, tick, on)
    ensures forall on: nat | Clears(h, p, link, tick, on) :: on == SigDisplayedOnset(h, p, link, tick)
  {
    hide SigSpanOnset, LightAt, MergeWalk, Chronological;
    forall y ensures SigSpanOnset(h, p, y).boundary <==> HoldTurns(h, SigSpanOnset(h, p, y).onset) {
      BoundaryMeans(h, p, y);
    }
    forall on: nat | Clears(h, p, link, tick, on) ensures on == SigDisplayedOnset(h, p, link, tick) {
      ClearsIsOnset(h, p, link, tick, on);
    }
    if SigInClearance(h, p, link, tick) {
      OnsetClears(h, p, link, tick);
    }
  }

  lemma OnsetClears(h: History, p: Program, link: nat, tick: nat)
    requires p.Valid() && PhasesOf(h, p) && Chronological(h) && SigInClearance(h, p, link, tick)
    ensures Clears(h, p, link, tick, SigDisplayedOnset(h, p, link, tick))
  {
    hide SigSpanOnset, LightAt, MergeWalk, Chronological;
    var on := SigDisplayedOnset(h, p, link, tick);
    ClearanceMeaning(h, p, link, tick);
    var span := SigSpanOnset(h, p, tick);
    forall y | on <= y <= tick ensures SigSpanOnset(h, p, y).onset <= on || HoldTurns(h, SigSpanOnset(h, p, y).onset) {
      WalkPasses(h, p, link, tick, LightOf(p, span.phase, link), span, tick, y);
      BoundaryMeans(h, p, y);
    }
    DisplayedOnsetIsMaximal(h, p, link, tick);
    if LightAt(h, p, link, tick) == SigAmber {
      var y :| on <= y <= tick && SpanBeginsPlainly(h, p, y, on);
      BoundaryMeans(h, p, y);
    }
  }

  lemma ClearsIsOnset(h: History, p: Program, link: nat, tick: nat, on: nat)
    requires p.Valid() && PhasesOf(h, p) && Chronological(h) && Clears(h, p, link, tick, on)
    ensures on == SigDisplayedOnset(h, p, link, tick)
  {
    hide SigSpanOnset, LightAt, MergeWalk, Chronological;
    var d := SigDisplayedOnset(h, p, link, tick);
    if d < on {
      DisplayedOnsetIsConstant(h, p, link, tick, on - 1);
      var y :| on <= y <= tick && SigSpanOnset(h, p, y).onset == on && !HoldTurns(h, on);
      var span := SigSpanOnset(h, p, tick);
      WalkPasses(h, p, link, tick, LightOf(p, span.phase, link), span, tick, y);
      BoundaryMeans(h, p, y);
      assert false;
    } else if d > on {
      DisplayedOnsetIsMaximal(h, p, link, tick);
      assert LightAt(h, p, link, d - 1) == LightAt(h, p, link, tick);
      var y :| d <= y <= tick && SpanBeginsPlainly(h, p, y, d);
      BoundaryMeans(h, p, y);
      assert false;
    }
  }

  // ---------------------------------------------------------------- without holds

  /** The tick before a phase began showed the last of the phase before it in the cycle. */
  lemma PhaseBefore(p: Program, tick: nat)
    requires p.Valid() && tick > 0 && PhaseAtElapsed(p, tick).elapsed == 0
    ensures var n, i := |p.phaseTicks|, PhaseAtElapsed(p, tick).phase;
      PhaseAtElapsed(p, tick - 1).phase == if i == 0 then n - 1 else i - 1
  {
    var ticks, n, now := p.phaseTicks, |p.phaseTicks|, PhaseAtElapsed(p, tick);
    LocateInverse(ticks, CycleTick(p, tick));
    CycleTickStep(p, tick - 1);
    var i := if now.phase == 0 then n - 1 else now.phase - 1;
    LocateUnique(ticks, i, ticks[i] - 1);
    if now.phase == 0 {
      assert ticks[..0] == [] && ticks[..n] == ticks;
    }
    SumNext(ticks, i);
    LocateInverse(ticks, CycleTick(p, tick - 1));
  }

  lemma SumNext(ticks: seq<nat>, i: nat)
    requires i < |ticks|
    ensures Sum(ticks[..i + 1]) == Sum(ticks[..i]) + ticks[i]
    ensures i + 1 == |ticks| ==> Sum(ticks) == Sum(ticks[..i]) + ticks[i]
  {
    SumAppend(ticks[..i], [ticks[i]]);
    assert ticks[..i + 1] == ticks[..i] + [ticks[i]];
    assert i + 1 == |ticks| ==> ticks[..i + 1] == ticks;
  }

  /** Without holds: clearance is granted on the first ticks of a phase, as many as the window
      has and one, when the phase before it in the cycle showed the link 'y' - and the phase
      did not begin with the run. */
  lemma FixedClearanceIff(p: Program, link: nat, tick: nat)
    requires p.Valid()
    ensures var at, n := PhaseAtElapsed(p, tick), |p.phaseTicks|;
      var before := if at.phase == 0 then n - 1 else at.phase - 1;
      SigInClearance([], p, link, tick) <==>
        at.elapsed < tick && at.elapsed <= p.clearance && link < |p.states[before]| && p.states[before][link] == 'y'
  {
    var at := PhaseAtElapsed(p, tick);
    NoHoldsFixedOnset(p, link, tick);
    if at.elapsed < tick {
      PhaseRunsBackwards(p, tick, at.elapsed);
      PhaseBefore(p, tick - at.elapsed);
    }
  }
}
