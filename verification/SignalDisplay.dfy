/** What a signal shows: the fixed-time schedule overlaid with a history of commanded
    holds, and the backward walk that dates the displayed state. */
module SignalDisplay {
  import opened SignalProgram

  /** One commanded hold: `phase` is in force on [since, until). */
  datatype Override = Override(phase: nat, since: nat, until: nat, chainStart: nat, requestId: string)

  /** Holds of one program, oldest first. */
  type History = seq<Override>

  ghost predicate Chronological(h: History) {
    && (forall i | 0 <= i < |h| :: h[i].since < h[i].until)
    && (forall i, j | 0 <= i < j < |h| :: h[i].until <= h[j].since)
  }

  ghost predicate PhasesOf(h: History, p: Program) {
    forall i | 0 <= i < |h| :: h[i].phase < |p.phaseTicks|
  }

  predicate Covers(ov: Override, x: nat) {
    ov.since <= x < ov.until
  }

  // ---------------------------------------------------------------- phase in force

  /** The newest hold covering tick x. */
  function HeldAt(h: History, x: nat): (r: Option<Override>)
    ensures r.Some? ==> r.value in h && Covers(r.value, x)
    ensures r.None? ==> forall i | 0 <= i < |h| :: !Covers(h[i], x)
  {
    if h == [] then None
    else if Covers(h[|h| - 1], x) then Some(h[|h| - 1])
    else HeldAt(h[..|h| - 1], x)
  }

  function SigPhaseAt(h: History, p: Program, x: nat): (r: At)
    requires p.Valid() && PhasesOf(h, p)
    ensures r.phase < |p.phaseTicks|
  {
    match HeldAt(h, x)
    case Some(ov) => At(ov.phase, x - ov.since)
    case None => PhaseAtElapsed(p, x)
  }

  method ComputeSigPhaseAt(h: History, p: Program, x: nat) returns (phase: nat, elapsed: nat)
    requires p.Valid() && PhasesOf(h, p)
    ensures At(phase, elapsed) == SigPhaseAt(h, p, x)
  {
    var i := |h|;
    assert h[..i] == h;
    while i > 0
      invariant 0 <= i <= |h|
      invariant HeldAt(h, x) == HeldAt(h[..i], x)
    {
      i := i - 1;
      assert h[..i + 1][..i] == h[..i];
      if Covers(h[i], x) {
        return h[i].phase, x - h[i].since;
      }
    }
    phase, elapsed := ComputePhaseAtElapsed(p, x);
  }

  /** In a chronological history at most one hold covers a tick, so HeldAt is it. */
  lemma {:induction false} HeldAtUnique(h: History, i: nat, x: nat)
    requires Chronological(h) && i < |h| && Covers(h[i], x)
    ensures HeldAt(h, x) == Some(h[i])
  {
    if i < |h| - 1 {
      HeldAtUnique(h[..|h| - 1], i, x);
    }
  }

  lemma {:induction false} HeldAtNone(h: History, x: nat)
    requires forall i | 0 <= i < |h| :: !Covers(h[i], x)
    ensures HeldAt(h, x) == None
  {
    if h != [] {
      HeldAtNone(h[..|h| - 1], x);
    }
  }

  /** Holds that ended by tick x play no part at x. */
  lemma {:induction false} HeldAtIgnoresEnded(gone: History, h: History, x: nat)
    requires forall i | 0 <= i < |gone| :: gone[i].until <= x
    ensures HeldAt(gone + h, x) == HeldAt(h, x)
  {
    if h == [] {
      assert gone + h == gone;
      HeldAtNone(gone, x);
    } else {
      assert (gone + h)[..|gone + h| - 1] == gone + h[..|h| - 1];
      HeldAtIgnoresEnded(gone, h[..|h| - 1], x);
    }
  }

  // ---------------------------------------------------------------- lights

  datatype SigState = SigOff | SigGreen | SigAmber | SigRed

  function MapSigChar(c: char): SigState {
    if c == 'g' || c == 'G' then SigGreen
    else if c == 'y' then SigAmber
    else if c == 'r' then SigRed
    else SigOff
  }

  function LightOf(p: Program, phase: nat, link: nat): SigState
    requires phase < |p.states|
  {
    if link >= |p.states[phase]| then SigOff else MapSigChar(p.states[phase][link])
  }

  /** The light of a link at tick x. */
  function LightAt(h: History, p: Program, link: nat, x: nat): SigState
    requires p.Valid() && PhasesOf(h, p)
  {
    LightOf(p, SigPhaseAt(h, p, x).phase, link)
  }

  predicate SigPermissive(h: History, p: Program, link: nat, x: nat)
    requires p.Valid() && PhasesOf(h, p)
  {
    var st := p.states[SigPhaseAt(h, p, x).phase];
    link < |st| && st[link] == 'g'
  }

  // ---------------------------------------------------------------- span onset

  /** Phase shown at a tick, the tick that span began, and whether it began at the
      start or end of a hold. */
  datatype Span = Span(phase: nat, onset: nat, boundary: bool)

  function FixedSpan(p: Program, x: nat): (s: Span)
    requires p.Valid()
    ensures s.onset <= x && s.phase < |p.phaseTicks|
  {
    var at := PhaseAtElapsed(p, x);
    if at.elapsed > x then Span(at.phase, 0, false) else Span(at.phase, x - at.elapsed, false)
  }

  /** The schedule's span at x when the display last followed a hold ending at `end`. */
  function AfterHold(p: Program, x: nat, end: nat): (s: Span)
    requires p.Valid() && end <= x
    ensures s.onset <= x && s.phase < |p.phaseTicks|
  {
    var at := PhaseAtElapsed(p, x);
    if at.elapsed > x then
      if end > 0 then Span(at.phase, end, true) else Span(at.phase, 0, false)
    else
      var fixedOnset := x - at.elapsed;
      if end > fixedOnset then Span(at.phase, end, true)
      else Span(at.phase, fixedOnset, end == fixedOnset)
  }

  function SigSpanOnset(h: History, p: Program, x: nat): (s: Span)
    requires p.Valid() && PhasesOf(h, p)
    ensures s.onset <= x && s.phase < |p.phaseTicks|
  {
    if h == [] then FixedSpan(p, x)
    else
      var last := h[|h| - 1];
      if Covers(last, x) then Span(last.phase, last.since, true)
      else if last.until <= x then AfterHold(p, x, last.until)
      else SigSpanOnset(h[..|h| - 1], p, x)
  }

  method ComputeSigSpanOnset(h: History, p: Program, x: nat) returns (phase: nat, onset: nat, boundary: bool)
    requires p.Valid() && PhasesOf(h, p)
    ensures Span(phase, onset, boundary) == SigSpanOnset(h, p, x)
  {
    var i := |h|;
    assert h[..i] == h;
    while i > 0
      invariant 0 <= i <= |h|
      invariant SigSpanOnset(h, p, x) == SigSpanOnset(h[..i], p, x)
    {
      i := i - 1;
      assert h[..i + 1][..i] == h[..i];
      var ov := h[i];
      if Covers(ov, x) {
        return ov.phase, ov.since, true;
      }
      if ov.until <= x {
        var idx, elapsed := ComputePhaseAtElapsed(p, x);
        if elapsed > x {
          if ov.until > 0 {
            return idx, ov.until, true;
          }
          return idx, 0, false;
        }
        var fixedOnset := x - elapsed;
        if ov.until > fixedOnset {
          return idx, ov.until, true;
        }
        return idx, fixedOnset, ov.until == fixedOnset;
      }
    }
    var idx, elapsed := ComputePhaseAtElapsed(p, x);
    if elapsed > x {
      return idx, 0, false;
    }
    return idx, x - elapsed, false;
  }

  /** The schedule shows the phase of FixedSpan from its onset to x. */
  lemma FixedSpanHolds(p: Program, x: nat, y: nat)
    requires p.Valid() && FixedSpan(p, x).onset <= y <= x
    ensures PhaseAtElapsed(p, y).phase == FixedSpan(p, x).phase
  {
    PhaseRunsBackwards(p, x, x - y);
  }

  /** One span is one phase: between its onset and x the phase in force never changes. */
  lemma {:induction false} SpanIsConstant(h: History, p: Program, x: nat, y: nat)
    requires p.Valid() && PhasesOf(h, p) && Chronological(h)
    requires SigSpanOnset(h, p, x).onset <= y <= x
    ensures SigPhaseAt(h, p, y).phase == SigSpanOnset(h, p, x).phase
  {
    if h == [] {
      FixedSpanHolds(p, x, y);
    } else {
      var last := h[|h| - 1];
      if Covers(last, x) {
      } else if last.until <= x {
        assert last.until <= y && FixedSpan(p, x).onset <= y;
        FixedSpanHolds(p, x, y);
        HeldAtNone(h, y);
      } else {
        SpanIsConstant(h[..|h| - 1], p, x, y);
      }
    }
  }

  // ---------------------------------------------------------------- displayed onset

  /** The merge walk: continue past the start of `span` while it began at a hold
      boundary, lies inside the clearance window, and the span before it shows the
      same light to this link. */
  function MergeWalk(h: History, p: Program, link: nat, tick: nat, light: SigState, span: Span): (onset: nat)
    requires p.Valid() && PhasesOf(h, p) && span.onset <= tick
    ensures onset <= span.onset
    decreases span.onset
  {
    if span.onset > 0 && span.boundary && tick - span.onset <= p.clearance then
      var prev := SigSpanOnset(h, p, span.onset - 1);
      if LightOf(p, prev.phase, link) != light then span.onset
      else MergeWalk(h, p, link, tick, light, prev)
    else span.onset
  }

  function SigDisplayedOnset(h: History, p: Program, link: nat, tick: nat): (onset: nat)
    requires p.Valid() && PhasesOf(h, p)
    ensures onset <= tick
  {
    var span := SigSpanOnset(h, p, tick);
    MergeWalk(h, p, link, tick, LightOf(p, span.phase, link), span)
  }

  method ComputeSigDisplayedOnset(h: History, p: Program, link: nat, tick: nat) returns (phase: nat, onset: nat)
    requires p.Valid() && PhasesOf(h, p)
    ensures phase == SigSpanOnset(h, p, tick).phase
    ensures onset == SigDisplayedOnset(h, p, link, tick)
  {
    var boundary: bool;
    phase, onset, boundary := ComputeSigSpanOnset(h, p, tick);
    var light := LightOf(p, phase, link);
    while onset > 0 && boundary && tick - onset <= p.clearance
      invariant onset <= tick
      invariant forall ph :: MergeWalk(h, p, link, tick, light, Span(ph, onset, boundary)) == SigDisplayedOnset(h, p, link, tick)
      decreases onset
    {
      var prevPhase, prevOnset, prevBoundary := ComputeSigSpanOnset(h, p, onset - 1);
      assert MergeWalk(h, p, link, tick, light, Span(0, onset, boundary)) == SigDisplayedOnset(h, p, link, tick);
      if LightOf(p, prevPhase, link) != light {
        return;
      }
      MergeWalkIgnoresPhase(h, p, link, tick, light, Span(prevPhase, prevOnset, prevBoundary));
      onset, boundary := prevOnset, prevBoundary;
    }
    assert MergeWalk(h, p, link, tick, light, Span(0, onset, boundary)) == SigDisplayedOnset(h, p, link, tick);
  }

  lemma MergeWalkIgnoresPhase(h: History, p: Program, link: nat, tick: nat, light: SigState, span: Span)
    requires p.Valid() && PhasesOf(h, p) && span.onset <= tick
    ensures forall ph :: MergeWalk(h, p, link, tick, light, span)
                         == MergeWalk(h, p, link, tick, light, Span(ph, span.onset, span.boundary))
  {
  }

  lemma {:induction false} MergeWalkIsConstant(h: History, p: Program, link: nat, tick: nat, light: SigState, span: Span, y: nat)
    requires p.Valid() && PhasesOf(h, p) && Chronological(h) && span.onset <= tick
    requires forall z | span.onset <= z <= tick :: LightAt(h, p, link, z) == light
    requires MergeWalk(h, p, link, tick, light, span) <= y <= tick
    ensures LightAt(h, p, link, y) == light
    decreases span.onset
  {
    if span.onset > 0 && span.boundary && tick - span.onset <= p.clearance {
      var prev := SigSpanOnset(h, p, span.onset - 1);
      if LightOf(p, prev.phase, link) == light {
        forall z | prev.onset <= z <= tick ensures LightAt(h, p, link, z) == light {
          if z < span.onset {
            SpanIsConstant(h, p, span.onset - 1, z);
          }
        }
        MergeWalkIsConstant(h, p, link, tick, light, prev, y);
      }
    }
  }

  /** The light of a link never changes between its displayed onset and the query tick. */
  lemma {:induction false} DisplayedOnsetIsConstant(h: History, p: Program, link: nat, tick: nat, y: nat)
    requires p.Valid() && PhasesOf(h, p) && Chronological(h)
    requires SigDisplayedOnset(h, p, link, tick) <= y <= tick
    ensures LightAt(h, p, link, y) == LightAt(h, p, link, tick)
  {
    var span := SigSpanOnset(h, p, tick);
    var light := LightOf(p, span.phase, link);
    forall z | span.onset <= z <= tick ensures LightAt(h, p, link, z) == light {
      SpanIsConstant(h, p, tick, z);
    }
    MergeWalkIsConstant(h, p, link, tick, light, span, y);
  }

  /** The span shown at y began at `onset`, by a transition of the schedule alone. */
  ghost predicate SpanBeginsPlainly(h: History, p: Program, y: nat, onset: nat)
    requires p.Valid() && PhasesOf(h, p)
  {
    SigSpanOnset(h, p, y).onset == onset && !SigSpanOnset(h, p, y).boundary
  }

  /** The four reasons to stop walking back: the run's start, a clearance window used
      up, another light one tick earlier, or a span begun by the schedule alone. */
  ghost predicate StopsAt(h: History, p: Program, link: nat, tick: nat, light: SigState, onset: nat)
    requires p.Valid() && PhasesOf(h, p) && onset <= tick
  {
    || onset == 0
    || tick - onset > p.clearance
    || LightAt(h, p, link, onset - 1) != light
    || exists y | onset <= y <= tick :: SpanBeginsPlainly(h, p, y, onset)
  }

  lemma {:induction false} MergeWalkIsMaximal(h: History, p: Program, link: nat, tick: nat, light: SigState, span: Span, x: nat)
    requires p.Valid() && PhasesOf(h, p) && Chronological(h)
    requires span.onset <= x <= tick && span == SigSpanOnset(h, p, x)
    ensures StopsAt(h, p, link, tick, light, MergeWalk(h, p, link, tick, light, span))
    decreases span.onset
  {
    if span.onset > 0 && span.boundary && tick - span.onset <= p.clearance {
      var prev := SigSpanOnset(h, p, span.onset - 1);
      if LightOf(p, prev.phase, link) == light {
        MergeWalkIsMaximal(h, p, link, tick, light, prev, span.onset - 1);
      } else {
        SpanIsConstant(h, p, span.onset - 1, span.onset - 1);
      }
    } else if span.onset > 0 && !span.boundary {
      assert SpanBeginsPlainly(h, p, x, span.onset);
    }
  }

  /** The walk never stops early: it goes back to one of those four. */
  lemma DisplayedOnsetIsMaximal(h: History, p: Program, link: nat, tick: nat)
    requires p.Valid() && PhasesOf(h, p) && Chronological(h)
    ensures StopsAt(h, p, link, tick, LightAt(h, p, link, tick), SigDisplayedOnset(h, p, link, tick))
  {
    var span := SigSpanOnset(h, p, tick);
    SpanIsConstant(h, p, tick, tick);
    MergeWalkIsMaximal(h, p, link, tick, LightOf(p, span.phase, link), span, tick);
  }

  /** Without holds the displayed onset is the schedule's own phase onset. */
  lemma NoHoldsFixedOnset(p: Program, link: nat, tick: nat)
    requires p.Valid()
    ensures SigPhaseAt([], p, tick) == PhaseAtElapsed(p, tick)
    ensures var at := PhaseAtElapsed(p, tick);
            SigDisplayedOnset([], p, link, tick) == if at.elapsed > tick then 0 else tick - at.elapsed
  {
  }

  // ---------------------------------------------------------------- clearance

  predicate SigInClearance(h: History, p: Program, link: nat, tick: nat)
    requires p.Valid() && PhasesOf(h, p)
  {
    var onset := SigDisplayedOnset(h, p, link, tick);
    onset != 0 && tick - onset <= p.clearance && LightAt(h, p, link, onset - 1) == SigAmber
  }

  ghost predicate ShownSince(h: History, p: Program, link: nat, onset: nat, tick: nat)
    requires p.Valid() && PhasesOf(h, p)
  {
    forall y | onset <= y <= tick :: LightAt(h, p, link, y) == LightAt(h, p, link, tick)
  }

  /** Clearance is only ever granted when the light now shown began within the window,
      right after an amber. */
  lemma ClearanceMeaning(h: History, p: Program, link: nat, tick: nat)
    requires p.Valid() && PhasesOf(h, p) && Chronological(h)
    requires SigInClearance(h, p, link, tick)
    ensures var onset := SigDisplayedOnset(h, p, link, tick);
      && 0 < onset <= tick <= onset + p.clearance
      && LightAt(h, p, link, onset - 1) == SigAmber
      && ShownSince(h, p, link, onset, tick)
  {
    var onset := SigDisplayedOnset(h, p, link, tick);
    forall y | onset <= y <= tick ensures LightAt(h, p, link, y) == LightAt(h, p, link, tick) {
      DisplayedOnsetIsConstant(h, p, link, tick, y);
    }
  }

  // -------------------------------------------------- forgetting ended holds is safe

  /** Spans computed with and without holds that ended by `limit` agree, or both began
      no later than `limit`. */
  lemma {:induction false} SpanForgets(gone: History, h: History, p: Program, x: nat, limit: nat)
    requires p.Valid() && PhasesOf(gone, p) && PhasesOf(h, p) && Chronological(gone + h)
    requires limit <= x
    requires forall i | 0 <= i < |gone| :: gone[i].until <= limit
    ensures PhasesOf(gone + h, p)
    ensures var a, b := SigSpanOnset(gone + h, p, x), SigSpanOnset(h, p, x);
            a == b || (a.phase == b.phase && a.onset <= limit && b.onset <= limit)
  {
    if h == [] {
      assert gone + h == gone;
      if gone != [] {
        var last := gone[|gone| - 1];
        assert last == (gone + h)[|gone| - 1];
      }
    } else {
      assert (gone + h)[..|gone + h| - 1] == gone + h[..|h| - 1];
      SpanForgets(gone, h[..|h| - 1], p, x, limit);
    }
  }

  lemma {:induction false} WalkForgets(gone: History, h: History, p: Program, link: nat, tick: nat, light: SigState, span: Span, limit: nat)
    requires p.Valid() && PhasesOf(gone, p) && PhasesOf(h, p) && Chronological(gone + h)
    requires limit + p.clearance < tick && span.onset <= tick
    requires forall i | 0 <= i < |gone| :: gone[i].until <= limit
    ensures PhasesOf(gone + h, p)
    ensures var a, b := MergeWalk(gone + h, p, link, tick, light, span), MergeWalk(h, p, link, tick, light, span);
            a == b || (a <= limit && b <= limit)
    decreases span.onset
  {
    if span.onset > 0 && span.boundary && tick - span.onset <= p.clearance {
      SpanForgets(gone, h, p, span.onset - 1, limit);
      var a, b := SigSpanOnset(gone + h, p, span.onset - 1), SigSpanOnset(h, p, span.onset - 1);
      if LightOf(p, b.phase, link) == light && a == b {
        WalkForgets(gone, h, p, link, tick, light, b, limit);
      }
    }
  }

  lemma ClearanceForgets(gone: History, h: History, p: Program, link: nat, tick: nat)
    requires p.Valid() && PhasesOf(gone, p) && PhasesOf(h, p) && Chronological(gone + h) && gone != []
    requires forall i | 0 <= i < |gone| :: gone[i].until + p.clearance < tick
    requires PhasesOf(gone + h, p) && LightAt(gone + h, p, link, tick) == LightAt(h, p, link, tick)
    ensures SigInClearance(gone + h, p, link, tick) == SigInClearance(h, p, link, tick)
  {
    hide MergeWalk;
    assert gone[0].until + p.clearance < tick;
    var limit := tick - p.clearance - 1;
    SpanForgets(gone, h, p, tick, limit);
    var a, b := SigSpanOnset(gone + h, p, tick), SigSpanOnset(h, p, tick);
    if a == b {
      WalkForgets(gone, h, p, link, tick, LightOf(p, b.phase, link), b, limit);
    }
    var onset := SigDisplayedOnset(h, p, link, tick);
    if onset == SigDisplayedOnset(gone + h, p, link, tick) && onset > limit {
      HeldAtIgnoresEnded(gone, h, onset - 1);
    }
  }

  /** Everything a vehicle reads from a signal at `tick` is the same with and without
      holds that ended more than a clearance window ago. */
  lemma {:induction false} ForgettingIsInvisible(gone: History, h: History, p: Program, link: nat, tick: nat)
    requires p.Valid() && PhasesOf(gone, p) && PhasesOf(h, p) && Chronological(gone + h)
    requires forall i | 0 <= i < |gone| :: gone[i].until + p.clearance < tick
    ensures PhasesOf(gone + h, p)
    ensures SigPhaseAt(gone + h, p, tick) == SigPhaseAt(h, p, tick)
    ensures LightAt(gone + h, p, link, tick) == LightAt(h, p, link, tick)
    ensures SigPermissive(gone + h, p, link, tick) == SigPermissive(h, p, link, tick)
    ensures SigInClearance(gone + h, p, link, tick) == SigInClearance(h, p, link, tick)
  {
    hide SigInClearance;
    HeldAtIgnoresEnded(gone, h, tick);
    if gone == [] {
      assert gone + h == h;
    } else {
      ClearanceForgets(gone, h, p, link, tick);
    }
  }
}
