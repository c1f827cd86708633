/** The engine's side of signal control as the run loop drives it: a buffer of accepted
    verbs, the override table, and the per-tick record and lapse lists. */
module SignalEngine {
  import opened SignalProgram
  import opened SignalDisplay
  import opened SignalHistory
  import opened SignalControl
  import opened SignalLapses

  const MAX_REQUEST_ID_BYTES := 65535

  datatype Directive = Directive(requestId: string, signal: string, phase: int, holdTicks: nat)

  datatype Verdict =
    | RequestIdTooLong
    | UnknownSignal
    | PhaseOutOfRange
    | DuplicateBuffered
    | DuplicateLive
    | Accepted(ticked: TickedSignal)

  predicate IsProgram(net: Network, id: string) {
    exists i | 0 <= i < |net.programs| :: net.programs[i].id == id
  }

  function IndexOf(net: Network, id: string): (i: nat)
    requires IsProgram(net, id)
    ensures i < |net.programs| && net.programs[i].id == id
    ensures forall j | 0 <= j < i :: net.programs[j].id != id
  {
    IndexFrom(net, id, 0)
  }

  function IndexFrom(net: Network, id: string, k: nat): (i: nat)
    requires k <= |net.programs| && IsProgram(net, id)
    requires forall j | 0 <= j < k :: net.programs[j].id != id
    ensures k <= i < |net.programs| && net.programs[i].id == id
    ensures forall j | 0 <= j < i :: net.programs[j].id != id
    decreases |net.programs| - k
  {
    if net.programs[k].id == id then k else IndexFrom(net, id, k + 1)
  }

  predicate Buffered(buffer: seq<TickedSignal>, requestId: string) {
    exists i | 0 <= i < |buffer| :: buffer[i].requestId == requestId
  }

  predicate Live(ov: Table, requestId: string) {
    exists id | id in ov :: exists i | 0 <= i < |ov[id]| :: ov[id][i].requestId == requestId
  }

  /** The hold the rail lets through: one cycle by default, never past the bound. */
  function EffectiveHold(p: Program, requested: nat, bound: nat): nat {
    var hold := if requested == 0 then p.Cycle() else requested;
    if hold > bound then bound else hold
  }

  /** Validation, in the order of the checks. */
  function Judge(net: Network, buffer: seq<TickedSignal>, ov: Table, d: Directive): (v: Verdict)
  {
    if |d.requestId| > MAX_REQUEST_ID_BYTES then RequestIdTooLong
    else if !IsProgram(net, d.signal) then UnknownSignal
    else
      var idx := IndexOf(net, d.signal);
      var p := net.programs[idx];
      if d.phase < 0 || d.phase >= |p.phaseTicks| then PhaseOutOfRange
      else if Buffered(buffer, d.requestId) then DuplicateBuffered
      else if Live(ov, d.requestId) then DuplicateLive
      else Accepted(TickedSignal(0, idx, d.requestId, d.signal, d.phase, EffectiveHold(p, d.holdTicks, net.bound)))
  }

  lemma AcceptedIsApplicable(net: Network, buffer: seq<TickedSignal>, ov: Table, d: Directive)
    requires net.Valid() && Judge(net, buffer, ov, d).Accepted?
    ensures Applicable(net, Judge(net, buffer, ov, d).ticked)
  {
    SumPositive(net.programs[IndexOf(net, d.signal)].phaseTicks);
  }

  class SignalController {
    const net: Network
    var tick: nat
    var sigNew: seq<TickedSignal>
    var sigOv: Table
    var appliedSig: seq<TickedSignal>
    var sigLog: seq<TickedSignal>
    var sigLapses: seq<SigLapse>

    /** Between ticks. */
    ghost predicate Valid()
      reads this
    {
      && net.Valid()
      && TableBounded(net, sigOv, tick)
      && AllApplicable(net, sigNew)
      && (forall i, j | 0 <= i < j < |sigNew| :: sigNew[i].requestId != sigNew[j].requestId)
      && (forall i | 0 <= i < |sigLog| :: sigLog[i].tick <= tick)
    }

    constructor (net: Network)
      requires net.Valid()
      ensures Valid() && this.net == net && tick == 0
      ensures sigNew == [] && sigOv == map[] && sigLog == [] && appliedSig == [] && sigLapses == []
    {
      this.net := net;
      tick, sigNew, sigOv, appliedSig, sigLog, sigLapses := 0, [], map[], [], [], [];
    }

    method FindProgram(id: string) returns (idx: nat)
      ensures idx <= |net.programs|
      ensures idx == |net.programs| <==> !IsProgram(net, id)
      ensures idx < |net.programs| ==> IsProgram(net, id) && idx == IndexOf(net, id)
    {
      idx := 0;
      while idx < |net.programs| && net.programs[idx].id != id
        invariant idx <= |net.programs|
        invariant forall j | 0 <= j < idx :: net.programs[j].id != id
      {
        idx := idx + 1;
      }
    }

    method IsBuffered(requestId: string) returns (found: bool)
      ensures found <==> Buffered(sigNew, requestId)
    {
      for i := 0 to |sigNew|
        invariant forall j | 0 <= j < i :: sigNew[j].requestId != requestId
      {
        if sigNew[i].requestId == requestId {
          return true;
        }
      }
      return false;
    }

    /** Scans the live history in no particular order: any match rejects. */
    method IsLive(requestId: string) returns (found: bool)
      ensures found <==> Live(sigOv, requestId)
    {
      var ids := sigOv.Keys;
      while ids != {}
        invariant ids <= sigOv.Keys
        invariant forall id, i | id in sigOv && id !in ids && 0 <= i < |sigOv[id]| :: sigOv[id][i].requestId != requestId
        decreases ids
      {
        var id :| id in ids;
        for i := 0 to |sigOv[id]|
          invariant forall j | 0 <= j < i :: sigOv[id][j].requestId != requestId
        {
          if sigOv[id][i].requestId == requestId {
            return true;
          }
        }
        ids := ids - {id};
      }
      return false;
    }

    /** Accepts or rejects one directive; a rejected one leaves the run unaffected. */
    method EnqueueSignal(d: Directive) returns (v: Verdict)
      requires Valid()
      modifies this`sigNew
      ensures Valid()
      ensures v == Judge(net, old(sigNew), sigOv, d)
      ensures sigNew == if v.Accepted? then old(sigNew) + [v.ticked] else old(sigNew)
    {
      if |d.requestId| > MAX_REQUEST_ID_BYTES {
        return RequestIdTooLong;
      }
      var idx := FindProgram(d.signal);
      if idx == |net.programs| {
        return UnknownSignal;
      }
      var p := net.programs[idx];
      if d.phase < 0 || d.phase >= |p.phaseTicks| {
        return PhaseOutOfRange;
      }
      var hold := d.holdTicks;
      if hold == 0 {
        hold := p.Cycle();
      }
      if hold > net.bound {
        hold := net.bound;
      }
      var dup := IsBuffered(d.requestId);
      if dup {
        return DuplicateBuffered;
      }
      dup := IsLive(d.requestId);
      if dup {
        return DuplicateLive;
      }
      v := Accepted(TickedSignal(0, idx, d.requestId, d.signal, d.phase, hold));
      assert v == Judge(net, sigNew, sigOv, d);
      AcceptedIsApplicable(net, sigNew, sigOv, d);
      sigNew := sigNew + [v.ticked];
    }

    /** Both record copies of a verb that enforced nothing show hold 0. */
    method MarkSignalVerbUnenforced(requestId: string, ghost before: seq<TickedSignal>)
      requires sigLog == before + appliedSig
      requires forall i | 0 <= i < |before| :: before[i].tick != tick
      requires forall i | 0 <= i < |appliedSig| :: appliedSig[i].tick == tick
      modifies this`appliedSig, this`sigLog
      ensures appliedSig == MarkLast(old(appliedSig), requestId)
      ensures sigLog == before + appliedSig
    {
      ghost var a := appliedSig;
      var i := |appliedSig|;
      while i > 0
        invariant 0 <= i <= |a| && appliedSig == a
        invariant forall j | i <= j < |a| :: a[j].requestId != requestId
      {
        i := i - 1;
        if appliedSig[i].requestId == requestId {
          MarkLastAt(a, requestId, i);
          appliedSig := appliedSig[i := appliedSig[i].(holdTicks := 0)];
          break;
        }
      }
      ghost var s := sigLog;
      i := |sigLog|;
      while i > 0
        invariant 0 <= i <= |s| && sigLog == s
        invariant forall j | i <= j < |s| :: s[j].tick != tick || s[j].requestId != requestId
      {
        i := i - 1;
        if sigLog[i].tick == tick && sigLog[i].requestId == requestId {
          assert |before| <= i && s[i] == a[i - |before|];
          assert forall j | i - |before| < j < |a| :: a[j] == s[|before| + j];
          MarkLastAt(a, requestId, i - |before|);
          sigLog := sigLog[i := sigLog[i].(holdTicks := 0)];
          return;
        }
      }
      assert forall j | 0 <= j < |a| :: a[j] == s[|before| + j];
      MarkLastNone(a, requestId);
    }

    /** The hold in force makes room: it is cut at this tick, and dropped - with its
        record marked - when it never governed one. */
    method Supersede(id: string, ghost before: seq<TickedSignal>) returns (h: History)
      requires sigLog == before + appliedSig
      requires forall i | 0 <= i < |before| :: before[i].tick != tick
      requires forall i | 0 <= i < |appliedSig| :: appliedSig[i].tick == tick
      modifies this`sigOv, this`appliedSig, this`sigLog
      ensures var h0 := Hist(old(sigOv), id);
        && h == Remaining(h0, tick)
        && sigOv == (if h0 == [] then old(sigOv) else old(sigOv)[id := Truncated(h0, tick)])
        && appliedSig == (if Dropped(h0, tick).Some? then MarkLast(old(appliedSig), Dropped(h0, tick).value) else old(appliedSig))
      ensures sigLog == before + appliedSig
      ensures forall i | 0 <= i < |appliedSig| :: appliedSig[i].tick == tick
    {
      h := Hist(sigOv, id);
      if |h| > 0 {
        var last := h[|h| - 1];
        if last.until > tick {
          h := h[|h| - 1 := last.(until := tick)];
          sigOv := sigOv[id := h];
        }
        assert h == Truncated(Hist(old(sigOv), id), tick);
        if h[|h| - 1].until <= h[|h| - 1].since {
          MarkLastTicks(appliedSig, h[|h| - 1].requestId);
          MarkSignalVerbUnenforced(h[|h| - 1].requestId, before);
          h := h[..|h| - 1];
        }
      }
    }

    /** The hold begins, cut at its chain's bound - or is declined there. */
    method BeginHold(id: string, h: History, d: TickedSignal, chainStart: nat) returns (hold: nat)
      modifies this`sigOv
      ensures var until := Min(tick + d.holdTicks, chainStart + net.bound);
        if until > tick then
          && hold == until - tick
          && sigOv == old(sigOv)[id := h + [Override(d.phase, tick, until, chainStart, d.requestId)]]
        else
          hold == 0 && sigOv == old(sigOv)
    {
      var until := tick + d.holdTicks;
      if until > chainStart + net.bound {
        until := chainStart + net.bound;
      }
      if until > tick {
        sigOv := sigOv[id := h + [Override(d.phase, tick, until, chainStart, d.requestId)]];
        hold := until - tick;
      } else {
        hold := 0;
      }
    }

    /** Installs one verb: renews or restarts the chain, supersedes the hold in force,
        and records the effective hold. */
    method InstallVerb(verb: TickedSignal, ghost before: seq<TickedSignal>)
      requires verb.signalIdx < |net.programs|
      requires sigLog == before + appliedSig
      requires forall i | 0 <= i < |before| :: before[i].tick != tick
      requires forall i | 0 <= i < |appliedSig| :: appliedSig[i].tick == tick
      requires forall id | id in sigOv :: sigOv[id] != []
      modifies this`sigOv, this`appliedSig, this`sigLog
      ensures Folded(sigOv, appliedSig) == ApplyOne(net, Folded(old(sigOv), old(appliedSig)), verb, tick)
      ensures sigLog == before + appliedSig
      ensures forall i | 0 <= i < |appliedSig| :: appliedSig[i].tick == tick
      ensures forall id | id in sigOv :: sigOv[id] != []
    {
      hide MarkLast, Truncated, Remaining;
      var d := verb.(tick := tick);
      var p := net.programs[d.signalIdx];
      var h := Hist(sigOv, p.id);
      ghost var r := Install(h, d.phase, d.holdTicks, d.requestId, tick, net.bound);
      ghost var ov0 := sigOv;
      var chainStart := tick;
      if |h| > 0 && h[|h| - 1].phase == d.phase && h[|h| - 1].until >= tick {
        chainStart := h[|h| - 1].chainStart;
      }
      assert chainStart == ChainStartFor(h, d.phase, tick);
      h := Supersede(p.id, before);
      var hold := BeginHold(p.id, h, d, chainStart);
      d := d.(holdTicks := hold);
      assert sigOv == if r.h == [] then ov0 else ov0[p.id := r.h];
      appliedSig := appliedSig + [d];
      sigLog := sigLog + [d];
    }

    /** The holds of one program still within their retention at this tick. */
    method KeepRetained(h: History, clearance: nat) returns (kept: History)
      ensures kept == Sweep(h, tick, clearance)
    {
      kept := [];
      assert h[0..] == h;
      for j := 0 to |h|
        invariant kept + Sweep(h[j..], tick, clearance) == Sweep(h, tick, clearance)
      {
        assert h[j..][1..] == h[j + 1..];
        if tick <= h[j].until + clearance {
          kept := kept + [h[j]];
        }
      }
    }

    /** Reports a lapse of one program and drops its holds past their retention. */
    method SweepProgram(p: Program)
      requires forall id | id in sigOv :: sigOv[id] != []
      modifies this`sigOv, this`sigLapses
      ensures sigOv == WithHistory(old(sigOv), p.id, Sweep(Hist(old(sigOv), p.id), tick, p.clearance))
      ensures sigLapses == old(sigLapses) + var h := Hist(old(sigOv), p.id);
        if Lapses(h, tick) then
          var last := h[|h| - 1];
          [SigLapse(p.id, last.phase, last.chainStart, last.until, last.requestId)]
        else []
    {
      if p.id !in sigOv {
        assert sigOv - {p.id} == sigOv;
        return;
      }
      var h := sigOv[p.id];
      var last := h[|h| - 1];
      if tick == last.until {
        sigLapses := sigLapses + [SigLapse(p.id, last.phase, last.chainStart, last.until, last.requestId)];
      }
      var kept := KeepRetained(h, p.clearance);
      if kept == [] {
        sigOv := sigOv - {p.id};
      } else {
        sigOv := sigOv[p.id := kept];
      }
    }

    /** The buffered verbs are stamped with this tick and installed in order. */
    method ApplyVerbs()
      requires forall i | 0 <= i < |sigNew| :: sigNew[i].signalIdx < |net.programs|
      requires forall id | id in sigOv :: sigOv[id] != []
      requires forall i | 0 <= i < |sigLog| :: sigLog[i].tick < tick
      modifies this`sigNew, this`sigOv, this`appliedSig, this`sigLog
      ensures sigNew == []
      ensures Folded(sigOv, appliedSig) == ApplyAll(net, old(sigOv), old(sigNew), tick)
      ensures sigLog == old(sigLog) + appliedSig
      ensures forall i | 0 <= i < |appliedSig| :: appliedSig[i].tick == tick
      ensures forall id | id in sigOv :: sigOv[id] != []
    {
      hide ApplyOne;
      appliedSig := [];
      for k := 0 to |sigNew|
        invariant sigNew == old(sigNew)
        invariant Folded(sigOv, appliedSig) == ApplyAll(net, old(sigOv), sigNew[..k], tick)
        invariant forall i | 0 <= i < |appliedSig| :: appliedSig[i].tick == tick
        invariant forall id | id in sigOv :: sigOv[id] != []
        invariant sigLog == old(sigLog) + appliedSig
      {
        assert sigNew[..k + 1][..k] == sigNew[..k];
        InstallVerb(sigNew[k], old(sigLog));
      }
      assert sigNew[..|sigNew|] == sigNew;
      sigNew := [];
    }

    /** One tick boundary: verbs, then lapses, then the retention sweep. */
    method StepSignalOverrides()
      requires net.Valid() && AllApplicable(net, sigNew)
      requires forall id | id in sigOv :: sigOv[id] != []
      requires forall i | 0 <= i < |sigLog| :: sigLog[i].tick < tick
      modifies this`sigNew, this`sigOv, this`appliedSig, this`sigLog, this`sigLapses
      ensures sigNew == []
      ensures sigOv == StepTable(net, old(sigOv), old(sigNew), tick)
      ensures appliedSig == ApplyAll(net, old(sigOv), old(sigNew), tick).applied
      ensures sigLog == old(sigLog) + appliedSig
      ensures sigLapses == LapsesOf(net, ApplyAll(net, old(sigOv), old(sigNew), tick).ov, tick, |net.programs|)
      ensures forall i | 0 <= i < |appliedSig| :: appliedSig[i].tick == tick
    {
      sigLapses := [];
      ApplyVerbs();
      if |sigOv| == 0 {
        SweepEmpty(net, sigOv, tick, |net.programs|);
      } else {
        LapseAndSweep();
      }
    }

    /** In network order: report lapses, drop holds past their retention. */
    method LapseAndSweep()
      requires net.Valid()
      requires forall id | id in sigOv :: sigOv[id] != []
      requires sigLapses == []
      modifies this`sigOv, this`sigLapses
      ensures sigOv == SweepTable(net, old(sigOv), tick, |net.programs|)
      ensures sigLapses == LapsesOf(net, old(sigOv), tick, |net.programs|)
    {
      ghost var applied := sigOv;
      for k := 0 to |net.programs|
        invariant sigOv == SweepTable(net, applied, tick, k)
        invariant forall id | id in sigOv :: sigOv[id] != []
        invariant sigLapses == LapsesOf(net, applied, tick, k)
      {
        assert Hist(sigOv, net.programs[k].id) == Hist(applied, net.programs[k].id) by {
          SweepTableMeaning(net, applied, tick, k);
        }
        SweepProgram(net.programs[k]);
      }
    }

    /** The boundary entered, and its verbs installed. */
    method EnterTick()
      requires net.Valid() && TableBounded(net, sigOv, tick) && AllApplicable(net, sigNew)
      requires forall i | 0 <= i < |sigLog| :: sigLog[i].tick <= tick
      modifies this
      ensures TableBounded(net, sigOv, tick)
      ensures tick == old(tick) + 1 && sigNew == []
      ensures sigOv == StepTable(net, old(sigOv), old(sigNew), tick)
      ensures appliedSig == ApplyAll(net, old(sigOv), old(sigNew), tick).applied
      ensures sigLog == old(sigLog) + appliedSig
      ensures LapsesReal(net, old(sigOv), sigOv, sigLapses, tick)
      ensures forall i | 0 <= i < |sigLog| :: sigLog[i].tick <= tick
    {
      hide TableBounded, ApplyAll, StepTable, LapsesReal, LapsesOf;
      StepTableBounded(net, sigOv, sigNew, tick);
      NoneEmpty(net, sigOv, tick);
      TableBoundedLater(net, sigOv, tick);
      LapsesAreReal(net, sigOv, sigNew, tick + 1);
      tick := tick + 1;
      ghost var before := sigLog;
      StepSignalOverrides();
      LogTicks(before, appliedSig, tick);
    }

    /** One engine tick, as far as signals are concerned. */
    method Step()
      requires Valid()
      modifies this
      ensures Valid() && tick == old(tick) + 1 && sigNew == []
      ensures sigOv == StepTable(net, old(sigOv), old(sigNew), tick)
      ensures appliedSig == ApplyAll(net, old(sigOv), old(sigNew), tick).applied
      ensures sigLog == old(sigLog) + appliedSig
      ensures LapsesReal(net, old(sigOv), sigOv, sigLapses, tick)
    {
      EnterTick();
    }
  }

  lemma NoneEmpty(net: Network, ov: Table, now: nat)
    requires net.Valid() && TableBounded(net, ov, now)
    ensures forall id | id in ov :: ov[id] != []
  {
  }

  lemma LogTicks(before: seq<TickedSignal>, applied: seq<TickedSignal>, now: nat)
    requires forall i | 0 <= i < |before| :: before[i].tick < now
    requires forall i | 0 <= i < |applied| :: applied[i].tick == now
    ensures forall i | 0 <= i < |before + applied| :: (before + applied)[i].tick <= now
  {
  }

  lemma {:induction false} MarkLastAt(applied: seq<TickedSignal>, requestId: string, i: nat)
    requires i < |applied| && applied[i].requestId == requestId
    requires forall j | i < j < |applied| :: applied[j].requestId != requestId
    ensures MarkLast(applied, requestId) == applied[i := applied[i].(holdTicks := 0)]
  {
    var n := |applied| - 1;
    if i < n {
      MarkLastAt(applied[..n], requestId, i);
    }
  }

  lemma {:induction false} MarkLastNone(applied: seq<TickedSignal>, requestId: string)
    requires forall i | 0 <= i < |applied| :: applied[i].requestId != requestId
    ensures MarkLast(applied, requestId) == applied
  {
    if applied != [] {
      MarkLastNone(applied[..|applied| - 1], requestId);
    }
  }

  lemma {:induction false} MarkLastTicks(applied: seq<TickedSignal>, requestId: string)
    ensures forall i | 0 <= i < |applied| :: MarkLast(applied, requestId)[i].tick == applied[i].tick
  {
    if applied != [] {
      MarkLastTicks(applied[..|applied| - 1], requestId);
    }
  }

  lemma NoHistory(id: string, now: nat, clearance: nat)
    ensures Hist(map[], id) == [] && Sweep([], now, clearance) == [] && !Lapses([], now)
    ensures WithHistory(map[], id, []) == map[]
  {
    var none: Table := map[];
    assert none - {id} == none;
  }

  lemma {:induction false} SweepEmpty(net: Network, ov: Table, now: nat, k: nat)
    requires k <= |net.programs| && ov == map[]
    ensures SweepTable(net, ov, now, k) == ov && LapsesOf(net, ov, now, k) == []
  {
    hide Hist, Sweep, Lapses, WithHistory;
    if k > 0 {
      SweepEmpty(net, ov, now, k - 1);
      var p := net.programs[k - 1];
      NoHistory(p.id, now, p.clearance);
    }
  }
}
