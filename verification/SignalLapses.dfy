/** Lapses as a boundary reports them: exactly the programs that were commanded up to it and are
    not commanded any more. */
module SignalLapses {
  import opened SignalProgram
  import opened SignalDisplay
  import opened SignalHistory
  import opened SignalControl

  /** The lapses of a tick are those of the programs whose newest hold ends there, and each
      tells the program, the phase, the start of the whole chain, and the verb. */
  lemma {:induction false} LapseTells(net: Network, ov: Table, now: nat, k: nat, x: SigLapse)
    requires k <= |net.programs|
    ensures x in LapsesOf(net, ov, now, k) <==>
      exists i | 0 <= i < k ::
        var h := Hist(ov, net.programs[i].id);
        && h != [] && h[|h| - 1].until == now
        && x == SigLapse(net.programs[i].id, h[|h| - 1].phase, h[|h| - 1].chainStart, now, h[|h| - 1].requestId)
  {
    if k > 0 {
      LapseTells(net, ov, now, k - 1, x);
    }
  }

  predicate Commanded(ov: Table, id: string, x: nat) {
    HeldAt(Hist(ov, id), x).Some?
  }

  /** A program is among the lapses of a tick exactly when a command held it the tick before and
      none does now. */
  ghost predicate LapsesReal(net: Network, before: Table, after: Table, lapses: seq<SigLapse>, now: nat)
    requires now > 0
  {
    forall i | 0 <= i < |net.programs| ::
      (exists k | 0 <= k < |lapses| :: lapses[k].signal == net.programs[i].id)
      <==> Commanded(before, net.programs[i].id, now - 1) && !Commanded(after, net.programs[i].id, now)
  }

  /** Verbs do not change what was in force before. */
  lemma {:induction false} PastStays(net: Network, ov: Table, ds: seq<TickedSignal>, now: nat, i: nat, x: nat)
    requires net.Valid() && TableBounded(net, ov, now) && AllApplicable(net, ds) && i < |net.programs| && x < now
    ensures InForce(Hist(ApplyAll(net, ov, ds, now).ov, net.programs[i].id), x) == InForce(Hist(ov, net.programs[i].id), x)
  {
    hide Install, TableBounded, Bounded, InForce;
    if ds != [] {
      var n := |ds| - 1;
      PastStays(net, ov, ds[..n], now, i, x);
      ApplyAllBounded(net, ov, ds[..n], now);
      var st := ApplyAll(net, ov, ds[..n], now);
      ApplyOneHist(net, st, ds[n], now, i);
      HistBounded(net, st.ov, now, i);
      assert Applicable(net, ds[n]);
      InstallGoverns(Hist(st.ov, net.programs[i].id), net.programs[i], ds[n].phase, ds[n].holdTicks, ds[n].requestId, now, net.bound, x);
    }
  }

  lemma HistBounded(net: Network, ov: Table, now: nat, i: nat)
    requires net.Valid() && TableBounded(net, ov, now) && i < |net.programs|
    ensures Bounded(Hist(ov, net.programs[i].id), net.programs[i], now, net.bound)
  {
  }

  /** The sweep does not change what is in force. */
  lemma SweepStays(h: History, now: nat, clearance: nat)
    requires Chronological(h)
    ensures HeldAt(Sweep(h, now, clearance), now) == HeldAt(h, now)
  {
    SweepForgets(h, now, clearance);
    var live := Sweep(h, now, clearance);
    ForgetsSplit(h, live, now, clearance);
    HeldAtIgnoresEnded(h[..|h| - |live|], live, now);
  }

  lemma ListedIff(net: Network, ov: Table, now: nat, i: nat)
    requires net.Valid() && i < |net.programs|
    ensures var lapses := LapsesOf(net, ov, now, |net.programs|);
      (exists k | 0 <= k < |lapses| :: lapses[k].signal == net.programs[i].id) <==> Lapses(Hist(ov, net.programs[i].id), now)
  {
    hide LapsesOf;
    var lapses, h := LapsesOf(net, ov, now, |net.programs|), Hist(ov, net.programs[i].id);
    if k :| 0 <= k < |lapses| && lapses[k].signal == net.programs[i].id {
      assert lapses[k] in lapses;
      LapseTells(net, ov, now, |net.programs|, lapses[k]);
    }
    if Lapses(h, now) {
      var x := SigLapse(net.programs[i].id, h[|h| - 1].phase, h[|h| - 1].chainStart, now, h[|h| - 1].requestId);
      LapseTells(net, ov, now, |net.programs|, x);
      assert x in lapses;
    }
  }

  /** So it is at every boundary, whatever its verbs. */
  lemma LapsesAreReal(net: Network, ov: Table, ds: seq<TickedSignal>, now: nat)
    requires now > 0 && net.Valid() && TableBounded(net, ov, now) && AllApplicable(net, ds)
    ensures LapsesReal(net, ov, StepTable(net, ov, ds, now), LapsesOf(net, ApplyAll(net, ov, ds, now).ov, now, |net.programs|), now)
  {
    hide TableBounded, LapsesOf, ApplyAll, Sweep;
    var applied := ApplyAll(net, ov, ds, now).ov;
    ApplyAllBounded(net, ov, ds, now);
    SweepTableMeaning(net, applied, now, |net.programs|);
    forall i | 0 <= i < |net.programs|
      ensures (exists k | 0 <= k < |LapsesOf(net, applied, now, |net.programs|)| ::
                 LapsesOf(net, applied, now, |net.programs|)[k].signal == net.programs[i].id)
        <==> Commanded(ov, net.programs[i].id, now - 1) && !Commanded(StepTable(net, ov, ds, now), net.programs[i].id, now)
    {
      var p := net.programs[i];
      HistBounded(net, applied, now, i);
      ListedIff(net, applied, now, i);
      LapseExactly(Hist(applied, p.id), p, now, net.bound);
      PastStays(net, ov, ds, now, i, now - 1);
      SweepStays(Hist(applied, p.id), now, p.clearance);
    }
  }
}
