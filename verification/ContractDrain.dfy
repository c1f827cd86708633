/** The tick boundary of the contract: fresh intents filtered by claim, then the held ones
    re-issued; every key is unique and no hold outlives its window. */
module ContractDrain {
  import opened AscendingIds
  import opened Intents
  import opened Contract

  datatype Arrival = Arrival(controller: string, intent: Intent)

  /** The plane while it drains, what it emits, and the vehicles with a fresh intent. */
  datatype Draining = Draining(p: Plane, out: seq<KeyedIntent>, heard: set<nat>)

  predicate Owns(p: Plane, id: string, v: nat) {
    id in p.ctrls && p.ctrls[id].drive && v in p.byVehicle && p.byVehicle[v] == id
  }

  function NextLegacy(p: Plane, id: string): nat {
    if id in p.legacySeqs then p.legacySeqs[id] + 1 else 1
  }

  function Sequenced(p: Plane, id: string): Plane
    requires id in p.ctrls
  {
    p.(ctrls := p.ctrls[id := p.ctrls[id].(seqNo := p.ctrls[id].seqNo + 1)])
  }

  /** An unattached publisher is heard only for an unclaimed vehicle; an attached one for its
      own vehicles, or for any as a director. */
  function Arrive(d: Draining, a: Arrival, tick: nat): Draining {
    var p, v := d.p, a.intent.vehicleId;
    if a.controller !in p.ctrls then
      if v in p.byVehicle then d.(p := p.(violations := p.violations + 1))
      else
        var n := NextLegacy(p, a.controller);
        Draining(p.(legacySeqs := p.legacySeqs[a.controller := n]),
                 d.out + [KeyedIntent(a.controller, n, GRANT_NONE, false, a.intent)], d.heard)
    else
      var c := p.ctrls[a.controller];
      if !Owns(p, a.controller, v) && c.grant < GRANT_DIRECTOR then d.(p := p.(violations := p.violations + 1))
      else
        var q := Sequenced(p, a.controller);
        var out := d.out + [KeyedIntent(a.controller, c.seqNo + 1, c.grant, false, a.intent)];
        if Owns(p, a.controller, v) then
          Draining(q.(hold := q.hold[v := Hold(a.intent, tick, c.cadence, c.grant, a.controller, 0)]), out, d.heard + {v})
        else Draining(q, out, d.heard)
  }

  function ArriveAll(p: Plane, arrivals: seq<Arrival>, tick: nat): Draining {
    if arrivals == [] then Draining(p, [], {})
    else Arrive(ArriveAll(p, arrivals[..|arrivals| - 1], tick), arrivals[|arrivals| - 1], tick)
  }

  /** How long past a fresh intent a vehicle is bridged. */
  function Window(h: Hold, holdLast: nat): int {
    h.cadence - 1 + holdLast
  }

  predicate Bridged(h: Hold, tick: nat, holdLast: nat) {
    tick > h.lastFresh && tick - h.lastFresh <= Window(h, holdLast)
  }

  /** A held vehicle without a fresh intent: its last one again, or the end of the hold. */
  function Reissue(d: Draining, v: nat, tick: nat, holdLast: nat): Draining
    requires v in d.p.hold
  {
    var p, h := d.p, d.p.hold[v];
    if v in d.heard then d
    else if !Bridged(h, tick, holdLast) then d.(p := p.(hold := p.hold - {v}))
    else if h.owner in p.ctrls then
      d.(p := Sequenced(p, h.owner),
         out := d.out + [KeyedIntent(h.owner, p.ctrls[h.owner].seqNo + 1, h.grant, true, h.intent)])
    else
      d.(p := p.(hold := p.hold[v := h.(seqNo := h.seqNo + 1)]),
         out := d.out + [KeyedIntent(h.owner, h.seqNo + 1, h.grant, true, h.intent)])
  }

  /** The first n of the held vehicles, in ascending order. */
  function ReissueAll(d: Draining, vs: seq<nat>, n: nat, tick: nat, holdLast: nat): Draining
    requires n <= |vs|
  {
    if n == 0 then d
    else
      var r := ReissueAll(d, vs, n - 1, tick, holdLast);
      if vs[n - 1] in r.p.hold then Reissue(r, vs[n - 1], tick, holdLast) else r
  }

  function DrainIntents(p: Plane, arrivals: seq<Arrival>, tick: nat, holdLast: nat): Draining {
    var d := ArriveAll(p, arrivals, tick);
    var vs := Ascend(d.p.hold.Keys);
    ReissueAll(d, vs, |vs|, tick, holdLast)
  }

  // ---------------------------------------------------------------- the registry survives

  lemma SequencedKeeps(p: Plane, id: string)
    requires PlaneValid(p) && id in p.ctrls
    ensures PlaneValid(Sequenced(p, id))
  {
    hide ControllersSound;
    var r := Sequenced(p, id);
    StillSound(p, r);
    forall u | u in r.hold ensures HoldOwned(r, u) {
      assert HoldOwned(p, u);
    }
  }

  /** Counters apart, nothing changed. */
  lemma CountersKeep(p: Plane, q: Plane)
    requires PlaneValid(p) && q == p.(legacySeqs := q.legacySeqs, violations := q.violations)
    ensures PlaneValid(q)
  {
    hide ControllersSound;
    StillSound(p, q);
    forall u | u in q.hold ensures HoldOwned(q, u) {
      assert HoldOwned(p, u);
    }
  }

  lemma HoldSet(p: Plane, v: nat, h: Hold)
    requires PlaneValid(p) && v in p.byVehicle && h.owner == p.byVehicle[v] && h.owner in p.ctrls
    requires h.intent.vehicleId == v && h.cadence == p.ctrls[h.owner].cadence && h.grant == p.ctrls[h.owner].grant
    ensures PlaneValid(p.(hold := p.hold[v := h]))
  {
    hide ControllersSound;
    var r := p.(hold := p.hold[v := h]);
    Grants(p);
    StillSound(p, r);
    forall u | u in r.hold ensures HoldOwned(r, u) {
      assert u != v ==> HoldOwned(p, u);
    }
  }

  /** Ending a hold, or counting an orphan's re-issues. */
  lemma HoldChanged(p: Plane, q: Plane)
    requires PlaneValid(p) && q == p.(hold := q.hold) && q.hold.Keys <= p.hold.Keys
    requires forall v | v in q.hold :: q.hold[v] == p.hold[v].(seqNo := q.hold[v].seqNo)
    ensures PlaneValid(q)
  {
    hide ControllersSound;
    StillSound(p, q);
    forall u | u in q.hold ensures HoldOwned(q, u) {
      assert HoldOwned(p, u);
    }
  }

  lemma Grants(p: Plane)
    requires ControllersSound(p)
    ensures forall id | id in p.ctrls :: p.ctrls[id].cadence > 0 && p.ctrls[id].grant > GRANT_NONE && id != ""
  {
  }

  lemma ArriveKeeps(d: Draining, a: Arrival, tick: nat)
    requires PlaneValid(d.p)
    ensures PlaneValid(Arrive(d, a, tick).p)
  {
    hide PlaneValid;
    var p, v := d.p, a.intent.vehicleId;
    var r := Arrive(d, a, tick).p;
    if a.controller in p.ctrls {
      SequencedKeeps(p, a.controller);
      if Owns(p, a.controller, v) {
        var c := p.ctrls[a.controller];
        HoldSet(Sequenced(p, a.controller), v, Hold(a.intent, tick, c.cadence, c.grant, a.controller, 0));
      } else {
        CountersKeep(p, p.(violations := p.violations + 1));
      }
    } else {
      CountersKeep(p, r);
    }
  }

  lemma ReissueKeeps(d: Draining, v: nat, tick: nat, holdLast: nat)
    requires PlaneValid(d.p) && v in d.p.hold
    ensures PlaneValid(Reissue(d, v, tick, holdLast).p)
  {
    hide PlaneValid, Bridged;
    var p, h := d.p, d.p.hold[v];
    HoldChanged(p, p.(hold := p.hold - {v}));
    HoldChanged(p, p.(hold := p.hold[v := h.(seqNo := h.seqNo + 1)]));
    if h.owner in p.ctrls {
      SequencedKeeps(p, h.owner);
    }
  }

  // ---------------------------------------------------------------- keys

  /** An entry's sequence number is one its publisher has used: a controller's, a legacy
      publisher's, or an orphan's, of which each vehicle has one. */
  ghost predicate Issued(p: Plane, done: set<nat>, e: KeyedIntent) {
    if e.controller in p.ctrls then e.seqNo <= p.ctrls[e.controller].seqNo
    else if e.held then e.grant > GRANT_NONE && e.intent.vehicleId in done
    else e.grant == GRANT_NONE && e.controller in p.legacySeqs && e.seqNo <= p.legacySeqs[e.controller]
  }

  ghost predicate AllIssued(p: Plane, done: set<nat>, out: seq<KeyedIntent>) {
    forall i | 0 <= i < |out| :: Issued(p, done, out[i])
  }

  /** A new entry is none of those before it. */
  ghost predicate NewKey(out: seq<KeyedIntent>, e: KeyedIntent) {
    forall i | 0 <= i < |out| :: !SameKey(out[i], e)
  }

  lemma Appended(out: seq<KeyedIntent>, e: KeyedIntent)
    requires DistinctKeys(out) && NewKey(out, e)
    ensures DistinctKeys(out + [e])
  {
  }

  lemma IssuedAppended(p: Plane, done: set<nat>, out: seq<KeyedIntent>, e: KeyedIntent)
    requires AllIssued(p, done, out) && Issued(p, done, e)
    ensures AllIssued(p, done, out + [e])
  {
  }

  lemma IssuedLater(p: Plane, q: Plane, done: set<nat>, more: set<nat>, out: seq<KeyedIntent>)
    requires AllIssued(p, done, out) && done <= more && q.ctrls.Keys == p.ctrls.Keys
    requires forall id | id in p.ctrls :: p.ctrls[id].seqNo <= q.ctrls[id].seqNo
    requires forall id | id in p.legacySeqs :: id in q.legacySeqs && p.legacySeqs[id] <= q.legacySeqs[id]
    ensures AllIssued(q, more, out)
  {
    forall i | 0 <= i < |out| ensures Issued(q, more, out[i]) {
      assert Issued(p, done, out[i]);
    }
  }

  lemma ArriveKeys(d: Draining, a: Arrival, tick: nat)
    requires DistinctKeys(d.out) && AllIssued(d.p, {}, d.out)
    ensures var r := Arrive(d, a, tick); DistinctKeys(r.out) && AllIssued(r.p, {}, r.out)
  {
    hide Owns, AllIssued, DistinctKeys;
    var r := Arrive(d, a, tick);
    if |r.out| > |d.out| {
      var e := r.out[|d.out|];
      assert r.out == d.out + [e];
      ArriveNew(d, a, tick, e);
      Appended(d.out, e);
      IssuedLater(d.p, r.p, {}, {}, d.out);
      IssuedAppended(r.p, {}, d.out, e);
    } else {
      assert r.out == d.out;
      IssuedLater(d.p, r.p, {}, {}, d.out);
    }
  }

  lemma ArriveNew(d: Draining, a: Arrival, tick: nat, e: KeyedIntent)
    requires AllIssued(d.p, {}, d.out) && Arrive(d, a, tick).out == d.out + [e]
    ensures NewKey(d.out, e) && Issued(Arrive(d, a, tick).p, {}, e)
  {
    hide Owns;
    assert (d.out + [e])[|d.out|] == e;
    forall i | 0 <= i < |d.out| ensures !SameKey(d.out[i], e) {
      assert Issued(d.p, {}, d.out[i]);
    }
  }

  /** The grant of a hold is never that of a legacy publisher, and its intent its vehicle's. */
  ghost predicate HoldsOwned(p: Plane) {
    forall v | v in p.hold :: p.hold[v].grant > GRANT_NONE && p.hold[v].intent.vehicleId == v
  }

  lemma ReissueKeys(d: Draining, v: nat, tick: nat, holdLast: nat, done: set<nat>)
    requires HoldsOwned(d.p) && v in d.p.hold && v !in done
    requires DistinctKeys(d.out) && AllIssued(d.p, done, d.out)
    ensures var r := Reissue(d, v, tick, holdLast); DistinctKeys(r.out) && AllIssued(r.p, done + {v}, r.out)
  {
    hide AllIssued, DistinctKeys, Bridged, HoldsOwned;
    var r := Reissue(d, v, tick, holdLast);
    IssuedLater(d.p, r.p, done, done + {v}, d.out);
    if |r.out| > |d.out| {
      var e := r.out[|d.out|];
      assert r.out == d.out + [e];
      ReissueNew(d, v, tick, holdLast, done, e);
      Appended(d.out, e);
      IssuedAppended(r.p, done + {v}, d.out, e);
    } else {
      assert r.out == d.out;
    }
  }

  lemma ReissueNew(d: Draining, v: nat, tick: nat, holdLast: nat, done: set<nat>, e: KeyedIntent)
    requires HoldsOwned(d.p) && v in d.p.hold && v !in done && AllIssued(d.p, done, d.out)
    requires Reissue(d, v, tick, holdLast).out == d.out + [e]
    ensures NewKey(d.out, e) && Issued(Reissue(d, v, tick, holdLast).p, done + {v}, e)
  {
    hide Bridged;
    assert (d.out + [e])[|d.out|] == e;
    forall i | 0 <= i < |d.out| ensures !SameKey(d.out[i], e) {
      assert Issued(d.p, done, d.out[i]);
    }
  }

  lemma {:induction false} ArriveAllKeeps(p: Plane, arrivals: seq<Arrival>, tick: nat)
    requires PlaneValid(p)
    ensures var d := ArriveAll(p, arrivals, tick); PlaneValid(d.p) && DistinctKeys(d.out) && AllIssued(d.p, {}, d.out)
  {
    hide PlaneValid, Arrive;
    if arrivals != [] {
      var n := |arrivals| - 1;
      ArriveAllKeeps(p, arrivals[..n], tick);
      ArriveKeeps(ArriveAll(p, arrivals[..n], tick), arrivals[n], tick);
      ArriveKeys(ArriveAll(p, arrivals[..n], tick), arrivals[n], tick);
    }
  }

  function Taken(vs: seq<nat>, n: nat): set<nat>
    requires n <= |vs|
  {
    if n == 0 then {} else Taken(vs, n - 1) + {vs[n - 1]}
  }

  lemma {:induction false} NotTaken(vs: seq<nat>, n: nat, m: nat)
    requires n <= m < |vs| && forall i, j | 0 <= i < j < |vs| :: vs[i] < vs[j]
    ensures vs[m] !in Taken(vs, n)
  {
    if n > 0 {
      NotTaken(vs, n - 1, m);
    }
  }

  lemma {:induction false} ReissueAllKeeps(d: Draining, vs: seq<nat>, n: nat, tick: nat, holdLast: nat)
    requires n <= |vs| && forall i, j | 0 <= i < j < |vs| :: vs[i] < vs[j]
    requires PlaneValid(d.p) && DistinctKeys(d.out) && AllIssued(d.p, {}, d.out)
    ensures var r := ReissueAll(d, vs, n, tick, holdLast);
      PlaneValid(r.p) && DistinctKeys(r.out) && AllIssued(r.p, Taken(vs, n), r.out)
  {
    hide PlaneValid, Reissue, DistinctKeys, AllIssued;
    if n > 0 {
      ReissueAllKeeps(d, vs, n - 1, tick, holdLast);
      var r, v := ReissueAll(d, vs, n - 1, tick, holdLast), vs[n - 1];
      NotTaken(vs, n - 1, n - 1);
      if v in r.p.hold {
        ReissueKeeps(r, v, tick, holdLast);
        HoldsAreOwned(r.p);
        ReissueKeys(r, v, tick, holdLast, Taken(vs, n - 1));
      } else {
        IssuedLater(r.p, r.p, Taken(vs, n - 1), Taken(vs, n), r.out);
      }
    }
  }

  lemma HoldsAreOwned(p: Plane)
    requires PlaneValid(p)
    ensures HoldsOwned(p)
  {
    forall v | v in p.hold ensures p.hold[v].grant > GRANT_NONE && p.hold[v].intent.vehicleId == v {
      assert HoldOwned(p, v);
    }
  }

  /** What a drain hands to the engine has pairwise distinct arbitration keys, so arbitration
      gives the same log and the same winner per vehicle for any order of the queue. */
  lemma DrainedKeysDistinct(p: Plane, arrivals: seq<Arrival>, tick: nat, holdLast: nat, queue: seq<KeyedIntent>)
    requires PlaneValid(p)
    ensures var d := DrainIntents(p, arrivals, tick, holdLast);
      && PlaneValid(d.p) && DistinctKeys(d.out)
      && (multiset(queue) == multiset(d.out) ==> Arbitrate(SortStable(queue), tick) == Arbitrate(SortStable(d.out), tick))
  {
    hide PlaneValid, ArriveAll, ReissueAll, Arbitrate, SortStable, AllIssued, DistinctKeys;
    ArriveAllKeeps(p, arrivals, tick);
    var d := ArriveAll(p, arrivals, tick);
    var vs := Ascend(d.p.hold.Keys);
    ReissueAllKeeps(d, vs, |vs|, tick, holdLast);
    var out := DrainIntents(p, arrivals, tick, holdLast).out;
    if multiset(queue) == multiset(out) {
      PermutationInvariant(out, queue, tick);
    }
  }

  // ---------------------------------------------------------------- the hold window

  /** Every re-issued entry repeats the last fresh intent of its vehicle, for its owner and on
      the terms of the hold, within the window. */
  ghost predicate HeldInWindow(p: Plane, out: seq<KeyedIntent>, tick: nat, holdLast: nat) {
    forall i | 0 <= i < |out| && out[i].held ::
      var v := out[i].intent.vehicleId;
      && v in p.hold && p.hold[v].intent == out[i].intent && Bridged(p.hold[v], tick, holdLast)
      && p.hold[v].owner == out[i].controller && p.hold[v].grant == out[i].grant
  }

  ghost predicate NoHeld(out: seq<KeyedIntent>) {
    forall i | 0 <= i < |out| :: !out[i].held
  }

  lemma ArriveFresh(d: Draining, a: Arrival, tick: nat)
    requires NoHeld(d.out)
    ensures NoHeld(Arrive(d, a, tick).out)
  {
    hide Owns;
    var r := Arrive(d, a, tick);
    assert |r.out| > |d.out| ==> !r.out[|d.out|].held;
  }

  lemma {:induction false} NoneHeld(p: Plane, arrivals: seq<Arrival>, tick: nat)
    ensures NoHeld(ArriveAll(p, arrivals, tick).out)
  {
    hide Arrive, NoHeld;
    if arrivals != [] {
      NoneHeld(p, arrivals[..|arrivals| - 1], tick);
      ArriveFresh(ArriveAll(p, arrivals[..|arrivals| - 1], tick), arrivals[|arrivals| - 1], tick);
    } else {
      NothingHeld();
    }
  }

  lemma NothingHeld()
    ensures NoHeld([])
  {
  }

  lemma ReissueInWindow(d: Draining, v: nat, tick: nat, holdLast: nat)
    requires HoldsOwned(d.p) && v in d.p.hold && HeldInWindow(d.p, d.out, tick, holdLast)
    requires forall i | 0 <= i < |d.out| && d.out[i].held :: d.out[i].intent.vehicleId != v
    ensures var r := Reissue(d, v, tick, holdLast);
      && HeldInWindow(r.p, r.out, tick, holdLast)
      && forall i | 0 <= i < |r.out| && r.out[i].held ::
           r.out[i].intent.vehicleId == v || exists j :: 0 <= j < |d.out| && d.out[j] == r.out[i]
  {
    var r := Reissue(d, v, tick, holdLast);
    forall i | 0 <= i < |r.out| && r.out[i].held
      ensures var u := r.out[i].intent.vehicleId;
        && u in r.p.hold && r.p.hold[u].intent == r.out[i].intent && Bridged(r.p.hold[u], tick, holdLast)
        && r.p.hold[u].owner == r.out[i].controller && r.p.hold[u].grant == r.out[i].grant
        && (u == v || exists j :: 0 <= j < |d.out| && d.out[j] == r.out[i])
    {
      if i < |d.out| {
        assert r.out[i] == d.out[i];
      }
    }
  }

  lemma {:induction false} ReissuesInWindow(d: Draining, vs: seq<nat>, n: nat, tick: nat, holdLast: nat)
    requires n <= |vs| && forall i, j | 0 <= i < j < |vs| :: vs[i] < vs[j]
    requires PlaneValid(d.p) && DistinctKeys(d.out) && AllIssued(d.p, {}, d.out)
    requires NoHeld(d.out)
    ensures var r := ReissueAll(d, vs, n, tick, holdLast);
      && HeldInWindow(r.p, r.out, tick, holdLast)
      && forall i | 0 <= i < |r.out| && r.out[i].held :: r.out[i].intent.vehicleId in Taken(vs, n)
  {
    hide PlaneValid, Bridged, DistinctKeys, AllIssued, Reissue, HeldInWindow, HoldsOwned;
    if n > 0 {
      ReissuesInWindow(d, vs, n - 1, tick, holdLast);
      ReissueAllKeeps(d, vs, n - 1, tick, holdLast);
      var r, v := ReissueAll(d, vs, n - 1, tick, holdLast), vs[n - 1];
      NotTaken(vs, n - 1, n - 1);
      HoldsAreOwned(r.p);
      if v in r.p.hold {
        ReissueInWindow(r, v, tick, holdLast);
      }
    } else {
      NoneInWindow(d, tick, holdLast);
    }
  }

  lemma NoneInWindow(d: Draining, tick: nat, holdLast: nat)
    requires NoHeld(d.out)
    ensures HeldInWindow(d.p, d.out, tick, holdLast)
  {
  }

  /** No hold is re-issued past its window, in any drain. */
  lemma HoldsInWindow(p: Plane, arrivals: seq<Arrival>, tick: nat, holdLast: nat)
    requires PlaneValid(p)
    ensures var d := DrainIntents(p, arrivals, tick, holdLast); HeldInWindow(d.p, d.out, tick, holdLast)
  {
    hide PlaneValid, ArriveAll, ReissueAll, DistinctKeys, AllIssued, HeldInWindow;
    ArriveAllKeeps(p, arrivals, tick);
    NoneHeld(p, arrivals, tick);
    var d := ArriveAll(p, arrivals, tick);
    var vs := Ascend(d.p.hold.Keys);
    ReissuesInWindow(d, vs, |vs|, tick, holdLast);
  }

  function Count(out: seq<KeyedIntent>, v: nat): nat {
    if out == [] then 0
    else Count(out[..|out| - 1], v) + if out[|out| - 1].intent.vehicleId == v then 1 else 0
  }

  lemma CountAppended(out: seq<KeyedIntent>, e: KeyedIntent, v: nat)
    ensures Count(out + [e], v) == Count(out, v) + if e.intent.vehicleId == v then 1 else 0
  {
    assert (out + [e])[..|out|] == out;
  }

  /** Nothing arrived for the vehicle. */
  ghost predicate Silent(arrivals: seq<Arrival>, v: nat) {
    forall i | 0 <= i < |arrivals| :: arrivals[i].intent.vehicleId != v
  }

  ghost predicate SameHold(a: Plane, b: Plane, v: nat) {
    (v in a.hold <==> v in b.hold) && (v in a.hold ==> b.hold[v] == a.hold[v])
  }

  lemma {:induction false} SilentArrivals(p: Plane, arrivals: seq<Arrival>, tick: nat, v: nat)
    requires Silent(arrivals, v)
    ensures var d := ArriveAll(p, arrivals, tick); SameHold(p, d.p, v) && v !in d.heard && Count(d.out, v) == 0
  {
    hide Owns, Count;
    if arrivals != [] {
      var n := |arrivals| - 1;
      SilentArrivals(p, arrivals[..n], tick, v);
      var d := ArriveAll(p, arrivals[..n], tick);
      var r := Arrive(d, arrivals[n], tick);
      if |r.out| > |d.out| {
        CountAppended(d.out, r.out[|d.out|], v);
        assert r.out == d.out + [r.out[|d.out|]];
      } else {
        assert r.out == d.out;
      }
    } else {
      NoneCounted(v);
    }
  }

  lemma NoneCounted(v: nat)
    ensures Count([], v) == 0
  {
  }

  /** A vehicle's hold after its turn: re-issued once and kept, or over. */
  ghost predicate Turned(p: Plane, r: Draining, v: nat, tick: nat, holdLast: nat) {
    if v in p.hold && Bridged(p.hold[v], tick, holdLast) then
      v in r.p.hold && r.p.hold[v] == p.hold[v].(seqNo := r.p.hold[v].seqNo) && Count(r.out, v) == 1
    else v !in r.p.hold && Count(r.out, v) == 0
  }

  lemma OthersTurn(d: Draining, u: nat, tick: nat, holdLast: nat, v: nat)
    requires HoldsOwned(d.p) && u in d.p.hold && u != v
    ensures var r := Reissue(d, u, tick, holdLast); SameHold(d.p, r.p, v) && Count(r.out, v) == Count(d.out, v) && r.heard == d.heard
  {
    hide Count, Bridged;
    var r := Reissue(d, u, tick, holdLast);
    if |r.out| > |d.out| {
      CountAppended(d.out, r.out[|d.out|], v);
      assert r.out == d.out + [r.out[|d.out|]];
    } else {
      assert r.out == d.out;
    }
  }

  lemma OwnTurn(d: Draining, tick: nat, holdLast: nat, v: nat)
    requires HoldsOwned(d.p) && v in d.p.hold && v !in d.heard && Count(d.out, v) == 0
    ensures Turned(d.p, Reissue(d, v, tick, holdLast), v, tick, holdLast)
  {
    hide Count, Bridged;
    var r := Reissue(d, v, tick, holdLast);
    if |r.out| > |d.out| {
      CountAppended(d.out, r.out[|d.out|], v);
      assert r.out == d.out + [r.out[|d.out|]];
    }
  }

  lemma {:induction false} SilentReissues(d: Draining, vs: seq<nat>, n: nat, tick: nat, holdLast: nat, v: nat)
    requires n <= |vs| && forall i, j | 0 <= i < j < |vs| :: vs[i] < vs[j]
    requires PlaneValid(d.p) && DistinctKeys(d.out) && AllIssued(d.p, {}, d.out)
    requires v !in d.heard && Count(d.out, v) == 0
    ensures var r := ReissueAll(d, vs, n, tick, holdLast);
      && v !in r.heard
      && if v in Taken(vs, n) then Turned(d.p, r, v, tick, holdLast)
         else SameHold(d.p, r.p, v) && Count(r.out, v) == 0
  {
    hide PlaneValid, Reissue, DistinctKeys, AllIssued, Count, Bridged, HoldsOwned;
    if n > 0 {
      SilentReissues(d, vs, n - 1, tick, holdLast, v);
      ReissueAllKeeps(d, vs, n - 1, tick, holdLast);
      var r, u := ReissueAll(d, vs, n - 1, tick, holdLast), vs[n - 1];
      NotTaken(vs, n - 1, n - 1);
      HoldsAreOwned(r.p);
      if u in r.p.hold {
        HeardStays(r, u, tick, holdLast);
        if u == v {
          OwnTurn(r, tick, holdLast, v);
        } else {
          OthersTurn(r, u, tick, holdLast, v);
        }
      }
    }
  }

  lemma HeardStays(d: Draining, v: nat, tick: nat, holdLast: nat)
    requires v in d.p.hold
    ensures Reissue(d, v, tick, holdLast).heard == d.heard
  {
  }

  lemma {:induction false} AllTaken(vs: seq<nat>, n: nat, v: nat)
    requires n <= |vs|
    ensures v in Taken(vs, n) <==> v in vs[..n]
  {
    if n > 0 {
      AllTaken(vs, n - 1, v);
      assert vs[..n] == vs[..n - 1] + [vs[n - 1]];
    }
  }

  /** A drain without an intent for a vehicle re-issues its hold exactly once while the window
      lasts, and ends it then. */
  lemma SilentDrain(p: Plane, arrivals: seq<Arrival>, tick: nat, holdLast: nat, v: nat)
    requires PlaneValid(p) && Silent(arrivals, v)
    ensures var d := DrainIntents(p, arrivals, tick, holdLast); PlaneValid(d.p) && Turned(p, d, v, tick, holdLast)
  {
    hide PlaneValid, ArriveAll, ReissueAll, DistinctKeys, AllIssued, Count, Bridged;
    ArriveAllKeeps(p, arrivals, tick);
    SilentArrivals(p, arrivals, tick, v);
    var d := ArriveAll(p, arrivals, tick);
    var vs := Ascend(d.p.hold.Keys);
    SilentReissues(d, vs, |vs|, tick, holdLast, v);
    ReissueAllKeeps(d, vs, |vs|, tick, holdLast);
    AllTaken(vs, |vs|, v);
    assert vs[..|vs|] == vs;
  }

  /** One tick's drain and the plane it starts from; between drains other vehicles' claims may
      change hands. */
  datatype Boundary = Boundary(p: Plane, arrivals: seq<Arrival>)

  ghost predicate SilentRun(bs: seq<Boundary>, tick: nat, holdLast: nat, v: nat) {
    && (forall i | 0 <= i < |bs| :: PlaneValid(bs[i].p) && Silent(bs[i].arrivals, v))
    && forall i | 0 < i < |bs| :: SameHold(DrainIntents(bs[i - 1].p, bs[i - 1].arrivals, tick + i - 1, holdLast).p, bs[i].p, v)
  }

  function Reissues(bs: seq<Boundary>, tick: nat, holdLast: nat, v: nat): nat {
    if bs == [] then 0
    else
      var n := |bs| - 1;
      Reissues(bs[..n], tick, holdLast, v) + Count(DrainIntents(bs[n].p, bs[n].arrivals, tick + n, holdLast).out, v)
  }

  /** After its last fresh intent a vehicle whose owner stays is bridged for exactly
      (cadence - 1) + holdLast ticks, and never longer. */
  lemma {:induction false} BridgeLastsWindow(bs: seq<Boundary>, tick: nat, holdLast: nat, v: nat, h: Hold)
    requires SilentRun(bs, tick, holdLast, v) && bs != [] && h.cadence > 0
    requires v in bs[0].p.hold && bs[0].p.hold[v] == h && tick == h.lastFresh + 1
    ensures var w := h.cadence - 1 + holdLast; Reissues(bs, tick, holdLast, v) == if |bs| <= w then |bs| else w
    ensures var last := DrainIntents(bs[|bs| - 1].p, bs[|bs| - 1].arrivals, tick + |bs| - 1, holdLast).p;
      && (v in last.hold <==> |bs| <= h.cadence - 1 + holdLast)
      && (v in last.hold ==> last.hold[v] == h.(seqNo := last.hold[v].seqNo))
  {
    hide PlaneValid, DrainIntents, Count, SilentRun;
    var n := |bs| - 1;
    RunAt(bs, tick, holdLast, v, n);
    SilentDrain(bs[n].p, bs[n].arrivals, tick + n, holdLast, v);
    if n > 0 {
      RunPrefix(bs, tick, holdLast, v);
      assert bs[..n][n - 1] == bs[n - 1] && bs[..n][0] == bs[0];
      BridgeLastsWindow(bs[..n], tick, holdLast, v, h);
    } else {
      assert bs[..n] == [];
    }
  }

  lemma RunAt(bs: seq<Boundary>, tick: nat, holdLast: nat, v: nat, n: nat)
    requires SilentRun(bs, tick, holdLast, v) && n < |bs|
    ensures PlaneValid(bs[n].p) && Silent(bs[n].arrivals, v)
    ensures n > 0 ==> SameHold(DrainIntents(bs[n - 1].p, bs[n - 1].arrivals, tick + n - 1, holdLast).p, bs[n].p, v)
  {
    hide PlaneValid, DrainIntents, Silent, SameHold;
  }

  lemma RunPrefix(bs: seq<Boundary>, tick: nat, holdLast: nat, v: nat)
    requires SilentRun(bs, tick, holdLast, v) && bs != []
    ensures SilentRun(bs[..|bs| - 1], tick, holdLast, v)
  {
    hide PlaneValid, DrainIntents, Silent, SameHold;
  }
}
