/** Whose intents a drain lets through, and what it remembers of them: claims bind the engine's
    input. */
module ContractAdmission {
  import opened AscendingIds
  import opened Intents
  import opened Contract
  import opened ContractDrain
  import opened ContractRun

  /** The owner of a vehicle's claim if it may drive, a director, or an unattached publisher
      while the vehicle is unclaimed. */
  predicate MaySteer(p: Plane, id: string, v: nat) {
    || (id in p.ctrls && p.ctrls[id].drive && v in p.byVehicle && p.byVehicle[v] == id)
    || (id in p.ctrls && p.ctrls[id].grant >= 3)
    || (id !in p.ctrls && v !in p.byVehicle)
  }

  /** The arrivals of those who may steer, in order. */
  function Admitted(p: Plane, arrivals: seq<Arrival>): (r: seq<Arrival>)
    ensures |r| <= |arrivals|
    ensures forall i | 0 <= i < |r| :: MaySteer(p, r[i].controller, r[i].intent.vehicleId)
  {
    if arrivals == [] then []
    else
      var n := |arrivals| - 1;
      var a := arrivals[n];
      Admitted(p, arrivals[..n]) + if MaySteer(p, a.controller, a.intent.vehicleId) then [a] else []
  }

  /** An entry as it was published, with its publisher's own grant, or none. */
  ghost predicate Stamped(p: Plane, e: KeyedIntent, a: Arrival) {
    && !e.held && e.controller == a.controller && e.intent == a.intent
    && e.grant == if a.controller in p.ctrls then p.ctrls[a.controller].grant else 0
  }

  ghost predicate AllStamped(p: Plane, out: seq<KeyedIntent>, arrivals: seq<Arrival>) {
    |out| == |arrivals| && forall i | 0 <= i < |out| :: Stamped(p, out[i], arrivals[i])
  }

  /** A drain touches no claim, and of a controller its counter only. */
  ghost predicate SameTerms(p: Plane, q: Plane) {
    && q.byVehicle == p.byVehicle && q.ctrls.Keys == p.ctrls.Keys
    && forall id | id in p.ctrls :: q.ctrls[id] == p.ctrls[id].(seqNo := q.ctrls[id].seqNo)
  }

  lemma SameTermsSteer(p: Plane, q: Plane, id: string, v: nat)
    requires SameTerms(p, q)
    ensures MaySteer(q, id, v) == MaySteer(p, id, v)
  {
  }

  lemma ArriveAdmits(p: Plane, d: Draining, a: Arrival, tick: nat)
    requires SameTerms(p, d.p)
    ensures var r, may := Arrive(d, a, tick), MaySteer(p, a.controller, a.intent.vehicleId);
      && SameTerms(p, r.p)
      && r.p.violations == d.p.violations + (if may then 0 else 1)
      && (if may then |r.out| == |d.out| + 1 && r.out == d.out + [r.out[|d.out|]] && Stamped(p, r.out[|d.out|], a) else r.out == d.out)
  {
    SameTermsSteer(p, d.p, a.controller, a.intent.vehicleId);
  }

  lemma {:induction false} ArrivalsAdmitted(p: Plane, arrivals: seq<Arrival>, tick: nat)
    ensures var d, heard := ArriveAll(p, arrivals, tick), Admitted(p, arrivals);
      && SameTerms(p, d.p) && d.p.violations == p.violations + |arrivals| - |heard| && AllStamped(p, d.out, heard)
  {
    hide Arrive, MaySteer, SameTerms, Stamped;
    if arrivals == [] {
      SameAsItself(p);
    } else {
      var n := |arrivals| - 1;
      ArrivalsAdmitted(p, arrivals[..n], tick);
      ArriveAdmits(p, ArriveAll(p, arrivals[..n], tick), arrivals[n], tick);
    }
  }

  lemma SameAsItself(p: Plane)
    ensures SameTerms(p, p)
  {
  }

  /** Bridging follows the fresh entries, and adds held ones only. */
  ghost predicate Bridges(d: Draining, r: Draining) {
    && r.p.violations == d.p.violations && |d.out| <= |r.out| && r.out[..|d.out|] == d.out
    && forall i | |d.out| <= i < |r.out| :: r.out[i].held
  }

  lemma ReissueBridges(d: Draining, r: Draining, v: nat, tick: nat, holdLast: nat)
    requires Bridges(d, r) && v in r.p.hold
    ensures Bridges(d, Reissue(r, v, tick, holdLast))
  {
    hide Bridged;
  }

  lemma {:induction false} ReissuesBridge(d: Draining, vs: seq<nat>, n: nat, tick: nat, holdLast: nat)
    requires n <= |vs|
    ensures Bridges(d, ReissueAll(d, vs, n, tick, holdLast))
  {
    hide Reissue;
    if n > 0 {
      ReissuesBridge(d, vs, n - 1, tick, holdLast);
      var r := ReissueAll(d, vs, n - 1, tick, holdLast);
      if vs[n - 1] in r.p.hold {
        ReissueBridges(d, r, vs[n - 1], tick, holdLast);
      }
    }
  }

  /** A drain hands over exactly the arrivals of those who may steer the vehicle, in order and
      with their own grants, before any re-issue; every other arrival is counted a violation. */
  lemma DrainAdmits(p: Plane, arrivals: seq<Arrival>, tick: nat, holdLast: nat)
    ensures var d, heard := DrainIntents(p, arrivals, tick, holdLast), Admitted(p, arrivals);
      && |heard| <= |d.out| && AllStamped(p, d.out[..|heard|], heard)
      && (forall i | |heard| <= i < |d.out| :: d.out[i].held)
      && d.p.violations == p.violations + |arrivals| - |heard|
  {
    hide ArriveAll, ReissueAll, Admitted, SameTerms, AllStamped;
    ArrivalsAdmitted(p, arrivals, tick);
    var d := ArriveAll(p, arrivals, tick);
    var vs := Ascend(d.p.hold.Keys);
    AllStampedSize(p, d.out, Admitted(p, arrivals));
    ReissuesBridge(d, vs, |vs|, tick, holdLast);
  }

  lemma AllStampedSize(p: Plane, out: seq<KeyedIntent>, arrivals: seq<Arrival>)
    requires AllStamped(p, out, arrivals)
    ensures |out| == |arrivals|
  {
  }

  /** Claims bind: while a vehicle is claimed, no fresh entry for it comes from anybody but its
      owner, with the drive grant, or a director. */
  lemma ClaimsBind(p: Plane, arrivals: seq<Arrival>, tick: nat, holdLast: nat, i: nat)
    requires i < |DrainIntents(p, arrivals, tick, holdLast).out|
    ensures var e := DrainIntents(p, arrivals, tick, holdLast).out[i];
      !e.held && e.intent.vehicleId in p.byVehicle
      ==> e.controller in p.ctrls
          && (p.ctrls[e.controller].grant >= 3 || (p.ctrls[e.controller].drive && p.byVehicle[e.intent.vehicleId] == e.controller))
  {
    hide DrainIntents, Admitted;
    DrainAdmits(p, arrivals, tick, holdLast);
    var out, heard := DrainIntents(p, arrivals, tick, holdLast).out, Admitted(p, arrivals);
    if i < |heard| {
      assert out[..|heard|][i] == out[i] && Stamped(p, out[i], heard[i]);
    }
  }

  // ---------------------------------------------------------------- sequence numbers

  /** Entries a publisher's counter numbers: all of an attached one, the fresh ones of any other. */
  predicate Numbers(p: Plane, e: KeyedIntent, id: string) {
    e.controller == id && (id in p.ctrls || !e.held)
  }

  function Entries(p: Plane, out: seq<KeyedIntent>, id: string): nat {
    if out == [] then 0 else Entries(p, out[..|out| - 1], id) + if Numbers(p, out[|out| - 1], id) then 1 else 0
  }

  function Counter(p: Plane, id: string): nat {
    if id in p.ctrls then p.ctrls[id].seqNo else if id in p.legacySeqs then p.legacySeqs[id] else 0
  }

  /** Each entry of a publisher carries the number after that of the one before, the first the
      number after the last of earlier ticks; the counter stands at the last. */
  ghost predicate Numbered(p: Plane, d: Draining, id: string) {
    && d.p.ctrls.Keys == p.ctrls.Keys && Counter(d.p, id) == Counter(p, id) + Entries(p, d.out, id)
    && forall i | 0 <= i < |d.out| && Numbers(p, d.out[i], id) :: d.out[i].seqNo == Counter(p, id) + Entries(p, d.out[..i + 1], id)
  }

  /** An entry of somebody else changes nothing, an own one takes the next number. */
  lemma NumberedNext(p: Plane, d: Draining, r: Draining, e: KeyedIntent, id: string)
    requires Numbered(p, d, id) && r.p.ctrls.Keys == p.ctrls.Keys && r.out == d.out + [e]
    requires if Numbers(p, e, id) then e.seqNo == Counter(r.p, id) == Counter(d.p, id) + 1 else Counter(r.p, id) == Counter(d.p, id)
    ensures Numbered(p, r, id)
  {
    hide Numbers, Counter, Entries;
    EntriesNext(p, d.out, e, id);
    var n := |d.out|;
    assert r.out[..n + 1] == r.out && r.out[n] == e;
    forall i | 0 <= i < n && Numbers(p, d.out[i], id)
      ensures r.out[i].seqNo == Counter(p, id) + Entries(p, r.out[..i + 1], id)
    {
      assert r.out[..i + 1] == d.out[..i + 1];
    }
  }

  lemma EntriesNext(p: Plane, out: seq<KeyedIntent>, e: KeyedIntent, id: string)
    ensures Entries(p, out + [e], id) == Entries(p, out, id) + if Numbers(p, e, id) then 1 else 0
  {
    hide Numbers;
    assert (out + [e])[..|out|] == out;
  }

  lemma ArriveNumbers(p: Plane, d: Draining, a: Arrival, tick: nat, id: string)
    requires Numbered(p, d, id)
    ensures Numbered(p, Arrive(d, a, tick), id)
  {
    hide Entries;
    var r := Arrive(d, a, tick);
    if |r.out| > |d.out| {
      NumberedNext(p, d, r, r.out[|d.out|], id);
    }
  }

  lemma ReissueNumbers(p: Plane, d: Draining, v: nat, tick: nat, holdLast: nat, id: string)
    requires Numbered(p, d, id) && v in d.p.hold
    ensures Numbered(p, Reissue(d, v, tick, holdLast), id)
  {
    hide Entries, Bridged;
    var r := Reissue(d, v, tick, holdLast);
    if |r.out| > |d.out| {
      NumberedNext(p, d, r, r.out[|d.out|], id);
    }
  }

  lemma {:induction false} ArrivalsNumbered(p: Plane, arrivals: seq<Arrival>, tick: nat, id: string)
    ensures Numbered(p, ArriveAll(p, arrivals, tick), id)
  {
    hide Arrive, Numbered;
    if arrivals == [] {
      NothingNumbered(p, id);
    } else {
      ArrivalsNumbered(p, arrivals[..|arrivals| - 1], tick, id);
      ArriveNumbers(p, ArriveAll(p, arrivals[..|arrivals| - 1], tick), arrivals[|arrivals| - 1], tick, id);
    }
  }

  lemma NothingNumbered(p: Plane, id: string)
    ensures Numbered(p, Draining(p, [], {}), id)
  {
  }

  lemma {:induction false} ReissuesNumbered(p: Plane, d: Draining, vs: seq<nat>, n: nat, tick: nat, holdLast: nat, id: string)
    requires n <= |vs| && Numbered(p, d, id)
    ensures Numbered(p, ReissueAll(d, vs, n, tick, holdLast), id)
  {
    hide Reissue, Numbered;
    if n > 0 {
      ReissuesNumbered(p, d, vs, n - 1, tick, holdLast, id);
      var r := ReissueAll(d, vs, n - 1, tick, holdLast);
      if vs[n - 1] in r.p.hold {
        ReissueNumbers(p, r, vs[n - 1], tick, holdLast, id);
      }
    }
  }

  /** A drain numbers every publisher's entries one after the other, without gap or repetition,
      held ones among an attached controller's own. */
  lemma DrainNumbers(p: Plane, arrivals: seq<Arrival>, tick: nat, holdLast: nat, id: string)
    ensures Numbered(p, DrainIntents(p, arrivals, tick, holdLast), id)
  {
    hide ArriveAll, ReissueAll, Numbered;
    ArrivalsNumbered(p, arrivals, tick, id);
    var d := ArriveAll(p, arrivals, tick);
    var vs := Ascend(d.p.hold.Keys);
    ReissuesNumbered(p, d, vs, |vs|, tick, holdLast, id);
  }

  // ---------------------------------------------------------------- what is remembered

  /** The last of the owner's intents for a vehicle. */
  ghost predicate LastWord(p: Plane, arrivals: seq<Arrival>, v: nat, k: nat) {
    && v in p.byVehicle && k < |arrivals| && arrivals[k].controller == p.byVehicle[v] && arrivals[k].intent.vehicleId == v
    && forall j | k < j < |arrivals| :: arrivals[j].controller != p.byVehicle[v] || arrivals[j].intent.vehicleId != v
  }

  lemma OthersLeaveHold(p: Plane, d: Draining, a: Arrival, tick: nat, v: nat)
    requires SameTerms(p, d.p) && v in p.byVehicle && (a.controller != p.byVehicle[v] || a.intent.vehicleId != v)
    ensures var r := Arrive(d, a, tick); (v in r.heard <==> v in d.heard) && SameHold(d.p, r.p, v)
  {
  }

  lemma {:induction false} LastWordHeld(p: Plane, arrivals: seq<Arrival>, tick: nat, v: nat, k: nat)
    requires LastWord(p, arrivals, v, k) && p.byVehicle[v] in p.ctrls && p.ctrls[p.byVehicle[v]].drive
    ensures var d, c := ArriveAll(p, arrivals, tick), p.ctrls[p.byVehicle[v]];
      v in d.heard && v in d.p.hold && d.p.hold[v] == Hold(arrivals[k].intent, tick, c.cadence, c.grant, p.byVehicle[v], 0)
  {
    hide SameTerms, AllStamped;
    var n := |arrivals| - 1;
    ArrivalsAdmitted(p, arrivals[..n], tick);
    var d := ArriveAll(p, arrivals[..n], tick);
    if k < n {
      assert forall j | k < j < n :: arrivals[..n][j] == arrivals[j];
      LastWordHeld(p, arrivals[..n], tick, v, k);
      OthersLeaveHold(p, d, arrivals[n], tick, v);
    } else {
      OwnerHeard(p, d, arrivals[n], tick);
    }
  }

  lemma OwnerHeard(p: Plane, d: Draining, a: Arrival, tick: nat)
    requires SameTerms(p, d.p) && a.intent.vehicleId in p.byVehicle && p.byVehicle[a.intent.vehicleId] == a.controller
    requires a.controller in p.ctrls && p.ctrls[a.controller].drive
    ensures var r, c, v := Arrive(d, a, tick), p.ctrls[a.controller], a.intent.vehicleId;
      v in r.heard && v in r.p.hold && r.p.hold[v] == Hold(a.intent, tick, c.cadence, c.grant, a.controller, 0)
  {
  }

  lemma {:induction false} HeardKept(d: Draining, vs: seq<nat>, n: nat, tick: nat, holdLast: nat, v: nat)
    requires n <= |vs| && v in d.heard
    ensures var r := ReissueAll(d, vs, n, tick, holdLast); r.heard == d.heard && SameHold(d.p, r.p, v)
  {
    hide Bridged;
    if n > 0 {
      HeardKept(d, vs, n - 1, tick, holdLast, v);
    }
  }

  /** After a drain the hold of a vehicle its owner has just steered is the owner's last word,
      fresh as of this tick, on the owner's terms. */
  lemma DrainRemembers(p: Plane, arrivals: seq<Arrival>, tick: nat, holdLast: nat, v: nat, k: nat)
    requires LastWord(p, arrivals, v, k) && p.byVehicle[v] in p.ctrls && p.ctrls[p.byVehicle[v]].drive
    ensures var d, c := DrainIntents(p, arrivals, tick, holdLast), p.ctrls[p.byVehicle[v]];
      v in d.p.hold && d.p.hold[v] == Hold(arrivals[k].intent, tick, c.cadence, c.grant, p.byVehicle[v], 0)
  {
    hide ArriveAll, ReissueAll, LastWord;
    LastWordHeld(p, arrivals, tick, v, k);
    var d := ArriveAll(p, arrivals, tick);
    var vs := Ascend(d.p.hold.Keys);
    HeardKept(d, vs, |vs|, tick, holdLast, v);
  }

  // ---------------------------------------------------------------- through changing hands

  /** The bridge of a vehicle goes on: same intent, same age. */
  ghost predicate GoesOn(p: Plane, r: Plane) {
    r.hold.Keys == p.hold.Keys && forall v | v in p.hold :: r.hold[v].intent == p.hold[v].intent && r.hold[v].lastFresh == p.hold[v].lastFresh
  }

  lemma {:induction false} ClaimsGoOn(p: Plane, id: string, live: set<nat>, vids: seq<nat>)
    requires id in p.ctrls
    ensures GoesOn(p, ClaimAll(p, id, live, vids))
  {
    if vids != [] {
      ClaimsGoOn(p, id, live, vids[..|vids| - 1]);
    }
  }

  lemma {:induction false} ReleasesGoOn(p: Plane, id: string, vids: seq<nat>)
    requires id in p.ctrls
    ensures GoesOn(p, ReleaseAll(p, id, vids))
  {
    if vids != [] {
      ReleasesGoOn(p, id, vids[..|vids| - 1]);
    }
  }

  lemma DetachGoesOn(p: Plane, id: string)
    ensures GoesOn(p, Detach(p, id))
  {
    hide ReleaseAll;
    if id in p.ctrls {
      ReleasesGoOn(p, id, Ascend(p.ctrls[id].claims));
    }
  }

  lemma GoOnTwice(p: Plane, q: Plane, r: Plane)
    requires GoesOn(p, q) && GoesOn(q, r)
    ensures GoesOn(p, r)
  {
  }

  /** No claim, release, hello or detach starts, ends or renews a bridge: a vehicle that
      changes hands is bridged on, by its last intent and no longer than it would have been. */
  lemma HandsOverBridge(p: Plane, e: Event, holdLast: nat)
    requires !e.Drains? && !e.Sweeps?
    ensures GoesOn(p, Apply(p, e, holdLast))
  {
    hide ClaimAll, ReleaseAll, Detach, GoesOn, ControllerId;
    Unmoved(p, p);
    match e
    case Hellos(req, live) =>
      var id := ControllerId(p.nextId + 1);
      var c := Controller(req.drive, req.grant, if req.cadence == 0 then 1 else req.cadence, {}, 0);
      var q := p.(nextId := p.nextId + 1, ctrls := p.ctrls[id := c]);
      Unmoved(p, q);
      ClaimsGoOn(q, id, live, req.claims);
      GoOnTwice(p, q, ClaimAll(q, id, live, req.claims));
    case Claims(id, live, vids) =>
      if id in p.ctrls {
        ClaimsGoOn(p, id, live, vids);
      }
    case Releases(id, vids, detach) =>
      if id in p.ctrls {
        ReleasesGoOn(p, id, vids);
        DetachGoesOn(ReleaseAll(p, id, vids), id);
        GoOnTwice(p, ReleaseAll(p, id, vids), Detach(ReleaseAll(p, id, vids), id));
      }
    case Silences(id) => DetachGoesOn(p, id);
  }

  lemma Unmoved(p: Plane, q: Plane)
    requires q.hold == p.hold
    ensures GoesOn(p, q)
  {
  }

  /** A release or detach frees exactly what was asked for of the controller's own, and leaves
      every other claim with its owner. */
  lemma ReleasesOwnOnly(p: Plane, id: string, vids: seq<nat>, detach: bool, v: nat)
    requires PlaneValid(p) && id in p.ctrls
    ensures var r := HandleRelease(p, id, vids, detach);
      && (v in r.byVehicle <==> v in p.byVehicle && !(p.byVehicle[v] == id && (detach || v in vids)))
      && (v in r.byVehicle ==> r.byVehicle[v] == p.byVehicle[v])
      && (v in r.hold && v !in r.byVehicle ==> r.hold[v].owner == "")
      && (id in r.ctrls <==> !detach)
  {
    hide PlaneValid, ReleaseAll;
    ReleaseAllKeeps(p, id, vids);
    var q := ReleaseAll(p, id, vids);
    if detach {
      var mine := Ascend(q.ctrls[id].claims);
      ReleaseAllKeeps(q, id, mine);
      ClaimListed(q, id, v);
      DetachKeeps(q, id);
      Orphaned(Detach(q, id), v);
    } else {
      Orphaned(q, v);
    }
  }

  lemma Orphaned(p: Plane, v: nat)
    requires PlaneValid(p)
    ensures v in p.hold && v !in p.byVehicle ==> p.hold[v].owner == ""
  {
    assert v in p.hold ==> HoldOwned(p, v);
  }

  /** A claim request gets the vehicles that are live and nobody's, and no others. */
  lemma ClaimsWhatIsFree(p: Plane, id: string, live: set<nat>, vids: seq<nat>, v: nat)
    requires PlaneValid(p)
    ensures var r := HandleClaim(p, id, live, vids);
      if v in p.byVehicle then v in r.byVehicle && r.byVehicle[v] == p.byVehicle[v]
      else (v in r.byVehicle <==> id in p.ctrls && p.ctrls[id].drive && v in live && v in vids) && (v in r.byVehicle ==> r.byVehicle[v] == id)
  {
    hide PlaneValid, ClaimAll;
    if id in p.ctrls {
      ClaimedBy(p, id, live, vids);
    }
  }

  /** A hello attaches a new controller on the terms it asked for: the drive grant or not, its
      rank, and its cadence, a request for none meaning every tick. */
  lemma HelloTerms(p: Plane, req: HelloRequest, live: set<nat>, holdLast: nat)
    requires PlaneValid(p) && req.grant > 0
    ensures var r, id := Apply(p, Hellos(req, live), holdLast), ControllerId(p.nextId + 1);
      && id !in p.ctrls && r.ctrls.Keys == p.ctrls.Keys + {id} && r.nextId == p.nextId + 1
      && r.ctrls[id].drive == req.drive && r.ctrls[id].grant == req.grant && r.ctrls[id].seqNo == 0
      && r.ctrls[id].cadence == if req.cadence >= 1 then req.cadence else 1
  {
    hide ControllerId, ClaimAll, PlaneValid;
    NewId(p);
    var id := ControllerId(p.nextId + 1);
    var c := Controller(req.drive, req.grant, if req.cadence == 0 then 1 else req.cadence, {}, 0);
    ClaimsKeepTerms(p.(nextId := p.nextId + 1, ctrls := p.ctrls[id := c]), id, live, req.claims);
  }

  lemma {:induction false} ClaimsKeepTerms(p: Plane, id: string, live: set<nat>, vids: seq<nat>)
    requires id in p.ctrls
    ensures var r := ClaimAll(p, id, live, vids);
      r.ctrls[id] == p.ctrls[id].(claims := r.ctrls[id].claims) && r.nextId == p.nextId
  {
    if vids != [] {
      ClaimsKeepTerms(p, id, live, vids[..|vids| - 1]);
    }
  }
}
