/** Whole runs of the contract, and the registry as it is mutated in place. */
module ContractRun {
  import opened AscendingIds
  import opened Intents
  import opened Contract
  import opened ContractDrain

  /** What the wire and the run loop do to the registry. */
  datatype Event =
    | Hellos(req: HelloRequest, live: set<nat>)
    | Claims(id: string, live: set<nat>, vids: seq<nat>)
    | Releases(id: string, vids: seq<nat>, detach: bool)
    | Silences(id: string)
    | Drains(arrivals: seq<Arrival>, tick: nat)
    | Sweeps(live: set<nat>)

  /** The claimed vehicles that are no longer live. */
  function Dead(p: Plane, live: set<nat>): seq<nat> {
    Ascend(p.byVehicle.Keys - live)
  }

  /** A hello without grants is turned away. */
  function Apply(p: Plane, e: Event, holdLast: nat): Plane {
    match e
    case Hellos(req, live) => if req.grant == GRANT_NONE then p else Hello(p, req, live)
    case Claims(id, live, vids) => HandleClaim(p, id, live, vids)
    case Releases(id, vids, detach) => HandleRelease(p, id, vids, detach)
    case Silences(id) => Detach(p, id)
    case Drains(arrivals, tick) => DrainIntents(p, arrivals, tick, holdLast).p
    case Sweeps(live) => Sweep(p, Dead(p, live))
  }

  function Run(p: Plane, es: seq<Event>, holdLast: nat): Plane {
    if es == [] then p else Apply(Run(p, es[..|es| - 1], holdLast), es[|es| - 1], holdLast)
  }

  lemma ApplyKeeps(p: Plane, e: Event, holdLast: nat)
    requires PlaneValid(p)
    ensures PlaneValid(Apply(p, e, holdLast))
  {
    hide PlaneValid, Hello, ClaimAll, ReleaseAll, Detach, DrainIntents, Sweep;
    match e
    case Hellos(req, live) =>
      if req.grant > GRANT_NONE {
        HelloKeeps(p, req, live);
      }
    case Claims(id, live, vids) =>
      if id in p.ctrls {
        ClaimAllKeeps(p, id, live, vids);
      }
    case Releases(id, vids, detach) =>
      if id in p.ctrls {
        ReleaseAllKeeps(p, id, vids);
        DetachKeeps(ReleaseAll(p, id, vids), id);
      }
    case Silences(id) => DetachKeeps(p, id);
    case Drains(arrivals, tick) => DrainedKeysDistinct(p, arrivals, tick, holdLast, []);
    case Sweeps(live) => SweepKeeps(p, Dead(p, live));
  }

  /** In every run the claims of the controllers and the owners of the vehicles are inverse,
      every owner is attached, and every hold is its owner's or an orphan's. */
  lemma {:induction false} RunKeepsClaims(es: seq<Event>, holdLast: nat)
    ensures PlaneValid(Run(EMPTY, es, holdLast))
  {
    hide PlaneValid, Apply;
    if es == [] {
      EmptyValid();
    } else {
      RunKeepsClaims(es[..|es| - 1], holdLast);
      ApplyKeeps(Run(EMPTY, es[..|es| - 1], holdLast), es[|es| - 1], holdLast);
    }
  }

  lemma EmptyValid()
    ensures PlaneValid(EMPTY)
  {
  }

  /** So a vehicle is never claimed by two controllers at once. */
  lemma ClaimsExclusive(es: seq<Event>, holdLast: nat, a: string, b: string, v: nat)
    requires a in Run(EMPTY, es, holdLast).ctrls && b in Run(EMPTY, es, holdLast).ctrls
    requires v in Run(EMPTY, es, holdLast).ctrls[a].claims && v in Run(EMPTY, es, holdLast).ctrls[b].claims
    ensures a == b
  {
    hide Run, ControllersSound;
    RunKeepsClaims(es, holdLast);
    var p := Run(EMPTY, es, holdLast);
    assert p.byVehicle[v] == a;
  }

  /** A sweep leaves claimed exactly the claimed vehicles that are live. */
  lemma SweepLeavesLive(p: Plane, live: set<nat>, v: nat)
    requires PlaneValid(p)
    ensures v in Sweep(p, Dead(p, live)).byVehicle <==> v in p.byVehicle && v in live
  {
    var gone := p.byVehicle.Keys - live;
    assert v in gone <==> v in p.byVehicle && v !in live;
    assert v in Ascend(gone) <==> v in gone;
    assert Dead(p, live) == Ascend(gone);
    SweptGone(p, Dead(p, live));
    assert v in Sweep(p, Dead(p, live)).byVehicle <==> v in p.byVehicle && v !in Dead(p, live);
  }

  lemma {:induction false} SweptGone(p: Plane, dead: seq<nat>)
    requires PlaneValid(p)
    ensures forall v :: v in Sweep(p, dead).byVehicle <==> v in p.byVehicle && v !in dead
  {
    if dead != [] {
      var n := |dead| - 1;
      SweptGone(p, dead[..n]);
      SweepKeeps(p, dead[..n]);
      assert dead == dead[..n] + [dead[n]];
    }
  }

  // ---------------------------------------------------------------- owners and the drive grant

  /** Every claimed vehicle's owner may drive it. */
  ghost predicate OwnersDrive(p: Plane) {
    forall v | v in p.byVehicle :: p.byVehicle[v] in p.ctrls && p.ctrls[p.byVehicle[v]].drive
  }

  predicate Unclaimed(p: Plane, live: set<nat>, v: nat) {
    v in live && v !in p.byVehicle
  }

  lemma {:induction false} ClaimedBy(p: Plane, id: string, live: set<nat>, vids: seq<nat>)
    requires id in p.ctrls
    ensures var r := ClaimAll(p, id, live, vids);
      && (forall x | x in p.ctrls :: r.ctrls[x].drive == p.ctrls[x].drive)
      && (forall v | v in p.byVehicle :: v in r.byVehicle && r.byVehicle[v] == p.byVehicle[v])
      && forall v | v !in p.byVehicle :: (v in r.byVehicle <==> v in vids && v in live) && (v in r.byVehicle ==> r.byVehicle[v] == id)
  {
    if vids != [] {
      var n := |vids| - 1;
      ClaimedBy(p, id, live, vids[..n]);
      assert vids == vids[..n] + [vids[n]];
    }
  }

  /** The claims a hello asks for are granted whether or not it holds the drive grant, unlike
      those of a claim request: owners stay drivers exactly when a hello without the grant
      names no vehicle that is live and unclaimed. */
  lemma HelloOwnersDrive(p: Plane, req: HelloRequest, live: set<nat>)
    requires PlaneValid(p) && OwnersDrive(p)
    ensures OwnersDrive(Hello(p, req, live)) <==> req.drive || forall i | 0 <= i < |req.claims| :: !Unclaimed(p, live, req.claims[i])
  {
    hide ControllerId, ClaimAll, PlaneValid, Unclaimed;
    var id := ControllerId(p.nextId + 1);
    NewId(p);
    var c := Controller(req.drive, req.grant, if req.cadence == 0 then 1 else req.cadence, {}, 0);
    var q := p.(nextId := p.nextId + 1, ctrls := p.ctrls[id := c]);
    ClaimedBy(q, id, live, req.claims);
    OwnersAfter(p, q, ClaimAll(q, id, live, req.claims), id, live, req.claims);
  }

  lemma OwnersAfter(p: Plane, q: Plane, r: Plane, id: string, live: set<nat>, vids: seq<nat>)
    requires OwnersDrive(p) && q.byVehicle == p.byVehicle && id in q.ctrls && q.ctrls.Keys == p.ctrls.Keys + {id}
    requires forall x | x in p.ctrls && x != id :: q.ctrls[x] == p.ctrls[x]
    requires forall v | v in p.byVehicle :: p.byVehicle[v] != id
    requires r.ctrls.Keys == q.ctrls.Keys && forall x | x in q.ctrls :: r.ctrls[x].drive == q.ctrls[x].drive
    requires forall v | v in q.byVehicle :: v in r.byVehicle && r.byVehicle[v] == q.byVehicle[v]
    requires forall v | v !in q.byVehicle :: (v in r.byVehicle <==> v in vids && v in live) && (v in r.byVehicle ==> r.byVehicle[v] == id)
    ensures OwnersDrive(r) <==> q.ctrls[id].drive || forall i | 0 <= i < |vids| :: !Unclaimed(p, live, vids[i])
  {
    forall v | v in vids && v in live && v !in p.byVehicle ensures exists i :: 0 <= i < |vids| && Unclaimed(p, live, vids[i]) {
      var i :| 0 <= i < |vids| && vids[i] == v;
      assert Unclaimed(p, live, vids[i]);
    }
    if i :| 0 <= i < |vids| && Unclaimed(p, live, vids[i]) {
      assert vids[i] in vids && r.byVehicle[vids[i]] == id;
    }
  }

  /** A signal controller that names a vehicle in its hello owns it, and its own intents for it
      are then refused. */
  lemma ExampleClaimWithoutDrive(i: Intent)
    requires i.vehicleId == 7
    ensures var p := Hello(EMPTY, HelloRequest(false, 2, 0, [7]), {7});
      && 7 in p.byVehicle && p.byVehicle[7] == ControllerId(1)
      && ArriveAll(p, [Arrival(ControllerId(1), i)], 0).out == []
  {
    hide ControllerId;
    var id := ControllerId(1);
    var p := Hello(EMPTY, HelloRequest(false, 2, 0, [7]), {7});
    var q := EMPTY.(nextId := 1, ctrls := map[id := Controller(false, 2, 1, {}, 0)]);
    assert [7][..0] == [];
    assert ClaimAll(q, id, {7}, []) == q;
    assert p == TryClaim(q, id, {7}, 7);
    var one := [Arrival(id, i)];
    assert one[..0] == [];
    assert ArriveAll(p, [], 0) == Draining(p, [], {});
  }

  // ---------------------------------------------------------------- in place

  class Registry {
    var ctrls: map<string, Controller>
    var byVehicle: map<nat, string>
    var hold: map<nat, Hold>
    var legacySeqs: map<string, nat>
    var nextId: nat
    var violations: nat

    ghost function State(): Plane
      reads this
    {
      Plane(ctrls, byVehicle, hold, legacySeqs, nextId, violations)
    }

    constructor ()
      ensures State() == EMPTY
    {
      ctrls, byVehicle, hold, legacySeqs, nextId, violations := map[], map[], map[], map[], 0, 0;
    }

    method ClaimOne(id: string, live: set<nat>, v: nat) returns (granted: bool)
      requires id in ctrls
      modifies this
      ensures State() == TryClaim(old(State()), id, live, v) && granted == Claimable(old(State()), id, live, v)
    {
      if (v in byVehicle && byVehicle[v] != id) || v !in live {
        return false;
      }
      if v !in byVehicle {
        var c := ctrls[id];
        byVehicle := byVehicle[v := id];
        ctrls := ctrls[id := c.(claims := c.claims + {v})];
        if v in hold {
          hold := hold[v := hold[v].(owner := id, cadence := c.cadence, grant := c.grant, seqNo := 0)];
        }
      }
      return true;
    }

    method ClaimEach(id: string, live: set<nat>, vids: seq<nat>)
      requires id in ctrls
      modifies this
      ensures State() == ClaimAll(old(State()), id, live, vids)
    {
      for i := 0 to |vids|
        invariant id in ctrls && State() == ClaimAll(old(State()), id, live, vids[..i])
      {
        assert vids[..i + 1][..i] == vids[..i];
        var granted := ClaimOne(id, live, vids[i]);
      }
      assert vids[..|vids|] == vids;
    }

    method AnswerHello(req: HelloRequest, live: set<nat>)
      modifies this
      ensures State() == Apply(old(State()), Hellos(req, live), 0)
    {
      if req.grant == GRANT_NONE {
        return;
      }
      nextId := nextId + 1;
      var id := ControllerId(nextId);
      ctrls := ctrls[id := Controller(req.drive, req.grant, if req.cadence == 0 then 1 else req.cadence, {}, 0)];
      ClaimEach(id, live, req.claims);
    }

    method AnswerClaim(id: string, live: set<nat>, vids: seq<nat>)
      modifies this
      ensures State() == HandleClaim(old(State()), id, live, vids)
    {
      if id in ctrls && ctrls[id].drive {
        ClaimEach(id, live, vids);
      }
    }

    method Release(id: string, v: nat)
      requires id in ctrls
      modifies this
      ensures State() == ReleaseOne(old(State()), id, v)
    {
      byVehicle := byVehicle - {v};
      ctrls := ctrls[id := ctrls[id].(claims := ctrls[id].claims - {v})];
      if v in hold {
        hold := hold[v := hold[v].(owner := "")];
      }
    }

    method ReleaseEach(id: string, vids: seq<nat>)
      requires id in ctrls
      modifies this
      ensures State() == ReleaseAll(old(State()), id, vids)
    {
      for i := 0 to |vids|
        invariant id in ctrls && State() == ReleaseAll(old(State()), id, vids[..i])
      {
        assert vids[..i + 1][..i] == vids[..i];
        if vids[i] in byVehicle && byVehicle[vids[i]] == id {
          Release(id, vids[i]);
        }
      }
      assert vids[..|vids|] == vids;
    }

    method DetachController(id: string)
      modifies this
      ensures State() == Detach(old(State()), id)
    {
      if id in ctrls {
        ReleaseEach(id, Ascend(ctrls[id].claims));
        ctrls := ctrls - {id};
      }
    }

    method AnswerRelease(id: string, vids: seq<nat>, detach: bool)
      modifies this
      ensures State() == HandleRelease(old(State()), id, vids, detach)
    {
      if id !in ctrls {
        return;
      }
      ReleaseEach(id, vids);
      if detach {
        DetachController(id);
      }
    }

    /** One fresh intent off the wire. */
    method Take(a: Arrival, tick: nat, out0: seq<KeyedIntent>, heard0: set<nat>) returns (out: seq<KeyedIntent>, heard: set<nat>)
      modifies this
      ensures Draining(State(), out, heard) == Arrive(Draining(old(State()), out0, heard0), a, tick)
    {
      out, heard := out0, heard0;
      var id, v := a.controller, a.intent.vehicleId;
      if id !in ctrls {
        if v in byVehicle {
          violations := violations + 1;
          return;
        }
        var n := if id in legacySeqs then legacySeqs[id] + 1 else 1;
        legacySeqs := legacySeqs[id := n];
        out := out + [KeyedIntent(id, n, GRANT_NONE, false, a.intent)];
        return;
      }
      var c := ctrls[id];
      var owns := c.drive && v in byVehicle && byVehicle[v] == id;
      if !owns && c.grant < GRANT_DIRECTOR {
        violations := violations + 1;
        return;
      }
      ctrls := ctrls[id := c.(seqNo := c.seqNo + 1)];
      out := out + [KeyedIntent(id, c.seqNo + 1, c.grant, false, a.intent)];
      if owns {
        heard := heard + {v};
        hold := hold[v := Hold(a.intent, tick, c.cadence, c.grant, id, 0)];
      }
    }

    /** One held vehicle: re-issued, or its hold ended. */
    method Bridge(v: nat, tick: nat, holdLast: nat, out0: seq<KeyedIntent>, heard: set<nat>) returns (out: seq<KeyedIntent>)
      requires v in hold
      modifies this
      ensures Draining(State(), out, heard) == Reissue(Draining(old(State()), out0, heard), v, tick, holdLast)
    {
      out := out0;
      if v in heard {
        return;
      }
      var h := hold[v];
      var window := h.cadence - 1 + holdLast;
      if tick <= h.lastFresh || tick - h.lastFresh > window {
        hold := hold - {v};
        return;
      }
      var n: nat;
      if h.owner in ctrls {
        n := ctrls[h.owner].seqNo + 1;
        ctrls := ctrls[h.owner := ctrls[h.owner].(seqNo := n)];
      } else {
        n := h.seqNo + 1;
        hold := hold[v := h.(seqNo := n)];
      }
      out := out + [KeyedIntent(h.owner, n, h.grant, true, h.intent)];
    }

    /** The keyed intents of the next tick boundary. */
    method Drain(arrivals: seq<Arrival>, tick: nat, holdLast: nat) returns (out: seq<KeyedIntent>)
      modifies this
      ensures var d := DrainIntents(old(State()), arrivals, tick, holdLast); State() == d.p && out == d.out
    {
      var heard: set<nat>;
      out, heard := [], {};
      for i := 0 to |arrivals|
        invariant Draining(State(), out, heard) == ArriveAll(old(State()), arrivals[..i], tick)
      {
        assert arrivals[..i + 1][..i] == arrivals[..i];
        out, heard := Take(arrivals[i], tick, out, heard);
      }
      assert arrivals[..|arrivals|] == arrivals;
      var vs := Ascend(hold.Keys);
      ghost var d := ArriveAll(old(State()), arrivals, tick);
      for i := 0 to |vs|
        invariant Draining(State(), out, heard) == ReissueAll(d, vs, i, tick, holdLast)
      {
        if vs[i] in hold {
          out := Bridge(vs[i], tick, holdLast, out, heard);
        }
      }
    }

    method Forget(v: nat)
      requires v in byVehicle && byVehicle[v] in ctrls
      modifies this
      ensures State() == SweepOne(old(State()), v)
    {
      var id := byVehicle[v];
      byVehicle := byVehicle - {v};
      ctrls := ctrls[id := ctrls[id].(claims := ctrls[id].claims - {v})];
      hold := hold - {v};
    }

    /** After a step: vehicles that left the world leave the registry. */
    method SweepDead(live: set<nat>)
      modifies this
      ensures State() == Sweep(old(State()), Dead(old(State()), live))
    {
      hide SweepOne, Ascend;
      var dead := Ascend(byVehicle.Keys - live);
      for i := 0 to |dead|
        invariant State() == Sweep(old(State()), dead[..i])
      {
        assert dead[..i + 1][..i] == dead[..i];
        if dead[i] in byVehicle && byVehicle[dead[i]] in ctrls {
          Forget(dead[i]);
        }
      }
      assert dead[..|dead|] == dead;
    }
  }
}
