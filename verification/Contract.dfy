/** The controller contract: who may steer which vehicle, what the claim holders' intents become
    at a tick boundary, and how long a lost one is bridged. */
module Contract {
  import opened AscendingIds
  import opened Intents

  const GRANT_NONE := 0
  const GRANT_DIRECTOR := 3

  // ---------------------------------------------------------------- ids

  function Digits(n: nat): string {
    var d := [(n % 10) as char + '0'];
    if n < 10 then d else Digits(n / 10) + d
  }

  function ControllerId(n: nat): string {
    "ctl-" + Digits(n)
  }

  lemma {:induction false} DigitsDiffer(a: nat, b: nat)
    requires a != b
    ensures Digits(a) != Digits(b)
  {
    var x, y := Digits(a), Digits(b);
    if a % 10 != b % 10 {
      assert x[|x| - 1] != y[|y| - 1];
    } else if a < 10 || b < 10 {
      DigitsLong(if a < 10 then b else a);
    } else {
      DigitsDiffer(a / 10, b / 10);
      assert x[..|x| - 1] == Digits(a / 10) && y[..|y| - 1] == Digits(b / 10);
    }
  }

  lemma {:induction false} DigitsLong(n: nat)
    requires n >= 10
    ensures |Digits(n)| >= 2 && |Digits(n % 10)| == 1
  {
    assert |Digits(n / 10)| >= 1;
  }

  /** Controllers are numbered, and no number gives the same id twice. */
  lemma IdsDiffer(a: nat, b: nat)
    requires a != b
    ensures ControllerId(a) != ControllerId(b) && ControllerId(a) != ""
  {
    DigitsDiffer(a, b);
    assert ControllerId(a)[4..] == Digits(a) && ControllerId(b)[4..] == Digits(b);
  }

  // ---------------------------------------------------------------- the plane

  datatype Controller = Controller(drive: bool, grant: nat, cadence: nat, claims: set<nat>, seqNo: nat)

  /** The last fresh intent of a vehicle; the owner is "" once the claim is dropped. */
  datatype Hold = Hold(intent: Intent, lastFresh: nat, cadence: nat, grant: nat, owner: string, seqNo: nat)

  datatype Plane = Plane(
    ctrls: map<string, Controller>, byVehicle: map<nat, string>, hold: map<nat, Hold>,
    legacySeqs: map<string, nat>, nextId: nat, violations: nat)

  const EMPTY := Plane(map[], map[], map[], map[], 0, 0)

  /** The two records of a claim agree, and every owner is attached. */
  ghost predicate ClaimsInverse(p: Plane) {
    && (forall v | v in p.byVehicle :: p.byVehicle[v] in p.ctrls && v in p.ctrls[p.byVehicle[v]].claims)
    && forall id, v | id in p.ctrls && v in p.ctrls[id].claims :: v in p.byVehicle && p.byVehicle[v] == id
  }

  /** A held intent is its vehicle's, and belongs to the owner of the claim, on the owner's
      terms, or to nobody. */
  ghost predicate HoldOwned(p: Plane, v: nat)
    requires v in p.hold
  {
    var h := p.hold[v];
    && h.intent.vehicleId == v && h.cadence > 0 && h.grant > GRANT_NONE
    && if v in p.byVehicle then
         h.owner == p.byVehicle[v] && (h.owner in p.ctrls ==> h.cadence == p.ctrls[h.owner].cadence && h.grant == p.ctrls[h.owner].grant)
       else h.owner == ""
  }

  ghost predicate ControllersSound(p: Plane) {
    forall id | id in p.ctrls ::
      && p.ctrls[id].cadence > 0 && p.ctrls[id].grant > GRANT_NONE && id != ""
      && exists n :: 0 < n <= p.nextId && id == ControllerId(n)
  }

  ghost predicate PlaneValid(p: Plane) {
    ClaimsInverse(p) && ControllersSound(p) && forall v | v in p.hold :: HoldOwned(p, v)
  }

  // ---------------------------------------------------------------- claims

  predicate Claimable(p: Plane, id: string, live: set<nat>, v: nat) {
    v in live && (v in p.byVehicle ==> p.byVehicle[v] == id)
  }

  /** Grants a live vehicle that nobody else holds; the orphan's bridge goes on on the new
      owner's terms. */
  function TryClaim(p: Plane, id: string, live: set<nat>, v: nat): Plane
    requires id in p.ctrls
  {
    if !Claimable(p, id, live, v) || v in p.byVehicle then p
    else
      var c := p.ctrls[id];
      p.(byVehicle := p.byVehicle[v := id],
         ctrls := p.ctrls[id := c.(claims := c.claims + {v})],
         hold := if v in p.hold then p.hold[v := p.hold[v].(owner := id, cadence := c.cadence, grant := c.grant, seqNo := 0)]
                 else p.hold)
  }

  function ClaimAll(p: Plane, id: string, live: set<nat>, vids: seq<nat>): (r: Plane)
    requires id in p.ctrls
    ensures id in r.ctrls && r.ctrls.Keys == p.ctrls.Keys
  {
    if vids == [] then p
    else TryClaim(ClaimAll(p, id, live, vids[..|vids| - 1]), id, live, vids[|vids| - 1])
  }

  function ReleaseOne(p: Plane, id: string, v: nat): Plane
    requires id in p.ctrls
  {
    var c := p.ctrls[id];
    p.(byVehicle := p.byVehicle - {v},
       ctrls := p.ctrls[id := c.(claims := c.claims - {v})],
       hold := if v in p.hold then p.hold[v := p.hold[v].(owner := "")] else p.hold)
  }

  /** Only the claim holder's releases count. */
  function ReleaseAll(p: Plane, id: string, vids: seq<nat>): (r: Plane)
    requires id in p.ctrls
    ensures id in r.ctrls && r.ctrls.Keys == p.ctrls.Keys
  {
    if vids == [] then p
    else
      var q := ReleaseAll(p, id, vids[..|vids| - 1]);
      var v := vids[|vids| - 1];
      if v in q.byVehicle && q.byVehicle[v] == id then ReleaseOne(q, id, v) else q
  }

  /** The end of an attachment: every claim is dropped first. */
  function Detach(p: Plane, id: string): Plane {
    if id !in p.ctrls then p
    else
      var q := ReleaseAll(p, id, Ascend(p.ctrls[id].claims));
      q.(ctrls := q.ctrls - {id})
  }

  datatype HelloRequest = HelloRequest(drive: bool, grant: nat, cadence: nat, claims: seq<nat>)

  /** An accepted attach; a request for no cadence means every tick. */
  function Hello(p: Plane, req: HelloRequest, live: set<nat>): Plane {
    var id := ControllerId(p.nextId + 1);
    var c := Controller(req.drive, req.grant, if req.cadence == 0 then 1 else req.cadence, {}, 0);
    ClaimAll(p.(nextId := p.nextId + 1, ctrls := p.ctrls[id := c]), id, live, req.claims)
  }

  function HandleClaim(p: Plane, id: string, live: set<nat>, vids: seq<nat>): Plane {
    if id in p.ctrls && p.ctrls[id].drive then ClaimAll(p, id, live, vids) else p
  }

  function HandleRelease(p: Plane, id: string, vids: seq<nat>, detach: bool): Plane {
    if id !in p.ctrls then p
    else
      var q := ReleaseAll(p, id, vids);
      if detach then Detach(q, id) else q
  }

  /** Claims and holds of vehicles no longer live go. */
  function SweepOne(p: Plane, v: nat): Plane
    requires v in p.byVehicle && p.byVehicle[v] in p.ctrls
  {
    var id := p.byVehicle[v];
    var c := p.ctrls[id];
    p.(byVehicle := p.byVehicle - {v}, ctrls := p.ctrls[id := c.(claims := c.claims - {v})], hold := p.hold - {v})
  }

  function Sweep(p: Plane, dead: seq<nat>): (r: Plane)
  {
    if dead == [] then p
    else
      var q := Sweep(p, dead[..|dead| - 1]);
      var v := dead[|dead| - 1];
      if v in q.byVehicle && q.byVehicle[v] in q.ctrls then SweepOne(q, v) else q
  }

  // ---------------------------------------------------------------- what claims keep

  /** Claims and sequences say nothing about ids, grants and cadences. */
  lemma StillSound(p: Plane, r: Plane)
    requires ControllersSound(p) && r.nextId == p.nextId && r.ctrls.Keys <= p.ctrls.Keys
    requires forall id | id in r.ctrls :: r.ctrls[id].cadence == p.ctrls[id].cadence && r.ctrls[id].grant == p.ctrls[id].grant
    ensures ControllersSound(r)
  {
  }

  lemma TryClaimKeeps(p: Plane, id: string, live: set<nat>, v: nat)
    requires PlaneValid(p) && id in p.ctrls
    ensures PlaneValid(TryClaim(p, id, live, v))
  {
    hide ControllersSound;
    var r := TryClaim(p, id, live, v);
    StillSound(p, r);
    forall u | u in r.hold ensures HoldOwned(r, u) {
      assert HoldOwned(p, u);
    }
  }

  lemma {:induction false} ClaimAllKeeps(p: Plane, id: string, live: set<nat>, vids: seq<nat>)
    requires PlaneValid(p) && id in p.ctrls
    ensures PlaneValid(ClaimAll(p, id, live, vids))
  {
    hide PlaneValid, TryClaim;
    if vids != [] {
      ClaimAllKeeps(p, id, live, vids[..|vids| - 1]);
      TryClaimKeeps(ClaimAll(p, id, live, vids[..|vids| - 1]), id, live, vids[|vids| - 1]);
    }
  }

  lemma ReleaseOneKeeps(p: Plane, id: string, v: nat)
    requires PlaneValid(p) && id in p.ctrls && v in p.byVehicle && p.byVehicle[v] == id
    ensures PlaneValid(ReleaseOne(p, id, v))
  {
    hide ControllersSound;
    var r := ReleaseOne(p, id, v);
    StillSound(p, r);
    forall u | u in r.hold ensures HoldOwned(r, u) {
      assert HoldOwned(p, u);
    }
  }

  lemma {:induction false} ReleaseAllKeeps(p: Plane, id: string, vids: seq<nat>)
    requires PlaneValid(p) && id in p.ctrls
    ensures PlaneValid(ReleaseAll(p, id, vids))
    ensures forall v :: v in ReleaseAll(p, id, vids).byVehicle <==>
                          v in p.byVehicle && !(p.byVehicle[v] == id && v in vids)
    ensures forall v | v in ReleaseAll(p, id, vids).byVehicle :: ReleaseAll(p, id, vids).byVehicle[v] == p.byVehicle[v]
  {
    hide PlaneValid;
    if vids != [] {
      var n := |vids| - 1;
      ReleaseAllKeeps(p, id, vids[..n]);
      assert vids == vids[..n] + [vids[n]];
      var q := ReleaseAll(p, id, vids[..n]);
      if vids[n] in q.byVehicle && q.byVehicle[vids[n]] == id {
        ReleaseOneKeeps(q, id, vids[n]);
      }
    }
  }

  /** A controller that holds no vehicle can go. */
  lemma Departs(q: Plane, id: string)
    requires PlaneValid(q) && forall v | v in q.byVehicle :: q.byVehicle[v] != id
    ensures PlaneValid(q.(ctrls := q.ctrls - {id}))
  {
    var r := q.(ctrls := q.ctrls - {id});
    forall u | u in r.hold ensures HoldOwned(r, u) {
      assert HoldOwned(q, u);
    }
  }

  lemma DetachKeeps(p: Plane, id: string)
    requires PlaneValid(p)
    ensures PlaneValid(Detach(p, id)) && id !in Detach(p, id).ctrls
  {
    hide PlaneValid, ReleaseAll;
    if id in p.ctrls {
      var vids := Ascend(p.ctrls[id].claims);
      ReleaseAllKeeps(p, id, vids);
      var q := ReleaseAll(p, id, vids);
      forall v | v in q.byVehicle ensures q.byVehicle[v] != id {
        ClaimListed(p, id, v);
      }
      Departs(q, id);
    }
  }

  lemma ClaimListed(p: Plane, id: string, v: nat)
    requires PlaneValid(p) && id in p.ctrls
    ensures v in p.byVehicle && p.byVehicle[v] == id ==> v in Ascend(p.ctrls[id].claims)
  {
  }

  lemma HelloKeeps(p: Plane, req: HelloRequest, live: set<nat>)
    requires PlaneValid(p) && req.grant > GRANT_NONE
    ensures PlaneValid(Hello(p, req, live))
  {
    hide PlaneValid, ControllerId;
    var id := ControllerId(p.nextId + 1);
    var c := Controller(req.drive, req.grant, if req.cadence == 0 then 1 else req.cadence, {}, 0);
    AttachKeeps(p, id, c);
    ClaimAllKeeps(p.(nextId := p.nextId + 1, ctrls := p.ctrls[id := c]), id, live, req.claims);
  }

  lemma AttachKeeps(p: Plane, id: string, c: Controller)
    requires PlaneValid(p) && id == ControllerId(p.nextId + 1)
    requires c.claims == {} && c.grant > GRANT_NONE && c.cadence > 0
    ensures PlaneValid(p.(nextId := p.nextId + 1, ctrls := p.ctrls[id := c]))
  {
    hide ControllersSound, ControllerId;
    NewId(p);
    var q := p.(nextId := p.nextId + 1, ctrls := p.ctrls[id := c]);
    forall u | u in q.hold ensures HoldOwned(q, u) {
      assert HoldOwned(p, u);
    }
    AttachSound(p, q, id);
  }

  lemma AttachSound(p: Plane, q: Plane, id: string)
    requires PlaneValid(p) && id == ControllerId(p.nextId + 1) && q.nextId == p.nextId + 1
    requires q.ctrls.Keys == p.ctrls.Keys + {id} && (forall x | x in p.ctrls && x != id :: q.ctrls[x] == p.ctrls[x])
    requires q.ctrls[id].cadence > 0 && q.ctrls[id].grant > GRANT_NONE
    ensures ControllersSound(q)
  {
    IdsDiffer(p.nextId + 1, 0);
    forall x | x in q.ctrls ensures exists n :: 0 < n <= q.nextId && x == ControllerId(n) {
      if x == id {
        assert 0 < q.nextId <= q.nextId && x == ControllerId(q.nextId);
      } else {
        var n :| 0 < n <= p.nextId && x == ControllerId(n);
        assert 0 < n <= q.nextId && x == ControllerId(n);
      }
    }
  }

  /** A new controller's id was never in use, nor does any hold name it. */
  lemma NewId(p: Plane)
    requires PlaneValid(p)
    ensures ControllerId(p.nextId + 1) !in p.ctrls
    ensures forall v | v in p.byVehicle :: p.byVehicle[v] != ControllerId(p.nextId + 1)
  {
    var id := ControllerId(p.nextId + 1);
    if id in p.ctrls {
      var n :| 0 < n <= p.nextId && id == ControllerId(n);
      IdsDiffer(n, p.nextId + 1);
    }
  }

  lemma SweepOneKeeps(p: Plane, v: nat)
    requires PlaneValid(p) && v in p.byVehicle
    ensures PlaneValid(SweepOne(p, v))
  {
    hide ControllersSound;
    var r := SweepOne(p, v);
    StillSound(p, r);
    forall u | u in r.hold ensures HoldOwned(r, u) {
      assert HoldOwned(p, u);
    }
  }

  lemma {:induction false} SweepKeeps(p: Plane, dead: seq<nat>)
    requires PlaneValid(p)
    ensures PlaneValid(Sweep(p, dead))
  {
    if dead != [] {
      SweepKeeps(p, dead[..|dead| - 1]);
      var q := Sweep(p, dead[..|dead| - 1]);
      if dead[|dead| - 1] in q.byVehicle {
        SweepOneKeeps(q, dead[|dead| - 1]);
      }
    }
  }
}
