/** The per-lane occupancy index: every lane's vehicles, sorted by position and then id. */
module Occupancy {
  import opened LaneGraph

  /** A vehicle off the network has no lane. */
  datatype Car = Car(lane: Option<nat>, s: real, length: real, v: real)

  type Cars = map<nat, Car>

  /** Further back, or level with a smaller id. */
  predicate Behind(cars: Cars, a: nat, b: nat)
    requires a in cars && b in cars
  {
    cars[a].s < cars[b].s || (cars[a].s == cars[b].s && a < b)
  }

  ghost predicate Known(cars: Cars, list: seq<nat>) {
    forall i | 0 <= i < |list| :: list[i] in cars
  }

  ghost predicate Distinct(list: seq<nat>) {
    forall i, j | 0 <= i < j < |list| :: list[i] != list[j]
  }

  ghost predicate Sorted(cars: Cars, list: seq<nat>) {
    Known(cars, list) && forall i, j | 0 <= i < j < |list| :: Behind(cars, list[i], list[j])
  }

  /** The list holds exactly the vehicles of one lane, in order. */
  ghost predicate Lists(cars: Cars, list: seq<nat>, lane: nat) {
    Sorted(cars, list) && forall id :: id in list <==> id in cars && cars[id].lane == Some(lane)
  }

  /** Every lane's list is right. */
  ghost predicate Exact(cars: Cars, vehs: seq<seq<nat>>) {
    forall l | 0 <= l < |vehs| :: Lists(cars, vehs[l], l)
  }

  // ---------------------------------------------------------------- inserting

  /** The place of a vehicle in a list: before the first one ahead of it. */
  function Place(cars: Cars, list: seq<nat>, id: nat): (i: nat)
    requires id in cars && Sorted(cars, list)
    ensures i <= |list|
    ensures forall j | 0 <= j < i :: !Behind(cars, id, list[j])
    ensures forall j | i <= j < |list| :: Behind(cars, id, list[j])
  {
    if list == [] then 0
    else if Behind(cars, id, list[|list| - 1]) then Place(cars, list[..|list| - 1], id)
    else |list|
  }

  function Inserted(cars: Cars, list: seq<nat>, id: nat): (r: seq<nat>)
    requires id in cars && Sorted(cars, list)
    ensures |r| == |list| + 1
    ensures forall x :: x in r <==> x == id || x in list
  {
    var i := Place(cars, list, id);
    assert list == list[..i] + list[i..];
    list[..i] + [id] + list[i..]
  }

  lemma InsertedSorted(cars: Cars, list: seq<nat>, id: nat)
    requires id in cars && Sorted(cars, list) && id !in list
    ensures Sorted(cars, Inserted(cars, list, id))
  {
    var i := Place(cars, list, id);
    var r := Inserted(cars, list, id);
    forall j, k | 0 <= j < k < |r| ensures Behind(cars, r[j], r[k]) {
      var a := if j < i then j else j - 1;
      var b := if k < i then k else k - 1;
      assert j != i ==> r[j] == list[a];
      assert k != i ==> r[k] == list[b];
    }
  }

  // ---------------------------------------------------------------- removing

  function Removed(list: seq<nat>, id: nat): (r: seq<nat>)
    ensures |r| <= |list|
  {
    if list == [] then []
    else Removed(list[..|list| - 1], id) + (if list[|list| - 1] == id then [] else [list[|list| - 1]])
  }

  lemma {:induction false} RemovedIs(cars: Cars, list: seq<nat>, id: nat)
    requires Sorted(cars, list)
    ensures Sorted(cars, Removed(list, id))
    ensures forall x :: x in Removed(list, id) <==> x in list && x != id
  {
    if list != [] {
      var n := |list| - 1;
      var rest := Removed(list[..n], id);
      RemovedIs(cars, list[..n], id);
      assert list == list[..n] + [list[n]];
      forall j | 0 <= j < |rest| ensures rest[j] in cars && Behind(cars, rest[j], list[n]) {
        assert rest[j] in rest;
        var k :| 0 <= k < n && list[k] == rest[j];
      }
    }
  }

  lemma {:induction false} RemovedNone(list: seq<nat>, id: nat)
    requires id !in list
    ensures Removed(list, id) == list
  {
    if list != [] {
      var n := |list| - 1;
      assert list == list[..n] + [list[n]];
      RemovedNone(list[..n], id);
    }
  }

  /** Taking out the one occurrence. */
  lemma {:induction false} RemovedAt(list: seq<nat>, i: nat)
    requires i < |list| && forall j | 0 <= j < |list| && j != i :: list[j] != list[i]
    ensures Removed(list, list[i]) == list[..i] + list[i + 1..]
  {
    var n := |list| - 1;
    if i == n {
      RemovedNone(list[..n], list[n]);
    } else {
      RemovedAt(list[..n], i);
      assert list[..n][..i] + list[..n][i + 1..] + [list[n]] == list[..i] + list[i + 1..];
    }
  }

  // ---------------------------------------------------------------- one lane at a time

  /** A list stays right for a lane no vehicle enters, leaves or moves on. */
  lemma Untouched(cars: Cars, now: Cars, list: seq<nat>, lane: nat)
    requires Lists(cars, list, lane)
    requires forall id | id in cars && cars[id].lane == Some(lane) :: id in now && now[id] == cars[id]
    requires forall id | id in now && now[id].lane == Some(lane) :: id in cars && cars[id].lane == Some(lane)
    ensures Lists(now, list, lane)
  {
    forall i | 0 <= i < |list| ensures list[i] in now && now[list[i]] == cars[list[i]] {
      assert list[i] in list;
    }
  }

  /** A vehicle entering a lane is put in its place. */
  lemma Enters(cars: Cars, now: Cars, list: seq<nat>, lane: nat, id: nat)
    requires Lists(cars, list, lane) && id !in list
    requires id in now && now[id].lane == Some(lane)
    requires forall x | x in cars && x != id && cars[x].lane == Some(lane) :: x in now && now[x] == cars[x]
    requires forall x | x in now && x != id && now[x].lane == Some(lane) :: x in cars && cars[x].lane == Some(lane)
    ensures Sorted(now, list) && Lists(now, Inserted(now, list, id), lane)
  {
    forall i | 0 <= i < |list| ensures list[i] in now && now[list[i]] == cars[list[i]] {
      assert list[i] in list;
    }
    InsertedSorted(now, list, id);
  }

  /** A vehicle leaving a lane is taken out. */
  lemma Leaves(cars: Cars, now: Cars, list: seq<nat>, lane: nat, id: nat)
    requires Lists(cars, list, lane)
    requires id in now ==> now[id].lane != Some(lane)
    requires forall x | x in cars && x != id && cars[x].lane == Some(lane) :: x in now && now[x] == cars[x]
    requires forall x | x in now && x != id && now[x].lane == Some(lane) :: x in cars && cars[x].lane == Some(lane)
    ensures Lists(now, Removed(list, id), lane)
  {
    RemovedIs(cars, list, id);
    var r := Removed(list, id);
    forall i | 0 <= i < |r| ensures r[i] in now && now[r[i]] == cars[r[i]] {
      assert r[i] in r;
    }
  }

  // ---------------------------------------------------------------- the operations

  datatype Index = Index(cars: Cars, order: seq<nat>, vehs: seq<seq<nat>>)

  /** The live vehicles are those in order, each once, on lanes of the network or just taken
      off. */
  ghost predicate LiveValid(x: Index) {
    && (forall id :: id in x.order <==> id in x.cars)
    && Distinct(x.order)
    && (forall id | id in x.cars && x.cars[id].lane.Some? :: x.cars[id].lane.value < |x.vehs|)
  }

  /** And the lists are exact. */
  ghost predicate IndexValid(x: Index) {
    LiveValid(x) && Exact(x.cars, x.vehs)
  }

  /** A new vehicle, put on its lane at once. */
  function Register(x: Index, id: nat, car: Car): Index
    requires IndexValid(x) && id !in x.cars && (car.lane.Some? ==> car.lane.value < |x.vehs|)
  {
    var cars := x.cars[id := car];
    if car.lane.None? then Index(cars, x.order + [id], x.vehs)
    else
      var l := car.lane.value;
      assert Lists(x.cars, x.vehs[l], l);
      Enters(x.cars, cars, x.vehs[l], l, id);
      Index(cars, x.order + [id], x.vehs[l := Inserted(cars, x.vehs[l], id)])
  }

  /** A hop to another lane, at the same position. */
  function Hop(x: Index, id: nat, to: nat): Index
    requires IndexValid(x) && id in x.cars && x.cars[id].lane.Some? && to < |x.vehs| && x.cars[id].lane != Some(to)
  {
    var from := x.cars[id].lane.value;
    var cars := x.cars[id := x.cars[id].(lane := Some(to))];
    assert Lists(x.cars, x.vehs[to], to);
    Enters(x.cars, cars, x.vehs[to], to, id);
    Index(cars, x.order, x.vehs[from := Removed(x.vehs[from], id)][to := Inserted(cars, x.vehs[to], id)])
  }

  /** The escape takes a vehicle off its lane. */
  function Strand(x: Index, id: nat): Index
    requires IndexValid(x) && id in x.cars && x.cars[id].lane.Some?
  {
    var from := x.cars[id].lane.value;
    Index(x.cars[id := x.cars[id].(lane := None)], x.order, x.vehs[from := Removed(x.vehs[from], id)])
  }

  function KeptOrder(cars: Cars, order: seq<nat>): seq<nat>
    requires Known(cars, order)
  {
    if order == [] then []
    else
      var kept := if cars[order[|order| - 1]].lane.Some? then [order[|order| - 1]] else [];
      KeptOrder(cars, order[..|order| - 1]) + kept
  }

  /** Vehicles without a lane leave the world. */
  function Drop(x: Index): Index
    requires LiveValid(x)
  {
    Index(map id | id in x.cars && x.cars[id].lane.Some? :: x.cars[id], KeptOrder(x.cars, x.order), x.vehs)
  }

  // ---------------------------------------------------------------- what they keep

  lemma RegisterKeeps(x: Index, id: nat, car: Car)
    requires IndexValid(x) && id !in x.cars && (car.lane.Some? ==> car.lane.value < |x.vehs|)
    ensures IndexValid(Register(x, id, car))
  {
    var r := Register(x, id, car);
    forall l | 0 <= l < |r.vehs| ensures Lists(r.cars, r.vehs[l], l) {
      assert Lists(x.cars, x.vehs[l], l);
      if car.lane == Some(l) {
        Enters(x.cars, r.cars, x.vehs[l], l, id);
      } else {
        Untouched(x.cars, r.cars, x.vehs[l], l);
      }
    }
  }

  lemma HopKeeps(x: Index, id: nat, to: nat)
    requires IndexValid(x) && id in x.cars && x.cars[id].lane.Some? && to < |x.vehs| && x.cars[id].lane != Some(to)
    ensures IndexValid(Hop(x, id, to))
  {
    var r := Hop(x, id, to);
    var from := x.cars[id].lane.value;
    forall l | 0 <= l < |r.vehs| ensures Lists(r.cars, r.vehs[l], l) {
      assert Lists(x.cars, x.vehs[l], l);
      if l == to {
        Enters(x.cars, r.cars, x.vehs[l], l, id);
      } else if l == from {
        Leaves(x.cars, r.cars, x.vehs[l], l, id);
      } else {
        Untouched(x.cars, r.cars, x.vehs[l], l);
      }
    }
  }

  lemma StrandKeeps(x: Index, id: nat)
    requires IndexValid(x) && id in x.cars && x.cars[id].lane.Some?
    ensures IndexValid(Strand(x, id))
  {
    var r := Strand(x, id);
    var from := x.cars[id].lane.value;
    forall l | 0 <= l < |r.vehs| ensures Lists(r.cars, r.vehs[l], l) {
      assert Lists(x.cars, x.vehs[l], l);
      if l == from {
        Leaves(x.cars, r.cars, x.vehs[l], l, id);
      } else {
        Untouched(x.cars, r.cars, x.vehs[l], l);
      }
    }
  }

  lemma {:induction false} KeptOrderIs(cars: Cars, order: seq<nat>)
    requires Known(cars, order) && Distinct(order)
    ensures forall id :: id in KeptOrder(cars, order) <==> id in order && cars[id].lane.Some?
    ensures Distinct(KeptOrder(cars, order))
  {
    if order != [] {
      var n := |order| - 1;
      var rest := KeptOrder(cars, order[..n]);
      KeptOrderIs(cars, order[..n]);
      assert order == order[..n] + [order[n]];
      forall i | 0 <= i < |rest| ensures rest[i] != order[n] {
        assert rest[i] in rest;
        var k :| 0 <= k < n && order[k] == rest[i];
      }
      assert Distinct(rest + [order[n]]);
      assert Distinct(rest + []);
    }
  }

  /** Whatever the lists are worth, those who stay are the live ones; exact lists stay exact. */
  lemma DropKeeps(x: Index)
    requires LiveValid(x)
    ensures LiveValid(Drop(x)) && forall id | id in Drop(x).cars :: Drop(x).cars[id].lane.Some?
    ensures IndexValid(x) ==> IndexValid(Drop(x))
  {
    var r := Drop(x);
    KeptOrderIs(x.cars, x.order);
    if IndexValid(x) {
      forall l | 0 <= l < |r.vehs| ensures Lists(r.cars, r.vehs[l], l) {
        assert Lists(x.cars, x.vehs[l], l);
        Untouched(x.cars, r.cars, x.vehs[l], l);
      }
    }
  }

  lemma {:induction false} KeptAll(cars: Cars, order: seq<nat>)
    requires Known(cars, order) && forall id | id in cars :: cars[id].lane.Some?
    ensures KeptOrder(cars, order) == order
  {
    if order != [] {
      KeptAll(cars, order[..|order| - 1]);
    }
  }

  /** When nobody left there is nobody to drop. */
  lemma DropsNobody(x: Index)
    requires LiveValid(x) && forall id | id in x.cars :: x.cars[id].lane.Some?
    ensures Drop(x) == x
  {
    hide KeptOrder;
    assert Known(x.cars, x.order) by {
      assert forall i | 0 <= i < |x.order| :: x.order[i] in x.order;
    }
    KeptAll(x.cars, x.order);
    assert (map id | id in x.cars && x.cars[id].lane.Some? :: x.cars[id]) == x.cars;
  }

  // ---------------------------------------------------------------- rebuilding

  /** The vehicles of a lane, in live order. */
  function Gather(cars: Cars, order: seq<nat>, lane: nat): seq<nat>
    requires Known(cars, order)
  {
    if order == [] then []
    else
      var last := if cars[order[|order| - 1]].lane == Some(lane) then [order[|order| - 1]] else [];
      Gather(cars, order[..|order| - 1], lane) + last
  }

  lemma {:induction false} GatherIs(cars: Cars, order: seq<nat>, lane: nat)
    requires Known(cars, order) && Distinct(order)
    ensures forall id :: id in Gather(cars, order, lane) <==> id in order && cars[id].lane == Some(lane)
    ensures Distinct(Gather(cars, order, lane)) && Known(cars, Gather(cars, order, lane))
  {
    if order != [] {
      var n := |order| - 1;
      var rest := Gather(cars, order[..n], lane);
      GatherIs(cars, order[..n], lane);
      assert order == order[..n] + [order[n]];
      forall i | 0 <= i < |rest| ensures rest[i] != order[n] {
        assert rest[i] in rest;
        var k :| 0 <= k < n && order[k] == rest[i];
      }
      assert Distinct(rest + [order[n]]);
      assert Distinct(rest + []);
    }
  }

  function SortCars(cars: Cars, list: seq<nat>): (r: seq<nat>)
    requires Known(cars, list) && Distinct(list)
    ensures Sorted(cars, r) && forall x :: x in r <==> x in list
  {
    if list == [] then []
    else
      var n := |list| - 1;
      assert list == list[..n] + [list[n]];
      InsertedSorted(cars, SortCars(cars, list[..n]), list[n]);
      Inserted(cars, SortCars(cars, list[..n]), list[n])
  }

  /** Position and id leave one order only, so the result does not depend on how the list is
      sorted. */
  lemma {:induction false} OneOrder(cars: Cars, a: seq<nat>, b: seq<nat>)
    requires Sorted(cars, a) && Sorted(cars, b) && forall x :: x in a <==> x in b
    ensures a == b
  {
    if a == [] {
      assert forall i | 0 <= i < |b| :: b[i] in b;
    } else {
      var m, n := |a| - 1, |b| - 1;
      assert a[m] in b;
      assert b[n] in a;
      var i :| 0 <= i < |b| && b[i] == a[m];
      var j :| 0 <= j < |a| && a[j] == b[n];
      assert a[m] == b[n];
      forall x ensures x in a[..m] <==> x in b[..n] {
        OthersBefore(cars, a, x);
        OthersBefore(cars, b, x);
      }
      OneOrder(cars, a[..m], b[..n]);
    }
  }

  lemma OthersBefore(cars: Cars, a: seq<nat>, x: nat)
    requires Sorted(cars, a) && a != []
    ensures x in a[..|a| - 1] <==> x in a && x != a[|a| - 1]
  {
    assert a == a[..|a| - 1] + [a[|a| - 1]];
  }

  function Rebuilt(cars: Cars, order: seq<nat>, n: nat): (r: seq<seq<nat>>)
    requires Known(cars, order) && Distinct(order)
    ensures |r| == n
  {
    seq(n, l requires 0 <= l < n => GatheredSort(cars, order, l))
  }

  function GatheredSort(cars: Cars, order: seq<nat>, l: nat): (r: seq<nat>)
    requires Known(cars, order) && Distinct(order)
    ensures Sorted(cars, r) && forall id :: id in r <==> id in order && cars[id].lane == Some(l)
  {
    GatherIs(cars, order, l);
    SortCars(cars, Gather(cars, order, l))
  }

  /** The lists built anew from where the vehicles are. */
  function Rebuild(x: Index): (r: Index)
    requires LiveValid(x)
    ensures IndexValid(r)
  {
    Index(x.cars, x.order, Rebuilt(x.cars, x.order, |x.vehs|))
  }

  /** After the motion phase every vehicle may be anywhere, or have left: those who left are
      dropped while the lists are still those of before, then the lists are built anew. */
  function Move(x: Index, cars: Cars): (r: Index)
    requires LiveValid(x.(cars := cars))
    ensures IndexValid(r)
  {
    DropKeeps(x.(cars := cars));
    Rebuild(Drop(x.(cars := cars)))
  }

  /** Exactly the vehicles that still have a lane are live afterwards, where they then are. */
  lemma MoveIs(x: Index, cars: Cars)
    requires LiveValid(x.(cars := cars))
    ensures var r := Move(x, cars);
      && (forall id :: id in r.cars <==> id in cars && cars[id].lane.Some?)
      && (forall id | id in r.cars :: r.cars[id] == cars[id])
  {
  }

  // ---------------------------------------------------------------- whole runs

  datatype Op =
    | Registers(id: nat, car: Car)
    | Moves(cars: Cars)
    | Hops(id: nat, to: nat)
    | Strands(id: nat)
    | Drops

  /** What the engine does: vehicles move, and some of them leave the network as they do;
      vehicles with a lane hop or are stranded; new ids register. */
  ghost predicate Enabled(x: Index, op: Op) {
    match op
    case Registers(id, car) => id !in x.cars && (car.lane.Some? ==> car.lane.value < |x.vehs|)
    case Moves(cars) => cars.Keys == x.cars.Keys && forall id | id in cars && cars[id].lane.Some? :: cars[id].lane.value < |x.vehs|
    case Hops(id, to) => id in x.cars && x.cars[id].lane.Some? && to < |x.vehs| && x.cars[id].lane != Some(to)
    case Strands(id) => id in x.cars && x.cars[id].lane.Some?
    case Drops => true
  }

  ghost function Apply(x: Index, op: Op): Index
    requires IndexValid(x) && Enabled(x, op)
  {
    match op
    case Registers(id, car) => Register(x, id, car)
    case Moves(cars) => Move(x, cars)
    case Hops(id, to) => Hop(x, id, to)
    case Strands(id) => Strand(x, id)
    case Drops => Drop(x)
  }

  lemma ApplyKeeps(x: Index, op: Op)
    requires IndexValid(x) && Enabled(x, op)
    ensures IndexValid(Apply(x, op))
  {
    hide LiveValid, Exact;
    match op
    case Registers(id, car) => RegisterKeeps(x, id, car);
    case Moves(cars) =>
    case Hops(id, to) => HopKeeps(x, id, to);
    case Strands(id) => StrandKeeps(x, id);
    case Drops => DropKeeps(x);
  }

  /** Any run of the operations, whatever their order; one that cannot happen is passed over. */
  ghost function Run(x: Index, ops: seq<Op>): Index
    requires IndexValid(x)
    decreases |ops|
  {
    if ops == [] then x
    else if Enabled(x, ops[0]) then
      ApplyKeeps(x, ops[0]);
      Run(Apply(x, ops[0]), ops[1..])
    else Run(x, ops[1..])
  }

  /** At every point of every run each lane's list holds exactly the vehicles on that lane, in
      the one order that position and id allow. */
  lemma {:induction false} RunStaysExact(x: Index, ops: seq<Op>)
    requires IndexValid(x)
    ensures IndexValid(Run(x, ops))
    decreases |ops|
  {
    hide IndexValid, Enabled, Apply;
    if ops != [] {
      if Enabled(x, ops[0]) {
        ApplyKeeps(x, ops[0]);
        RunStaysExact(Apply(x, ops[0]), ops[1..]);
      } else {
        RunStaysExact(x, ops[1..]);
      }
    }
  }

  // ---------------------------------------------------------------- who is next

  /** On the lane, beyond s, and not the one skipped. */
  ghost predicate Ahead(cars: Cars, lane: nat, s: real, skip: Option<nat>, x: nat) {
    x in cars && cars[x].lane == Some(lane) && cars[x].s > s && skip != Some(x)
  }

  ghost predicate Nearest(cars: Cars, lane: nat, s: real, skip: Option<nat>, r: Option<nat>) {
    match r
    case None => forall x :: !Ahead(cars, lane, s, skip, x)
    case Some(l) => Ahead(cars, lane, s, skip, l) && forall x | Ahead(cars, lane, s, skip, x) && x != l :: Behind(cars, l, x)
  }

  /** On the lane, at s or before it, and not the one excluded. */
  ghost predicate Back(cars: Cars, lane: nat, s: real, ex: nat, x: nat) {
    x in cars && cars[x].lane == Some(lane) && cars[x].s <= s && x != ex
  }

  ghost predicate Rearmost(cars: Cars, lane: nat, s: real, ex: nat, r: Option<nat>) {
    match r
    case None => forall x :: !Back(cars, lane, s, ex, x)
    case Some(l) => Back(cars, lane, s, ex, l) && forall x | Back(cars, lane, s, ex, x) && x != l :: Behind(cars, x, l)
  }

  /** The first place beyond s, found by halving. */
  method SearchBeyond(cars: Cars, list: seq<nat>, s: real) returns (i: nat)
    requires Sorted(cars, list)
    ensures i <= |list|
    ensures forall j | 0 <= j < i :: cars[list[j]].s <= s
    ensures forall j | i <= j < |list| :: cars[list[j]].s > s
  {
    i := 0;
    var hi := |list|;
    while i < hi
      invariant i <= hi <= |list|
      invariant forall j | 0 <= j < i :: cars[list[j]].s <= s
      invariant forall j | hi <= j < |list| :: cars[list[j]].s > s
    {
      var h := (i + hi) / 2;
      if cars[list[h]].s > s {
        hi := h;
      } else {
        i := h + 1;
      }
    }
  }

  /** The leader on the lane: binary search, then past the vehicle itself. It is the one a
      look at every vehicle of the lane would find. */
  method LeaderOnLane(cars: Cars, list: seq<nat>, lane: nat, s: real, skip: Option<nat>) returns (r: Option<nat>)
    requires Lists(cars, list, lane)
    ensures Nearest(cars, lane, s, skip, r)
  {
    var i := SearchBeyond(cars, list, s);
    ghost var from := i;
    while i < |list| && Some(list[i]) == skip
      invariant from <= i <= |list| && forall j | from <= j < i :: Some(list[j]) == skip
    {
      i := i + 1;
    }
    r := if i < |list| then Some(list[i]) else None;
    forall x | Ahead(cars, lane, s, skip, x) ensures exists j :: i <= j < |list| && list[j] == x {
      assert x in list;
      var j :| 0 <= j < |list| && list[j] == x;
    }
    assert i < |list| ==> list[i] in list;
  }

  /** The vehicles around a position on a lane, the one moving there left out behind. */
  method Neighbors(cars: Cars, list: seq<nat>, lane: nat, s: real, ex: nat) returns (lead: Option<nat>, foll: Option<nat>)
    requires Lists(cars, list, lane)
    ensures Nearest(cars, lane, s, None, lead) && Rearmost(cars, lane, s, ex, foll)
  {
    var i := SearchBeyond(cars, list, s);
    lead := if i < |list| then Some(list[i]) else None;
    foll := None;
    ghost var k := i;
    if i > 0 {
      foll := Some(list[i - 1]);
      k := i - 1;
      if list[i - 1] == ex {
        foll := if i > 1 then Some(list[i - 2]) else None;
        k := if i > 1 then i - 2 else i;
      }
    }
    forall x | x in cars && cars[x].lane == Some(lane) ensures exists j :: 0 <= j < |list| && list[j] == x {
      assert x in list;
    }
    assert i < |list| ==> list[i] in list;
    assert k < i ==> list[k] in list;
  }

  ghost predicate Heads(cars: Cars, lane: nat, id: nat) {
    && id in cars && cars[id].lane == Some(lane)
    && forall x | x in cars && cars[x].lane == Some(lane) && x != id :: Behind(cars, x, id)
  }

  /** The head of a lane is the vehicle no other is ahead of. */
  method IsHead(cars: Cars, list: seq<nat>, lane: nat, id: nat) returns (r: bool)
    requires Lists(cars, list, lane)
    ensures r <==> Heads(cars, lane, id)
  {
    r := list != [] && list[|list| - 1] == id;
    assert list != [] ==> list[|list| - 1] in list;
    forall x | x in cars && cars[x].lane == Some(lane) ensures exists j :: 0 <= j < |list| && list[j] == x {
      assert x in list;
    }
  }

  // ---------------------------------------------------------------- in place

  /** Where a vehicle goes, found by halving. */
  method SearchPlace(cars: Cars, list: seq<nat>, id: nat) returns (i: nat)
    requires id in cars && Sorted(cars, list)
    ensures i == Place(cars, list, id)
  {
    i := 0;
    var hi := |list|;
    while i < hi
      invariant i <= Place(cars, list, id) <= hi <= |list|
    {
      var h := (i + hi) / 2;
      if Behind(cars, id, list[h]) {
        hi := h;
      } else {
        i := h + 1;
      }
    }
  }

  method InsertVehicle(cars: Cars, list: seq<nat>, id: nat) returns (r: seq<nat>)
    requires id in cars && Sorted(cars, list)
    ensures r == Inserted(cars, list, id)
  {
    var i := SearchPlace(cars, list, id);
    r := list[..i] + [id] + list[i..];
  }

  /** Looks from the first vehicle level with this one. */
  method RemoveVehicle(cars: Cars, list: seq<nat>, id: nat) returns (r: seq<nat>)
    requires id in cars && Sorted(cars, list)
    ensures r == Removed(list, id)
  {
    var i, hi := 0, |list|;
    while i < hi
      invariant i <= hi <= |list|
      invariant forall j | 0 <= j < i :: cars[list[j]].s < cars[id].s
    {
      var h := (i + hi) / 2;
      if cars[list[h]].s >= cars[id].s {
        hi := h;
      } else {
        i := h + 1;
      }
    }
    while i < |list|
      invariant i <= |list| && forall j | 0 <= j < i :: list[j] != id
    {
      if list[i] == id {
        RemovedAt(list, i);
        return list[..i] + list[i + 1..];
      }
      i := i + 1;
    }
    RemovedNone(list, id);
    r := list;
  }

  class Lanes {
    var cars: Cars
    var order: seq<nat>
    var vehs: seq<seq<nat>>

    ghost function State(): Index
      reads this
    {
      Index(cars, order, vehs)
    }

    method RegisterVehicle(id: nat, car: Car)
      requires IndexValid(State()) && Enabled(State(), Registers(id, car))
      modifies this
      ensures State() == Register(old(State()), id, car) && IndexValid(State())
    {
      RegisterKeeps(State(), id, car);
      ghost var was := State();
      cars := cars[id := car];
      order := order + [id];
      if car.lane.Some? {
        var l := car.lane.value;
        assert Lists(was.cars, vehs[l], l);
        Enters(was.cars, cars, vehs[l], l, id);
        var list := InsertVehicle(cars, vehs[l], id);
        vehs := vehs[l := list];
      }
    }

    /** A hop toward a neighbouring lane; without one, nothing happens. */
    method ExecLaneChange(id: nat, tgt: Option<nat>)
      requires IndexValid(State()) && (tgt.Some? ==> Enabled(State(), Hops(id, tgt.value)))
      modifies this
      ensures State() == (if tgt.Some? then Hop(old(State()), id, tgt.value) else old(State())) && IndexValid(State())
    {
      if tgt.None? {
        return;
      }
      HopKeeps(State(), id, tgt.value);
      ghost var was := State();
      var from, to := cars[id].lane.value, tgt.value;
      assert Lists(was.cars, vehs[from], from) && Lists(was.cars, vehs[to], to);
      var left := RemoveVehicle(cars, vehs[from], id);
      var now := cars[id := cars[id].(lane := Some(to))];
      Enters(was.cars, now, vehs[to], to, id);
      var list := InsertVehicle(now, vehs[to], id);
      cars := now;
      vehs := vehs[from := left];
      vehs := vehs[to := list];
    }

    method StrandVehicle(id: nat)
      requires IndexValid(State()) && Enabled(State(), Strands(id))
      modifies this
      ensures State() == Strand(old(State()), id) && IndexValid(State())
    {
      StrandKeeps(State(), id);
      var from := cars[id].lane.value;
      assert Lists(cars, vehs[from], from);
      var left := RemoveVehicle(cars, vehs[from], id);
      vehs := vehs[from := left];
      cars := cars[id := cars[id].(lane := None)];
    }

    /** Called by the escape with exact lists, and by the boundary pass with stale ones. */
    method DropDespawned()
      requires LiveValid(State())
      modifies this
      ensures State() == Drop(old(State())) && LiveValid(State())
      ensures forall id | id in cars :: cars[id].lane.Some?
      ensures old(IndexValid(State())) ==> IndexValid(State())
    {
      DropKeeps(State());
      var kept: seq<nat> := [];
      for i := 0 to |order|
        invariant State() == old(State()) && Known(cars, order[..i]) && kept == KeptOrder(cars, order[..i])
      {
        assert order[i] in order;
        assert order[..i + 1][..i] == order[..i];
        if cars[order[i]].lane.Some? {
          kept := kept + [order[i]];
        }
      }
      assert order[..|order|] == order;
      order := kept;
      cars := map id | id in cars && cars[id].lane.Some? :: cars[id];
    }

    /** Empties every list, deals the live vehicles out in order, and sorts each list. */
    method RebuildOccupancy()
      requires LiveValid(State()) && forall id | id in cars :: cars[id].lane.Some?
      modifies this
      ensures State() == Rebuild(old(State())) && IndexValid(State())
    {
      hide Exact, GatheredSort;
      assert forall i | 0 <= i < |order| :: order[i] in order;
      var dealt := Deal(cars, order, |vehs|);
      vehs := SortAll(cars, order, dealt);
    }

    /** The end of the motion phase: `moved` is where everybody is after it, `despawned` the
        boundary pass's note that somebody left. */
    method SettleMotion(moved: Cars, despawned: bool)
      requires IndexValid(State()) && Enabled(State(), Moves(moved))
      requires !despawned ==> forall id | id in moved :: moved[id].lane.Some?
      modifies this
      ensures State() == Move(old(State()), moved) && IndexValid(State())
    {
      hide Drop, Rebuild, Exact;
      cars := moved;
      if despawned {
        DropDespawned();
      } else {
        DropsNobody(State());
      }
      RebuildOccupancy();
    }
  }

  method Deal(cars: Cars, order: seq<nat>, n: nat) returns (vehs: seq<seq<nat>>)
    requires Known(cars, order)
    requires forall i | 0 <= i < |order| :: cars[order[i]].lane.Some? && cars[order[i]].lane.value < n
    ensures |vehs| == n && forall l | 0 <= l < n :: vehs[l] == Gather(cars, order, l)
  {
    vehs := seq(n, _ => []);
    for i := 0 to |order|
      invariant |vehs| == n && forall l | 0 <= l < n :: vehs[l] == Gather(cars, order[..i], l)
    {
      assert order[..i + 1][..i] == order[..i];
      var l := cars[order[i]].lane.value;
      vehs := vehs[l := vehs[l] + [order[i]]];
    }
    assert order[..|order|] == order;
  }

  method SortAll(cars: Cars, order: seq<nat>, dealt: seq<seq<nat>>) returns (vehs: seq<seq<nat>>)
    requires Known(cars, order) && Distinct(order)
    requires forall l | 0 <= l < |dealt| :: dealt[l] == Gather(cars, order, l)
    ensures vehs == Rebuilt(cars, order, |dealt|)
  {
    hide SortCars, Gather;
    vehs := dealt;
    for l := 0 to |dealt|
      invariant |vehs| == |dealt|
      invariant forall k | l <= k < |dealt| :: vehs[k] == Gather(cars, order, k)
      invariant forall k | 0 <= k < l :: vehs[k] == GatheredSort(cars, order, k)
    {
      GatherIs(cars, order, l);
      vehs := vehs[l := SortCars(cars, vehs[l])];
    }
  }
}
