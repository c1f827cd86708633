/** The occupancy index in plain terms: the order of every list, and what each operation does to
    the vehicles and to their spawn order. */
module OccupancyRules {
  import opened LaneGraph
  import opened Occupancy

  /** From the rear of a lane to its front positions never fall, and level vehicles stand by
      ascending id; every vehicle of the lane is there, and no other. */
  ghost predicate RearToFront(cars: Cars, list: seq<nat>, lane: nat) {
    && (forall i | 0 <= i < |list| :: list[i] in cars)
    && (forall i, j | 0 <= i < j < |list| ::
          cars[list[i]].s <= cars[list[j]].s && (cars[list[i]].s == cars[list[j]].s ==> list[i] < list[j]))
    && forall id :: id in list <==> id in cars && cars[id].lane == Some(lane)
  }

  /** So it is on every lane at every point of every run. */
  lemma RunRearToFront(x: Index, ops: seq<Op>, lane: nat)
    requires IndexValid(x) && lane < |Run(x, ops).vehs|
    ensures RearToFront(Run(x, ops).cars, Run(x, ops).vehs[lane], lane)
  {
    hide Run;
    RunStaysExact(x, ops);
    var r := Run(x, ops);
    assert Lists(r.cars, r.vehs[lane], lane);
  }

  /** Both in the order, a before b. */
  ghost predicate Precedes(order: seq<nat>, a: nat, b: nat) {
    exists i, j | 0 <= i < j < |order| :: order[i] == a && order[j] == b
  }

  /** What an operation does to the vehicles: registering adds one, a hop changes a lane and
      nothing else, stranding takes one off its lane, and those without a lane go. */
  lemma OperationsDo(x: Index, op: Op, id: nat)
    requires IndexValid(x) && Enabled(x, op)
    ensures var r := Apply(x, op);
      match op
      case Registers(a, car) =>
        r.order == x.order + [a] && (id in r.cars <==> id == a || id in x.cars) && (id in r.cars ==> r.cars[id] == if id == a then car else x.cars[id])
      case Hops(a, to) =>
        r.order == x.order && (id in r.cars <==> id in x.cars)
        && (id in r.cars ==> r.cars[id] == if id == a then Car(Some(to), x.cars[a].s, x.cars[a].length, x.cars[a].v) else x.cars[id])
      case Strands(a) =>
        r.order == x.order && (id in r.cars <==> id in x.cars)
        && (id in r.cars ==> r.cars[id] == if id == a then Car(None, x.cars[a].s, x.cars[a].length, x.cars[a].v) else x.cars[id])
      case Moves(cars) => (id in r.cars <==> id in cars && cars[id].lane != None) && (id in r.cars ==> r.cars[id] == cars[id])
      case Drops => (id in r.cars <==> id in x.cars && x.cars[id].lane != None) && (id in r.cars ==> r.cars[id] == x.cars[id])
  {
    hide Exact;
  }

  lemma {:induction false} KeptPrecede(cars: Cars, order: seq<nat>, a: nat, b: nat)
    requires Known(cars, order) && Distinct(order)
    ensures Precedes(KeptOrder(cars, order), a, b)
      <==> Precedes(order, a, b) && a in cars && b in cars && cars[a].lane.Some? && cars[b].lane.Some?
  {
    if order != [] {
      var n := |order| - 1;
      KeptPrecede(cars, order[..n], a, b);
      var rest, all := KeptOrder(cars, order[..n]), KeptOrder(cars, order);
      KeptOrderIs(cars, order[..n]);
      assert order == order[..n] + [order[n]];
      Appended(order[..n], order[n], a, b);
      if cars[order[n]].lane.Some? {
        Appended(rest, order[n], a, b);
      } else {
        assert all == rest;
      }
    }
  }

  lemma Appended(order: seq<nat>, x: nat, a: nat, b: nat)
    ensures Precedes(order + [x], a, b) <==> Precedes(order, a, b) || (b == x && a in order)
  {
    var all := order + [x];
    if Precedes(order, a, b) {
      var i, j :| 0 <= i < j < |order| && order[i] == a && order[j] == b;
      assert all[i] == a && all[j] == b;
    }
    if b == x && a in order {
      var i :| 0 <= i < |order| && order[i] == a;
      assert all[i] == a && all[|order|] == b;
    }
  }

  /** Whoever spawned first stays first: vehicles leave the order, and never change places
      in it. */
  lemma OrderStays(x: Index, op: Op, a: nat, b: nat)
    requires IndexValid(x) && Enabled(x, op) && a in Apply(x, op).cars && b in Apply(x, op).cars && Precedes(x.order, a, b)
    ensures Precedes(Apply(x, op).order, a, b)
  {
    hide Exact, Precedes;
    match op
    case Registers(id, car) => Appended(x.order, id, a, b);
    case Moves(cars) =>
      OrderKnown(cars, x.order);
      KeptPrecede(cars, x.order, a, b);
    case Hops(id, to) =>
    case Strands(id) =>
    case Drops =>
      OrderKnown(x.cars, x.order);
      KeptPrecede(x.cars, x.order, a, b);
  }

  lemma OrderKnown(cars: Cars, order: seq<nat>)
    requires forall id :: id in order <==> id in cars
    ensures Known(cars, order)
  {
    assert forall i | 0 <= i < |order| :: order[i] in order;
  }
}
