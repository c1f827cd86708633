/** A run of the engine at whose end the emitted intervals and the books differ: a vehicle hops
    into a short lane that this boundary pass has already handled, and the horizon finds it
    parked past the end. */
module ParkedExample {
  import opened LaneGraph
  import opened MetricSets
  import opened MetricTicks
  import opened MetricChains
  import opened MetricLedger
  import opened MetricRun
  import opened MetricFinal
  import B = Boundaries

  /** A lane of ten metres, leading to one of two metres that ends at a wall. */
  const ROAD := Network([
    Lane("a", 10.0, 10.0, [1], None, None, false, false, false, "s"),
    Lane("b", 2.0, 10.0, [], None, None, false, true, false, "s")])

  const CAR := VType("car", 4.0, 10.0)
  const CONFIG := Config(1.0, true)

  /** One metre before the end of the first lane, at four metres a second. */
  const PLACED := Vehicle(0, 0, 9.0, 4.0, CAR, 1.0, "")
  /** A second later, one metre past the end of the second. */
  const SEEN := Vehicle(0, 1, 3.0, 4.0, CAR, 1.0, "")

  const FRAME := Frame(1, [SEEN], map[], {}, {})
  const WHOLE := NewSet([0, 1], 0, 0, 1)

  // ---------------------------------------------------------------- the boundary pass

  function NoHop(i: nat, r: string): Option<nat> {
    None
  }

  function Moved(lane: int, s: real): B.Vehicle {
    B.Vehicle(0, lane, s, 4.0, 4.0, 0, "", false)
  }

  lemma {:induction false} NaiveParks()
    ensures ROAD.Valid() && B.Steers(ROAD, NoHop) && B.Occupancy([[0], []], 2, 1)
    ensures var r := B.NaiveSweep(ROAD, NoHop, [[0], []], B.Boarding([Moved(0, 13.0)]), 2);
      r[0].v == Moved(1, 3.0)
  {
    hide B.Overlap, B.NaiveSweep, B.VisitList;
    var occ, trips := [[0], []], B.Boarding([Moved(0, 13.0)]);
    assert LinksInside(ROAD.lanes[0], 2) && LinksInside(ROAD.lanes[1], 2);
    OneVisit(occ, trips, 1);
    OneVisit(occ, trips, 0);
    var a := B.VisitList(ROAD, NoHop, occ, trips, B.UpTo(1), 1);
    assert a == trips;
    Unfold(occ, trips);
  }

  lemma OneVisit(occ: seq<seq<nat>>, trips: seq<B.Trip>, i: nat)
    requires ROAD.Valid() && B.Steers(ROAD, NoHop) && B.Occupancy(occ, 2, 1) && |trips| == 1 && i < 2
    ensures B.VisitList(ROAD, NoHop, occ, trips, B.UpTo(1), i) == [B.Visit(ROAD, NoHop, occ, trips, 0, i)]
  {
    hide B.Visit, B.Steers;
    assert B.UpTo(1) == [0] && [0][..0] == [];
    assert B.VisitList(ROAD, NoHop, occ, trips, [], i) == trips;
  }

  lemma Unfold(occ: seq<seq<nat>>, trips: seq<B.Trip>)
    requires ROAD.Valid() && B.Steers(ROAD, NoHop) && B.Occupancy(occ, 2, 1) && |trips| == 1
    ensures var a := B.VisitList(ROAD, NoHop, occ, trips, B.UpTo(1), 1);
      B.NaiveSweep(ROAD, NoHop, occ, trips, 2) == B.VisitList(ROAD, NoHop, occ, a, B.UpTo(1), 0)
  {
    hide B.VisitList, B.Steers;
    var a := B.VisitList(ROAD, NoHop, occ, trips, B.UpTo(1), 1);
    var b := B.VisitList(ROAD, NoHop, occ, a, B.UpTo(1), 0);
    assert B.NaiveSweep(ROAD, NoHop, occ, b, 0) == b;
    assert B.NaiveSweep(ROAD, NoHop, occ, a, 1) == b;
  }

  /** Three metres past the end of the first lane, the pass leaves it past the end of the
      second, which it has already handled. */
  lemma PassParks()
    ensures ROAD.Valid() && B.Steers(ROAD, NoHop) && B.Occupancy([[0], []], 2, 1)
    ensures var trips := B.Boarding([Moved(0, 13.0)]);
      && B.Filled(ROAD, trips, B.Fill(ROAD, trips, 1), 2)
      && B.Vehicles(B.BucketSweep(ROAD, NoHop, [[0], []], B.Bucketed(trips, B.Fill(ROAD, trips, 1)), 2)) == [Moved(1, 3.0)]
  {
    hide B.NaiveSweep, B.BucketSweep, B.Fill, B.Steers;
    NaiveParks();
    B.PassRefinesSweep(ROAD, NoHop, [[0], []], [Moved(0, 13.0)]);
  }

  // ---------------------------------------------------------------- the tick observed

  /** The only way from the first lane is onto the second. */
  lemma OneWay(prev: LastObs)
    requires ROAD.Valid() && prev.lane == 0
    ensures Driven(ROAD, prev, SEEN).0 == [0, 1]
  {
    hide FindChains;
    CrossedIsChain(ROAD, 0, 1);
    var c := Driven(ROAD, prev, SEEN).0;
    forall k | 0 <= k < |c| - 1 ensures c[k] == 0 {
      assert Edge(ROAD, c[k], c[k + 1]);
    }
    assert c[0] == 0 && Edge(ROAD, c[0], c[0 + 1]);
  }

  lemma TickDriven(last: map<nat, LastObs>)
    requires ROAD.Valid() && LastValid(ROAD, last) && 0 in last && last[0].lane == 0 && last[0].s == 9.0
    ensures VehicleTick(ROAD, CONFIG, last, FRAME, SEEN).dist == 4.0
  {
    hide Driven, AccountShares, TickLoss, Arrived;
    OneWay(last[0]);
    var shares := [Share(0, 1.0)] + Lengths(ROAD, [0, 1][1..1]) + [Share(1, 3.0)];
    assert shares == [Share(0, 1.0), Share(1, 3.0)];
    assert shares[..1] == [Share(0, 1.0)] && shares[..1][..0] == [];
    assert SumD([]) == 0.0;
    assert SumD(shares[..1]) == 1.0;
    assert SumD(shares) == 4.0;
    assert CrossTick(ROAD, last[0], SEEN, 1.0).dist == SumD(shares);
  }

  lemma RoadValid()
    ensures ROAD.Valid() && OnLanesOf(ROAD, [PLACED]) && NewSets([WHOLE]) && Consecutive(ROAD, [FRAME]) && FrameValid(ROAD, FRAME)
    ensures Consecutive(ROAD, [])
  {
    assert LinksInside(ROAD.lanes[0], 2) && LinksInside(ROAD.lanes[1], 2);
  }

  lemma SeededPlaced()
    ensures var last := Seeds([PLACED], 1.0); last.Keys == {0} && last[0].lane == 0 && last[0].s == 9.0
  {
    assert [PLACED][..0] == [];
    assert Seeds([], 1.0) == map[];
  }

  /** After the frame four metres are booked and the vehicle is where it was seen. */
  lemma AfterFrame(b: Books)
    requires ROAD.Valid() && BooksValid(ROAD, b) && FrameValid(ROAD, FRAME) && b.vmt == 0.0
    requires b.last.Keys == {0} && b.last[0].lane == 0 && b.last[0].s == 9.0
    ensures var r := Observe(ROAD, CONFIG, FRAME, b);
      r.vmt == 4.0 && r.last.Keys == {0} && r.last[0].lane == 1 && r.last[0].s == 3.0
  {
    hide VehicleTick, StopBookings, BookSets, CloseSets, SetsShaped, Sum;
    var blank := b.(last := map[], today := []);
    TickDriven(b.last);
    VehicleBookings(ROAD, CONFIG, b.last, FRAME, SEEN);
    var seen := ObserveVehicle(ROAD, CONFIG, b.last, FRAME, blank, SEEN);
    assert ObserveVehicles(ROAD, CONFIG, b.last, FRAME, blank, 0) == blank;
    assert ObserveVehicles(ROAD, CONFIG, b.last, FRAME, blank, 1) == seen;
    assert seen.last.Keys == {0};
    NobodyGone(b.last, seen.last);
  }

  lemma NobodyGone(before: map<nat, LastObs>, now: map<nat, LastObs>)
    requires before.Keys == now.Keys
    ensures GoneIds(before, now) == []
  {
    FirstListed(GoneIds(before, now));
  }

  lemma FirstListed(ids: seq<nat>)
    ensures ids == [] || ids[0] in ids
  {
  }

  // ---------------------------------------------------------------- the horizon

  /** A lone vehicle a metre past the wall is refunded a metre. */
  lemma HorizonRefunds(r: Books)
    requires ROAD.Valid() && BooksValid(ROAD, r) && r.last.Keys == {0} && r.last[0].lane == 1 && r.last[0].s == 3.0
    ensures Finalize(ROAD, CONFIG, r, 1).vmt == r.vmt - 1.0
  {
    hide HorizonTick, Sum, BookSets, EmitAll, SetsShaped;
    var ids := LastIds(r);
    OneId(r);
    HorizonBooks(ROAD, r.last[0]);
    MetreBack(r.last[0]);
    assert RefundAll(ROAD, CONFIG, r, ids, 0, 1) == r;
    var refunded := RefundAll(ROAD, CONFIG, r, ids, 1, 1);
    RefundsShape(ROAD, CONFIG, r, ids, 1, 1);
    EmitAllKeeps(refunded.(sets := CloseHorizons(refunded.sets, 1)), 1);
  }

  lemma MetreBack(prev: LastObs)
    requires ROAD.Valid() && prev.lane == 1 && prev.s == 3.0
    ensures HorizonTick(ROAD, prev).dist == -1.0
  {
    hide Refund;
  }

  lemma FirstTwoDiffer(ids: seq<nat>)
    requires forall i, j | 0 <= i < j < |ids| :: ids[i] < ids[j]
    ensures |ids| <= 1 || (ids[0] in ids && ids[1] in ids && ids[0] < ids[1])
  {
  }

  lemma OneId(r: Books)
    requires r.last.Keys == {0}
    ensures LastIds(r) == [0]
  {
    var ids := LastIds(r);
    assert forall id :: id in ids <==> id in r.last.Keys;
    FirstTwoDiffer(ids);
    FirstListed(ids);
    assert 0 in ids;
  }

  /** The whole-network set of a run that ends there emits four metres; the books hold three. */
  lemma ParkedMissesRefund()
    ensures ROAD.Valid() && OnLanesOf(ROAD, [PLACED]) && NewSets([WHOLE]) && Consecutive(ROAD, [FRAME])
    ensures BooksValid(ROAD, NewBooks(CONFIG, [WHOLE], [PLACED]))
    ensures var r := Run(ROAD, CONFIG, NewBooks(CONFIG, [WHOLE], [PLACED]), [FRAME]);
      var f := Finalize(ROAD, CONFIG, r, 1);
      f.vmt == 3.0 && |f.sets| == 1 && Emitted(f.sets[0]).dist == 4.0
  {
    hide Observe, Finalize, Consecutive, OnLanesOf, NewSets, BooksValid, Balanced, Emitted, FrameValid, Journal, Measuring, Total, Seeds;
    RoadValid();
    var b := NewBooks(CONFIG, [WHOLE], [PLACED]);
    RunBalances(ROAD, CONFIG, [WHOLE], [PLACED], [FRAME]);
    SeededPlaced();
    assert [FRAME][..0] == [];
    var r := Run(ROAD, CONFIG, b, [FRAME]);
    assert Run(ROAD, CONFIG, b, []) == b;
    AfterFrame(b);
    HorizonRefunds(r);
    RunEmits(ROAD, CONFIG, [WHOLE], [PLACED], [FRAME], 0);
    RunIntervals(ROAD, CONFIG, [WHOLE], [PLACED], [FRAME], 0);
    EverythingClosed(r, RunStops(ROAD, CONFIG, b, [FRAME]));
  }

  lemma EverythingClosed(r: Books, stops: nat)
    requires ROAD.Valid() && Balanced(ROAD, CONFIG, r, stops, 0.0)
    requires |r.sets| == 1 && r.sets[0].lanes == [0, 1] && r.sets[0].beginTick == 0 && r.sets[0].lastTick == 0
    requires r.sets[0].period == 1 && OnGrid(r.sets[0], 1)
    ensures r.sets[0].Shaped() && Total(r.sets[0]).dist == r.vmt && r.sets[0].openFirst > Seen(r.sets[0], 1)
  {
    hide Total, TripTotal, LastValid, Covering;
    WholeCovers(r.sets[0]);
    assert Everything(ROAD, r.sets[0]);
  }

  lemma WholeCovers(s: MetricSet)
    requires s.lanes == [0, 1]
    ensures Covering(s, |ROAD.lanes|)
  {
    assert forall l: nat | l < 2 :: l == s.lanes[l];
  }
}
