/** The metric kernel as it runs: every method booked against the ledger it specifies. */
module Metrics {
  import opened AscendingIds
  import opened LaneGraph
  import opened MetricSets
  import MetricTicks
  import opened MetricLedger
  import opened MetricRun
  import opened MetricFinal

  type LastObs = MetricTicks.LastObs
  type Vehicle = MetricTicks.Vehicle
  type VType = MetricTicks.VType
  type Share = MetricTicks.Share

  /** Booking in two goes is booking both at once. */
  lemma BookTwice(b: Books, x: seq<Booking>, y: seq<Booking>, tick: nat)
    ensures Book(Book(b, x, tick), y, tick) == Book(b, x + y, tick)
  {
    hide Sum, BookedAll;
    SumAppends(x, y);
    forall i | 0 <= i < |b.sets| ensures BookedAll(BookedAll(b.sets[i], x, tick), y, tick) == BookedAll(b.sets[i], x + y, tick) {
      BookedTwice(b.sets[i], x, y, tick);
    }
    assert b.today + (x + y) == b.today + x + y;
  }

  lemma BookNothing(b: Books, tick: nat)
    ensures Book(b, [], tick) == b
  {
    assert b.today + [] == b.today;
    assert BookSets(b.sets, [], tick) == b.sets;
  }

  /** Every interval of a set that is due, closed one after another. */
  method CloseDueSet(s0: MetricSet, tick: nat) returns (s: MetricSet)
    requires s0.Shaped()
    ensures s == CloseDue(s0, tick)
  {
    hide Current, Total;
    s := s0;
    while s.openLast <= tick && (s.lastTick == 0 || s.openLast <= s.lastTick)
      invariant s.Shaped() && CloseFull(s, tick) == CloseFull(s0, tick)
      decreases tick + 1 - s.openLast
    {
      ClosedTotal(s, s.openFirst - 1, s.openLast, false);
      s := Closed(s, s.openFirst - 1, s.openLast, false).(openFirst := s.openLast + 1, openLast := s.openLast + s.period);
    }
    if s.lastTick > 0 && tick >= s.lastTick && s.openFirst <= s.lastTick {
      s := Closed(s, s.openFirst - 1, s.lastTick, true).(openFirst := s.lastTick + 1);
    }
  }

  /** The free-flow part of a split tick: positive distance and the time it takes. */
  method Travel(net: Network, vt: VType, f: real, shares: seq<Share>) returns (D: real, free: Option<real>)
    requires MetricTicks.OnNet(net, shares)
    ensures D == MetricTicks.Positive(shares) && free == MetricTicks.FreeTime(net, vt, f, shares)
  {
    D, free := 0.0, Some(0.0);
    for i := 0 to |shares|
      invariant D == MetricTicks.Positive(shares[..i]) && free == MetricTicks.FreeTime(net, vt, f, shares[..i])
    {
      var sh := shares[i];
      assert shares[..i + 1][..i] == shares[..i];
      if sh.d > 0.0 {
        D := D + sh.d;
        var v0 := MetricTicks.V0Eff(net, vt, f, sh.lane);
        free := if free.None? || v0 == 0.0 then None else Some(free.value + sh.d / v0);
      }
    }
    assert shares[..|shares|] == shares;
  }

  method PortionOf(shares: seq<Share>, whole: real, D: real, i: nat) returns (p: real)
    requires i < |shares| && D == MetricTicks.Positive(shares)
    ensures p == MetricTicks.Portion(shares, whole, i)
  {
    p := whole;
    if D > 0.0 && shares[i].d <= 0.0 {
      p := 0.0;
    } else if D > 0.0 {
      p := whole * shares[i].d / D;
    } else if i < |shares| - 1 {
      p := 0.0;
    }
  }

  class Kernel {
    const net: Network
    const c: Config
    var sets: seq<MetricSet>
    var vmt: real
    var vht: real
    var timeLoss: real
    var last: map<nat, LastObs>
    var trips: map<nat, Trip>
    var records: seq<TripRecord>
    var completed: nat
    var strandedTrips: nat
    var dropped: nat
    ghost var today: seq<Booking>

    ghost function State(): Books
      reads this
    {
      Books(sets, vmt, vht, timeLoss, last, trips, records, completed, strandedTrips, dropped, today)
    }

    ghost predicate Valid()
      reads this
    {
      net.Valid() && BooksValid(net, State())
    }

    constructor (net: Network, c: Config, sets: seq<MetricSet>, placed: seq<Vehicle>)
      requires net.Valid() && OnLanesOf(net, placed) && NewSets(sets)
      ensures this.net == net && this.c == c && State() == NewBooks(c, sets, placed) && Valid()
    {
      this.net, this.c, this.sets := net, c, sets;
      vmt, vht, timeLoss := 0.0, 0.0, 0.0;
      last := Seeds(placed, c.dt);
      trips := if c.tracking then SeedTrips(placed) else map[];
      records, completed, strandedTrips, dropped, today := [], 0, 0, 0, [];
      new;
      NewBooksBalanced(net, c, sets, placed);
    }

    /** Adds one amount of one lane to the totals, and to each set whose window and lanes take it. */
    method Add(b: Booking, tick: nat)
      modifies this`sets, this`vmt, this`vht, this`today
      ensures State() == Book(old(State()), [b], tick)
    {
      vmt, vht := vmt + b.a.dist, vht + b.a.time;
      ghost var was := sets;
      for i := 0 to |sets|
        invariant |sets| == |was|
        invariant forall j | 0 <= j < |was| :: sets[j] == if j < i then Booked(was[j], b, tick) else was[j]
        invariant vmt == old(vmt) + b.a.dist && vht == old(vht) + b.a.time && today == old(today)
      {
        sets := sets[i := Booked(sets[i], b, tick)];
      }
      today := today + [b];
      assert sets == BookSets(was, [b], tick) by {
        forall j | 0 <= j < |was| ensures BookedAll(was[j], [b], tick) == Booked(was[j], b, tick) {
          assert [b][..0] == [];
        }
      }
      SumOfOne(b);
    }

    method AddAll(bs: seq<Booking>, tick: nat)
      modifies this`sets, this`vmt, this`vht, this`today
      ensures State() == Book(old(State()), bs, tick)
    {
      BookNothing(State(), tick);
      for i := 0 to |bs|
        invariant State() == Book(old(State()), bs[..i], tick)
      {
        Add(bs[i], tick);
        BookTwice(old(State()), bs[..i], [bs[i]], tick);
        assert bs[..i + 1] == bs[..i] + [bs[i]];
      }
      assert bs[..|bs|] == bs;
    }

    /** A tick's travel split over lanes: time and loss in proportion to positive distance, or
        all to the last lane when nobody moved. */
    method AccountShares(vt: VType, f: real, shares: seq<Share>, totalT: real, tick: nat) returns (tickLoss: real)
      requires MetricTicks.OnNet(net, shares)
      modifies this`sets, this`vmt, this`vht, this`today
      ensures tickLoss == MetricTicks.TickLoss(net, vt, f, shares, totalT)
      ensures State() == Book(old(State()), MetricTicks.AccountShares(net, vt, f, shares, totalT, |shares|), tick)
    {
      var D, free := Travel(net, vt, f, shares);
      tickLoss := if free.None? || totalT - free.value <= 0.0 then 0.0 else totalT - free.value;
      BookNothing(State(), tick);
      assert tickLoss == MetricTicks.TickLoss(net, vt, f, shares, totalT);
      for i := 0 to |shares|
        invariant State() == Book(old(State()), MetricTicks.AccountShares(net, vt, f, shares, totalT, i), tick)
      {
        BookShare(vt, f, shares, totalT, tickLoss, D, i, tick);
        BookTwice(old(State()), MetricTicks.AccountShares(net, vt, f, shares, totalT, i),
                  MetricTicks.ShareBookings(net, vt, f, shares, totalT, i), tick);
      }
    }

    method BookShare(vt: VType, f: real, shares: seq<Share>, totalT: real, tickLoss: real, D: real, i: nat, tick: nat)
      requires MetricTicks.OnNet(net, shares) && i < |shares|
      requires D == MetricTicks.Positive(shares) && tickLoss == MetricTicks.TickLoss(net, vt, f, shares, totalT)
      modifies this`sets, this`vmt, this`vht, this`today
      ensures State() == Book(old(State()), MetricTicks.ShareBookings(net, vt, f, shares, totalT, i), tick)
    {
      hide MetricTicks.Positive, MetricTicks.TickLoss, Book;
      var sh := shares[i];
      var ti := PortionOf(shares, totalT, D, i);
      var tli := PortionOf(shares, tickLoss, D, i);
      ghost var bs := MetricTicks.ShareBookings(net, vt, f, shares, totalT, i);
      assert |bs| == 3 && bs[0] == Segment(sh.lane, sh.d, ti) && bs[1] == Loss(sh.lane, tli);
      assert bs[2] == Presence(sh.lane, ti * vt.length);
      assert bs == [Segment(sh.lane, sh.d, ti), Loss(sh.lane, tli), Presence(sh.lane, ti * vt.length)];
      AddAll([Segment(sh.lane, sh.d, ti), Loss(sh.lane, tli), Presence(sh.lane, ti * vt.length)], tick);
    }

    /** The travel of a crossing that left from within its lane. */
    method Cross(prev: LastObs, v: Vehicle, tick: nat) returns (k: MetricTicks.Tick)
      requires net.Valid() && prev.lane < |net.lanes| && v.lane < |net.lanes|
      modifies this`sets, this`vmt, this`vht, this`today
      ensures k == MetricTicks.CrossTick(net, prev, v, c.dt) && State() == Book(old(State()), k.bookings, tick)
    {
      hide Book, MetricTicks.Driven, MetricTicks.TickLoss, MetricTicks.AccountShares, MetricTicks.SumD;
      var r := MetricTicks.Driven(net, prev, v);
      var n := |r.0| - 1;
      var shares := [MetricTicks.Share(prev.lane, net.lanes[prev.lane].length - prev.s)] + MetricTicks.Lengths(net, r.0[1..n])
        + if r.0[n] != prev.lane then [MetricTicks.Share(r.0[n], MetricTicks.Clamped(v.s))] else [];
      var loss := AccountShares(v.vt, v.f, shares, c.dt, tick);
      k := MetricTicks.Tick(
        MetricTicks.AccountShares(net, v.vt, v.f, shares, c.dt, |shares|), MetricTicks.SumD(shares), loss,
        MetricTicks.Arrived(shares, c.dt), MetricTicks.Arrived(shares, loss), r.1);
    }

    /** The refund of what an earlier tick booked past the lane end, carried to the lane the
        vehicle turned out to be on, and then this tick's own travel. */
    method RefundAndCarry(prev: LastObs, v: Vehicle, tick: nat) returns (k: MetricTicks.Tick)
      requires net.Valid() && prev.lane < |net.lanes| && v.lane < |net.lanes|
      modifies this`sets, this`vmt, this`vht, this`today
      ensures k == MetricTicks.RefundTick(net, prev, v, c.dt) && State() == Book(old(State()), k.bookings, tick)
    {
      hide Book, MetricTicks.Driven, MetricTicks.TickLoss, MetricTicks.AccountShares, MetricTicks.SumD;
      hide MetricTicks.PastTime, MetricTicks.PastLoss, MetricTicks.Past, MetricTicks.Refund, MetricTicks.Signed;
      var r := MetricTicks.Driven(net, prev, v);
      var n := |r.0| - 1;
      var t, tl := MetricTicks.PastTime(net, prev), MetricTicks.PastLoss(net, prev);
      var back := MetricTicks.Refund(net, prev, v.vt.length);
      var carry := MetricTicks.Signed(net, r.0[n], 0.0, t, v.vt.length, tl);
      AddAll(back, tick);
      AddAll(carry, tick);
      BookTwice(old(State()), back, carry, tick);
      var shares := MetricTicks.Lengths(net, r.0[1..n]) + [MetricTicks.Share(r.0[n], MetricTicks.Clamped(v.s))];
      var loss := AccountShares(v.vt, v.f, shares, c.dt, tick);
      BookTwice(old(State()), back + carry, MetricTicks.AccountShares(net, v.vt, v.f, shares, c.dt, |shares|), tick);
      k := MetricTicks.RefundTick(net, prev, v, c.dt);
    }

    /** One vehicle's tick, booked where it was driven. */
    method BookVehicle(prev: Option<LastObs>, fr: Frame, v: Vehicle) returns (k: MetricTicks.Tick)
      requires net.Valid() && v.lane < |net.lanes| && (prev.Some? ==> prev.value.lane < |net.lanes|)
      modifies this`sets, this`vmt, this`vht, this`today
      ensures k == (
        if prev.Some? then MetricTicks.MovedTick(net, prev.value, v, c.dt)
        else MetricTicks.FirstTick(net, v, if v.id in fr.entries then Some(fr.entries[v.id]) else None, v.lane in fr.origins, c.dt))
      ensures State() == Book(old(State()), k.bookings, fr.tick)
    {
      hide Book, MetricTicks.CrossTick, MetricTicks.RefundTick, MetricTicks.OneLane;
      if prev.None? {
        k := MetricTicks.FirstTick(net, v, if v.id in fr.entries then Some(fr.entries[v.id]) else None, v.lane in fr.origins, c.dt);
        AddAll(k.bookings, fr.tick);
      } else if prev.value.lane == v.lane {
        k := MetricTicks.StayTick(net, prev.value, v, c.dt);
        AddAll(k.bookings, fr.tick);
      } else if net.lanes[prev.value.lane].left == Some(v.lane) || net.lanes[prev.value.lane].right == Some(v.lane) {
        k := MetricTicks.HopTick(net, prev.value, v, c.dt);
        AddAll(k.bookings, fr.tick);
      } else if net.lanes[prev.value.lane].length - prev.value.s < 0.0 {
        k := RefundAndCarry(prev.value, v, fr.tick);
      } else {
        k := Cross(prev.value, v, fr.tick);
      }
    }

    /** Observes one vehicle; `cur` collects this tick's observations. */
    method See(fr: Frame, cur0: map<nat, LastObs>, v: Vehicle) returns (cur: map<nat, LastObs>)
      requires net.Valid() && LastValid(net, last) && v.lane < |net.lanes| && fr.tick > 0
      modifies this`sets, this`vmt, this`vht, this`today, this`timeLoss, this`trips, this`dropped
      ensures State().(last := cur) == ObserveVehicle(net, c, last, fr, old(State()).(last := cur0), v)
    {
      hide Sum, BookSets, MetricTicks.MovedTick, MetricTicks.FirstTick, StopBookings, Starts;
      var k := BookVehicle(if v.id in last then Some(last[v.id]) else None, fr, v);
      AddAll(StopBookings(last, v), fr.tick);
      BookTwice(old(State()), k.bookings, StopBookings(last, v), fr.tick);
      timeLoss, dropped := timeLoss + k.loss, dropped + k.dropped;
      if c.tracking {
        trips := trips[v.id := TripAfter(TripOf(trips, v, fr.tick), v, k, Starts(last, v), c.dt)];
      }
      cur := cur0[v.id := ObsOf(v, k)];
    }

    /** A vehicle that is gone: stranded where it stood, or driven out. */
    method Leave(fr: Frame, id: nat)
      requires net.Valid() && LastValid(net, last) && id in last
      modifies this`sets, this`vmt, this`vht, this`today, this`timeLoss, this`trips, this`records, this`completed, this`strandedTrips, this`dropped
      ensures State() == ObserveGone(net, c, last, fr, old(State()), id)
    {
      hide Sum, BookSets, MetricTicks.ExitShares, MetricTicks.AccountShares, MetricTicks.TickLoss;
      if id in fr.stranded {
        strandedTrips := strandedTrips + 1;
        if c.tracking && id in trips {
          records := records + [TripRecord(id, trips[id], fr.tick, false, true)];
          trips := trips - {id};
        }
      } else {
        var prev := last[id];
        var k := MetricTicks.ExitTick(net, prev, c.dt);
        var x := MetricTicks.ExitShares(net, prev);
        var tl := AccountShares(prev.vt, prev.f, x.shares, MetricTicks.ExitTime(prev, x.shares, c.dt), fr.tick);
        timeLoss, dropped, completed := timeLoss + tl, dropped + x.dropped, completed + 1;
        if c.tracking {
          records := records + [TripRecord(id, TripEnd(TripOut(trips, prev, id), k, x.lane), fr.tick, true, false)];
          trips := trips - {id};
        }
      }
    }

    /** Folds one engine step in: vehicles in order, the gone in ascending id, intervals due. */
    method ObserveFrame(fr: Frame)
      requires Valid() && FrameValid(net, fr)
      modifies this
      ensures Valid() && State() == Observe(net, c, fr, old(State()))
    {
      hide ObserveVehicle, ObserveGone, SetsShaped, CloseDue;
      ghost var start := State();
      BookTickShapes(net, c, fr, start);
      today := [];
      var cur: map<nat, LastObs> := map[];
      for i := 0 to |fr.vehicles|
        invariant last == start.last
        invariant State().(last := cur) == ObserveVehicles(net, c, last, fr, start.(last := map[], today := []), i)
      {
        cur := See(fr, cur, fr.vehicles[i]);
      }
      ghost var seen := State().(last := cur);
      var gone := GoneIds(last, cur);
      for i := 0 to |gone|
        invariant last == start.last
        invariant State().(last := cur) == ObserveAllGone(net, c, last, fr, seen, gone, i)
      {
        LeaveKeepsLast(State(), fr, gone[i], cur);
        Leave(fr, gone[i]);
      }
      last := cur;
      CloseAll(fr.tick);
    }

    /** Whose observations are being collected does not matter to a vehicle that is gone. */
    lemma LeaveKeepsLast(b: Books, fr: Frame, id: nat, cur: map<nat, LastObs>)
      requires net.Valid() && LastValid(net, b.last) && id in b.last
      ensures ObserveGone(net, c, b.last, fr, b.(last := cur), id) == ObserveGone(net, c, b.last, fr, b, id).(last := cur)
    {
      hide MetricTicks.ExitTick, MetricTicks.ExitShares;
    }

    method CloseAll(tick: nat)
      requires SetsShaped(sets)
      modifies this`sets
      ensures sets == CloseSets(old(sets), tick)
    {
      hide CloseDue;
      ghost var was := sets;
      for i := 0 to |sets|
        invariant |sets| == |was| && SetsShaped(sets)
        invariant forall j | 0 <= j < |was| :: sets[j] == if j < i then CloseDue(was[j], tick) else was[j]
      {
        var s := CloseDueSet(sets[i], tick);
        sets := sets[i := s];
      }
    }

    /** A vehicle parked past its lane end at the horizon is refunded here. */
    method RefundParked(id: nat, tick: nat)
      requires net.Valid() && LastValid(net, last) && id in last
      modifies this`sets, this`vmt, this`vht, this`today, this`dropped, this`trips
      ensures State() == RefundOne(net, c, old(State()), id, tick)
    {
      hide Sum, BookSets, MetricTicks.HorizonTick;
      var k := MetricTicks.HorizonTick(net, last[id]);
      AddAll(k.bookings, tick);
      dropped := dropped + k.dropped;
      if c.tracking && id in trips {
        trips := trips[id := trips[id].(dist := trips[id].dist + k.dist)];
      }
    }

    method RefundAllParked(tick: nat)
      requires Valid()
      modifies this`sets, this`vmt, this`vht, this`today, this`dropped, this`trips
      ensures State() == RefundAll(net, c, old(State()), LastIds(old(State())), |LastIds(old(State()))|, tick)
    {
      hide RefundOne, SetsShaped;
      ghost var start := State();
      var ids := GoneIds(last, map[]);
      for i := 0 to |ids|
        invariant State() == RefundAll(net, c, start, ids, i, tick)
      {
        RefundParked(ids[i], tick);
      }
    }

    method EmitTrips(tick: nat)
      modifies this`records, this`trips
      ensures State() == EmitAll(old(State()), tick)
    {
      while trips != map[]
        invariant EmitAll(State(), tick) == EmitAll(old(State()), tick)
        decreases |trips|
      {
        var id := Least(trips.Keys);
        Smaller(trips, id);
        records := records + [TripRecord(id, trips[id], tick, false, false)];
        trips := trips - {id};
      }
    }

    /** Closes the run: refunds, final intervals, and the trips still under way. */
    method FinalizeAt(tick: nat)
      requires Valid()
      modifies this
      ensures State() == Finalize(net, c, old(State()), tick)
    {
      hide RefundAll, EmitAll, SetsShaped, CloseHorizon, LastIds;
      ghost var start := State();
      RefundAllParked(tick);
      RefundsShape(net, c, start, LastIds(start), |LastIds(start)|, tick);
      sets := CloseHorizons(sets, tick);
      EmitTrips(tick);
    }
  }
}
