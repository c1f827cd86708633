/** The metric kernel's books: what observing a tick, losing a vehicle and reaching the horizon
    do to the run totals, the open trips and the measurement sets, and what stays balanced. */
module MetricLedger {
  import opened AscendingIds
  import opened LaneGraph
  import opened MetricSets
  import opened MetricTicks

  datatype Trip = Trip(
    typeName: string, origin: nat, dest: nat, entryTick: nat, dist: real, loss: real, stops: nat, stoppedS: real)

  datatype TripRecord = TripRecord(id: nat, trip: Trip, exitTick: nat, completed: bool, stranded: bool)

  datatype Config = Config(dt: real, tracking: bool)

  /** The kernel's fields; `today` is the bookings since the intervals were last closed. */
  datatype Books = Books(
    sets: seq<MetricSet>, vmt: real, vht: real, loss: real,
    last: map<nat, LastObs>, trips: map<nat, Trip>, records: seq<TripRecord>,
    completed: nat, strandedTrips: nat, dropped: nat, today: seq<Booking>)

  /** What the engine shows the kernel after a step. */
  datatype Frame = Frame(
    tick: nat, vehicles: seq<Vehicle>, entries: map<nat, real>, origins: set<nat>, stranded: set<nat>)

  ghost predicate FrameValid(net: Network, fr: Frame) {
    && fr.tick > 0
    && (forall i | 0 <= i < |fr.vehicles| :: fr.vehicles[i].lane < |net.lanes|)
    && forall i, j | 0 <= i < j < |fr.vehicles| :: fr.vehicles[i].id != fr.vehicles[j].id
  }

  ghost predicate LastValid(net: Network, last: map<nat, LastObs>) {
    forall id | id in last :: last[id].lane < |net.lanes|
  }

  ghost predicate SetsShaped(sets: seq<MetricSet>) {
    forall i | 0 <= i < |sets| :: sets[i].Shaped()
  }

  ghost predicate BooksValid(net: Network, b: Books) {
    LastValid(net, b.last) && SetsShaped(b.sets)
  }

  // ---------------------------------------------------------------- ascending ids

  /** The ids seen before and not now, ascending. */
  function GoneIds(before: map<nat, LastObs>, now: map<nat, LastObs>): (r: seq<nat>)
    ensures forall id :: id in r <==> id in before && id !in now
    ensures forall i | 0 <= i < |r| :: r[i] in before
    ensures forall i, j | 0 <= i < j < |r| :: r[i] < r[j]
  {
    var r := Ascend(before.Keys - now.Keys);
    assert forall i | 0 <= i < |r| :: r[i] in r;
    r
  }

  // ---------------------------------------------------------------- trips in total

  /** What of a trip the totals account for. */
  function TripAmount(t: Trip): Amount {
    Amount(t.dist, 0.0, 0.0, t.loss, t.stops)
  }

  function OpenTotal(trips: map<nat, Trip>): Amount
    decreases |trips|
  {
    if trips == map[] then ZERO
    else
      var id := Least(trips.Keys);
      Smaller(trips, id);
      Plus(TripAmount(trips[id]), OpenTotal(trips - {id}))
  }

  lemma Smaller(trips: map<nat, Trip>, id: nat)
    requires id in trips
    ensures |trips - {id}| < |trips|
  {
    assert (trips - {id}).Keys == trips.Keys - {id};
    assert |trips.Keys - {id}| < |trips.Keys|;
    assert |trips| == |trips.Keys| && |trips - {id}| == |(trips - {id}).Keys|;
  }

  /** Any open trip can be taken out of the total. */
  lemma {:induction false} TakeOut(trips: map<nat, Trip>, id: nat)
    requires id in trips
    ensures OpenTotal(trips) == Plus(TripAmount(trips[id]), OpenTotal(trips - {id}))
    decreases |trips|
  {
    hide TripAmount;
    var first := Least(trips.Keys);
    if first != id {
      Smaller(trips, first);
      var rest := trips - {id};
      assert first in rest && rest.Keys == trips.Keys - {id};
      assert Least(rest.Keys) == first;
      TakeOut(trips - {first}, id);
      assert trips - {first} - {id} == rest - {first};
      SumSwaps(TripAmount(trips[first]), TripAmount(trips[id]), OpenTotal(rest - {first}));
    }
  }

  lemma SumSwaps(a: Amount, b: Amount, c: Amount)
    ensures Plus(a, Plus(b, c)) == Plus(b, Plus(a, c))
  {
  }

  lemma PutIn(trips: map<nat, Trip>, id: nat, t: Trip)
    ensures OpenTotal(trips[id := t]) == Plus(TripAmount(t), OpenTotal(trips - {id}))
  {
    TakeOut(trips[id := t], id);
    assert trips[id := t] - {id} == trips - {id};
  }

  function RecordTotal(records: seq<TripRecord>): Amount {
    if records == [] then ZERO else Plus(RecordTotal(records[..|records| - 1]), TripAmount(records[|records| - 1].trip))
  }

  function TripTotal(b: Books): Amount {
    Plus(OpenTotal(b.trips), RecordTotal(b.records))
  }

  // ---------------------------------------------------------------- booking

  function BookSets(sets: seq<MetricSet>, bs: seq<Booking>, tick: nat): (r: seq<MetricSet>)
    ensures |r| == |sets| && forall i | 0 <= i < |r| :: r[i] == BookedAll(sets[i], bs, tick)
  {
    seq(|sets|, i requires 0 <= i < |sets| => BookedAll(sets[i], bs, tick))
  }

  /** Every booking goes to the run totals and to every set. */
  function Book(b: Books, bs: seq<Booking>, tick: nat): Books {
    b.(sets := BookSets(b.sets, bs, tick), vmt := b.vmt + Sum(bs).dist, vht := b.vht + Sum(bs).time, today := b.today + bs)
  }

  // ---------------------------------------------------------------- a vehicle observed

  function VehicleTick(net: Network, c: Config, last: map<nat, LastObs>, fr: Frame, v: Vehicle): Tick
    requires net.Valid() && LastValid(net, last) && v.lane < |net.lanes|
  {
    if v.id in last then MovedTick(net, last[v.id], v, c.dt)
    else FirstTick(net, v, if v.id in fr.entries then Some(fr.entries[v.id]) else None, v.lane in fr.origins, c.dt)
  }

  predicate Starts(last: map<nat, LastObs>, v: Vehicle) {
    v.v < STOP_SPEED && (v.id !in last || !last[v.id].stopped)
  }

  /** A stop episode is booked where its first stopped tick is observed. */
  function StopBookings(last: map<nat, LastObs>, v: Vehicle): seq<Booking> {
    if Starts(last, v) then [StopStart(v.lane)] else []
  }

  function TripOf(trips: map<nat, Trip>, v: Vehicle, tick: nat): Trip
    requires tick > 0
  {
    if v.id in trips then trips[v.id] else Trip(v.vt.name, v.lane, v.lane, tick - 1, 0.0, 0.0, 0, 0.0)
  }

  function TripAfter(t: Trip, v: Vehicle, k: Tick, starts: bool, dt: real): Trip {
    t.(dest := v.lane, dist := t.dist + k.dist, loss := t.loss + k.loss,
       stops := t.stops + (if starts then 1 else 0), stoppedS := t.stoppedS + (if v.v < STOP_SPEED then dt else 0.0))
  }

  function ObsOf(v: Vehicle, k: Tick): LastObs {
    LastObs(v.lane, v.s, v.v, v.vt, v.f, v.v < STOP_SPEED, k.dtShare, k.tlShare, v.route)
  }

  /** `b.last` collects the observations of this tick; `last` is those of the one before. */
  function ObserveVehicle(net: Network, c: Config, last: map<nat, LastObs>, fr: Frame, b: Books, v: Vehicle): Books
    requires net.Valid() && LastValid(net, last) && v.lane < |net.lanes| && fr.tick > 0
  {
    var k := VehicleTick(net, c, last, fr, v);
    Book(b, k.bookings + StopBookings(last, v), fr.tick)
      .(loss := b.loss + k.loss, dropped := b.dropped + k.dropped, last := b.last[v.id := ObsOf(v, k)],
        trips := if c.tracking then b.trips[v.id := TripAfter(TripOf(b.trips, v, fr.tick), v, k, Starts(last, v), c.dt)] else b.trips)
  }

  // ---------------------------------------------------------------- a vehicle gone

  function Stranded(c: Config, fr: Frame, b: Books, id: nat): Books {
    if c.tracking && id in b.trips then
      b.(strandedTrips := b.strandedTrips + 1, trips := b.trips - {id},
         records := b.records + [TripRecord(id, b.trips[id], fr.tick, false, true)])
    else b.(strandedTrips := b.strandedTrips + 1)
  }

  function TripOut(trips: map<nat, Trip>, prev: LastObs, id: nat): Trip {
    if id in trips then trips[id] else Trip(prev.vt.name, prev.lane, prev.lane, 0, 0.0, 0.0, 0, 0.0)
  }

  function TripEnd(t: Trip, k: Tick, exit: Option<nat>): Trip {
    t.(dest := if exit.Some? then exit.value else t.dest, dist := t.dist + k.dist, loss := t.loss + k.loss)
  }

  function DroveOut(net: Network, c: Config, fr: Frame, b: Books, id: nat, prev: LastObs): Books
    requires net.Valid() && prev.lane < |net.lanes|
  {
    var k := ExitTick(net, prev, c.dt);
    var trip := TripEnd(TripOut(b.trips, prev, id), k, ExitShares(net, prev).lane);
    Book(b, k.bookings, fr.tick)
      .(loss := b.loss + k.loss, dropped := b.dropped + k.dropped, completed := b.completed + 1,
        trips := if c.tracking then b.trips - {id} else b.trips,
        records := if c.tracking then b.records + [TripRecord(id, trip, fr.tick, true, false)] else b.records)
  }

  function ObserveGone(net: Network, c: Config, last: map<nat, LastObs>, fr: Frame, b: Books, id: nat): Books
    requires net.Valid() && LastValid(net, last) && id in last
  {
    if id in fr.stranded then Stranded(c, fr, b, id) else DroveOut(net, c, fr, b, id, last[id])
  }

  // ---------------------------------------------------------------- a tick

  function ObserveVehicles(net: Network, c: Config, last: map<nat, LastObs>, fr: Frame, b: Books, n: nat): Books
    requires net.Valid() && LastValid(net, last) && FrameValid(net, fr) && n <= |fr.vehicles|
  {
    if n == 0 then b else ObserveVehicle(net, c, last, fr, ObserveVehicles(net, c, last, fr, b, n - 1), fr.vehicles[n - 1])
  }

  function ObserveAllGone(net: Network, c: Config, last: map<nat, LastObs>, fr: Frame, b: Books, gone: seq<nat>, n: nat): Books
    requires net.Valid() && LastValid(net, last) && n <= |gone| && forall i | 0 <= i < |gone| :: gone[i] in last
  {
    if n == 0 then b else ObserveGone(net, c, last, fr, ObserveAllGone(net, c, last, fr, b, gone, n - 1), gone[n - 1])
  }

  function CloseSets(sets: seq<MetricSet>, tick: nat): (r: seq<MetricSet>)
    requires SetsShaped(sets)
    ensures |r| == |sets| && SetsShaped(r) && forall i | 0 <= i < |r| :: r[i] == CloseDue(sets[i], tick)
  {
    seq(|sets|, i requires 0 <= i < |sets| => CloseDue(sets[i], tick))
  }

  lemma BookShapes(b: Books, bs: seq<Booking>, tick: nat)
    requires SetsShaped(b.sets)
    ensures SetsShaped(Book(b, bs, tick).sets)
  {
    forall i | 0 <= i < |b.sets| ensures BookedAll(b.sets[i], bs, tick).Shaped() {
      BookedAllShaped(b.sets[i], bs, tick);
    }
  }

  lemma OneVehicleShapes(net: Network, c: Config, last: map<nat, LastObs>, fr: Frame, b: Books, v: Vehicle)
    requires net.Valid() && LastValid(net, last) && v.lane < |net.lanes| && fr.tick > 0 && BooksValid(net, b)
    ensures BooksValid(net, ObserveVehicle(net, c, last, fr, b, v))
  {
    hide Book, VehicleTick, StopBookings, SetsShaped;
    BookShapes(b, VehicleTick(net, c, last, fr, v).bookings + StopBookings(last, v), fr.tick);
  }

  lemma {:induction false} VehiclesShape(net: Network, c: Config, last: map<nat, LastObs>, fr: Frame, b: Books, n: nat)
    requires net.Valid() && LastValid(net, last) && FrameValid(net, fr) && n <= |fr.vehicles| && BooksValid(net, b)
    ensures BooksValid(net, ObserveVehicles(net, c, last, fr, b, n))
  {
    hide ObserveVehicle, BooksValid;
    if n > 0 {
      VehiclesShape(net, c, last, fr, b, n - 1);
      OneVehicleShapes(net, c, last, fr, ObserveVehicles(net, c, last, fr, b, n - 1), fr.vehicles[n - 1]);
    }
  }

  lemma OneGoneShapes(net: Network, c: Config, last: map<nat, LastObs>, fr: Frame, b: Books, id: nat)
    requires net.Valid() && LastValid(net, last) && id in last && BooksValid(net, b)
    ensures BooksValid(net, ObserveGone(net, c, last, fr, b, id))
  {
    hide BookSets, Sum, ExitTick, SetsShaped;
    BookShapes(b, ExitTick(net, last[id], c.dt).bookings, fr.tick);
  }

  lemma {:induction false} GoneShape(net: Network, c: Config, last: map<nat, LastObs>, fr: Frame, b: Books, gone: seq<nat>, n: nat)
    requires net.Valid() && LastValid(net, last) && n <= |gone| && forall i | 0 <= i < |gone| :: gone[i] in last
    requires BooksValid(net, b)
    ensures BooksValid(net, ObserveAllGone(net, c, last, fr, b, gone, n))
  {
    hide ObserveGone, BooksValid;
    if n > 0 {
      GoneShape(net, c, last, fr, b, gone, n - 1);
      OneGoneShapes(net, c, last, fr, ObserveAllGone(net, c, last, fr, b, gone, n - 1), gone[n - 1]);
    }
  }

  lemma BookTickShapes(net: Network, c: Config, fr: Frame, b: Books)
    requires net.Valid() && BooksValid(net, b) && FrameValid(net, fr)
    ensures BooksValid(net, BookTick(net, c, fr, b))
  {
    hide ObserveVehicles, ObserveAllGone, SetsShaped;
    var blank := b.(last := map[], today := []);
    VehiclesShape(net, c, b.last, fr, blank, |fr.vehicles|);
    var seen := ObserveVehicles(net, c, b.last, fr, blank, |fr.vehicles|);
    var gone := GoneIds(b.last, seen.last);
    GoneShape(net, c, b.last, fr, seen, gone, |gone|);
  }

  /** Vehicles in order, then the ids gone since the last tick in ascending order. */
  function BookTick(net: Network, c: Config, fr: Frame, b: Books): Books
    requires net.Valid() && LastValid(net, b.last) && FrameValid(net, fr)
  {
    var seen := ObserveVehicles(net, c, b.last, fr, b.(last := map[], today := []), |fr.vehicles|);
    var gone := GoneIds(b.last, seen.last);
    ObserveAllGone(net, c, b.last, fr, seen, gone, |gone|)
  }

  /** One engine step folded in: the bookings, then the intervals that are due. */
  function Observe(net: Network, c: Config, fr: Frame, b: Books): (r: Books)
    requires net.Valid() && BooksValid(net, b) && FrameValid(net, fr)
    ensures BooksValid(net, r)
  {
    var k := BookTick(net, c, fr, b);
    BookTickShapes(net, c, fr, b);
    k.(sets := CloseSets(k.sets, fr.tick))
  }

  // ---------------------------------------------------------------- what stays balanced

  /** The set measures every lane over the whole run. */
  ghost predicate Everything(net: Network, s: MetricSet) {
    Covering(s, |net.lanes|) && s.beginTick == 0 && s.lastTick == 0
  }

  /** Every set that measures everything adds up to the given amount (presence apart). */
  ghost predicate SetsMatch(net: Network, sets: seq<MetricSet>, a: Amount) {
    && SetsShaped(sets)
    && forall i | 0 <= i < |sets| && Everything(net, sets[i]) :: Total(sets[i]).(occ := 0.0) == a
  }

  /** The run totals, the trips and the sets tell one story: open and emitted trips add up to
      the distance and loss of the run, and so do open and emitted intervals, which add up to
      its time too. `stops` is the number of stop episodes, `back` the loss refunded at the
      horizon. */
  ghost predicate Balanced(net: Network, c: Config, b: Books, stops: nat, back: real) {
    && BooksValid(net, b)
    && SetsMatch(net, b.sets, Amount(b.vmt, b.vht, 0.0, b.loss - back, stops))
    && (c.tracking ==> TripTotal(b) == Amount(b.vmt, 0.0, 0.0, b.loss, stops))
  }

  lemma SetsBooked(net: Network, sets: seq<MetricSet>, a: Amount, bs: seq<Booking>, tick: nat)
    requires SetsMatch(net, sets, a) && OnLanes(bs, |net.lanes|) && tick > 0
    ensures SetsMatch(net, BookSets(sets, bs, tick), Plus(a, Sum(bs).(occ := 0.0)))
    ensures SetsShaped(BookSets(sets, bs, tick))
  {
    hide Total, Sum, BookedAll;
    forall i | 0 <= i < |sets|
      ensures var r := BookedAll(sets[i], bs, tick);
        && r.Shaped() && (Everything(net, r) ==> Everything(net, sets[i]))
        && (Everything(net, r) ==> Total(r).(occ := 0.0) == Plus(a, Sum(bs).(occ := 0.0)))
    {
      BookedAllShaped(sets[i], bs, tick);
      if Everything(net, sets[i]) {
        CoveringTotal(sets[i], bs, tick, |net.lanes|);
      }
    }
  }

  lemma TakenOut(trips: map<nat, Trip>, id: nat, t: Trip)
    requires if id in trips then t == trips[id] else TripAmount(t) == ZERO
    ensures OpenTotal(trips) == Plus(TripAmount(t), OpenTotal(trips - {id}))
  {
    hide OpenTotal;
    if id in trips {
      TakeOut(trips, id);
    } else {
      assert trips - {id} == trips;
    }
  }

  lemma SumOfOne(b: Booking)
    ensures Sum([b]) == b.a
  {
    assert [b][..0] == [];
  }

  lemma StopsBooked(net: Network, last: map<nat, LastObs>, v: Vehicle)
    requires v.lane < |net.lanes|
    ensures Sum(StopBookings(last, v)) == Amount(0.0, 0.0, 0.0, 0.0, if Starts(last, v) then 1 else 0)
    ensures OnLanes(StopBookings(last, v), |net.lanes|)
  {
    hide Sum, Starts;
    NoSum();
    SumOfOne(StopStart(v.lane));
  }

  lemma VehicleTickExact(net: Network, c: Config, last: map<nat, LastObs>, fr: Frame, v: Vehicle)
    requires net.Valid() && LastValid(net, last) && v.lane < |net.lanes|
    ensures BooksExactly(net, VehicleTick(net, c, last, fr, v), c.dt)
  {
    hide BooksExactly, MovedTick, FirstTick;
    var entry := if v.id in fr.entries then Some(fr.entries[v.id]) else None;
    if v.id in last {
      VehicleTickBooks(net, last[v.id], v, entry, v.lane in fr.origins, c.dt);
    } else {
      VehicleTickBooks(net, LastObs(v.lane, 0.0, 0.0, v.vt, v.f, false, 0.0, 0.0, ""), v, entry, v.lane in fr.origins, c.dt);
    }
  }

  /** All a vehicle books in a tick: its travel and the start of a stop. */
  lemma VehicleBookings(net: Network, c: Config, last: map<nat, LastObs>, fr: Frame, v: Vehicle)
    requires net.Valid() && LastValid(net, last) && v.lane < |net.lanes|
    ensures var k := VehicleTick(net, c, last, fr, v);
      && Sum(k.bookings + StopBookings(last, v)).(occ := 0.0)
         == Amount(k.dist, c.dt, 0.0, k.loss, if Starts(last, v) then 1 else 0)
      && OnLanes(k.bookings + StopBookings(last, v), |net.lanes|)
  {
    hide VehicleTick, StopBookings, Sum, Starts;
    var k := VehicleTick(net, c, last, fr, v);
    VehicleTickExact(net, c, last, fr, v);
    StopsBooked(net, last, v);
    SumAppends(k.bookings, StopBookings(last, v));
  }

  /** Observing a vehicle keeps the books balanced and books exactly dt of time. */
  lemma VehicleKeeps(net: Network, c: Config, last: map<nat, LastObs>, fr: Frame, b: Books, v: Vehicle, stops: nat)
    requires net.Valid() && LastValid(net, last) && v.lane < |net.lanes| && fr.tick > 0
    requires Balanced(net, c, b, stops, 0.0)
    ensures var r := ObserveVehicle(net, c, last, fr, b, v);
      Balanced(net, c, r, stops + (if Starts(last, v) then 1 else 0), 0.0) && r.vht == b.vht + c.dt
  {
    hide VehicleTick, Sum, SetsMatch, Starts, StopBookings, OpenTotal, RecordTotal;
    var k := VehicleTick(net, c, last, fr, v);
    VehicleBookings(net, c, last, fr, v);
    SetsBooked(net, b.sets, Amount(b.vmt, b.vht, 0.0, b.loss - 0.0, stops), k.bookings + StopBookings(last, v), fr.tick);
    if c.tracking {
      var t := TripOf(b.trips, v, fr.tick);
      TakenOut(b.trips, v.id, t);
      PutIn(b.trips, v.id, TripAfter(t, v, k, Starts(last, v), c.dt));
    }
  }

  lemma RecordAdded(b: Books, r: TripRecord)
    ensures RecordTotal(b.records + [r]) == Plus(RecordTotal(b.records), TripAmount(r.trip))
  {
    assert (b.records + [r])[..|b.records|] == b.records;
  }

  lemma StrandedKeeps(net: Network, c: Config, fr: Frame, b: Books, id: nat, stops: nat)
    requires Balanced(net, c, b, stops, 0.0)
    ensures Balanced(net, c, Stranded(c, fr, b, id), stops, 0.0)
  {
    hide SetsMatch, OpenTotal, RecordTotal;
    if c.tracking && id in b.trips {
      TakeOut(b.trips, id);
      RecordAdded(b, TripRecord(id, b.trips[id], fr.tick, false, true));
    }
  }

  lemma DroveOutKeeps(net: Network, c: Config, fr: Frame, b: Books, id: nat, prev: LastObs, stops: nat)
    requires net.Valid() && prev.lane < |net.lanes| && fr.tick > 0
    requires Balanced(net, c, b, stops, 0.0)
    ensures var r := DroveOut(net, c, fr, b, id, prev);
      Balanced(net, c, r, stops, 0.0) && r.vht == b.vht + ExitTime(prev, ExitShares(net, prev).shares, c.dt)
  {
    hide ExitTick, Sum, SetsMatch, OpenTotal, RecordTotal, ExitShares, ExitTime;
    var k := ExitTick(net, prev, c.dt);
    ExitTickBooks(net, prev, c.dt);
    SetsBooked(net, b.sets, Amount(b.vmt, b.vht, 0.0, b.loss - 0.0, stops), k.bookings, fr.tick);
    if c.tracking {
      var t := TripOut(b.trips, prev, id);
      TakenOut(b.trips, id, t);
      RecordAdded(b, TripRecord(id, TripEnd(t, k, ExitShares(net, prev).lane), fr.tick, true, false));
    }
  }

  /** The time the vehicles gone are estimated to have driven; none for the stranded. */
  function GoneTime(net: Network, c: Config, last: map<nat, LastObs>, fr: Frame, gone: seq<nat>, n: nat): real
    requires net.Valid() && LastValid(net, last) && n <= |gone| && forall i | 0 <= i < |gone| :: gone[i] in last
  {
    if n == 0 then 0.0
    else
      var id := gone[n - 1];
      GoneTime(net, c, last, fr, gone, n - 1)
      + if id in fr.stranded then 0.0 else ExitTime(last[id], ExitShares(net, last[id]).shares, c.dt)
  }

  lemma {:induction false} AllGoneKeep(net: Network, c: Config, last: map<nat, LastObs>, fr: Frame, b: Books, gone: seq<nat>, n: nat, stops: nat)
    requires net.Valid() && LastValid(net, last) && n <= |gone| && forall i | 0 <= i < |gone| :: gone[i] in last
    requires fr.tick > 0 && Balanced(net, c, b, stops, 0.0)
    ensures var r := ObserveAllGone(net, c, last, fr, b, gone, n);
      Balanced(net, c, r, stops, 0.0) && r.vht == b.vht + GoneTime(net, c, last, fr, gone, n)
  {
    hide Balanced, DroveOut, ExitTime, ExitShares;
    if n > 0 {
      AllGoneKeep(net, c, last, fr, b, gone, n - 1, stops);
      var r := ObserveAllGone(net, c, last, fr, b, gone, n - 1);
      var id := gone[n - 1];
      if id in fr.stranded {
        StrandedKeeps(net, c, fr, r, id, stops);
      } else {
        DroveOutKeeps(net, c, fr, r, id, last[id], stops);
      }
    }
  }

  /** The stop episodes that the first n vehicles of a frame start. */
  function StopsIn(last: map<nat, LastObs>, vs: seq<Vehicle>, n: nat): nat
    requires n <= |vs|
  {
    if n == 0 then 0 else StopsIn(last, vs, n - 1) + if Starts(last, vs[n - 1]) then 1 else 0
  }

  lemma {:induction false} VehiclesKeep(net: Network, c: Config, last: map<nat, LastObs>, fr: Frame, b: Books, n: nat, stops: nat)
    requires net.Valid() && LastValid(net, last) && FrameValid(net, fr) && n <= |fr.vehicles|
    requires Balanced(net, c, b, stops, 0.0)
    ensures var r := ObserveVehicles(net, c, last, fr, b, n);
      Balanced(net, c, r, stops + StopsIn(last, fr.vehicles, n), 0.0) && r.vht == b.vht + n as real * c.dt
  {
    hide Balanced, ObserveVehicle, Starts;
    if n > 0 {
      VehiclesKeep(net, c, last, fr, b, n - 1, stops);
      VehicleKeeps(net, c, last, fr, ObserveVehicles(net, c, last, fr, b, n - 1), fr.vehicles[n - 1], stops + StopsIn(last, fr.vehicles, n - 1));
    }
  }

  /** The ids gone since the last tick. */
  function Gone(net: Network, c: Config, fr: Frame, b: Books): (r: seq<nat>)
    requires net.Valid() && LastValid(net, b.last) && FrameValid(net, fr)
    ensures forall i | 0 <= i < |r| :: r[i] in b.last
  {
    GoneIds(b.last, ObserveVehicles(net, c, b.last, fr, b.(last := map[], today := []), |fr.vehicles|).last)
  }

  lemma BookTickKeeps(net: Network, c: Config, fr: Frame, b: Books, stops: nat)
    requires net.Valid() && FrameValid(net, fr) && Balanced(net, c, b, stops, 0.0)
    ensures var r := BookTick(net, c, fr, b);
      && Balanced(net, c, r, stops + StopsIn(b.last, fr.vehicles, |fr.vehicles|), 0.0)
      && r.vht == b.vht + |fr.vehicles| as real * c.dt + GoneTime(net, c, b.last, fr, Gone(net, c, fr, b), |Gone(net, c, fr, b)|)
  {
    hide ObserveVehicles, ObserveAllGone, StopsIn, GoneTime, SetsMatch, OpenTotal, RecordTotal;
    var blank := b.(last := map[], today := []);
    VehiclesKeep(net, c, b.last, fr, blank, |fr.vehicles|, stops);
    var seen := ObserveVehicles(net, c, b.last, fr, blank, |fr.vehicles|);
    var gone := Gone(net, c, fr, b);
    AllGoneKeep(net, c, b.last, fr, seen, gone, |gone|, stops + StopsIn(b.last, fr.vehicles, |fr.vehicles|));
  }

  lemma SetsClosed(net: Network, sets: seq<MetricSet>, a: Amount, tick: nat)
    requires SetsMatch(net, sets, a)
    ensures SetsMatch(net, CloseSets(sets, tick), a)
  {
    hide Total, CloseDue;
    forall i | 0 <= i < |sets|
      ensures var r := CloseDue(sets[i], tick); Total(r) == Total(sets[i]) && (Everything(net, r) ==> Everything(net, sets[i]))
    {
      CloseDueTotal(sets[i], tick);
      CloseDueKeeps(sets[i], tick);
    }
  }

  lemma CloseDueKeeps(s: MetricSet, tick: nat)
    requires s.Shaped()
    ensures var r := CloseDue(s, tick); r.lanes == s.lanes && r.beginTick == s.beginTick && r.lastTick == s.lastTick
  {
    hide Closed;
    CloseFullTotal(s, tick);
    CloseLastKeeps(CloseFull(s, tick), tick);
  }
}
