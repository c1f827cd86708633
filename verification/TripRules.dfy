/** Trips in plain terms: what a tick adds to a trip, how a trip ends, and how the counters of a
    run match the records it emits. */
module TripRules {
  import AscendingIds
  import opened LaneGraph
  import opened MetricSets
  import opened MetricTicks
  import opened MetricLedger
  import opened MetricRun
  import MetricFinal

  // ---------------------------------------------------------------- before the run

  /** A vehicle placed before the run is remembered where it stands, without loss, and its trip
      starts there at tick 0; a stop it begins with is not counted again. */
  lemma {:induction false} PlacedIsSeeded(vs: seq<Vehicle>, dt: real, i: nat)
    requires i < |vs| && forall j | 0 <= j < |vs| && j != i :: vs[j].id != vs[i].id
    ensures var v := vs[i];
      && v.id in Seeds(vs, dt) && Seeds(vs, dt)[v.id] == LastObs(v.lane, v.s, v.v, v.vt, v.f, v.v < 0.1, dt, 0.0, v.route)
      && v.id in SeedTrips(vs) && SeedTrips(vs)[v.id] == Trip(v.vt.name, v.lane, v.lane, 0, 0.0, 0.0, 0, 0.0)
  {
    var n := |vs| - 1;
    if i < n {
      PlacedIsSeeded(vs[..n], dt, i);
    }
  }

  // ---------------------------------------------------------------- under way

  /** A trip starts where and one tick before its vehicle is first seen. */
  ghost function Begun(v: Vehicle, tick: nat): Trip
    requires tick > 0
  {
    Trip(v.vt.name, v.lane, v.lane, tick - 1, 0.0, 0.0, 0, 0.0)
  }

  /** A tick adds its distance and loss to the trip of the vehicle seen, a stop where one begins,
      and its length where the vehicle is slower than 0.1 m/s; the trip now ends where the
      vehicle is. Nobody else's trip changes. */
  lemma TickOfTrip(net: Network, c: Config, last: map<nat, LastObs>, fr: Frame, b: Books, v: Vehicle)
    requires net.Valid() && LastValid(net, last) && v.lane < |net.lanes| && fr.tick > 0 && c.tracking
    ensures var r, k := ObserveVehicle(net, c, last, fr, b, v), VehicleTick(net, c, last, fr, v);
      var t := if v.id in b.trips then b.trips[v.id] else Begun(v, fr.tick);
      var slow := v.v < 0.1;
      && r.trips == b.trips[v.id := Trip(
           t.typeName, t.origin, v.lane, t.entryTick, t.dist + k.dist, t.loss + k.loss,
           t.stops + (if slow && (v.id !in last || !last[v.id].stopped) then 1 else 0), t.stoppedS + (if slow then c.dt else 0.0))]
      && r.records == b.records && r.loss == b.loss + k.loss && r.dropped == b.dropped + k.dropped
      && r.last == b.last[v.id := LastObs(v.lane, v.s, v.v, v.vt, v.f, slow, k.dtShare, k.tlShare, v.route)]
  {
    hide VehicleTick, BookSets, Sum;
  }

  // ---------------------------------------------------------------- ended

  /** A trip ends stranded, as it stood, with nothing booked for the tick; or completed, with
      its way out added, at the exit or the destination if that is certain. */
  lemma EndOfTrip(net: Network, c: Config, last: map<nat, LastObs>, fr: Frame, b: Books, id: nat)
    requires net.Valid() && LastValid(net, last) && id in last && c.tracking && id in b.trips
    ensures var r, t := ObserveGone(net, c, last, fr, b, id), b.trips[id];
      && r.trips == b.trips - {id} && r.last == b.last
      && (id in fr.stranded ==>
            && r == b.(trips := r.trips, records := r.records, strandedTrips := b.strandedTrips + 1)
            && r.records == b.records + [TripRecord(id, t, fr.tick, false, true)])
      && (id !in fr.stranded ==>
            var k, out := ExitTick(net, last[id], c.dt), ExitShares(net, last[id]).lane;
            && r.completed == b.completed + 1 && r.strandedTrips == b.strandedTrips
            && r.records == b.records + [TripRecord(id, Trip(
                 t.typeName, t.origin, if out.Some? then out.value else t.dest, t.entryTick, t.dist + k.dist, t.loss + k.loss,
                 t.stops, t.stoppedS), fr.tick, true, false)])
  {
    hide ExitTick, ExitShares, BookSets, Sum;
  }

  /** How many records carry these flags. */
  function Number(records: seq<TripRecord>, completed: bool, stranded: bool): nat {
    if records == [] then 0
    else
      var n := |records| - 1;
      Number(records[..n], completed, stranded) + if records[n].completed == completed && records[n].stranded == stranded then 1 else 0
  }

  /** Every record is of a completed or of a stranded trip, and the counters count them; every
      open trip ends, so far, on the lane its vehicle was last seen on. */
  ghost predicate Tallied(b: Books) {
    && b.completed == Number(b.records, true, false) && b.strandedTrips == Number(b.records, false, true)
    && |b.records| == b.completed + b.strandedTrips
  }

  ghost predicate OnLastLane(b: Books) {
    forall id | id in b.trips :: id in b.last && b.trips[id].dest == b.last[id].lane
  }

  lemma {:induction false} VehiclesTally(net: Network, c: Config, last: map<nat, LastObs>, fr: Frame, b: Books, n: nat)
    requires net.Valid() && LastValid(net, last) && FrameValid(net, fr) && n <= |fr.vehicles| && c.tracking
    ensures var r := ObserveVehicles(net, c, last, fr, b, n);
      && r.records == b.records && r.completed == b.completed && r.strandedTrips == b.strandedTrips
      && forall id | id in Ids(fr.vehicles, n) :: id in r.trips && id in r.last && r.trips[id].dest == r.last[id].lane
  {
    hide ObserveVehicle, VehicleTick;
    if n > 0 {
      VehiclesTally(net, c, last, fr, b, n - 1);
      var q, v := ObserveVehicles(net, c, last, fr, b, n - 1), fr.vehicles[n - 1];
      TickOfTrip(net, c, last, fr, q, v);
      CountersStay(net, c, last, fr, q, v);
    }
  }

  lemma CountersStay(net: Network, c: Config, last: map<nat, LastObs>, fr: Frame, b: Books, v: Vehicle)
    requires net.Valid() && LastValid(net, last) && v.lane < |net.lanes| && fr.tick > 0
    ensures var r := ObserveVehicle(net, c, last, fr, b, v); r.completed == b.completed && r.strandedTrips == b.strandedTrips
  {
    hide VehicleTick, BookSets, Sum;
  }

  lemma NumberGrows(records: seq<TripRecord>, x: TripRecord, completed: bool, stranded: bool)
    ensures Number(records + [x], completed, stranded)
      == Number(records, completed, stranded) + if x.completed == completed && x.stranded == stranded then 1 else 0
  {
    assert (records + [x])[..|records|] == records;
  }

  lemma {:induction false} GoneTally(net: Network, c: Config, last: map<nat, LastObs>, fr: Frame, b: Books, gone: seq<nat>, n: nat)
    requires net.Valid() && LastValid(net, last) && n <= |gone| && c.tracking && Tallied(b)
    requires forall i | 0 <= i < |gone| :: gone[i] in last && gone[i] in b.trips
    requires forall i, j | 0 <= i < j < |gone| :: gone[i] != gone[j]
    ensures var r := ObserveAllGone(net, c, last, fr, b, gone, n);
      && Tallied(r) && r.last == b.last
      && (forall id | id in r.trips :: id in b.trips && r.trips[id] == b.trips[id])
      && forall i | n <= i < |gone| :: gone[i] in r.trips
  {
    hide ObserveGone, Number, ExitTick, ExitShares;
    if n > 0 {
      GoneTally(net, c, last, fr, b, gone, n - 1);
      var q, id := ObserveAllGone(net, c, last, fr, b, gone, n - 1), gone[n - 1];
      EndOfTrip(net, c, last, fr, q, id);
      var r := ObserveGone(net, c, last, fr, q, id);
      var x := r.records[|q.records|];
      assert r.records == q.records + [x];
      NumberGrows(q.records, x, true, false);
      NumberGrows(q.records, x, false, true);
    }
  }

  /** The vehicles of a tick leave the tally as it was. */
  lemma SeenTallies(net: Network, c: Config, fr: Frame, b: Books)
    requires net.Valid() && LastValid(net, b.last) && FrameValid(net, fr) && c.tracking && Tallied(b) && b.trips.Keys == b.last.Keys
    ensures var seen := ObserveVehicles(net, c, b.last, fr, b.(last := map[], today := []), |fr.vehicles|);
      && Tallied(seen) && seen.last.Keys == Ids(fr.vehicles, |fr.vehicles|) && seen.trips.Keys == b.last.Keys + seen.last.Keys
      && forall id | id in seen.last :: id in seen.trips && seen.trips[id].dest == seen.last[id].lane
  {
    hide ObserveVehicles, FrameValid, Number;
    var blank := b.(last := map[], today := []);
    VehiclesTally(net, c, b.last, fr, blank, |fr.vehicles|);
    VehiclesKeys(net, c, b.last, fr, blank, |fr.vehicles|);
  }

  lemma TickTallies(net: Network, c: Config, fr: Frame, b: Books)
    requires net.Valid() && BooksValid(net, b) && FrameValid(net, fr) && c.tracking && KeysMatch(c, b) && Tallied(b)
    ensures var r := Observe(net, c, fr, b); Tallied(r) && OnLastLane(r)
  {
    hide ObserveVehicles, ObserveAllGone, FrameValid, CloseSets, SetsShaped, Number, LastValid;
    SeenTallies(net, c, fr, b);
    var seen := ObserveVehicles(net, c, b.last, fr, b.(last := map[], today := []), |fr.vehicles|);
    var gone := GoneIds(b.last, seen.last);
    GoneTally(net, c, b.last, fr, seen, gone, |gone|);
    GoneKeys(net, c, b.last, fr, seen, gone, |gone|);
    assert gone[..|gone|] == gone;
  }

  /** In every run the completed and stranded counters are the numbers of records of those
      kinds, there are no other records, and open trips end where their vehicles are. */
  lemma {:induction false} RunTallies(net: Network, c: Config, sets: seq<MetricSet>, vs: seq<Vehicle>, frames: seq<Frame>)
    requires net.Valid() && OnLanesOf(net, vs) && NewSets(sets) && Consecutive(net, frames) && c.tracking
    ensures BooksValid(net, NewBooks(c, sets, vs))
    ensures var r := Run(net, c, NewBooks(c, sets, vs), frames); Tallied(r) && (frames != [] ==> OnLastLane(r))
  {
    hide Observe, KeysMatch, BooksValid, FrameValid, OnLastLane, Number, Balanced;
    var b := NewBooks(c, sets, vs);
    RunBalances(net, c, sets, vs, frames);
    if frames == [] {
      NoneYet(c, sets, vs);
    } else {
      var n := |frames| - 1;
      Earlier(net, frames);
      RunTallies(net, c, sets, vs, frames[..n]);
      RunBalances(net, c, sets, vs, frames[..n]);
      TickTallies(net, c, frames[n], Run(net, c, b, frames[..n]));
    }
  }

  lemma NoneYet(c: Config, sets: seq<MetricSet>, vs: seq<Vehicle>)
    ensures Tallied(NewBooks(c, sets, vs))
  {
  }

  /** The records of open trips, by ascending id, each as it stands. */
  ghost predicate Emissions(trips: map<nat, Trip>, rs: seq<TripRecord>, tick: nat) {
    && |rs| == |trips|
    && (forall i | 0 <= i < |rs| :: rs[i].id in trips && rs[i] == TripRecord(rs[i].id, trips[rs[i].id], tick, false, false))
    && forall i, j | 0 <= i < j < |rs| :: rs[i].id < rs[j].id
  }

  lemma FirstEmission(trips: map<nat, Trip>, rs: seq<TripRecord>, id: nat, tick: nat)
    requires id in trips && (forall x | x in trips :: id <= x) && Emissions(trips - {id}, rs, tick)
    ensures Emissions(trips, [TripRecord(id, trips[id], tick, false, false)] + rs, tick)
  {
    assert (trips - {id}).Keys == trips.Keys - {id};
    assert |trips.Keys - {id}| == |trips.Keys| - 1;
    assert |trips| == |trips.Keys| && |trips - {id}| == |(trips - {id}).Keys|;
  }

  /** At the horizon every trip still open is emitted as it stands, neither completed nor
      stranded, and the counters stay. */
  lemma {:induction false} OpenEmitted(b: Books, tick: nat)
    ensures var r := MetricFinal.EmitAll(b, tick);
      && r.trips == map[] && r.completed == b.completed && r.strandedTrips == b.strandedTrips
      && b.records <= r.records && Emissions(b.trips, r.records[|b.records|..], tick)
    decreases |b.trips|
  {
    hide Emissions;
    if b.trips == map[] {
      NoEmission(tick);
      assert b.records[|b.records|..] == [];
    } else {
      var id := AscendingIds.Least(b.trips.Keys);
      Smaller(b.trips, id);
      var q := MetricFinal.EmitOpen(b, id, tick);
      OpenEmitted(q, tick);
      var r := MetricFinal.EmitAll(q, tick);
      var rest := r.records[|q.records|..];
      FirstEmission(b.trips, rest, id, tick);
      assert r.records == q.records + rest;
      assert r.records[|b.records|..] == [TripRecord(id, b.trips[id], tick, false, false)] + rest;
    }
  }

  lemma NoEmission(tick: nat)
    ensures Emissions(map[], [], tick)
  {
  }
}
