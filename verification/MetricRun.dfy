/** Whole runs of the metric kernel: what Observe keeps from the first tick to the horizon, and
    what Finalize makes of it. */
module MetricRun {
  import opened AscendingIds
  import opened LaneGraph
  import opened MetricSets
  import opened MetricTicks
  import opened MetricLedger

  // ---------------------------------------------------------------- the start

  /** A vehicle placed before the run: its placement is no travel, its trip starts at zero. */
  function Seeds(vs: seq<Vehicle>, dt: real): map<nat, LastObs> {
    if vs == [] then map[]
    else
      var v := vs[|vs| - 1];
      Seeds(vs[..|vs| - 1], dt)[v.id := LastObs(v.lane, v.s, v.v, v.vt, v.f, v.v < STOP_SPEED, dt, 0.0, v.route)]
  }

  function SeedTrips(vs: seq<Vehicle>): map<nat, Trip> {
    if vs == [] then map[]
    else
      var v := vs[|vs| - 1];
      SeedTrips(vs[..|vs| - 1])[v.id := Trip(v.vt.name, v.lane, v.lane, 0, 0.0, 0.0, 0, 0.0)]
  }

  function NewBooks(c: Config, sets: seq<MetricSet>, vs: seq<Vehicle>): Books {
    Books(sets, 0.0, 0.0, 0.0, Seeds(vs, c.dt), if c.tracking then SeedTrips(vs) else map[], [], 0, 0, 0, [])
  }

  /** Measurement sets as configured: lanes distinct and of the network, aligned windows. */
  ghost predicate NewSets(sets: seq<MetricSet>) {
    forall i | 0 <= i < |sets| ::
      var s := sets[i];
      && s == NewSet(s.lanes, s.beginTick, s.lastTick, s.period) && s.period > 0
      && (s.lastTick > 0 ==> s.lastTick > s.beginTick)
      && forall x, y | 0 <= x < y < |s.lanes| :: s.lanes[x] != s.lanes[y]
  }

  ghost predicate OnLanesOf(net: Network, vs: seq<Vehicle>) {
    forall i | 0 <= i < |vs| :: vs[i].lane < |net.lanes|
  }

  /** With trip tracking, exactly the vehicles last seen have an open trip. */
  ghost predicate KeysMatch(c: Config, b: Books) {
    c.tracking ==> b.trips.Keys == b.last.Keys
  }

  lemma {:induction false} SeedsValid(net: Network, c: Config, vs: seq<Vehicle>)
    requires OnLanesOf(net, vs)
    ensures LastValid(net, Seeds(vs, c.dt)) && SeedTrips(vs).Keys == Seeds(vs, c.dt).Keys
  {
    if vs != [] {
      var n := |vs| - 1;
      assert vs[n].lane < |net.lanes|;
      SeedsValid(net, c, vs[..n]);
    }
  }

  lemma {:induction false} SeedTripsZero(vs: seq<Vehicle>, id: nat)
    requires id in SeedTrips(vs)
    ensures TripAmount(SeedTrips(vs)[id]) == ZERO
  {
    if id != vs[|vs| - 1].id {
      SeedTripsZero(vs[..|vs| - 1], id);
    }
  }

  lemma {:induction false} ZeroTotal(trips: map<nat, Trip>)
    requires forall id | id in trips :: TripAmount(trips[id]) == ZERO
    ensures OpenTotal(trips) == ZERO
    decreases |trips|
  {
    hide TripAmount;
    if trips != map[] {
      var id := Least(trips.Keys);
      Smaller(trips, id);
      ZeroTotal(trips - {id});
      PlusAssociates(ZERO, ZERO, ZERO);
    }
  }

  lemma FreshTotal(s: MetricSet)
    requires s.Shaped() && s == NewSet(s.lanes, s.beginTick, s.lastTick, s.period)
    ensures Total(s) == ZERO
  {
    AllZero(Current(s));
  }

  lemma NewBooksBalanced(net: Network, c: Config, sets: seq<MetricSet>, vs: seq<Vehicle>)
    requires OnLanesOf(net, vs) && NewSets(sets)
    ensures var b := NewBooks(c, sets, vs); Balanced(net, c, b, 0, 0.0) && KeysMatch(c, b)
  {
    hide Total, OpenTotal;
    SeedsValid(net, c, vs);
    forall i | 0 <= i < |sets| ensures sets[i].Shaped() && Total(sets[i]) == ZERO {
      var s := sets[i];
      NewSetMeasures(s.lanes, s.beginTick, s.lastTick, s.period);
      FreshTotal(s);
    }
    forall id | id in SeedTrips(vs) ensures TripAmount(SeedTrips(vs)[id]) == ZERO {
      SeedTripsZero(vs, id);
    }
    ZeroTotal(SeedTrips(vs));
    assert OpenTotal(map[]) == ZERO by {
      ZeroTotal(map[]);
    }
  }

  // ---------------------------------------------------------------- who has a trip

  function Ids(vs: seq<Vehicle>, n: nat): (r: set<nat>)
    requires n <= |vs|
  {
    if n == 0 then {} else Ids(vs, n - 1) + {vs[n - 1].id}
  }

  lemma VehicleStep(net: Network, c: Config, last: map<nat, LastObs>, fr: Frame, b: Books, v: Vehicle)
    requires net.Valid() && LastValid(net, last) && v.lane < |net.lanes| && fr.tick > 0
    ensures var r := ObserveVehicle(net, c, last, fr, b, v);
      && r.last.Keys == b.last.Keys + {v.id} && r.completed == b.completed
      && (c.tracking ==> r.trips.Keys == b.trips.Keys + {v.id})
  {
    hide VehicleTick, LastValid;
  }

  lemma GoneStep(net: Network, c: Config, last: map<nat, LastObs>, fr: Frame, b: Books, id: nat)
    requires net.Valid() && LastValid(net, last) && id in last
    ensures var r := ObserveGone(net, c, last, fr, b, id);
      && r.last == b.last && r.completed == b.completed + (if id in fr.stranded then 0 else 1)
      && (c.tracking ==> r.trips.Keys == b.trips.Keys - {id})
  {
    hide ExitTick, ExitShares;
  }

  lemma {:induction false} VehiclesKeys(net: Network, c: Config, last: map<nat, LastObs>, fr: Frame, b: Books, n: nat)
    requires net.Valid() && LastValid(net, last) && FrameValid(net, fr) && n <= |fr.vehicles|
    ensures var r := ObserveVehicles(net, c, last, fr, b, n);
      && r.last.Keys == b.last.Keys + Ids(fr.vehicles, n)
      && (c.tracking ==> r.trips.Keys == b.trips.Keys + Ids(fr.vehicles, n))
  {
    hide ObserveVehicle;
    if n > 0 {
      VehiclesKeys(net, c, last, fr, b, n - 1);
      VehicleStep(net, c, last, fr, ObserveVehicles(net, c, last, fr, b, n - 1), fr.vehicles[n - 1]);
    }
  }

  lemma {:induction false} GoneKeys(net: Network, c: Config, last: map<nat, LastObs>, fr: Frame, b: Books, gone: seq<nat>, n: nat)
    requires net.Valid() && LastValid(net, last) && n <= |gone| && forall i | 0 <= i < |gone| :: gone[i] in last
    ensures var r := ObserveAllGone(net, c, last, fr, b, gone, n);
      && r.last == b.last
      && (c.tracking ==> forall id :: id in r.trips <==> id in b.trips && id !in gone[..n])
  {
    hide ObserveGone;
    if n > 0 {
      GoneKeys(net, c, last, fr, b, gone, n - 1);
      GoneStep(net, c, last, fr, ObserveAllGone(net, c, last, fr, b, gone, n - 1), gone[n - 1]);
      assert gone[..n] == gone[..n - 1] + [gone[n - 1]];
    }
  }

  /** After a tick the open trips are those of the vehicles just seen. */
  lemma KeysKept(net: Network, c: Config, fr: Frame, b: Books)
    requires net.Valid() && BooksValid(net, b) && FrameValid(net, fr) && KeysMatch(c, b)
    ensures var r := Observe(net, c, fr, b); KeysMatch(c, r) && r.last.Keys == Ids(fr.vehicles, |fr.vehicles|)
  {
    hide ObserveVehicles, ObserveAllGone, FrameValid, CloseSets, SetsShaped;
    var blank := b.(last := map[], today := []);
    var seen := ObserveVehicles(net, c, b.last, fr, blank, |fr.vehicles|);
    VehiclesKeys(net, c, b.last, fr, blank, |fr.vehicles|);
    var gone := GoneIds(b.last, seen.last);
    GoneKeys(net, c, b.last, fr, seen, gone, |gone|);
    assert gone[..|gone|] == gone;
  }

  // ---------------------------------------------------------------- whole runs

  /** One frame for every engine step, from the first. */
  ghost predicate Consecutive(net: Network, frames: seq<Frame>) {
    forall i | 0 <= i < |frames| :: FrameValid(net, frames[i]) && frames[i].tick == i + 1
  }

  function Run(net: Network, c: Config, b: Books, frames: seq<Frame>): (r: Books)
    requires net.Valid() && BooksValid(net, b) && Consecutive(net, frames)
    ensures BooksValid(net, r)
  {
    if frames == [] then b
    else
      var n := |frames| - 1;
      assert FrameValid(net, frames[n]);
      Observe(net, c, frames[n], Run(net, c, b, frames[..n]))
  }

  /** The stop episodes a run starts. */
  function RunStops(net: Network, c: Config, b: Books, frames: seq<Frame>): nat
    requires net.Valid() && BooksValid(net, b) && Consecutive(net, frames)
  {
    if frames == [] then 0
    else
      var n := |frames| - 1;
      RunStops(net, c, b, frames[..n]) + StopsIn(Run(net, c, b, frames[..n]).last, frames[n].vehicles, |frames[n].vehicles|)
  }

  lemma ObserveKeeps(net: Network, c: Config, fr: Frame, b: Books, stops: nat)
    requires net.Valid() && FrameValid(net, fr) && Balanced(net, c, b, stops, 0.0)
    ensures Balanced(net, c, Observe(net, c, fr, b), stops + StopsIn(b.last, fr.vehicles, |fr.vehicles|), 0.0)
  {
    hide BookTick, CloseSets, SetsMatch, SetsShaped, StopsIn, OpenTotal, RecordTotal, FrameValid;
    var k := BookTick(net, c, fr, b);
    BookTickKeeps(net, c, fr, b, stops);
    SetsClosed(net, k.sets, Amount(k.vmt, k.vht, 0.0, k.loss - 0.0, stops + StopsIn(b.last, fr.vehicles, |fr.vehicles|)), fr.tick);
  }

  /** In every run, after every tick: the run's distance, time and loss equal what open and
      emitted intervals of a whole-network set add up to, and its distance and loss what open
      and emitted trips add up to; so do the stops; and every vehicle seen has its open trip. */
  lemma {:induction false} RunBalances(net: Network, c: Config, sets: seq<MetricSet>, vs: seq<Vehicle>, frames: seq<Frame>)
    requires net.Valid() && OnLanesOf(net, vs) && NewSets(sets) && Consecutive(net, frames)
    ensures BooksValid(net, NewBooks(c, sets, vs))
    ensures var b := NewBooks(c, sets, vs);
      var r := Run(net, c, b, frames);
      Balanced(net, c, r, RunStops(net, c, b, frames), 0.0) && KeysMatch(c, r)
  {
    hide Observe, StopsIn, SetsMatch, TripTotal, KeysMatch, BooksValid, FrameValid, NewBooks;
    var b := NewBooks(c, sets, vs);
    NewBooksBalanced(net, c, sets, vs);
    BalancedIsValid(net, c, b, 0);
    if frames != [] {
      var n := |frames| - 1;
      RunBalances(net, c, sets, vs, frames[..n]);
      ObserveKeeps(net, c, frames[n], Run(net, c, b, frames[..n]), RunStops(net, c, b, frames[..n]));
      KeysKept(net, c, frames[n], Run(net, c, b, frames[..n]));
    }
  }

  lemma BalancedIsValid(net: Network, c: Config, b: Books, stops: nat)
    requires Balanced(net, c, b, stops, 0.0)
    ensures BooksValid(net, b)
  {
  }

  // ---------------------------------------------------------------- time

  function VehicleTicks(frames: seq<Frame>): nat {
    if frames == [] then 0 else VehicleTicks(frames[..|frames| - 1]) + |frames[|frames| - 1].vehicles|
  }

  /** How many of the first n gone drove out. */
  function DrivenOut(stranded: set<nat>, gone: seq<nat>, n: nat): nat
    requires n <= |gone|
  {
    if n == 0 then 0 else DrivenOut(stranded, gone, n - 1) + if gone[n - 1] in stranded then 0 else 1
  }

  lemma {:induction false} GoneCompleted(net: Network, c: Config, last: map<nat, LastObs>, fr: Frame, b: Books, gone: seq<nat>, n: nat)
    requires net.Valid() && LastValid(net, last) && n <= |gone| && forall i | 0 <= i < |gone| :: gone[i] in last
    ensures ObserveAllGone(net, c, last, fr, b, gone, n).completed == b.completed + DrivenOut(fr.stranded, gone, n)
  {
    hide ObserveGone;
    if n > 0 {
      GoneCompleted(net, c, last, fr, b, gone, n - 1);
      GoneStep(net, c, last, fr, ObserveAllGone(net, c, last, fr, b, gone, n - 1), gone[n - 1]);
    }
  }

  lemma {:induction false} GoneTimeBounds(net: Network, c: Config, last: map<nat, LastObs>, fr: Frame, gone: seq<nat>, n: nat)
    requires net.Valid() && LastValid(net, last) && n <= |gone| && forall i | 0 <= i < |gone| :: gone[i] in last
    requires c.dt > 0.0
    ensures 0.0 <= GoneTime(net, c, last, fr, gone, n) <= DrivenOut(fr.stranded, gone, n) as real * c.dt
  {
    hide ExitTick, ExitTime, ExitShares;
    if n > 0 {
      GoneTimeBounds(net, c, last, fr, gone, n - 1);
      ExitTickBooks(net, last[gone[n - 1]], c.dt);
      OneMore(DrivenOut(fr.stranded, gone, n - 1), c.dt);
    }
  }

  lemma OneMore(n: nat, dt: real)
    ensures (n + 1) as real * dt == n as real * dt + dt
  {
  }

  lemma {:induction false} VehiclesCompleteNone(net: Network, c: Config, last: map<nat, LastObs>, fr: Frame, b: Books, n: nat)
    requires net.Valid() && LastValid(net, last) && FrameValid(net, fr) && n <= |fr.vehicles|
    ensures ObserveVehicles(net, c, last, fr, b, n).completed == b.completed
  {
    hide ObserveVehicle;
    if n > 0 {
      VehiclesCompleteNone(net, c, last, fr, b, n - 1);
      VehicleStep(net, c, last, fr, ObserveVehicles(net, c, last, fr, b, n - 1), fr.vehicles[n - 1]);
    }
  }

  /** The time a tick estimates for the vehicles gone since the last. */
  function TickExits(net: Network, c: Config, fr: Frame, b: Books): real
    requires net.Valid() && BooksValid(net, b) && FrameValid(net, fr)
  {
    GoneTime(net, c, b.last, fr, Gone(net, c, fr, b), |Gone(net, c, fr, b)|)
  }

  function RunExits(net: Network, c: Config, b: Books, frames: seq<Frame>): real
    requires net.Valid() && BooksValid(net, b) && Consecutive(net, frames)
  {
    if frames == [] then 0.0
    else
      var n := |frames| - 1;
      assert FrameValid(net, frames[n]);
      RunExits(net, c, b, frames[..n]) + TickExits(net, c, frames[n], Run(net, c, b, frames[..n]))
  }

  lemma TickCounts(net: Network, c: Config, fr: Frame, b: Books)
    requires net.Valid() && FrameValid(net, fr) && LastValid(net, b.last)
    ensures var gone := Gone(net, c, fr, b);
      BookTick(net, c, fr, b).completed == b.completed + DrivenOut(fr.stranded, gone, |gone|)
  {
    hide ObserveVehicles, ObserveAllGone, FrameValid, DrivenOut;
    var blank := b.(last := map[], today := []);
    VehiclesCompleteNone(net, c, b.last, fr, blank, |fr.vehicles|);
    var gone := Gone(net, c, fr, b);
    GoneCompleted(net, c, b.last, fr, ObserveVehicles(net, c, b.last, fr, blank, |fr.vehicles|), gone, |gone|);
  }

  /** The exits of a tick: how many, and how long at most. */
  lemma TickCompletes(net: Network, c: Config, fr: Frame, b: Books)
    requires net.Valid() && FrameValid(net, fr) && BooksValid(net, b) && c.dt > 0.0
    ensures var r := BookTick(net, c, fr, b);
      && b.completed <= r.completed
      && 0.0 <= TickExits(net, c, fr, b) <= (r.completed - b.completed) as real * c.dt
  {
    hide BookTick, Gone, GoneTime, FrameValid, SetsShaped, DrivenOut, LastValid;
    TickCounts(net, c, fr, b);
    var gone := Gone(net, c, fr, b);
    GoneTimeBounds(net, c, b.last, fr, gone, |gone|);
  }

  lemma TickTime(net: Network, c: Config, fr: Frame, b: Books, stops: nat)
    requires net.Valid() && FrameValid(net, fr) && BooksValid(net, b) && Balanced(net, c, b, stops, 0.0) && c.dt > 0.0
    ensures var r := Observe(net, c, fr, b);
      && b.completed <= r.completed
      && r.vht == b.vht + |fr.vehicles| as real * c.dt + TickExits(net, c, fr, b)
      && 0.0 <= TickExits(net, c, fr, b) <= (r.completed - b.completed) as real * c.dt
  {
    hide BookTick, StopsIn, GoneTime, Gone, FrameValid, CloseSets, BooksValid, Balanced;
    BookTickKeeps(net, c, fr, b, stops);
    TickCompletes(net, c, fr, b);
  }

  lemma Counts(a: nat, b: nat, dt: real)
    ensures a as real * dt + b as real * dt == (a + b) as real * dt
  {
  }

  /** Every observed vehicle-tick counts dt of time and every exit its estimate, at most dt;
      nothing else counts. */
  lemma {:induction false} RunTime(net: Network, c: Config, sets: seq<MetricSet>, vs: seq<Vehicle>, frames: seq<Frame>)
    requires net.Valid() && OnLanesOf(net, vs) && NewSets(sets) && Consecutive(net, frames) && c.dt > 0.0
    ensures BooksValid(net, NewBooks(c, sets, vs))
    ensures TimeAdds(net, c, NewBooks(c, sets, vs), frames)
  {
    hide Observe, Balanced, BooksValid, FrameValid, RunStops, TimeAdds, NewBooks, Consecutive;
    var b := NewBooks(c, sets, vs);
    RunBalances(net, c, sets, vs, frames);
    if frames == [] {
      TimeStarts(net, c, sets, vs);
    } else {
      var n := |frames| - 1;
      Earlier(net, frames);
      RunTime(net, c, sets, vs, frames[..n]);
      RunBalances(net, c, sets, vs, frames[..n]);
      TimeGoesOn(net, c, b, frames, RunStops(net, c, b, frames[..n]));
    }
  }

  ghost predicate TimeAdds(net: Network, c: Config, b: Books, frames: seq<Frame>)
    requires net.Valid() && BooksValid(net, b) && Consecutive(net, frames)
  {
    var r, exits := Run(net, c, b, frames), RunExits(net, c, b, frames);
    r.vht == VehicleTicks(frames) as real * c.dt + exits && 0.0 <= exits <= r.completed as real * c.dt
  }

  lemma Earlier(net: Network, frames: seq<Frame>)
    requires Consecutive(net, frames) && frames != []
    ensures Consecutive(net, frames[..|frames| - 1]) && FrameValid(net, frames[|frames| - 1])
  {
  }

  lemma TimeStarts(net: Network, c: Config, sets: seq<MetricSet>, vs: seq<Vehicle>)
    requires net.Valid() && c.dt > 0.0 && BooksValid(net, NewBooks(c, sets, vs)) && Consecutive(net, [])
    ensures TimeAdds(net, c, NewBooks(c, sets, vs), [])
  {
    hide BooksValid;
    assert 0 as real * c.dt == 0.0;
  }

  lemma TimeGoesOn(net: Network, c: Config, b: Books, frames: seq<Frame>, stops: nat)
    requires net.Valid() && BooksValid(net, b) && Consecutive(net, frames) && frames != [] && c.dt > 0.0
    requires Consecutive(net, frames[..|frames| - 1]) && FrameValid(net, frames[|frames| - 1])
    requires TimeAdds(net, c, b, frames[..|frames| - 1])
    requires Balanced(net, c, Run(net, c, b, frames[..|frames| - 1]), stops, 0.0)
    ensures TimeAdds(net, c, b, frames)
  {
    hide Observe, Balanced, BooksValid, FrameValid, TickExits, Consecutive;
    var n := |frames| - 1;
    var prev, r := Run(net, c, b, frames[..n]), Run(net, c, b, frames);
    TickTime(net, c, frames[n], prev, stops);
    Counts(VehicleTicks(frames[..n]), |frames[n].vehicles|, c.dt);
    Counts(prev.completed, r.completed - prev.completed, c.dt);
  }
}
