/** What becomes of vehicles that ran off the end of their lane in a tick. The pass sorts them
    out by lane and works from the highest lane down; the reference asks, for every lane,
    every vehicle. */
module Boundaries {
  import opened LaneGraph

  /** `lane` is -1 once the vehicle has left the world. */
  datatype Vehicle = Vehicle(
    id: nat, lane: int, s: real, v: real, length: real, heldTurn: int, route: string, stopDone: bool)

  /** A vehicle and what this boundary pass counted on its account. */
  datatype Trip = Trip(v: Vehicle, despawned: nat, arrived: nat, wallHits: nat, overlaps: multiset<string>)

  /** The next lane of a routed vehicle, from the table of its destination. */
  type Hop = (nat, string) -> Option<nat>

  ghost predicate Steers(net: Network, hop: Hop) {
    forall i: nat, r: string | i < |net.lanes| && hop(i, r).Some? :: Edge(net, i, hop(i, r).value)
  }

  /** A held turn wins, then the route, then the default branch. */
  function PickSuccessor(net: Network, hop: Hop, i: nat, v: Vehicle): (next: nat)
    requires net.Valid() && Steers(net, hop) && i < |net.lanes| && net.lanes[i].successors != []
    ensures Edge(net, i, next) && next < |net.lanes|
  {
    var succ := net.lanes[i].successors;
    var n := |succ|;
    assert LinksInside(net.lanes[i], |net.lanes|);
    if v.heldTurn > 0 then succ[0]
    else if v.heldTurn < 0 then succ[n - 1]
    else if n > 1 && v.route != "" && hop(i, v.route).Some? then hop(i, v.route).value
    else succ[0]
  }

  predicate Moving(net: Network, v: Vehicle, i: nat)
    requires i < |net.lanes|
  {
    v.lane == i && v.s > net.lanes[i].length
  }

  // ---------------------------------------------------------------- landing overlaps

  ghost predicate Ascending(ss: seq<real>) {
    forall i, j | 0 <= i < j < |ss| :: ss[i] <= ss[j]
  }

  /** A position beyond `rear` whose predecessor is not: the only one when the positions
      ascend. Mid-pass they need not, so the halving itself is part of the behaviour. */
  function SearchFrom(ss: seq<real>, rear: real, lo: nat, hi: nat): (r: nat)
    requires lo <= hi <= |ss|
    ensures lo <= r <= hi
    ensures (r < hi ==> ss[r] > rear) && (r > lo ==> ss[r - 1] <= rear)
    decreases hi - lo
  {
    if lo == hi then lo
    else
      var h := (lo + hi) / 2;
      if ss[h] > rear then SearchFrom(ss, rear, lo, h) else SearchFrom(ss, rear, h + 1, hi)
  }

  method Search(ss: seq<real>, rear: real) returns (r: nat)
    ensures r <= |ss| && r == SearchFrom(ss, rear, 0, |ss|)
    ensures (r < |ss| ==> ss[r] > rear) && (r > 0 ==> ss[r - 1] <= rear)
    ensures Ascending(ss) ==>
      (forall j | 0 <= j < r :: ss[j] <= rear) && forall j | r <= j < |ss| :: ss[j] > rear
  {
    var lo, hi := 0, |ss|;
    while lo < hi
      invariant lo <= hi <= |ss|
      invariant SearchFrom(ss, rear, lo, hi) == SearchFrom(ss, rear, 0, |ss|)
      decreases hi - lo
    {
      var h := (lo + hi) / 2;
      if ss[h] > rear {
        hi := h;
      } else {
        lo := h + 1;
      }
    }
    r := lo;
  }

  predicate Occupancy(occ: seq<seq<nat>>, n: nat, m: nat) {
    |occ| == n && forall l, j | 0 <= l < n && 0 <= j < |occ[l]| :: occ[l][j] < m
  }

  function Positions(vs: seq<Vehicle>, a: seq<nat>): (ss: seq<real>)
    requires forall j | 0 <= j < |a| :: a[j] < |vs|
    ensures |ss| == |a| && forall j | 0 <= j < |a| :: ss[j] == vs[a[j]].s
  {
    seq(|a|, j requires 0 <= j < |a| => vs[a[j]].s)
  }

  /** Whether a vehicle put at v.s on a lane with occupants `a` lands on one of them. */
  predicate Lands(vs: seq<Vehicle>, a: seq<nat>, v: Vehicle)
    requires forall j | 0 <= j < |a| :: a[j] < |vs|
  {
    var j := SearchFrom(Positions(vs, a), v.s - v.length, 0, |a|);
    j < |a| && vs[a[j]].s - vs[a[j]].length < v.s
  }

  // ---------------------------------------------------------------- one vehicle, one lane

  function Vehicles(trips: seq<Trip>): (vs: seq<Vehicle>)
    ensures |vs| == |trips| && forall k | 0 <= k < |trips| :: vs[k] == trips[k].v
  {
    seq(|trips|, k requires 0 <= k < |trips| => trips[k].v)
  }

  /** The vehicle at the end of lane i: it leaves, arrives, crosses, or stops at the wall. */
  function Crossed(net: Network, hop: Hop, v: Vehicle, i: nat): Vehicle
    requires net.Valid() && Steers(net, hop) && i < |net.lanes| && Moving(net, v, i)
  {
    var lane := net.lanes[i];
    if lane.exit || (v.route != "" && v.route == lane.id) then v.(lane := -1)
    else if lane.successors != [] then
      var next := PickSuccessor(net, hop, i, v);
      v.(s := v.s - lane.length, lane := next, heldTurn := 0, stopDone := v.stopDone && !net.lanes[next].internal)
    else if lane.endWall then v.(s := lane.length, v := 0.0)
    else v
  }

  /** The overlap counted, by section, when vehicle k crosses from lane i. */
  function Overlap(net: Network, hop: Hop, occ: seq<seq<nat>>, trips: seq<Trip>, k: nat, i: nat): multiset<string>
    requires net.Valid() && Steers(net, hop) && i < |net.lanes| && k < |trips| && Moving(net, trips[k].v, i)
    requires Occupancy(occ, |net.lanes|, |trips|)
  {
    var v, lane := trips[k].v, net.lanes[i];
    if lane.exit || (v.route != "" && v.route == lane.id) || lane.successors == [] then multiset{}
    else
      var next := PickSuccessor(net, hop, i, v);
      var placed := v.(s := v.s - lane.length);
      if Lands(Vehicles(trips)[k := placed], occ[next], placed) then multiset{net.lanes[next].section} else multiset{}
  }

  function Visit(net: Network, hop: Hop, occ: seq<seq<nat>>, trips: seq<Trip>, k: nat, i: nat): Trip
    requires net.Valid() && Steers(net, hop) && i < |net.lanes| && k < |trips|
    requires Occupancy(occ, |net.lanes|, |trips|)
  {
    var t, lane := trips[k], net.lanes[i];
    if !Moving(net, t.v, i) then t
    else
      var arrives := t.v.route != "" && t.v.route == lane.id;
      Trip(
        Crossed(net, hop, t.v, i),
        t.despawned + (if lane.exit || arrives then 1 else 0),
        t.arrived + (if !lane.exit && arrives then 1 else 0),
        t.wallHits + (if !lane.exit && !arrives && lane.successors == [] && lane.endWall then 1 else 0),
        t.overlaps + Overlap(net, hop, occ, trips, k, i))
  }

  /** Some vehicles, one after the other, on lane i. */
  function VisitList(net: Network, hop: Hop, occ: seq<seq<nat>>, trips: seq<Trip>, ks: seq<nat>, i: nat): (r: seq<Trip>)
    requires net.Valid() && Steers(net, hop) && i < |net.lanes|
    requires Occupancy(occ, |net.lanes|, |trips|) && forall j | 0 <= j < |ks| :: ks[j] < |trips|
    ensures |r| == |trips|
  {
    if ks == [] then trips
    else
      var n := |ks| - 1;
      var r := VisitList(net, hop, occ, trips, ks[..n], i);
      r[ks[n] := Visit(net, hop, occ, r, ks[n], i)]
  }

  // ---------------------------------------------------------------- the reference sweep

  function UpTo(n: nat): (ks: seq<nat>)
    ensures |ks| == n && forall k | 0 <= k < n :: ks[k] == k
  {
    seq(n, k requires 0 <= k < n => k)
  }

  /** Lanes i - 1 down to 0, over all vehicles in order. */
  function NaiveSweep(net: Network, hop: Hop, occ: seq<seq<nat>>, trips: seq<Trip>, i: nat): (r: seq<Trip>)
    requires net.Valid() && Steers(net, hop) && i <= |net.lanes| && Occupancy(occ, |net.lanes|, |trips|)
    ensures |r| == |trips|
    decreases i
  {
    if i == 0 then trips
    else NaiveSweep(net, hop, occ, VisitList(net, hop, occ, trips, UpTo(|trips|), i - 1), i - 1)
  }

  // ---------------------------------------------------------------- the bucketed sweep

  type Buckets = map<nat, seq<nat>>

  function Bucket(past: Buckets, l: nat): seq<nat> {
    if l in past then past[l] else []
  }

  function Fill(net: Network, trips: seq<Trip>, m: nat): Buckets
    requires m <= |trips|
  {
    if m == 0 then map[]
    else
      var past := Fill(net, trips, m - 1);
      var v := trips[m - 1].v;
      if 0 <= v.lane < |net.lanes| && v.s > net.lanes[v.lane].length
      then var l: nat := v.lane; past[l := Bucket(past, l) + [m - 1]]
      else past
  }

  datatype Bucketed = Bucketed(trips: seq<Trip>, past: Buckets)

  /** A crosser whose new lane is still to come waits in that lane's bucket. */
  function BucketVisit(net: Network, hop: Hop, occ: seq<seq<nat>>, st: Bucketed, k: nat, i: nat): (r: Bucketed)
    requires net.Valid() && Steers(net, hop) && i < |net.lanes| && k < |st.trips|
    requires Occupancy(occ, |net.lanes|, |st.trips|)
    ensures |r.trips| == |st.trips|
  {
    var t := Visit(net, hop, occ, st.trips, k, i);
    var past :=
      if Moving(net, st.trips[k].v, i) && 0 <= t.v.lane < i && t.v.s > net.lanes[t.v.lane].length
      then var l: nat := t.v.lane; st.past[l := Bucket(st.past, l) + [k]]
      else st.past;
    Bucketed(st.trips[k := t], past)
  }

  function BucketList(net: Network, hop: Hop, occ: seq<seq<nat>>, st: Bucketed, ks: seq<nat>, i: nat): (r: Bucketed)
    requires net.Valid() && Steers(net, hop) && i < |net.lanes|
    requires Occupancy(occ, |net.lanes|, |st.trips|) && forall j | 0 <= j < |ks| :: ks[j] < |st.trips|
    ensures |r.trips| == |st.trips|
  {
    if ks == [] then st
    else
      var n := |ks| - 1;
      BucketVisit(net, hop, occ, BucketList(net, hop, occ, st, ks[..n], i), ks[n], i)
  }

  predicate Inside(past: Buckets, m: nat) {
    forall l, j | l in past && 0 <= j < |past[l]| :: past[l][j] < m
  }

  lemma {:induction false} BucketListInside(net: Network, hop: Hop, occ: seq<seq<nat>>, st: Bucketed, ks: seq<nat>, i: nat)
    requires net.Valid() && Steers(net, hop) && i < |net.lanes|
    requires Occupancy(occ, |net.lanes|, |st.trips|) && forall j | 0 <= j < |ks| :: ks[j] < |st.trips|
    requires Inside(st.past, |st.trips|)
    ensures Inside(BucketList(net, hop, occ, st, ks, i).past, |st.trips|)
  {
    if ks != [] {
      BucketListInside(net, hop, occ, st, ks[..|ks| - 1], i);
    }
  }

  /** Lanes i - 1 down to 0, each over its bucket. */
  function BucketSweep(net: Network, hop: Hop, occ: seq<seq<nat>>, st: Bucketed, i: nat): (r: seq<Trip>)
    requires net.Valid() && Steers(net, hop) && i <= |net.lanes| && Occupancy(occ, |net.lanes|, |st.trips|)
    requires Inside(st.past, |st.trips|)
    ensures |r| == |st.trips|
    decreases i
  {
    if i == 0 then st.trips
    else
      var vs := Bucket(st.past, i - 1);
      var r := BucketList(net, hop, occ, st.(past := st.past - {i - 1}), vs, i - 1);
      BucketListInside(net, hop, occ, st.(past := st.past - {i - 1}), vs, i - 1);
      BucketSweep(net, hop, occ, r, i - 1)
  }

  // ---------------------------------------------------------------- order within a lane

  ghost predicate NoDup(ks: seq<nat>) {
    forall a, b | 0 <= a < b < |ks| :: ks[a] != ks[b]
  }

  /** The list names every vehicle that has to move on lane i. */
  ghost predicate CoversMovers(net: Network, trips: seq<Trip>, ks: seq<nat>, i: nat)
    requires i < |net.lanes|
  {
    forall k: nat | k < |trips| && Moving(net, trips[k].v, i) :: k in ks
  }

  /** A trip but for its landing overlaps, the one count that looks at other vehicles. */
  function Core(t: Trip): Trip {
    t.(overlaps := multiset{})
  }

  ghost predicate SameCores(a: seq<Trip>, b: seq<Trip>) {
    |a| == |b| && forall k | 0 <= k < |a| :: Core(a[k]) == Core(b[k])
  }

  /** The whole lane at once: every vehicle judged on the state at the lane's turn. */
  function LaneTurn(net: Network, hop: Hop, occ: seq<seq<nat>>, trips: seq<Trip>, i: nat): (r: seq<Trip>)
    requires net.Valid() && Steers(net, hop) && i < |net.lanes| && Occupancy(occ, |net.lanes|, |trips|)
    ensures |r| == |trips| && forall k | 0 <= k < |trips| :: r[k] == Visit(net, hop, occ, trips, k, i)
  {
    seq(|trips|, k requires 0 <= k < |trips| => Visit(net, hop, occ, trips, k, i))
  }

  lemma VisitCore(net: Network, hop: Hop, occ: seq<seq<nat>>, a: seq<Trip>, b: seq<Trip>, k: nat, i: nat)
    requires net.Valid() && Steers(net, hop) && i < |net.lanes| && Occupancy(occ, |net.lanes|, |a|) && |a| == |b| && k < |a|
    requires Core(a[k]) == Core(b[k])
    ensures Core(Visit(net, hop, occ, a, k, i)) == Core(Visit(net, hop, occ, b, k, i))
  {
  }

  /** Visiting a list settles exactly the vehicles named, each as if it were alone. */
  ghost predicate ListedCores(net: Network, hop: Hop, occ: seq<seq<nat>>, trips: seq<Trip>, ks: seq<nat>, i: nat, r: seq<Trip>)
    requires net.Valid() && Steers(net, hop) && i < |net.lanes| && Occupancy(occ, |net.lanes|, |trips|)
  {
    && |r| == |trips|
    && forall k: nat | k < |trips| ::
         if k in ks then Core(r[k]) == Core(Visit(net, hop, occ, trips, k, i)) else r[k] == trips[k]
  }

  lemma {:induction false} VisitListCores(net: Network, hop: Hop, occ: seq<seq<nat>>, trips: seq<Trip>, ks: seq<nat>, i: nat)
    requires net.Valid() && Steers(net, hop) && i < |net.lanes| && Occupancy(occ, |net.lanes|, |trips|)
    requires NoDup(ks) && forall j | 0 <= j < |ks| :: ks[j] < |trips|
    ensures ListedCores(net, hop, occ, trips, ks, i, VisitList(net, hop, occ, trips, ks, i))
  {
    hide Visit, Steers;
    if ks != [] {
      var n := |ks| - 1;
      VisitListCores(net, hop, occ, trips, ks[..n], i);
      var r := VisitList(net, hop, occ, trips, ks[..n], i);
      assert ks == ks[..n] + [ks[n]];
      assert ks[n] !in ks[..n];
      VisitCore(net, hop, occ, r, trips, ks[n], i);
    }
  }

  lemma ListIsTurn(net: Network, hop: Hop, occ: seq<seq<nat>>, trips: seq<Trip>, ks: seq<nat>, i: nat)
    requires net.Valid() && Steers(net, hop) && i < |net.lanes| && Occupancy(occ, |net.lanes|, |trips|)
    requires NoDup(ks) && (forall j | 0 <= j < |ks| :: ks[j] < |trips|) && CoversMovers(net, trips, ks, i)
    ensures SameCores(VisitList(net, hop, occ, trips, ks, i), LaneTurn(net, hop, occ, trips, i))
  {
    VisitListCores(net, hop, occ, trips, ks, i);
  }

  lemma TurnCores(net: Network, hop: Hop, occ: seq<seq<nat>>, a: seq<Trip>, b: seq<Trip>, i: nat)
    requires net.Valid() && Steers(net, hop) && i < |net.lanes| && Occupancy(occ, |net.lanes|, |a|) && SameCores(a, b)
    ensures SameCores(LaneTurn(net, hop, occ, a, i), LaneTurn(net, hop, occ, b, i))
  {
    hide Visit, Steers;
    forall k | 0 <= k < |a| ensures Core(LaneTurn(net, hop, occ, a, i)[k]) == Core(LaneTurn(net, hop, occ, b, i)[k]) {
      VisitCore(net, hop, occ, a, b, k, i);
    }
  }

  // ---------------------------------------------------------------- what the buckets hold

  /** Each bucket of a lane below i names, once, the vehicles that have to move there. */
  ghost predicate Filled(net: Network, trips: seq<Trip>, past: Buckets, i: nat)
    requires i <= |net.lanes|
  {
    && Inside(past, |trips|)
    && forall l: nat | l < i ::
         && NoDup(Bucket(past, l))
         && forall k: nat | k < |trips| :: k in Bucket(past, l) <==> Moving(net, trips[k].v, l)
  }

  lemma {:induction false} FillFilled(net: Network, trips: seq<Trip>, m: nat)
    requires m <= |trips|
    ensures Filled(net, trips[..m], Fill(net, trips, m), |net.lanes|)
  {
    if m > 0 {
      FillFilled(net, trips, m - 1);
      var a, past := Fill(net, trips, m - 1), Fill(net, trips, m);
      forall l: nat | l < |net.lanes|
        ensures NoDup(Bucket(past, l))
        ensures forall k: nat | k < m :: k in Bucket(past, l) <==> Moving(net, trips[..m][k].v, l)
      {
        assert forall k: nat | k < m - 1 :: trips[..m][k] == trips[..m - 1][k];
        assert m - 1 !in Bucket(a, l);
      }
    }
  }

  /** Midway through lane i: the vehicles still to be visited have to move on it. */
  ghost predicate Midway(net: Network, st: Bucketed, rest: seq<nat>, i: nat)
    requires i < |net.lanes|
  {
    && Filled(net, st.trips, st.past, i)
    && NoDup(rest)
    && forall j | 0 <= j < |rest| :: rest[j] < |st.trips| && Moving(net, st.trips[rest[j]].v, i)
  }

  lemma CrosserWaits(net: Network, hop: Hop, occ: seq<seq<nat>>, st: Bucketed, k: nat, i: nat)
    requires net.Valid() && Steers(net, hop) && i < |net.lanes| && k < |st.trips| && Occupancy(occ, |net.lanes|, |st.trips|)
    requires Filled(net, st.trips, st.past, i) && Moving(net, st.trips[k].v, i)
    ensures var r := BucketVisit(net, hop, occ, st, k, i); Filled(net, r.trips, r.past, i)
  {
    hide Steers, Crossed, Overlap, PickSuccessor;
    var r := BucketVisit(net, hop, occ, st, k, i);
    forall l: nat | l < i
      ensures NoDup(Bucket(r.past, l))
      ensures forall m: nat | m < |r.trips| :: m in Bucket(r.past, l) <==> Moving(net, r.trips[m].v, l)
    {
      assert k !in Bucket(st.past, l);
    }
  }

  lemma {:induction false} BucketListTrips(net: Network, hop: Hop, occ: seq<seq<nat>>, st: Bucketed, ks: seq<nat>, i: nat)
    requires net.Valid() && Steers(net, hop) && i < |net.lanes|
    requires Occupancy(occ, |net.lanes|, |st.trips|) && forall j | 0 <= j < |ks| :: ks[j] < |st.trips|
    ensures BucketList(net, hop, occ, st, ks, i).trips == VisitList(net, hop, occ, st.trips, ks, i)
  {
    hide Visit, Steers;
    if ks != [] {
      BucketListTrips(net, hop, occ, st, ks[..|ks| - 1], i);
    }
  }

  lemma {:induction false} BucketListFilled(net: Network, hop: Hop, occ: seq<seq<nat>>, st: Bucketed, ks: seq<nat>, i: nat)
    requires net.Valid() && Steers(net, hop) && i < |net.lanes| && Occupancy(occ, |net.lanes|, |st.trips|)
    requires Midway(net, st, ks, i)
    ensures var r := BucketList(net, hop, occ, st, ks, i); Filled(net, r.trips, r.past, i)
  {
    hide Visit, Steers, Filled;
    if ks != [] {
      var n := |ks| - 1;
      BucketListFilled(net, hop, occ, st, ks[..n], i);
      var r := BucketList(net, hop, occ, st, ks[..n], i);
      BucketListTrips(net, hop, occ, st, ks[..n], i);
      VisitListCores(net, hop, occ, st.trips, ks[..n], i);
      assert ks[n] !in ks[..n];
      CrosserWaits(net, hop, occ, r, ks[n], i);
    }
  }

  lemma LaneDone(net: Network, hop: Hop, occ: seq<seq<nat>>, st: Bucketed, i: nat)
    requires net.Valid() && Steers(net, hop) && i < |net.lanes| && Occupancy(occ, |net.lanes|, |st.trips|)
    requires Filled(net, st.trips, st.past, i + 1)
    ensures var vs := Bucket(st.past, i);
      && NoDup(vs) && (forall j | 0 <= j < |vs| :: vs[j] < |st.trips|) && CoversMovers(net, st.trips, vs, i)
      && var r := BucketList(net, hop, occ, st.(past := st.past - {i}), vs, i);
      r.trips == VisitList(net, hop, occ, st.trips, vs, i) && Filled(net, r.trips, r.past, i)
  {
    hide Visit, Steers;
    var vs, rest := Bucket(st.past, i), st.(past := st.past - {i});
    assert forall l: nat | l < i :: Bucket(rest.past, l) == Bucket(st.past, l);
    forall j | 0 <= j < |vs| ensures vs[j] < |st.trips| && Moving(net, st.trips[vs[j]].v, i) {
      assert vs[j] in vs;
    }
    BucketListTrips(net, hop, occ, rest, vs, i);
    BucketListFilled(net, hop, occ, rest, vs, i);
  }

  // ---------------------------------------------------------------- the refinement

  /** One lane of the two sweeps. */
  lemma LaneAgrees(net: Network, hop: Hop, occ: seq<seq<nat>>, a: seq<Trip>, b: seq<Trip>, vs: seq<nat>, i: nat)
    requires net.Valid() && Steers(net, hop) && i < |net.lanes| && Occupancy(occ, |net.lanes|, |a|) && SameCores(a, b)
    requires NoDup(vs) && (forall j | 0 <= j < |vs| :: vs[j] < |b|) && CoversMovers(net, b, vs, i)
    ensures SameCores(VisitList(net, hop, occ, a, UpTo(|a|), i), VisitList(net, hop, occ, b, vs, i))
  {
    hide Visit, Steers;
    forall k: nat | k < |a| ensures k in UpTo(|a|) {
      assert UpTo(|a|)[k] == k;
    }
    ListIsTurn(net, hop, occ, a, UpTo(|a|), i);
    ListIsTurn(net, hop, occ, b, vs, i);
    TurnCores(net, hop, occ, a, b, i);
  }

  /** The bucketed sweep gives every vehicle the lane, position, speed, held turn and stop
      duty the naive sweep gives it, and counts the same departures, arrivals and wall
      hits - for every network and population, chained hops and self-successors included. */
  lemma {:induction false} BucketsRefineSweep(net: Network, hop: Hop, occ: seq<seq<nat>>, a: seq<Trip>, st: Bucketed, i: nat)
    requires net.Valid() && Steers(net, hop) && i <= |net.lanes| && Occupancy(occ, |net.lanes|, |a|)
    requires SameCores(a, st.trips) && Filled(net, st.trips, st.past, i)
    ensures SameCores(NaiveSweep(net, hop, occ, a, i), BucketSweep(net, hop, occ, st, i))
    decreases i
  {
    hide Visit, Steers, Core, VisitList, BucketList;
    if i > 0 {
      var vs := Bucket(st.past, i - 1);
      LaneDone(net, hop, occ, st, i - 1);
      LaneAgrees(net, hop, occ, a, st.trips, vs, i - 1);
      var r := BucketList(net, hop, occ, st.(past := st.past - {i - 1}), vs, i - 1);
      BucketsRefineSweep(net, hop, occ, VisitList(net, hop, occ, a, UpTo(|a|), i - 1), r, i - 1);
    }
  }

  /** No vehicle's outcome depends on another: each ends as if it were alone. */
  lemma {:induction false} EachAsIfAlone(net: Network, hop: Hop, occ: seq<seq<nat>>, none: seq<seq<nat>>, trips: seq<Trip>, t: Trip, k: nat, i: nat)
    requires net.Valid() && Steers(net, hop) && i <= |net.lanes| && k < |trips| && Core(t) == Core(trips[k])
    requires Occupancy(occ, |net.lanes|, |trips|) && Occupancy(none, |net.lanes|, 1)
    ensures Core(NaiveSweep(net, hop, occ, trips, i)[k]) == Core(NaiveSweep(net, hop, none, [t], i)[0])
    decreases i
  {
    hide Visit, Steers, VisitList;
    if i > 0 {
      var a, b := VisitList(net, hop, occ, trips, UpTo(|trips|), i - 1), VisitList(net, hop, none, [t], UpTo(1), i - 1);
      VisitListCores(net, hop, occ, trips, UpTo(|trips|), i - 1);
      VisitListCores(net, hop, none, [t], UpTo(1), i - 1);
      assert UpTo(|trips|)[k] == k && UpTo(1)[0] == 0;
      VisitAlone(net, hop, occ, none, trips, t, k, i - 1);
      assert b == [b[0]];
      EachAsIfAlone(net, hop, occ, none, a, b[0], k, i - 1);
    }
  }

  lemma VisitAlone(net: Network, hop: Hop, occ: seq<seq<nat>>, none: seq<seq<nat>>, trips: seq<Trip>, t: Trip, k: nat, i: nat)
    requires net.Valid() && Steers(net, hop) && i < |net.lanes| && k < |trips| && Core(t) == Core(trips[k])
    requires Occupancy(occ, |net.lanes|, |trips|) && Occupancy(none, |net.lanes|, 1)
    ensures Core(Visit(net, hop, occ, trips, k, i)) == Core(Visit(net, hop, none, [t], 0, i))
  {
  }

  // ---------------------------------------------------------------- counters

  datatype Counters = Counters(despawned: nat, arrived: nat, wallHits: nat, overlaps: multiset<string>)

  const NO_COUNT := Counters(0, 0, 0, multiset{})

  function Add(c: Counters, t: Trip): Counters {
    Counters(c.despawned + t.despawned, c.arrived + t.arrived, c.wallHits + t.wallHits, c.overlaps + t.overlaps)
  }

  /** The engine's counters: every vehicle's account together. CrossOverlaps is |overlaps|,
      and CrossOverlapsBySection its multiplicities. */
  function Total(trips: seq<Trip>): Counters {
    if trips == [] then NO_COUNT else Add(Total(trips[..|trips| - 1]), trips[|trips| - 1])
  }

  function Plus(a: Counters, b: Counters): Counters {
    Counters(a.despawned + b.despawned, a.arrived + b.arrived, a.wallHits + b.wallHits, a.overlaps + b.overlaps)
  }

  lemma Regroup(a: multiset<string>, b: multiset<string>, c: multiset<string>)
    ensures a + (b + c) == (a + c) + b
  {
  }

  /** What one vehicle's account grew by reaches the total. */
  lemma {:induction false} TotalUpdate(trips: seq<Trip>, k: nat, t: Trip, d: Counters)
    requires k < |trips| && Add(d, trips[k]) == Add(NO_COUNT, t)
    ensures Total(trips[k := t]) == Plus(Total(trips), d)
  {
    var n := |trips| - 1;
    var rest := Total(trips[..n]);
    assert t.overlaps == d.overlaps + trips[k].overlaps;
    if k == n {
      assert trips[k := t][..n] == trips[..n];
      Regroup(rest.overlaps, d.overlaps, trips[k].overlaps);
    } else {
      assert trips[k := t][..n] == trips[..n][k := t];
      TotalUpdate(trips[..n], k, t, d);
      assert (rest.overlaps + d.overlaps) + trips[n].overlaps == (rest.overlaps + trips[n].overlaps) + d.overlaps;
    }
  }

  lemma {:induction false} SameCoresTotal(a: seq<Trip>, b: seq<Trip>)
    requires SameCores(a, b)
    ensures var x, y := Total(a), Total(b); x.despawned == y.despawned && x.arrived == y.arrived && x.wallHits == y.wallHits
  {
    if a != [] {
      var n := |a| - 1;
      assert Core(a[n]) == Core(b[n]);
      SameCoresTotal(a[..n], b[..n]);
    }
  }

  // ---------------------------------------------------------------- the pass itself

  function Boarding(vs: seq<Vehicle>): (trips: seq<Trip>)
    ensures |trips| == |vs| && forall k | 0 <= k < |vs| :: trips[k] == Trip(vs[k], 0, 0, 0, multiset{})
  {
    seq(|vs|, k requires 0 <= k < |vs| => Trip(vs[k], 0, 0, 0, multiset{}))
  }

  lemma {:induction false} BoardingTotal(vs: seq<Vehicle>)
    ensures Total(Boarding(vs)) == NO_COUNT
  {
    if vs != [] {
      BoardingTotal(vs[..|vs| - 1]);
      assert Boarding(vs)[..|vs| - 1] == Boarding(vs[..|vs| - 1]);
    }
  }

  method ComputeLands(vehs: array<Vehicle>, a: seq<nat>, v: Vehicle) returns (lands: bool)
    requires forall j | 0 <= j < |a| :: a[j] < vehs.Length
    ensures lands == Lands(vehs[..], a, v)
  {
    hide SearchFrom;
    if |a| == 0 {
      return false;
    }
    var j := Search(Positions(vehs[..], a), v.s - v.length);
    lands := j < |a| && vehs[a[j]].s - vehs[a[j]].length < v.s;
  }

  /** Counts a landing of vehicle k on the lane it was put on. */
  method CountLanding(net: Network, occ: seq<seq<nat>>, vehs: array<Vehicle>, k: nat, next: nat, c0: Counters) returns (c: Counters)
    requires Occupancy(occ, |net.lanes|, vehs.Length) && k < vehs.Length && next < |net.lanes|
    ensures c == Plus(c0, Counters(0, 0, 0, if Lands(vehs[..], occ[next], vehs[k]) then multiset{net.lanes[next].section} else multiset{}))
  {
    hide Lands;
    c := c0;
    var lands := ComputeLands(vehs, occ[next], vehs[k]);
    if lands {
      c := c.(overlaps := c.overlaps + multiset{net.lanes[next].section});
    }
  }

  /** What handling vehicle k adds to the counters. */
  ghost function Counted(net: Network, hop: Hop, occ: seq<seq<nat>>, trips: seq<Trip>, k: nat, i: nat): (d: Counters)
    requires net.Valid() && Steers(net, hop) && i < |net.lanes| && k < |trips| && Moving(net, trips[k].v, i)
    requires Occupancy(occ, |net.lanes|, |trips|)
    ensures Add(d, trips[k]) == Add(NO_COUNT, Visit(net, hop, occ, trips, k, i))
  {
    var lane := net.lanes[i];
    var arrives := trips[k].v.route != "" && trips[k].v.route == lane.id;
    Counters(
      if lane.exit || arrives then 1 else 0,
      if !lane.exit && arrives then 1 else 0,
      if !lane.exit && !arrives && lane.successors == [] && lane.endWall then 1 else 0,
      Overlap(net, hop, occ, trips, k, i))
  }

  /** Puts vehicle k, past the end of lane i, on its next lane. */
  method Cross(net: Network, hop: Hop, occ: seq<seq<nat>>, vehs: array<Vehicle>, k: nat, i: nat, c0: Counters, ghost trips: seq<Trip>)
    returns (c: Counters)
    requires net.Valid() && Steers(net, hop) && i < |net.lanes| && Occupancy(occ, |net.lanes|, vehs.Length)
    requires k < vehs.Length && Moving(net, vehs[k], i) && Vehicles(trips) == vehs[..]
    requires !net.lanes[i].exit && net.lanes[i].successors != [] && !(vehs[k].route != "" && vehs[k].route == net.lanes[i].id)
    modifies vehs
    ensures vehs[..] == old(vehs[..])[k := Crossed(net, hop, old(vehs[k]), i)]
    ensures c == Plus(c0, Counters(0, 0, 0, Overlap(net, hop, occ, trips, k, i)))
  {
    hide Lands, Steers, PickSuccessor, Plus;
    var v := vehs[k];
    var next := PickSuccessor(net, hop, i, v);
    vehs[k] := v.(s := v.s - net.lanes[i].length);
    assert vehs[..] == Vehicles(trips)[k := v.(s := v.s - net.lanes[i].length)];
    c := CountLanding(net, occ, vehs, k, next, c0);
    vehs[k] := vehs[k].(lane := next, heldTurn := 0);
    if net.lanes[next].internal {
      vehs[k] := vehs[k].(stopDone := false);
    }
  }

  /** Handles one vehicle past its lane end. */
  method Handle(net: Network, hop: Hop, occ: seq<seq<nat>>, vehs: array<Vehicle>, k: nat, i: nat, c0: Counters, ghost trips: seq<Trip>)
    returns (c: Counters)
    requires net.Valid() && Steers(net, hop) && i < |net.lanes| && Occupancy(occ, |net.lanes|, vehs.Length)
    requires k < vehs.Length && Moving(net, vehs[k], i) && Vehicles(trips) == vehs[..]
    modifies vehs
    ensures vehs[..] == old(vehs[..])[k := Crossed(net, hop, old(vehs[k]), i)]
    ensures c == Plus(c0, Counted(net, hop, occ, trips, k, i))
  {
    hide Lands, Steers, PickSuccessor;
    var lane, v := net.lanes[i], vehs[k];
    c := c0;
    if lane.exit {
      vehs[k] := v.(lane := -1);
      c := c.(despawned := c.despawned + 1);
    } else if v.route != "" && v.route == lane.id {
      vehs[k] := v.(lane := -1);
      c := c.(despawned := c.despawned + 1, arrived := c.arrived + 1);
    } else if |lane.successors| > 0 {
      c := Cross(net, hop, occ, vehs, k, i, c, trips);
    } else if lane.endWall {
      vehs[k] := v.(s := lane.length, v := 0.0);
      c := c.(wallHits := c.wallHits + 1);
    }
  }

  method BucketByLane(net: Network, vehs: array<Vehicle>) returns (past: Buckets)
    ensures past == Fill(net, Boarding(vehs[..]), vehs.Length)
  {
    past := map[];
    for k := 0 to vehs.Length
      invariant past == Fill(net, Boarding(vehs[..]), k)
    {
      var v := vehs[k];
      if 0 <= v.lane < |net.lanes| && v.s > net.lanes[v.lane].length {
        var l: nat := v.lane;
        past := past[l := Bucket(past, l) + [k]];
      }
    }
  }

  /** One lane's bucket. A crosser whose new lane is still to come joins that bucket. */
  method HandleLane(net: Network, hop: Hop, occ: seq<seq<nat>>, vehs: array<Vehicle>, vs: seq<nat>, i: nat, past0: Buckets, c0: Counters, ghost trips: seq<Trip>)
    returns (past: Buckets, c: Counters)
    requires net.Valid() && Steers(net, hop) && i < |net.lanes| && Occupancy(occ, |net.lanes|, vehs.Length)
    requires Vehicles(trips) == vehs[..] && c0 == Total(trips) && forall j | 0 <= j < |vs| :: vs[j] < vehs.Length
    modifies vehs
    ensures var r := BucketList(net, hop, occ, Bucketed(trips, past0), vs, i);
      vehs[..] == Vehicles(r.trips) && past == r.past && c == Total(r.trips)
  {
    hide Visit, Crossed, Steers, Overlap, Total;
    past, c := past0, c0;
    assert vs[..0] == [];
    for j := 0 to |vs|
      invariant var r := BucketList(net, hop, occ, Bucketed(trips, past0), vs[..j], i);
        vehs[..] == Vehicles(r.trips) && past == r.past && c == Total(r.trips)
    {
      ghost var r := BucketList(net, hop, occ, Bucketed(trips, past0), vs[..j], i);
      assert vs[..j + 1][..j] == vs[..j];
      var k := vs[j];
      if vehs[k].lane == i && vehs[k].s > net.lanes[i].length {
        c := Handle(net, hop, occ, vehs, k, i, c, r.trips);
        VisitMoves(net, hop, occ, r.trips, k, i);
        var v := vehs[k];
        if 0 <= v.lane < i && v.s > net.lanes[v.lane].length {
          var l: nat := v.lane;
          past := past[l := Bucket(past, l) + [k]];
        }
      } else {
        VisitStays(net, hop, occ, r.trips, k, i);
      }
    }
    assert vs[..|vs|] == vs;
  }

  lemma VisitMoves(net: Network, hop: Hop, occ: seq<seq<nat>>, trips: seq<Trip>, k: nat, i: nat)
    requires net.Valid() && Steers(net, hop) && i < |net.lanes| && k < |trips| && Moving(net, trips[k].v, i)
    requires Occupancy(occ, |net.lanes|, |trips|)
    ensures var t := Visit(net, hop, occ, trips, k, i);
      && t.v == Crossed(net, hop, trips[k].v, i)
      && Vehicles(trips[k := t]) == Vehicles(trips)[k := t.v]
      && Total(trips[k := t]) == Plus(Total(trips), Counted(net, hop, occ, trips, k, i))
  {
    TotalUpdate(trips, k, Visit(net, hop, occ, trips, k, i), Counted(net, hop, occ, trips, k, i));
  }

  lemma VisitStays(net: Network, hop: Hop, occ: seq<seq<nat>>, trips: seq<Trip>, k: nat, i: nat)
    requires net.Valid() && Steers(net, hop) && i < |net.lanes| && k < |trips| && !Moving(net, trips[k].v, i)
    requires Occupancy(occ, |net.lanes|, |trips|)
    ensures trips[k := Visit(net, hop, occ, trips, k, i)] == trips
  {
  }

  lemma BucketsInside(net: Network, trips: seq<Trip>, past: Buckets, l: nat)
    requires Inside(past, |trips|)
    ensures forall j | 0 <= j < |Bucket(past, l)| :: Bucket(past, l)[j] < |trips|
    ensures Inside(past - {l}, |trips|)
  {
  }

  /** The boundary pass: every vehicle past its lane end is handled, downstream lanes
      first. Returns the counts and whether some vehicle left the world. */
  method HandOff(net: Network, hop: Hop, occ: seq<seq<nat>>, vehs: array<Vehicle>) returns (despawned: bool, c: Counters)
    requires net.Valid() && Steers(net, hop) && Occupancy(occ, |net.lanes|, vehs.Length)
    modifies vehs
    ensures var trips := Boarding(old(vehs[..]));
      && Filled(net, trips, Fill(net, trips, |trips|), |net.lanes|)
      && var r := BucketSweep(net, hop, occ, Bucketed(trips, Fill(net, trips, |trips|)), |net.lanes|);
      && vehs[..] == Vehicles(r)
      && c == Total(r)
      && (despawned <==> c.despawned > 0)
  {
    hide Steers, Total, BucketList, Fill;
    ghost var start := Boarding(vehs[..]);
    FillFilled(net, start, |start|);
    assert start[..|start|] == start;
    var past := BucketByLane(net, vehs);
    ghost var st := Bucketed(start, past);
    c := NO_COUNT;
    BoardingTotal(vehs[..]);
    var i := |net.lanes|;
    while i > 0
      invariant 0 <= i <= |net.lanes| && |st.trips| == vehs.Length
      invariant Inside(st.past, vehs.Length) && st.past == past
      invariant vehs[..] == Vehicles(st.trips) && c == Total(st.trips)
      invariant BucketSweep(net, hop, occ, st, i) == BucketSweep(net, hop, occ, Bucketed(start, Fill(net, start, |start|)), |net.lanes|)
      decreases i
    {
      i := i - 1;
      BucketsInside(net, st.trips, past, i);
      var vs := Bucket(past, i);
      ghost var ahead := st.(past := past - {i});
      BucketListInside(net, hop, occ, ahead, vs, i);
      past, c := HandleLane(net, hop, occ, vehs, vs, i, past - {i}, c, st.trips);
      st := BucketList(net, hop, occ, ahead, vs, i);
    }
    despawned := c.despawned > 0;
  }

  /** The pass against the reference, from any population: the same vehicles and the same
      departures, arrivals and wall hits. */
  lemma PassRefinesSweep(net: Network, hop: Hop, occ: seq<seq<nat>>, vs: seq<Vehicle>)
    requires net.Valid() && Steers(net, hop) && Occupancy(occ, |net.lanes|, |vs|)
    ensures var trips, n := Boarding(vs), |net.lanes|;
      && Filled(net, trips, Fill(net, trips, |vs|), n)
      && var a, b := NaiveSweep(net, hop, occ, trips, n), BucketSweep(net, hop, occ, Bucketed(trips, Fill(net, trips, |vs|)), n);
      && Vehicles(a) == Vehicles(b)
      && Total(a).(overlaps := multiset{}) == Total(b).(overlaps := multiset{})
  {
    hide NaiveSweep, BucketSweep, Fill, Steers, Total;
    var trips, n := Boarding(vs), |net.lanes|;
    FillFilled(net, trips, |vs|);
    assert trips[..|vs|] == trips;
    var st := Bucketed(trips, Fill(net, trips, |vs|));
    BucketsRefineSweep(net, hop, occ, trips, st, n);
    var a, b := NaiveSweep(net, hop, occ, trips, n), BucketSweep(net, hop, occ, st, n);
    forall k | 0 <= k < |a| ensures a[k].v == b[k].v {
      assert Core(a[k]) == Core(b[k]);
    }
    SameCoresTotal(a, b);
  }
}
