/** What becomes of a vehicle in the boundary pass, told from its lane alone. */
module BoundaryOutcome {
  import opened LaneGraph
  import opened Boundaries

  /** The trips of a pass over a population. */
  function Passed(net: Network, hop: Hop, occ: seq<seq<nat>>, vs: seq<Vehicle>): (r: seq<Trip>)
    requires net.Valid() && Steers(net, hop) && Occupancy(occ, |net.lanes|, |vs|)
    ensures |r| == |vs|
  {
    FillFilled(net, Boarding(vs), |vs|);
    assert Boarding(vs)[..|vs|] == Boarding(vs);
    BucketSweep(net, hop, occ, Bucketed(Boarding(vs), Fill(net, Boarding(vs), |vs|)), |net.lanes|)
  }

  // ---------------------------------------------------------------- one vehicle, alone

  /** No lane below i has anything to do for the vehicle. */
  ghost predicate AtRest(net: Network, v: Vehicle, i: nat)
    requires i <= |net.lanes|
  {
    forall l: nat | l < i :: !Moving(net, v, l)
  }

  lemma OnePass(net: Network, hop: Hop, none: seq<seq<nat>>, t: Trip, i: nat)
    requires net.Valid() && Steers(net, hop) && i < |net.lanes| && Occupancy(none, |net.lanes|, 1)
    ensures NaiveSweep(net, hop, none, [t], i + 1) == NaiveSweep(net, hop, none, [Visit(net, hop, none, [t], 0, i)], i)
  {
    hide Visit, Steers;
    assert UpTo(1) == [0] && UpTo(1)[..0] == [];
    assert VisitList(net, hop, none, [t], [], i) == [t];
    assert VisitList(net, hop, none, [t], UpTo(1), i) == [Visit(net, hop, none, [t], 0, i)];
  }

  lemma {:induction false} Rests(net: Network, hop: Hop, none: seq<seq<nat>>, t: Trip, i: nat)
    requires net.Valid() && Steers(net, hop) && i <= |net.lanes| && Occupancy(none, |net.lanes|, 1) && AtRest(net, t.v, i)
    ensures NaiveSweep(net, hop, none, [t], i) == [t]
    decreases i
  {
    hide Steers, Moving;
    if i > 0 {
      OnePass(net, hop, none, t, i - 1);
      Rests(net, hop, none, t, i - 1);
    }
  }

  /** It is looked at on its own lane, and not again. */
  lemma {:induction false} LookedAtOnce(net: Network, hop: Hop, none: seq<seq<nat>>, t: Trip, l: nat, i: nat)
    requires net.Valid() && Steers(net, hop) && l < i <= |net.lanes| && Occupancy(none, |net.lanes|, 1)
    requires t.v.lane == l && AtRest(net, Visit(net, hop, none, [t], 0, l).v, l)
    ensures NaiveSweep(net, hop, none, [t], i) == [Visit(net, hop, none, [t], 0, l)]
    decreases i
  {
    hide Steers, Crossed, Overlap;
    OnePass(net, hop, none, t, i - 1);
    if i - 1 == l {
      Rests(net, hop, none, Visit(net, hop, none, [t], 0, l), l);
    } else {
      LookedAtOnce(net, hop, none, t, l, i - 1);
    }
  }

  lemma AsIfAlone(net: Network, hop: Hop, occ: seq<seq<nat>>, vs: seq<Vehicle>, k: nat)
    requires net.Valid() && Steers(net, hop) && Occupancy(occ, |net.lanes|, |vs|) && k < |vs|
    ensures var none, t := seq(|net.lanes|, _ => []), Boarding(vs)[k];
      && Occupancy(none, |net.lanes|, 1)
      && Core(Passed(net, hop, occ, vs)[k]) == Core(NaiveSweep(net, hop, none, [t], |net.lanes|)[0])
  {
    hide NaiveSweep, BucketSweep, Fill, Steers;
    var trips, n := Boarding(vs), |net.lanes|;
    var none: seq<seq<nat>> := seq(n, _ => []);
    FillFilled(net, trips, |vs|);
    assert trips[..|vs|] == trips;
    BucketsRefineSweep(net, hop, occ, trips, Bucketed(trips, Fill(net, trips, |vs|)), n);
    EachAsIfAlone(net, hop, occ, none, trips, trips[k], k, n);
    assert Core(Passed(net, hop, occ, vs)[k]) == Core(NaiveSweep(net, hop, occ, trips, n)[k]);
  }

  // ---------------------------------------------------------------- the outcome

  /** Left, straight on along the route, or right. */
  ghost predicate GoesTo(net: Network, hop: Hop, v: Vehicle, i: nat, next: nat)
    requires i < |net.lanes| && net.lanes[i].successors != []
  {
    var succ := net.lanes[i].successors;
    && (v.heldTurn > 0 ==> next == succ[0])
    && (v.heldTurn < 0 ==> next == succ[|succ| - 1])
    && (v.heldTurn == 0 && |succ| > 1 && v.route != "" && hop(i, v.route).Some? ==> next == hop(i, v.route).value)
    && (v.heldTurn == 0 && (|succ| == 1 || v.route == "" || hop(i, v.route).None?) ==> next == succ[0])
  }

  /** What the pass counted on a vehicle's account. */
  ghost predicate Counts(t: Trip, despawned: nat, arrived: nat, wallHits: nat) {
    t.despawned == despawned && t.arrived == arrived && t.wallHits == wallHits
  }

  /** Nothing happens to a vehicle within its lane, or off the network. */
  lemma StaysWithin(net: Network, hop: Hop, occ: seq<seq<nat>>, vs: seq<Vehicle>, k: nat)
    requires net.Valid() && Steers(net, hop) && Occupancy(occ, |net.lanes|, |vs|) && k < |vs|
    requires 0 <= vs[k].lane < |net.lanes| ==> vs[k].s <= net.lanes[vs[k].lane].length
    ensures var r := Passed(net, hop, occ, vs)[k]; r.v == vs[k] && Counts(r, 0, 0, 0)
  {
    hide Steers, NaiveSweep, Passed;
    var none: seq<seq<nat>> := seq(|net.lanes|, _ => []);
    AsIfAlone(net, hop, occ, vs, k);
    Rests(net, hop, none, Boarding(vs)[k], |net.lanes|);
  }

  /** A vehicle past the end of its lane is gone if the lane is an exit or its destination, and
      stands at the end if the lane ends at a wall. Else it is as far into the lane it goes to
      as it had overshot, its turn used up - unless it has overshot that lane too, and that
      lane is handled later. */
  lemma LeavesLane(net: Network, hop: Hop, occ: seq<seq<nat>>, vs: seq<Vehicle>, k: nat, i: nat)
    requires net.Valid() && Steers(net, hop) && Occupancy(occ, |net.lanes|, |vs|) && k < |vs|
    requires i < |net.lanes| && vs[k].lane == i && vs[k].s > net.lanes[i].length
    ensures var v, lane, r := vs[k], net.lanes[i], Passed(net, hop, occ, vs)[k];
      if lane.exit then r.v == v.(lane := -1) && Counts(r, 1, 0, 0)
      else if v.route != "" && v.route == lane.id then r.v == v.(lane := -1) && Counts(r, 1, 1, 0)
      else if lane.successors != [] then
        exists next: nat | next < |net.lanes| && GoesTo(net, hop, v, i, next) ::
          v.s - lane.length <= net.lanes[next].length || next >= i ==>
            && r.v == v.(lane := next, s := v.s - lane.length, heldTurn := 0, stopDone := v.stopDone && !net.lanes[next].internal)
            && Counts(r, 0, 0, 0)
      else if lane.endWall then r.v == v.(s := lane.length, v := 0.0) && Counts(r, 0, 0, 1)
      else r.v == v && Counts(r, 0, 0, 0)
  {
    hide NaiveSweep, Passed, Overlap;
    var none: seq<seq<nat>> := seq(|net.lanes|, _ => []);
    var v, lane, t := vs[k], net.lanes[i], Boarding(vs)[k];
    AsIfAlone(net, hop, occ, vs, k);
    var u := Visit(net, hop, none, [t], 0, i);
    if lane.exit || (v.route != "" && v.route == lane.id) || lane.successors == [] {
      LookedAtOnce(net, hop, none, t, i, |net.lanes|);
    } else {
      var next := PickSuccessor(net, hop, i, v);
      assert GoesTo(net, hop, v, i, next);
      if v.s - lane.length <= net.lanes[next].length || next >= i {
        LookedAtOnce(net, hop, none, t, i, |net.lanes|);
      }
    }
  }

  // ---------------------------------------------------------------- who left

  /** The vehicles of the first m that the pass took off the network. */
  ghost function GoneOf(vs: seq<Vehicle>, r: seq<Trip>, m: nat): set<nat>
    requires m <= |vs| == |r|
  {
    set k: nat | k < m && vs[k].lane >= 0 && r[k].v.lane < 0
  }

  lemma GoneGrows(vs: seq<Vehicle>, r: seq<Trip>, m: nat)
    requires m < |vs| == |r|
    ensures |GoneOf(vs, r, m + 1)| == |GoneOf(vs, r, m)| + if vs[m].lane >= 0 && r[m].v.lane < 0 then 1 else 0
  {
    assert GoneOf(vs, r, m + 1) == GoneOf(vs, r, m) + if vs[m].lane >= 0 && r[m].v.lane < 0 then {m} else {};
  }

  lemma TotalNext(r: seq<Trip>, m: nat)
    requires m < |r|
    ensures Total(r[..m + 1]) == Add(Total(r[..m]), r[m])
  {
    assert r[..m + 1][..m] == r[..m];
  }

  lemma {:induction false} DespawnedTotal(vs: seq<Vehicle>, r: seq<Trip>, m: nat)
    requires m <= |vs| == |r|
    requires forall k | 0 <= k < |r| :: r[k].despawned == if vs[k].lane >= 0 && r[k].v.lane < 0 then 1 else 0
    ensures Total(r[..m]).despawned == |GoneOf(vs, r, m)|
  {
    hide GoneOf, Total;
    if m > 0 {
      DespawnedTotal(vs, r, m - 1);
      TotalNext(r, m - 1);
      GoneGrows(vs, r, m - 1);
    } else {
      NobodyYet(vs, r);
    }
  }

  lemma NobodyYet(vs: seq<Vehicle>, r: seq<Trip>)
    requires |vs| == |r|
    ensures Total(r[..0]) == NO_COUNT && GoneOf(vs, r, 0) == {}
  {
  }

  /** A vehicle is counted out exactly when it leaves. */
  lemma {:induction false} SweptOut(net: Network, hop: Hop, none: seq<seq<nat>>, t: Trip, start: int, i: nat)
    requires net.Valid() && Steers(net, hop) && i <= |net.lanes| && Occupancy(none, |net.lanes|, 1)
    requires t.despawned == if start >= 0 && t.v.lane < 0 then 1 else 0
    requires start < 0 ==> t.v.lane == start
    ensures var r := NaiveSweep(net, hop, none, [t], i)[0]; r.despawned == if start >= 0 && r.v.lane < 0 then 1 else 0
    decreases i
  {
    hide Steers, Overlap, PickSuccessor;
    if i > 0 {
      OnePass(net, hop, none, t, i - 1);
      SweptOut(net, hop, none, Visit(net, hop, none, [t], 0, i - 1), start, i - 1);
    }
  }

  /** The pass's count of departures is the number of vehicles it took off the network. */
  lemma DespawnedAreGone(net: Network, hop: Hop, occ: seq<seq<nat>>, vs: seq<Vehicle>)
    requires net.Valid() && Steers(net, hop) && Occupancy(occ, |net.lanes|, |vs|)
    ensures var r := Passed(net, hop, occ, vs); Total(r).despawned == |GoneOf(vs, r, |vs|)|
  {
    hide Steers, NaiveSweep, Passed, Total;
    var r := Passed(net, hop, occ, vs);
    var none: seq<seq<nat>> := seq(|net.lanes|, _ => []);
    forall k | 0 <= k < |r| ensures r[k].despawned == if vs[k].lane >= 0 && r[k].v.lane < 0 then 1 else 0 {
      AsIfAlone(net, hop, occ, vs, k);
      SweptOut(net, hop, none, Boarding(vs)[k], vs[k].lane, |net.lanes|);
    }
    DespawnedTotal(vs, r, |vs|);
    assert r[..|vs|] == r;
  }

  // ---------------------------------------------------------------- landings

  /** On occupants in order a landing is an overlap exactly when the first of them with its
      front beyond the rear of the vehicle has its own rear short of the vehicle's front. */
  lemma LandsIff(vs: seq<Vehicle>, a: seq<nat>, v: Vehicle)
    requires forall j | 0 <= j < |a| :: a[j] < |vs|
    requires forall i, j | 0 <= i < j < |a| :: vs[a[i]].s <= vs[a[j]].s
    ensures Lands(vs, a, v) <==>
      exists j | 0 <= j < |a| ::
        && vs[a[j]].s > v.s - v.length && vs[a[j]].s - vs[a[j]].length < v.s
        && forall i | 0 <= i < j :: vs[a[i]].s <= v.s - v.length
  {
    hide SearchFrom;
    var ss, rear := Positions(vs, a), v.s - v.length;
    var j := SearchFrom(ss, rear, 0, |a|);
    forall i | 0 <= i < |a| ensures vs[a[i]].s > rear <==> i >= j {
      assert ss[i] == vs[a[i]].s;
      if i < j {
        assert vs[a[i]].s <= vs[a[j - 1]].s && ss[j - 1] == vs[a[j - 1]].s;
      } else {
        assert vs[a[j]].s <= vs[a[i]].s && ss[j] == vs[a[j]].s;
      }
    }
  }
}
