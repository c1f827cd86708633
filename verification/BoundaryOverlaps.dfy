/** The landing overlaps, the one counter of the boundary pass that looks at other vehicles:
    on which networks the bucketed pass counts what the naive sweep counts. */
module BoundaryOverlaps {
  import opened LaneGraph
  import opened Boundaries

  // ---------------------------------------------------------------- which networks

  /** A lane vehicles cross from, and one they cross to. */
  predicate Drives(net: Network, a: nat, b: nat)
    requires a < |net.lanes|
  {
    !net.lanes[a].exit && Edge(net, a, b)
  }

  /** Lane a leads to lane b along crossings that only descend. */
  ghost predicate Descends(net: Network, a: nat, b: nat)
    decreases a - b
  {
    a == b || (b < a && exists c: nat | b < c <= a && c < |net.lanes| && Drives(net, c, b) :: Descends(net, a, c))
  }

  /** Vehicles can come to lane i in the pass that handles it. */
  ghost predicate Entered(net: Network, i: nat) {
    exists h: nat | i < h < |net.lanes| :: Drives(net, h, i)
  }

  /** Vehicles can land from lane i on a lane that somebody on lane i began the pass on. */
  ghost predicate LoopsBack(net: Network, i: nat)
    requires i < |net.lanes|
  {
    exists m: nat | i <= m < |net.lanes| :: Drives(net, i, m) && Descends(net, m, i)
  }

  /** No lane is both. */
  ghost predicate OrderFree(net: Network) {
    forall i: nat | i < |net.lanes| :: !(Entered(net, i) && LoopsBack(net, i))
  }

  /** The occupancy lists name vehicles on the lanes where they began. */
  ghost predicate AtHome(occ: seq<seq<nat>>, home: seq<int>) {
    forall l, j | 0 <= l < |occ| && 0 <= j < |occ[l]| :: occ[l][j] < |home| && home[occ[l][j]] == l
  }

  /** Vehicles still below lane i descended there from where they began. */
  ghost predicate Descended(net: Network, home: seq<int>, trips: seq<Trip>, i: nat) {
    && |home| == |trips|
    && forall k | 0 <= k < |trips| && 0 <= trips[k].v.lane < i :: home[k] >= 0 && Descends(net, home[k], trips[k].v.lane)
  }

  /** Nobody who has to move on lane i sits in the list that somebody moving there lands in. */
  ghost predicate Undisturbed(net: Network, hop: Hop, occ: seq<seq<nat>>, trips: seq<Trip>, i: nat)
    requires net.Valid() && Steers(net, hop) && i < |net.lanes| && Occupancy(occ, |net.lanes|, |trips|)
  {
    !net.lanes[i].exit && net.lanes[i].successors != [] ==>
      forall k, j | 0 <= k < |trips| && Moving(net, trips[k].v, i) && 0 <= j < |occ[PickSuccessor(net, hop, i, trips[k].v)]| ::
        !Moving(net, trips[occ[PickSuccessor(net, hop, i, trips[k].v)][j]].v, i)
  }

  lemma NoLoopUndisturbed(net: Network, hop: Hop, occ: seq<seq<nat>>, home: seq<int>, trips: seq<Trip>, i: nat)
    requires net.Valid() && Steers(net, hop) && i < |net.lanes| && Occupancy(occ, |net.lanes|, |trips|)
    requires !LoopsBack(net, i) && AtHome(occ, home) && Descended(net, home, trips, i + 1)
    ensures Undisturbed(net, hop, occ, trips, i)
  {
    hide Steers;
    if !net.lanes[i].exit && net.lanes[i].successors != [] {
      forall k, j | 0 <= k < |trips| && Moving(net, trips[k].v, i) && 0 <= j < |occ[PickSuccessor(net, hop, i, trips[k].v)]|
        ensures !Moving(net, trips[occ[PickSuccessor(net, hop, i, trips[k].v)][j]].v, i)
      {
        var next := PickSuccessor(net, hop, i, trips[k].v);
        var x := occ[next][j];
        assert home[x] == next;
        assert Drives(net, i, next);
        assert trips[x].v.lane == i ==> Descends(net, next, i);
      }
    }
  }

  lemma LandsSame(vs: seq<Vehicle>, ws: seq<Vehicle>, a: seq<nat>, v: Vehicle)
    requires |vs| == |ws| && forall j | 0 <= j < |a| :: a[j] < |vs| && vs[a[j]] == ws[a[j]]
    ensures Lands(vs, a, v) == Lands(ws, a, v)
  {
    assert Positions(vs, a) == Positions(ws, a);
  }

  lemma OverlapSame(net: Network, hop: Hop, occ: seq<seq<nat>>, a: seq<Trip>, b: seq<Trip>, k: nat, i: nat)
    requires net.Valid() && Steers(net, hop) && i < |net.lanes| && Occupancy(occ, |net.lanes|, |a|) && |a| == |b| && k < |a|
    requires Undisturbed(net, hop, occ, a, i) && a[k] == b[k] && Moving(net, a[k].v, i)
    requires forall x | 0 <= x < |a| && !Moving(net, a[x].v, i) :: b[x] == a[x]
    ensures Overlap(net, hop, occ, a, k, i) == Overlap(net, hop, occ, b, k, i)
  {
    hide Steers, Lands, PickSuccessor;
    var lane := net.lanes[i];
    if !lane.exit && lane.successors != [] {
      var v := a[k].v;
      var next := PickSuccessor(net, hop, i, v);
      var placed := v.(s := v.s - lane.length);
      var x, y := Vehicles(a)[k := placed], Vehicles(b)[k := placed];
      forall j | 0 <= j < |occ[next]| ensures occ[next][j] < |x| && x[occ[next][j]] == y[occ[next][j]] {
        assert !Moving(net, a[occ[next][j]].v, i);
      }
      LandsSame(x, y, occ[next], placed);
    }
  }

  /** On an undisturbed lane the order of a list does not matter at all. */
  lemma {:induction false} VisitListExact(net: Network, hop: Hop, occ: seq<seq<nat>>, trips: seq<Trip>, ks: seq<nat>, i: nat)
    requires net.Valid() && Steers(net, hop) && i < |net.lanes| && Occupancy(occ, |net.lanes|, |trips|)
    requires NoDup(ks) && (forall j | 0 <= j < |ks| :: ks[j] < |trips|) && Undisturbed(net, hop, occ, trips, i)
    ensures var r := VisitList(net, hop, occ, trips, ks, i);
      forall k: nat | k < |trips| :: r[k] == if k in ks then Visit(net, hop, occ, trips, k, i) else trips[k]
  {
    hide Steers, Undisturbed, Overlap, Crossed;
    if ks != [] {
      var n := |ks| - 1;
      VisitListExact(net, hop, occ, trips, ks[..n], i);
      var r := VisitList(net, hop, occ, trips, ks[..n], i);
      assert ks == ks[..n] + [ks[n]];
      assert ks[n] !in ks[..n];
      if Moving(net, trips[ks[n]].v, i) {
        OverlapSame(net, hop, occ, trips, r, ks[n], i);
      }
    }
  }

  lemma TurnDescends(net: Network, hop: Hop, occ: seq<seq<nat>>, home: seq<int>, trips: seq<Trip>, i: nat)
    requires net.Valid() && Steers(net, hop) && i < |net.lanes| && Occupancy(occ, |net.lanes|, |trips|)
    requires Descended(net, home, trips, i + 1)
    ensures Descended(net, home, LaneTurn(net, hop, occ, trips, i), i)
  {
    hide Steers, Overlap, PickSuccessor;
    var r := LaneTurn(net, hop, occ, trips, i);
    forall k | 0 <= k < |r| && 0 <= r[k].v.lane < i
      ensures home[k] >= 0 && Descends(net, home[k], r[k].v.lane)
    {
      if Moving(net, trips[k].v, i) {
        var h: nat, next: nat := home[k], r[k].v.lane;
        assert Descends(net, h, i) && Drives(net, i, next);
      }
    }
  }

  lemma ListIsExactTurn(net: Network, hop: Hop, occ: seq<seq<nat>>, trips: seq<Trip>, ks: seq<nat>, i: nat)
    requires net.Valid() && Steers(net, hop) && i < |net.lanes| && Occupancy(occ, |net.lanes|, |trips|)
    requires NoDup(ks) && (forall j | 0 <= j < |ks| :: ks[j] < |trips|) && CoversMovers(net, trips, ks, i)
    requires Undisturbed(net, hop, occ, trips, i)
    ensures VisitList(net, hop, occ, trips, ks, i) == LaneTurn(net, hop, occ, trips, i)
  {
    hide Steers, Undisturbed, Overlap, Crossed;
    VisitListExact(net, hop, occ, trips, ks, i);
  }

  // ---------------------------------------------------------------- lanes nobody enters

  /** The vehicles of the first m that have to move on lane i, in order. */
  function Movers(net: Network, trips: seq<Trip>, m: nat, i: nat): (ks: seq<nat>)
    requires m <= |trips| && i < |net.lanes|
    ensures forall j | 0 <= j < |ks| :: ks[j] < m && Moving(net, trips[ks[j]].v, i)
    ensures NoDup(ks)
  {
    if m == 0 then []
    else Movers(net, trips, m - 1, i) + if Moving(net, trips[m - 1].v, i) then [m - 1] else []
  }

  /** The last of a list is visited on what the others left. */
  lemma VisitLast(net: Network, hop: Hop, occ: seq<seq<nat>>, trips: seq<Trip>, ks: seq<nat>, k: nat, i: nat)
    requires net.Valid() && Steers(net, hop) && i < |net.lanes| && Occupancy(occ, |net.lanes|, |trips|)
    requires (forall j | 0 <= j < |ks| :: ks[j] < |trips|) && k < |trips|
    ensures var r := VisitList(net, hop, occ, trips, ks, i);
      VisitList(net, hop, occ, trips, ks + [k], i) == r[k := Visit(net, hop, occ, r, k, i)]
  {
    hide Steers, Visit;
    assert (ks + [k])[..|ks|] == ks;
  }

  /** Going over everybody is going over those who have to move. */
  lemma {:induction false} SweepVisitsMovers(net: Network, hop: Hop, occ: seq<seq<nat>>, trips: seq<Trip>, m: nat, i: nat)
    requires net.Valid() && Steers(net, hop) && i < |net.lanes| && Occupancy(occ, |net.lanes|, |trips|) && m <= |trips|
    ensures VisitList(net, hop, occ, trips, UpTo(m), i) == VisitList(net, hop, occ, trips, Movers(net, trips, m, i), i)
  {
    hide Steers, Visit, Moving, VisitList;
    if m > 0 {
      SweepVisitsMovers(net, hop, occ, trips, m - 1, i);
      VisitLast(net, hop, occ, trips, UpTo(m - 1), m - 1, i);
      VisitListCores(net, hop, occ, trips, UpTo(m - 1), i);
      var r := VisitList(net, hop, occ, trips, UpTo(m - 1), i);
      assert UpTo(m) == UpTo(m - 1) + [m - 1];
      assert m - 1 !in UpTo(m - 1);
      if Moving(net, trips[m - 1].v, i) {
        VisitLast(net, hop, occ, trips, Movers(net, trips, m - 1, i), m - 1, i);
      } else {
        assert Movers(net, trips, m, i) == Movers(net, trips, m - 1, i);
        VisitStays(net, hop, occ, r, m - 1, i);
      }
    } else {
      assert UpTo(0) == [];
    }
  }

  /** The buckets of lanes that nobody enters are in vehicle order. */
  ghost predicate InOrder(net: Network, trips: seq<Trip>, past: Buckets, i: nat)
    requires i <= |net.lanes|
  {
    forall l: nat | l < i && !Entered(net, l) :: Bucket(past, l) == Movers(net, trips, |trips|, l)
  }

  lemma {:induction false} FillInOrder(net: Network, trips: seq<Trip>, m: nat, l: nat)
    requires m <= |trips| && l < |net.lanes|
    ensures Bucket(Fill(net, trips, m), l) == Movers(net, trips, m, l)
  {
    if m > 0 {
      FillInOrder(net, trips, m - 1, l);
    }
  }

  lemma {:induction false} MoversSame(net: Network, a: seq<Trip>, b: seq<Trip>, m: nat, i: nat)
    requires |a| == |b| && m <= |a| && i < |net.lanes|
    requires forall k | 0 <= k < |a| :: Moving(net, a[k].v, i) <==> Moving(net, b[k].v, i)
    ensures Movers(net, a, m, i) == Movers(net, b, m, i)
  {
    if m > 0 {
      MoversSame(net, a, b, m - 1, i);
    }
  }

  /** Whoever crosses from lane i leaves the movers of a lane that nobody enters alone. */
  lemma CrosserElsewhere(net: Network, hop: Hop, occ: seq<seq<nat>>, st: Bucketed, k: nat, i: nat, l: nat)
    requires net.Valid() && Steers(net, hop) && i < |net.lanes| && k < |st.trips| && Occupancy(occ, |net.lanes|, |st.trips|)
    requires l < i && !Entered(net, l)
    ensures var r := BucketVisit(net, hop, occ, st, k, i);
      && Bucket(r.past, l) == Bucket(st.past, l)
      && (Moving(net, r.trips[k].v, l) <==> Moving(net, st.trips[k].v, l))
  {
    hide Steers, Overlap, PickSuccessor;
    var r := BucketVisit(net, hop, occ, st, k, i);
    if Moving(net, st.trips[k].v, i) && 0 <= r.trips[k].v.lane < i {
      assert Drives(net, i, r.trips[k].v.lane);
    }
  }

  lemma {:induction false} ListElsewhere(net: Network, hop: Hop, occ: seq<seq<nat>>, st: Bucketed, ks: seq<nat>, i: nat, l: nat)
    requires net.Valid() && Steers(net, hop) && i < |net.lanes| && Occupancy(occ, |net.lanes|, |st.trips|)
    requires (forall j | 0 <= j < |ks| :: ks[j] < |st.trips|) && l < i && !Entered(net, l)
    ensures var r := BucketList(net, hop, occ, st, ks, i);
      && Bucket(r.past, l) == Bucket(st.past, l)
      && forall k | 0 <= k < |r.trips| :: Moving(net, r.trips[k].v, l) <==> Moving(net, st.trips[k].v, l)
  {
    hide Steers, Entered, Moving, Visit, Bucket;
    if ks != [] {
      var n := |ks| - 1;
      ListElsewhere(net, hop, occ, st, ks[..n], i, l);
      CrosserElsewhere(net, hop, occ, BucketList(net, hop, occ, st, ks[..n], i), ks[n], i, l);
    }
  }

  lemma LaneKeepsOrder(net: Network, hop: Hop, occ: seq<seq<nat>>, st: Bucketed, i: nat)
    requires net.Valid() && Steers(net, hop) && i < |net.lanes| && Occupancy(occ, |net.lanes|, |st.trips|)
    requires Filled(net, st.trips, st.past, i + 1) && InOrder(net, st.trips, st.past, i + 1)
    ensures (forall j | 0 <= j < |Bucket(st.past, i)| :: Bucket(st.past, i)[j] < |st.trips|)
    ensures var r := BucketList(net, hop, occ, st.(past := st.past - {i}), Bucket(st.past, i), i);
      InOrder(net, r.trips, r.past, i)
  {
    hide Steers, Entered, Moving, BucketList, Filled;
    LaneDone(net, hop, occ, st, i);
    var rest := st.(past := st.past - {i});
    var r := BucketList(net, hop, occ, rest, Bucket(st.past, i), i);
    forall l: nat | l < i && !Entered(net, l) ensures Bucket(r.past, l) == Movers(net, r.trips, |r.trips|, l) {
      ListElsewhere(net, hop, occ, rest, Bucket(st.past, i), i, l);
      assert Bucket(rest.past, l) == Bucket(st.past, l);
      MoversSame(net, st.trips, r.trips, |r.trips|, l);
    }
  }

  // ---------------------------------------------------------------- order-free networks

  /** One lane: on one nobody enters the orders are the same, on one that does not loop
      back they do not matter. */
  lemma LaneOverlaps(net: Network, hop: Hop, occ: seq<seq<nat>>, home: seq<int>, st: Bucketed, i: nat)
    requires net.Valid() && Steers(net, hop) && i < |net.lanes| && Occupancy(occ, |net.lanes|, |st.trips|)
    requires !(Entered(net, i) && LoopsBack(net, i)) && AtHome(occ, home) && Descended(net, home, st.trips, i + 1)
    requires Filled(net, st.trips, st.past, i + 1) && InOrder(net, st.trips, st.past, i + 1)
    ensures (forall j | 0 <= j < |Bucket(st.past, i)| :: Bucket(st.past, i)[j] < |st.trips|)
    ensures var all, vs := UpTo(|st.trips|), Bucket(st.past, i);
      && VisitList(net, hop, occ, st.trips, all, i) == VisitList(net, hop, occ, st.trips, vs, i)
      && Descended(net, home, VisitList(net, hop, occ, st.trips, vs, i), i)
  {
    hide Steers, Entered, LoopsBack, Moving, VisitList, Filled, AtHome, Undisturbed, Descended;
    var vs, all := Bucket(st.past, i), UpTo(|st.trips|);
    LaneDone(net, hop, occ, st, i);
    if !Entered(net, i) {
      SweepVisitsMovers(net, hop, occ, st.trips, |st.trips|, i);
    } else {
      NoLoopUndisturbed(net, hop, occ, home, st.trips, i);
      forall k: nat | k < |st.trips| ensures k in all {
        assert all[k] == k;
      }
      ListIsExactTurn(net, hop, occ, st.trips, all, i);
      ListIsExactTurn(net, hop, occ, st.trips, vs, i);
    }
    TurnDescends(net, hop, occ, home, st.trips, i);
    ListIsTurn(net, hop, occ, st.trips, vs, i);
    SameLanesDescend(net, home, LaneTurn(net, hop, occ, st.trips, i), VisitList(net, hop, occ, st.trips, vs, i), i);
  }

  lemma SameLanesDescend(net: Network, home: seq<int>, a: seq<Trip>, b: seq<Trip>, i: nat)
    requires SameCores(a, b) && Descended(net, home, a, i)
    ensures Descended(net, home, b, i)
  {
    hide Descends;
    forall k | 0 <= k < |b| && 0 <= b[k].v.lane < i ensures home[k] >= 0 && Descends(net, home[k], b[k].v.lane) {
      assert Core(a[k]) == Core(b[k]);
    }
  }

  lemma {:induction false} SweepsAgree(net: Network, hop: Hop, occ: seq<seq<nat>>, home: seq<int>, st: Bucketed, i: nat)
    requires net.Valid() && Steers(net, hop) && i <= |net.lanes| && Occupancy(occ, |net.lanes|, |st.trips|)
    requires OrderFree(net) && AtHome(occ, home) && Descended(net, home, st.trips, i)
    requires Filled(net, st.trips, st.past, i) && InOrder(net, st.trips, st.past, i)
    ensures NaiveSweep(net, hop, occ, st.trips, i) == BucketSweep(net, hop, occ, st, i)
    decreases i
  {
    hide Visit, Steers, VisitList, BucketList, Entered, LoopsBack, Descended, InOrder;
    if i > 0 {
      LaneDone(net, hop, occ, st, i - 1);
      LaneOverlaps(net, hop, occ, home, st, i - 1);
      LaneKeepsOrder(net, hop, occ, st, i - 1);
      var r := BucketList(net, hop, occ, st.(past := st.past - {i - 1}), Bucket(st.past, i - 1), i - 1);
      SweepsAgree(net, hop, occ, home, r, i - 1);
    }
  }

  function Homes(vs: seq<Vehicle>): (home: seq<int>)
    ensures |home| == |vs| && forall k | 0 <= k < |vs| :: home[k] == vs[k].lane
  {
    seq(|vs|, k requires 0 <= k < |vs| => vs[k].lane)
  }

  /** On an order-free network the pass gives every trip, landing overlaps included, as the
      naive sweep does, from any population and for any steering. */
  lemma OrderFreeAgrees(net: Network, hop: Hop, occ: seq<seq<nat>>, vs: seq<Vehicle>)
    requires net.Valid() && Steers(net, hop) && Occupancy(occ, |net.lanes|, |vs|)
    requires OrderFree(net) && AtHome(occ, Homes(vs))
    ensures var trips, n := Boarding(vs), |net.lanes|;
      && Filled(net, trips, Fill(net, trips, |vs|), n)
      && NaiveSweep(net, hop, occ, trips, n) == BucketSweep(net, hop, occ, Bucketed(trips, Fill(net, trips, |vs|)), n)
  {
    hide NaiveSweep, BucketSweep, Fill, Steers, OrderFree, Entered;
    var trips := Boarding(vs);
    FillFilled(net, trips, |vs|);
    assert trips[..|vs|] == trips;
    forall l: nat | l < |net.lanes| ensures Bucket(Fill(net, trips, |vs|), l) == Movers(net, trips, |vs|, l) {
      FillInOrder(net, trips, |vs|, l);
    }
    SweepsAgree(net, hop, occ, Homes(vs), Bucketed(trips, Fill(net, trips, |vs|)), |net.lanes|);
  }
}
