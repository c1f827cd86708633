/** Where the landing overlaps do depend on the order within a lane: on every network that
    is not order-free two vehicles can be placed and steered so that the pass and the naive
    sweep count differently. */
module OverlapOrder {
  import opened LaneGraph
  import opened Boundaries
  import opened BoundaryOverlaps

  // ---------------------------------------------------------------- the way round

  /** A way of crossings, each to a lower lane. */
  ghost predicate Way(net: Network, p: seq<nat>) {
    && |p| > 0
    && (forall q | 0 <= q < |p| :: p[q] < |net.lanes|)
    && (forall a, b | 0 <= a < b < |p| :: p[b] < p[a])
    && (forall q | 0 <= q < |p| - 1 :: Drives(net, p[q], p[q + 1]))
  }

  lemma {:induction false} WayDown(net: Network, a: nat, b: nat) returns (p: seq<nat>)
    requires a < |net.lanes| && Descends(net, a, b)
    ensures Way(net, p) && p[0] == a && p[|p| - 1] == b
    decreases a - b
  {
    if a == b {
      p := [a];
    } else {
      var c: nat :| b < c <= a && c < |net.lanes| && Drives(net, c, b) && Descends(net, a, c);
      var head := WayDown(net, a, c);
      p := head + [b];
      assert forall q | 0 <= q < |head| :: p[q] == head[q];
      forall x, y | 0 <= x < y < |p| ensures p[y] < p[x] {
        assert head[x] >= c;
      }
    }
  }

  /** The way down to a lane, the crossing from there back to the lane the way starts on or
      to itself, and a route that no lane answers to. */
  datatype Loop = Loop(p: seq<nat>, m: nat, route: string) {
    ghost predicate In(net: Network) {
      && net.Valid()
      && (forall l | 0 <= l < |net.lanes| :: net.lanes[l].length > 0.0 && |net.lanes[l].id| < |route|)
      && Way(net, p) && |p| >= 2
      && Drives(net, Last(), m) && (m == p[0] || m == Last())
      && m < |net.lanes|
    }

    function Last(): nat {
      if p == [] then 0 else p[|p| - 1]
    }

    /** The vehicle whose list both land in. */
    function Host(): nat {
      if m == Last() then 1 else 0
    }
  }

  function LongName(lanes: seq<Lane>): (r: string)
    ensures |r| > 0 && forall l | 0 <= l < |lanes| :: |lanes[l].id| < |r|
  {
    if lanes == [] then "-" else LongName(lanes[..|lanes| - 1]) + lanes[|lanes| - 1].id
  }

  function NextOn(p: seq<nat>, m: nat, a: nat): Option<nat> {
    if p == [] then None
    else if p[0] == a then Some(if |p| > 1 then p[1] else m)
    else NextOn(p[1..], m, a)
  }

  function Guide(w: Loop): Hop {
    (a: nat, r: string) => if r == w.route then NextOn(w.p, w.m, a) else None
  }

  lemma {:induction false} NextOnWay(p: seq<nat>, m: nat, q: nat)
    requires q < |p| && forall a, b | 0 <= a < b < |p| :: p[b] < p[a]
    ensures NextOn(p, m, p[q]) == Some(if q + 1 < |p| then p[q + 1] else m)
  {
    if q > 0 {
      NextOnWay(p[1..], m, q - 1);
    }
  }

  lemma {:induction false} NextOnDrives(net: Network, p: seq<nat>, m: nat, a: nat)
    requires Way(net, p) && Drives(net, p[|p| - 1], m) && NextOn(p, m, a).Some?
    ensures a < |net.lanes| && Drives(net, a, NextOn(p, m, a).value)
  {
    if p[0] == a {
      if |p| > 1 {
        assert Drives(net, p[0], p[0 + 1]);
      }
    } else {
      var t := p[1..];
      forall q | 0 <= q < |t| - 1 ensures Drives(net, t[q], t[q + 1]) {
        assert Drives(net, p[q + 1], p[q + 1 + 1]);
      }
      NextOnDrives(net, t, m, a);
    }
  }

  lemma GuideSteers(net: Network, w: Loop)
    requires w.In(net)
    ensures Steers(net, Guide(w))
  {
    forall a: nat, r: string | a < |net.lanes| && Guide(w)(a, r).Some? ensures Edge(net, a, Guide(w)(a, r).value) {
      NextOnDrives(net, w.p, w.m, a);
    }
  }

  // ---------------------------------------------------------------- the two vehicles

  /** From the start of lane p[q] to the end of the way. */
  function Stretch(net: Network, w: Loop, q: nat): (r: real)
    requires w.In(net) && q <= |w.p|
    ensures r >= 0.0 && (q < |w.p| ==> r >= net.lanes[w.p[q]].length)
    decreases |w.p| - q
  {
    if q == |w.p| then 0.0 else net.lanes[w.p[q]].length + Stretch(net, w, q + 1)
  }

  /** Vehicle k after q crossings of the way, one metre past its end. The host is as long
      as the lane where they meet. */
  function Placed(net: Network, w: Loop, k: nat, q: nat): Vehicle
    requires w.In(net) && q <= |w.p|
  {
    Vehicle(
      k,
      if q < |w.p| then w.p[q] else w.m,
      Stretch(net, w, q) + 1.0,
      0.0,
      if k == w.Host() then net.lanes[w.Last()].length else 1.0,
      0,
      w.route,
      false)
  }

  lemma Crosses(net: Network, w: Loop, k: nat, q: nat)
    requires w.In(net) && q < |w.p| && Steers(net, Guide(w))
    ensures Moving(net, Placed(net, w, k, q), w.p[q])
    ensures Crossed(net, Guide(w), Placed(net, w, k, q), w.p[q]) == Placed(net, w, k, q + 1)
    ensures Edge(net, w.p[q], if q + 1 < |w.p| then w.p[q + 1] else w.m) && net.lanes[w.p[q]].successors != []
    ensures PickSuccessor(net, Guide(w), w.p[q], Placed(net, w, k, q)) == if q + 1 < |w.p| then w.p[q + 1] else w.m
  {
    hide Steers;
    NextOnWay(w.p, w.m, q);
    var lane := net.lanes[w.p[q]];
    assert Drives(net, w.p[q], if q + 1 < |w.p| then w.p[q + 1] else w.m);
    assert |lane.successors| == 1 ==> lane.successors[0] == if q + 1 < |w.p| then w.p[q + 1] else w.m;
  }

  function Lists(net: Network, w: Loop): (occ: seq<seq<nat>>)
    requires w.In(net)
    ensures Occupancy(occ, |net.lanes|, 2) && occ[w.m] == [w.Host()]
  {
    seq(|net.lanes|, l requires 0 <= l < |net.lanes| => if l == w.p[0] then [0] else if l == w.Last() then [1] else [])
  }

  // ---------------------------------------------------------------- where they meet

  lemma LandsOnOne(vs: seq<Vehicle>, o: nat, v: Vehicle)
    requires o < |vs|
    ensures Lands(vs, [o], v) <==> vs[o].s > v.s - v.length && vs[o].s - vs[o].length < v.s
  {
    var ss := Positions(vs, [o]);
    assert ss == [vs[o].s];
    assert SearchFrom(ss, v.s - v.length, 0, 0) == 0 && SearchFrom(ss, v.s - v.length, 1, 1) == 1;
  }

  /** Of the two on the last lane, vehicle k crosses: it lands on the host if it is the
      host, or the host has crossed. */
  lemma Meets(net: Network, w: Loop, trips: seq<Trip>, k: nat)
    requires w.In(net) && Steers(net, Guide(w)) && |trips| == 2 && k < 2
    requires trips[k].v == Placed(net, w, k, |w.p| - 1)
    requires trips[1 - k].v == Placed(net, w, 1 - k, |w.p| - 1) || trips[1 - k].v == Placed(net, w, 1 - k, |w.p|)
    ensures var t := Visit(net, Guide(w), Lists(net, w), trips, k, w.Last());
      && t.v == Placed(net, w, k, |w.p|)
      && t.overlaps == trips[k].overlaps
           + if k == w.Host() || trips[1 - k].v == Placed(net, w, 1 - k, |w.p|)
             then multiset{net.lanes[w.m].section} else multiset{}
  {
    hide Lands, Steers, PickSuccessor, Crossed;
    var i, v := w.Last(), trips[k].v;
    Crosses(net, w, k, |w.p| - 1);
    var placed := v.(s := v.s - net.lanes[i].length);
    assert Stretch(net, w, |w.p| - 1) == net.lanes[i].length + Stretch(net, w, |w.p|);
    LandsOnOne(Vehicles(trips)[k := placed], w.Host(), placed);
  }

  lemma VisitBoth(net: Network, hop: Hop, occ: seq<seq<nat>>, trips: seq<Trip>, x: nat, y: nat, i: nat)
    requires net.Valid() && Steers(net, hop) && i < |net.lanes| && Occupancy(occ, |net.lanes|, |trips|)
    requires x < |trips| && y < |trips|
    ensures forall j | 0 <= j < 2 :: [x, y][j] < |trips|
    ensures var a := trips[x := Visit(net, hop, occ, trips, x, i)];
      VisitList(net, hop, occ, trips, [x, y], i) == a[y := Visit(net, hop, occ, a, y, i)]
  {
    hide Steers, Visit, VisitList;
    VisitLast(net, hop, occ, trips, [x], y, i);
    VisitLast(net, hop, occ, trips, [], x, i);
    assert VisitList(net, hop, occ, trips, [], i) == trips by { VisitNobody(net, hop, occ, trips, i); }
    assert [] + [x] == [x] && [x] + [y] == [x, y];
  }

  lemma VisitNobody(net: Network, hop: Hop, occ: seq<seq<nat>>, trips: seq<Trip>, i: nat)
    requires net.Valid() && Steers(net, hop) && i < |net.lanes| && Occupancy(occ, |net.lanes|, |trips|)
    ensures VisitList(net, hop, occ, trips, [], i) == trips
  {
  }

  function Both(trips: seq<Trip>): multiset<string>
    requires |trips| == 2
  {
    trips[0].overlaps + trips[1].overlaps
  }

  /** In vehicle order they count one overlap more, or one less, than the other way. */
  lemma MeetingDiffers(net: Network, w: Loop, trips: seq<Trip>)
    requires w.In(net) && Steers(net, Guide(w)) && |trips| == 2
    requires forall k: nat | k < 2 :: trips[k].v == Placed(net, w, k, |w.p| - 1)
    ensures var a := VisitList(net, Guide(w), Lists(net, w), trips, [0, 1], w.Last());
      var b := VisitList(net, Guide(w), Lists(net, w), trips, [1, 0], w.Last());
      && (forall k: nat | k < 2 :: a[k].v == Placed(net, w, k, |w.p|) && b[k].v == Placed(net, w, k, |w.p|))
      && |Both(a)| != |Both(b)|
  {
    hide Steers, Visit, VisitList, Placed, Lists;
    var hop, occ, i := Guide(w), Lists(net, w), w.Last();
    VisitBoth(net, hop, occ, trips, 0, 1, i);
    VisitBoth(net, hop, occ, trips, 1, 0, i);
    Apart(net, w, 0);
    Apart(net, w, 1);
    Meets(net, w, trips, 0);
    Meets(net, w, trips, 1);
    Meets(net, w, trips[0 := Visit(net, hop, occ, trips, 0, i)], 1);
    Meets(net, w, trips[1 := Visit(net, hop, occ, trips, 1, i)], 0);
  }

  lemma Apart(net: Network, w: Loop, k: nat)
    requires w.In(net)
    ensures Placed(net, w, k, |w.p| - 1) != Placed(net, w, k, |w.p|)
  {
    assert Stretch(net, w, |w.p| - 1) == net.lanes[w.Last()].length + Stretch(net, w, |w.p|);
  }

  // ---------------------------------------------------------------- there and after

  lemma {:induction false} ListGrows(net: Network, hop: Hop, occ: seq<seq<nat>>, st: Bucketed, ks: seq<nat>, i: nat, l: nat)
    requires net.Valid() && Steers(net, hop) && i < |net.lanes| && Occupancy(occ, |net.lanes|, |st.trips|)
    requires forall j | 0 <= j < |ks| :: ks[j] < |st.trips|
    ensures Bucket(st.past, l) <= Bucket(BucketList(net, hop, occ, st, ks, i).past, l)
  {
    hide Steers, Visit;
    if ks != [] {
      ListGrows(net, hop, occ, st, ks[..|ks| - 1], i, l);
    }
  }

  /** A bucket that is not empty begins with somebody who has to move. */
  lemma FirstMoves(net: Network, trips: seq<Trip>, past: Buckets, l: nat)
    requires l < |net.lanes| && Filled(net, trips, past, l + 1)
    ensures var vs := Bucket(past, l); vs == [] || (vs[0] < |trips| && Moving(net, trips[vs[0]].v, l))
  {
    var vs := Bucket(past, l);
    if vs != [] {
      assert vs[0] in vs;
    }
  }

  lemma FirstThreeDiffer(vs: seq<nat>)
    requires NoDup(vs)
    ensures |vs| <= 1 || vs[0] != vs[1]
    ensures |vs| <= 2 || (vs[0] != vs[2] && vs[1] != vs[2])
  {
  }

  lemma StillLane(net: Network, hop: Hop, occ: seq<seq<nat>>, st: Bucketed, i: nat)
    requires net.Valid() && Steers(net, hop) && i < |net.lanes| && Occupancy(occ, |net.lanes|, |st.trips|)
    requires Filled(net, st.trips, st.past, i + 1) && forall k | 0 <= k < |st.trips| :: !Moving(net, st.trips[k].v, i)
    ensures Bucket(st.past, i) == [] && VisitList(net, hop, occ, st.trips, UpTo(|st.trips|), i) == st.trips
    ensures var r := st.(past := st.past - {i});
      BucketList(net, hop, occ, r, [], i) == r && Filled(net, st.trips, r.past, i)
  {
    hide Steers, Visit, Moving, VisitList, Filled, UpTo, Movers;
    FirstMoves(net, st.trips, st.past, i);
    NobodyMoves(net, st.trips, |st.trips|, i);
    SweepVisitsMovers(net, hop, occ, st.trips, |st.trips|, i);
    VisitNobody(net, hop, occ, st.trips, i);
    FilledBelow(net, st.trips, st.past, i);
  }

  lemma FilledBelow(net: Network, trips: seq<Trip>, past: Buckets, i: nat)
    requires i < |net.lanes| && Filled(net, trips, past, i + 1)
    ensures Filled(net, trips, past - {i}, i)
  {
    hide Moving;
    assert forall l: nat | l < i :: Bucket(past - {i}, l) == Bucket(past, l);
  }

  /** Below the last mover nothing happens. */
  lemma {:induction false} Still(net: Network, hop: Hop, occ: seq<seq<nat>>, st: Bucketed, i: nat)
    requires net.Valid() && Steers(net, hop) && i <= |net.lanes| && Occupancy(occ, |net.lanes|, |st.trips|)
    requires Filled(net, st.trips, st.past, i)
    requires forall k: nat, l: nat | k < |st.trips| && l < i :: !Moving(net, st.trips[k].v, l)
    ensures NaiveSweep(net, hop, occ, st.trips, i) == st.trips == BucketSweep(net, hop, occ, st, i)
    decreases i
  {
    hide Steers, Moving, VisitList, BucketList, Filled, UpTo;
    if i > 0 {
      StillLane(net, hop, occ, st, i - 1);
      Still(net, hop, occ, st.(past := st.past - {i - 1}), i - 1);
    }
  }

  lemma {:induction false} NobodyMoves(net: Network, trips: seq<Trip>, m: nat, i: nat)
    requires m <= |trips| && i < |net.lanes| && forall k | 0 <= k < m :: !Moving(net, trips[k].v, i)
    ensures Movers(net, trips, m, i) == []
  {
    if m > 0 {
      NobodyMoves(net, trips, m - 1, i);
    }
  }

  /** Vehicle 0 has made q crossings, vehicle 1 waits on the last lane, first in its bucket. */
  ghost predicate Underway(net: Network, w: Loop, st: Bucketed, q: nat, l: nat)
    requires w.In(net) && l <= |net.lanes| && q < |w.p|
  {
    && |st.trips| == 2 && Filled(net, st.trips, st.past, l)
    && st.trips[0].v == Placed(net, w, 0, q)
    && st.trips[1].v == Placed(net, w, 1, |w.p| - 1)
    && w.Last() < l && w.p[q] < l
    && Bucket(st.past, w.Last()) != [] && Bucket(st.past, w.Last())[0] == 1
  }

  /** On the way vehicle 0 moves alone. */
  lemma Travels(net: Network, w: Loop, st: Bucketed, q: nat, l: nat)
    requires w.In(net) && l < |net.lanes| && q < |w.p| && Steers(net, Guide(w)) && Underway(net, w, st, q, l + 1) && w.Last() < l
    ensures (forall j | 0 <= j < |Bucket(st.past, l)| :: Bucket(st.past, l)[j] < 2)
    ensures var r := BucketList(net, Guide(w), Lists(net, w), st.(past := st.past - {l}), Bucket(st.past, l), l);
      && r.trips == VisitList(net, Guide(w), Lists(net, w), st.trips, UpTo(2), l)
      && (if w.p[q] == l then q + 1 < |w.p| && Underway(net, w, r, q + 1, l) else Underway(net, w, r, q, l))
  {
    hide Steers, Visit, BucketList, VisitList, Filled, Lists;
    var hop, occ, vs := Guide(w), Lists(net, w), Bucket(st.past, l);
    LaneDone(net, hop, occ, st, l);
    SweepVisitsMovers(net, hop, occ, st.trips, 2, l);
    ListGrows(net, hop, occ, st.(past := st.past - {l}), vs, l, w.Last());
    assert Bucket(st.past - {l}, w.Last()) == Bucket(st.past, w.Last());
    assert !Moving(net, st.trips[1].v, l);
    if w.p[q] == l {
      Crosses(net, w, 0, q);
      OnlyFirst(net, st, l);
      var r := VisitList(net, hop, occ, st.trips, [0], l);
      VisitFirst(net, hop, occ, st.trips, l);
    } else {
      assert !Moving(net, st.trips[0].v, l);
      OnlyFirst(net, st, l);
      VisitNobody(net, hop, occ, st.trips, l);
    }
  }

  lemma VisitFirst(net: Network, hop: Hop, occ: seq<seq<nat>>, trips: seq<Trip>, i: nat)
    requires net.Valid() && Steers(net, hop) && i < |net.lanes| && Occupancy(occ, |net.lanes|, |trips|)
    requires |trips| == 2 && Moving(net, trips[0].v, i)
    ensures var r := VisitList(net, hop, occ, trips, [0], i);
      r[0].v == Crossed(net, hop, trips[0].v, i) && r[1] == trips[1]
  {
    hide Steers, Crossed;
    VisitNobody(net, hop, occ, trips, i);
    VisitLast(net, hop, occ, trips, [], 0, i);
    assert [] + [0] == [0];
  }

  /** With vehicle 1 at rest, bucket and order are the same. */
  lemma OnlyFirst(net: Network, st: Bucketed, l: nat)
    requires l < |net.lanes| && |st.trips| == 2 && Filled(net, st.trips, st.past, l + 1) && !Moving(net, st.trips[1].v, l)
    ensures Bucket(st.past, l) == Movers(net, st.trips, 2, l) == if Moving(net, st.trips[0].v, l) then [0] else []
  {
    hide Moving;
    var vs := Bucket(st.past, l);
    FirstMoves(net, st.trips, st.past, l);
    FirstThreeDiffer(vs);
    assert Movers(net, st.trips, 1, l) == if Moving(net, st.trips[0].v, l) then [0] else [];
    assert forall j | 0 <= j < |vs| :: vs[j] in vs;
    assert forall j | 0 <= j < |vs| :: vs[j] == 0;
    if Moving(net, st.trips[0].v, l) {
      assert 0 in vs;
    }
  }

  lemma BothTotal(trips: seq<Trip>)
    requires |trips| == 2
    ensures Total(trips).overlaps == Both(trips)
  {
    assert trips[..1][..0] == [] && Total([]) == NO_COUNT;
  }

  lemma {:induction false} CountsDiffer(net: Network, w: Loop, st: Bucketed, q: nat, l: nat)
    requires w.In(net) && l <= |net.lanes| && q < |w.p| && Steers(net, Guide(w)) && Underway(net, w, st, q, l)
    ensures |Total(NaiveSweep(net, Guide(w), Lists(net, w), st.trips, l)).overlaps|
         != |Total(BucketSweep(net, Guide(w), Lists(net, w), st, l)).overlaps|
    decreases l
  {
    hide Steers, Visit, BucketList, VisitList, Filled, Lists, Total;
    var hop, occ, vs := Guide(w), Lists(net, w), Bucket(st.past, l - 1);
    if w.Last() < l - 1 {
      Travels(net, w, st, q, l - 1);
      LaneDone(net, hop, occ, st, l - 1);
      var r := BucketList(net, hop, occ, st.(past := st.past - {l - 1}), vs, l - 1);
      CountsDiffer(net, w, r, if w.p[q] == l - 1 then q + 1 else q, l - 1);
    } else {
      Meeting(net, w, st, q);
    }
  }

  lemma Meeting(net: Network, w: Loop, st: Bucketed, q: nat)
    requires w.In(net) && q < |w.p| && Steers(net, Guide(w)) && w.Last() < |net.lanes| && Underway(net, w, st, q, w.Last() + 1)
    ensures |Total(NaiveSweep(net, Guide(w), Lists(net, w), st.trips, w.Last() + 1)).overlaps|
         != |Total(BucketSweep(net, Guide(w), Lists(net, w), st, w.Last() + 1)).overlaps|
  {
    hide Steers, Visit, BucketList, VisitList, Lists, Total;
    var hop, occ, i := Guide(w), Lists(net, w), w.Last();
    var vs := Bucket(st.past, i);
    assert q == |w.p| - 1;
    BothWait(net, w, st);
    LaneDone(net, hop, occ, st, i);
    MeetingDiffers(net, w, st.trips);
    assert UpTo(2) == [0, 1];
    var a := VisitList(net, hop, occ, st.trips, [0, 1], i);
    var r := BucketList(net, hop, occ, st.(past := st.past - {i}), vs, i);
    Still(net, hop, occ, r, i);
    var none := Fill(net, a, 2);
    FillFilled(net, a, 2);
    assert a[..2] == a;
    Still(net, hop, occ, Bucketed(a, none), i);
    BothTotal(a);
    BothTotal(r.trips);
  }

  lemma BothWait(net: Network, w: Loop, st: Bucketed)
    requires w.In(net) && w.Last() < |net.lanes| && Steers(net, Guide(w)) && Underway(net, w, st, |w.p| - 1, w.Last() + 1)
    ensures Bucket(st.past, w.Last()) == [1, 0]
  {
    hide Steers;
    var vs := Bucket(st.past, w.Last());
    FirstThreeDiffer(vs);
    Crosses(net, w, 0, |w.p| - 1);
    assert 0 in vs;
    assert forall j | 0 <= j < |vs| :: vs[j] in vs && vs[j] < 2;
  }

  // ---------------------------------------------------------------- the exact condition

  /** What holds when a boundary pass begins: the hops follow edges, and each list names
      exactly the vehicles of its lane, once. */
  ghost predicate Begins(net: Network, hop: Hop, occ: seq<seq<nat>>, vs: seq<Vehicle>) {
    && Steers(net, hop) && Occupancy(occ, |net.lanes|, |vs|) && AtHome(occ, Homes(vs))
    && (forall l | 0 <= l < |occ| :: NoDup(occ[l]))
    && forall k: nat | k < |vs| && 0 <= vs[k].lane < |net.lanes| :: k in occ[vs[k].lane]
  }

  /** The pass and the naive sweep count the same landing overlaps, section by section. */
  ghost predicate SameOverlaps(net: Network, hop: Hop, occ: seq<seq<nat>>, vs: seq<Vehicle>)
    requires net.Valid() && Begins(net, hop, occ, vs)
  {
    var trips, n := Boarding(vs), |net.lanes|;
    && Filled(net, trips, Fill(net, trips, |vs|), n)
    && Total(NaiveSweep(net, hop, occ, trips, n)).overlaps
       == Total(BucketSweep(net, hop, occ, Bucketed(trips, Fill(net, trips, |vs|)), n)).overlaps
  }

  lemma LoopOf(net: Network, i: nat) returns (w: Loop)
    requires net.Valid() && i < |net.lanes| && (forall l | 0 <= l < |net.lanes| :: net.lanes[l].length > 0.0)
    requires Entered(net, i) && LoopsBack(net, i)
    ensures w.In(net)
  {
    hide Drives, Descends;
    var route := LongName(net.lanes);
    var m: nat :| i <= m < |net.lanes| && Drives(net, i, m) && Descends(net, m, i);
    if m == i {
      var h: nat :| i < h < |net.lanes| && Drives(net, h, i);
      w := Loop([h, i], m, route);
    } else {
      var p := WayDown(net, m, i);
      w := Loop(p, m, route);
    }
  }

  /** One vehicle at the start of the way, one at its end. */
  function Pair(net: Network, w: Loop): (vs: seq<Vehicle>)
    requires w.In(net)
    ensures |vs| == 2
  {
    [Placed(net, w, 0, 0), Placed(net, w, 1, |w.p| - 1)]
  }

  lemma PairBegins(net: Network, w: Loop)
    requires w.In(net)
    ensures Begins(net, Guide(w), Lists(net, w), Pair(net, w))
  {
    hide Steers, Stretch;
    GuideSteers(net, w);
    var occ, vs := Lists(net, w), Pair(net, w);
    assert w.p[0] != w.Last();
    assert occ[w.p[0]] == [0] && occ[w.Last()] == [1];
  }

  lemma PairUnderway(net: Network, w: Loop)
    requires w.In(net)
    ensures var trips := Boarding(Pair(net, w));
      Underway(net, w, Bucketed(trips, Fill(net, trips, 2)), 0, |net.lanes|)
  {
    hide Steers, Fill, Stretch, Crossed, PickSuccessor;
    GuideSteers(net, w);
    var trips := Boarding(Pair(net, w));
    FillFilled(net, trips, 2);
    assert trips[..2] == trips;
    Crosses(net, w, 1, |w.p| - 1);
    var first := Bucket(Fill(net, trips, 2), w.Last());
    assert 1 in first;
    assert first[0] in first;
  }

  lemma LoopDiffers(net: Network, w: Loop)
    requires w.In(net)
    ensures Begins(net, Guide(w), Lists(net, w), Pair(net, w))
    ensures !SameOverlaps(net, Guide(w), Lists(net, w), Pair(net, w))
  {
    hide Steers, NaiveSweep, BucketSweep, Total, Fill, Stretch, Placed, Lists;
    PairBegins(net, w);
    PairUnderway(net, w);
    var trips := Boarding(Pair(net, w));
    CountsDiffer(net, w, Bucketed(trips, Fill(net, trips, 2)), 0, |net.lanes|);
  }

  /** The exact condition: the order within a lane never shows in the landing overlaps if
      and only if no lane is both entered from a higher lane and looped back from. */
  lemma OverlapsAgreeIffOrderFree(net: Network)
    requires net.Valid() && forall l | 0 <= l < |net.lanes| :: net.lanes[l].length > 0.0
    ensures OrderFree(net)
      <==> forall hop: Hop, occ: seq<seq<nat>>, vs: seq<Vehicle> | Begins(net, hop, occ, vs) :: SameOverlaps(net, hop, occ, vs)
  {
    hide Begins, SameOverlaps, Entered, LoopsBack;
    if OrderFree(net) {
      forall hop: Hop, occ: seq<seq<nat>>, vs: seq<Vehicle> | Begins(net, hop, occ, vs)
        ensures SameOverlaps(net, hop, occ, vs)
      {
        AgreesHere(net, hop, occ, vs);
      }
    } else {
      var i: nat :| i < |net.lanes| && Entered(net, i) && LoopsBack(net, i);
      var w := LoopOf(net, i);
      LoopDiffers(net, w);
    }
  }

  lemma AgreesHere(net: Network, hop: Hop, occ: seq<seq<nat>>, vs: seq<Vehicle>)
    requires net.Valid() && OrderFree(net) && Begins(net, hop, occ, vs)
    ensures SameOverlaps(net, hop, occ, vs)
  {
    hide Steers, OrderFree, NaiveSweep, BucketSweep, Total, Fill;
    OrderFreeAgrees(net, hop, occ, vs);
  }

  // ---------------------------------------------------------------- two rings

  function Road(id: string, successors: seq<nat>): Lane {
    Lane(id, 10.0, 10.0, successors, None, None, false, false, false, id)
  }

  const LONE_RING := Network([Road("a", [0])])
  const TWO_LANE_RING := Network([Road("a", [1]), Road("b", [0])])

  /** A lane that only succeeds itself is order-free: nobody enters it. */
  lemma LoneRingAgrees()
    ensures LONE_RING.Valid() && OrderFree(LONE_RING)
  {
  }

  /** Two lanes in a ring are not. */
  lemma TwoLaneRingDiffers()
    ensures TWO_LANE_RING.Valid() && !OrderFree(TWO_LANE_RING)
    ensures var w := Loop([1, 0], 1, "elsewhere");
      && w.In(TWO_LANE_RING)
      && Begins(TWO_LANE_RING, Guide(w), Lists(TWO_LANE_RING, w), Pair(TWO_LANE_RING, w))
      && !SameOverlaps(TWO_LANE_RING, Guide(w), Lists(TWO_LANE_RING, w), Pair(TWO_LANE_RING, w))
  {
    hide Begins, SameOverlaps;
    var net, w := TWO_LANE_RING, Loop([1, 0], 1, "elsewhere");
    assert Drives(net, 0, 1) && Drives(net, 1, 0);
    assert Descends(net, 1, 1) && Descends(net, 1, 0);
    assert Entered(net, 0) && LoopsBack(net, 0);
    LoopDiffers(net, w);
  }
}
