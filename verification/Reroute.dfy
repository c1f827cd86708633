/** Adaptive next-hop tables: fresh shortest-path hops spliced one lane at a time into the
    static free-flow tree, under hysteresis, without ever closing a cycle. */
module Reroute {
  import opened LaneGraph
  import opened Dijkstra

  const MARGIN_SECONDS := 30.0
  const MARGIN_SHARE := 0.15

  function Margin(cost: real): real {
    if MARGIN_SHARE * cost > MARGIN_SECONDS then MARGIN_SHARE * cost else MARGIN_SECONDS
  }

  /** Entries are lane indices of a table with n lanes, or -1. */
  predicate IsTable(tab: seq<int>, n: nat) {
    |tab| == n && forall i | 0 <= i < n :: -1 <= tab[i] < n
  }

  // ---------------------------------------------------------------- walking a table

  /** Drives the table from lane j for at most `fuel` lanes, adding the travel time of
      each lane entered. None when the destination is not met. */
  function Walk(tab: seq<int>, w: seq<real>, dest: nat, j: nat, fuel: nat, cost: real): Option<real>
    requires IsTable(tab, |w|) && j < |tab|
    decreases fuel
  {
    if fuel == 0 then None
    else if j == dest then Some(cost + w[j])
    else if tab[j] < 0 then None
    else Walk(tab, w, dest, tab[j], fuel - 1, cost + w[j])
  }

  method ComputeWalk(tab: seq<int>, w: seq<real>, dest: nat, from: nat) returns (r: Option<real>)
    requires IsTable(tab, |w|) && from < |tab|
    ensures r == Walk(tab, w, dest, from, |tab| + 1, 0.0)
  {
    var cost, j := 0.0, from;
    var hops := 0;
    while hops <= |tab|
      invariant 0 <= hops <= |tab| + 1 && 0 <= j < |tab|
      invariant Walk(tab, w, dest, j, |tab| + 1 - hops, cost) == Walk(tab, w, dest, from, |tab| + 1, 0.0)
      decreases |tab| - hops
    {
      cost := cost + w[j];
      if j == dest {
        return Some(cost);
      }
      if tab[j] < 0 {
        return None;
      }
      j := tab[j];
      hops := hops + 1;
    }
    return None;
  }

  /** The table drives lane i to the destination in exactly k hops. */
  ghost predicate Arrives(tab: seq<int>, dest: nat, i: nat, k: nat)
    requires IsTable(tab, |tab|) && i < |tab|
    decreases k
  {
    if i == dest then k == 0 else k > 0 && tab[i] >= 0 && Arrives(tab, dest, tab[i], k - 1)
  }

  /** The lanes driven, first to last. */
  ghost function Route(tab: seq<int>, dest: nat, i: nat, k: nat): (p: seq<nat>)
    requires IsTable(tab, |tab|) && i < |tab| && Arrives(tab, dest, i, k)
    ensures |p| == k + 1 && p[0] == i && p[k] == dest
    ensures forall m | 0 <= m < |p| :: p[m] < |tab|
    decreases k
  {
    if k == 0 then [i] else [i] + Route(tab, dest, tab[i], k - 1)
  }

  lemma {:induction false} ArrivesOnce(tab: seq<int>, dest: nat, i: nat, k: nat, m: nat)
    requires IsTable(tab, |tab|) && i < |tab|
    requires Arrives(tab, dest, i, k) && Arrives(tab, dest, i, m)
    ensures k == m
    decreases k
  {
    if k > 0 {
      ArrivesOnce(tab, dest, tab[i], k - 1, m - 1);
    }
  }

  ghost predicate ArrivesBy(tab: seq<int>, dest: nat, x: nat, k: nat)
    requires IsTable(tab, |tab|) && x < |tab|
  {
    exists m: nat | m <= k :: Arrives(tab, dest, x, m)
  }

  /** The walk finds the destination exactly when the table leads there within the fuel. */
  lemma {:induction false} WalkArrives(tab: seq<int>, w: seq<real>, dest: nat, j: nat, fuel: nat, cost: real)
    requires IsTable(tab, |w|) && j < |tab|
    ensures Walk(tab, w, dest, j, fuel, cost).Some? <==> fuel > 0 && ArrivesBy(tab, dest, j, fuel - 1)
    decreases fuel
  {
    if fuel > 0 && j != dest && tab[j] >= 0 {
      WalkArrives(tab, w, dest, tab[j], fuel - 1, cost + w[j]);
      if fuel > 1 && ArrivesBy(tab, dest, tab[j], fuel - 2) {
        var m: nat :| m <= fuel - 2 && Arrives(tab, dest, tab[j], m);
        assert Arrives(tab, dest, j, m + 1);
      }
      if ArrivesBy(tab, dest, j, fuel - 1) {
        var m: nat :| m <= fuel - 1 && Arrives(tab, dest, j, m);
        assert Arrives(tab, dest, tab[j], m - 1);
      }
    } else if fuel > 0 && j == dest {
      assert Arrives(tab, dest, j, 0);
    }
  }

  /** It then reports the cost of the route driven, its first lane included. */
  lemma {:induction false} WalkIsRoute(tab: seq<int>, w: seq<real>, dest: nat, j: nat, fuel: nat, cost: real, k: nat)
    requires IsTable(tab, |w|) && j < |tab| && k < fuel && Arrives(tab, dest, j, k)
    ensures Walk(tab, w, dest, j, fuel, cost) == Some(cost + w[j] + PathCost(w, Route(tab, dest, j, k)))
    decreases fuel
  {
    if j != dest {
      WalkIsRoute(tab, w, dest, tab[j], fuel - 1, cost + w[j], k - 1);
      assert Route(tab, dest, j, k)[1..] == Route(tab, dest, tab[j], k - 1);
    }
  }

  // ---------------------------------------------------------------- hop bound

  lemma {:induction false} RangeSize(n: nat, s: set<nat>)
    requires forall x | x in s :: x < n
    ensures |s| <= n
  {
    if n > 0 {
      var t := s - {n - 1};
      RangeSize(n - 1, t);
      assert s <= t + {n - 1};
      SubsetSize(s, t + {n - 1});
    } else {
      assert s == {};
    }
  }

  lemma {:induction false} SubsetSize<T>(a: set<T>, b: set<T>)
    requires a <= b
    ensures |a| <= |b|
  {
    if a != {} {
      var x :| x in a;
      SubsetSize(a - {x}, b - {x});
    }
  }

  lemma {:induction false} RouteLanes(tab: seq<int>, dest: nat, i: nat, k: nat) returns (s: set<nat>)
    requires IsTable(tab, |tab|) && i < |tab| && Arrives(tab, dest, i, k)
    ensures |s| == k + 1
    ensures forall x | x in s :: x < |tab| && ArrivesBy(tab, dest, x, k)
    decreases k
  {
    assert ArrivesBy(tab, dest, i, k);
    if k == 0 {
      s := {i};
    } else {
      var t := RouteLanes(tab, dest, tab[i], k - 1);
      if i in t {
        var m: nat :| m <= k - 1 && Arrives(tab, dest, i, m);
        ArrivesOnce(tab, dest, i, k, m);
      }
      s := t + {i};
      forall x | x in t ensures ArrivesBy(tab, dest, x, k) {
        var m: nat :| m <= k - 1 && Arrives(tab, dest, x, m);
      }
    }
  }

  /** A route never visits a lane twice, so it has fewer hops than there are lanes. */
  lemma ArrivesWithin(tab: seq<int>, dest: nat, i: nat, k: nat)
    requires IsTable(tab, |tab|) && i < |tab| && Arrives(tab, dest, i, k)
    ensures k < |tab|
  {
    var s := RouteLanes(tab, dest, i, k);
    RangeSize(|tab|, s);
  }

  ghost predicate Leads(tab: seq<int>, dest: nat, i: nat)
    requires IsTable(tab, |tab|) && i < |tab|
  {
    exists k: nat :: Arrives(tab, dest, i, k)
  }

  /** Every lane with a hop, and the destination, is led to the destination. */
  ghost predicate AllLead(tab: seq<int>, dest: nat) {
    && IsTable(tab, |tab|) && dest < |tab|
    && forall i | 0 <= i < |tab| && (tab[i] >= 0 || i == dest) :: Leads(tab, dest, i)
  }

  // ---------------------------------------------------------------- splicing

  lemma {:induction false} SpliceKeepsRoutes(tab: seq<int>, dest: nat, i: nat, hop: nat, x: nat, k: nat)
    requires AllLead(tab, dest) && i < |tab| && hop < |tab| && i != dest && x < |tab|
    requires Leads(tab[i := hop], dest, hop) && Arrives(tab, dest, x, k)
    ensures Leads(tab[i := hop], dest, x)
    decreases k
  {
    var t := tab[i := hop];
    if x == i {
      var m: nat :| Arrives(t, dest, hop, m);
      assert Arrives(t, dest, x, m + 1);
    } else if k == 0 {
      assert Arrives(t, dest, x, 0);
    } else {
      SpliceKeepsRoutes(tab, dest, i, hop, tab[x], k - 1);
      var m: nat :| Arrives(t, dest, tab[x], m);
      assert Arrives(t, dest, x, m + 1);
    }
  }

  /** Installing a hop from which the spliced table itself reaches the destination keeps
      every lane that was led there. */
  lemma SpliceKeepsLeading(tab: seq<int>, dest: nat, i: nat, hop: nat)
    requires AllLead(tab, dest) && i < |tab| && hop < |tab| && i != dest
    requires Leads(tab[i := hop], dest, hop)
    ensures AllLead(tab[i := hop], dest)
  {
    var t := tab[i := hop];
    forall x | 0 <= x < |t| && (t[x] >= 0 || x == dest) ensures Leads(t, dest, x) {
      if x == i {
        var m: nat :| Arrives(t, dest, hop, m);
        assert Arrives(t, dest, x, m + 1);
      } else {
        var k: nat :| Arrives(tab, dest, x, k);
        SpliceKeepsRoutes(tab, dest, i, hop, x, k);
      }
    }
  }

  /** Checking the candidate against the table as it stands, the stale hop still in place,
      would not do: here lane 1's route escapes through lane 0's old hop, and installing
      the candidate closes the cycle 0 -> 1 -> 0. */
  lemma StaleCheckClosesCycle()
    ensures var tab := [2, 0, -1];
      && AllLead(tab, 2) && Leads(tab, 2, 1)
      && !Leads(tab[0 := 1], 2, 0)
  {
    var tab := [2, 0, -1];
    assert Arrives(tab, 2, 2, 0) && Arrives(tab, 2, 0, 1) && Arrives(tab, 2, 1, 2);
    var t := tab[0 := 1];
    forall k: nat ensures !Arrives(t, 2, 0, k) && !Arrives(t, 2, 1, k) {
      NeverArrives(k);
    }
  }

  lemma {:induction false} NeverArrives(k: nat)
    ensures !Arrives([2, 0, -1][0 := 1], 2, 0, k) && !Arrives([2, 0, -1][0 := 1], 2, 1, k)
  {
    if k > 0 {
      NeverArrives(k - 1);
    }
  }

  // ---------------------------------------------------------------- the table builder

  /** What one lane decides: the free-flow cost to beat and the realised cost of the
      spliced chain. */
  function OldCost(stat: seq<int>, w: seq<real>, dest: nat, i: nat): Option<real>
    requires IsTable(stat, |w|) && i < |stat|
  {
    if stat[i] < 0 then None else Walk(stat, w, dest, stat[i], |stat| + 1, 0.0)
  }

  predicate Accepts(stat: seq<int>, cand: seq<int>, w: seq<real>, dest: nat, mixed: seq<int>, i: nat)
    requires IsTable(stat, |w|) && IsTable(cand, |w|) && IsTable(mixed, |w|) && i < |w|
  {
    && cand[i] != stat[i] && cand[i] >= 0
    && var realised := Walk(mixed[i := cand[i]], w, dest, cand[i], |stat| + 1, 0.0);
    && realised.Some?
    && var old' := OldCost(stat, w, dest, i);
    && (old'.Some? ==> realised.value < old'.value - Margin(old'.value))
  }

  /** The table after the first k lanes have decided. */
  function Splice(stat: seq<int>, cand: seq<int>, w: seq<real>, dest: nat, k: nat): (r: seq<int>)
    requires IsTable(stat, |w|) && IsTable(cand, |w|) && k <= |w|
    ensures IsTable(r, |w|)
    ensures forall x | k <= x < |r| :: r[x] == stat[x]
  {
    if k == 0 then stat
    else
      var mixed := Splice(stat, cand, w, dest, k - 1);
      if Accepts(stat, cand, w, dest, mixed, k - 1) then mixed[k - 1 := cand[k - 1]] else mixed
  }

  lemma DijkstraTable(net: Network, w: seq<real>, dest: nat)
    requires NonNegative(w) && |w| == |net.lanes| && dest < |net.lanes|
    ensures IsTable(RouteDijkstra(net, w, dest).next, |net.lanes|)
  {
    forall i | 0 <= i < |net.lanes| ensures -1 <= RouteDijkstra(net, w, dest).next[i] < |net.lanes| {
      DijkstraHops(net, w, dest, i);
    }
  }

  function FreeFlow(net: Network): (w: seq<real>)
    ensures |w| == |net.lanes|
  {
    seq(|net.lanes|, i requires 0 <= i < |net.lanes| => FreeFlowTime(net.lanes[i]))
  }

  /** Lane lengths and limits as built: no negative free-flow time. */
  ghost predicate Drivable(net: Network) {
    net.Valid() && NonNegative(FreeFlow(net))
  }

  /** The hysteresis reference: the free-flow table. */
  function StaticTable(net: Network, dest: nat): seq<int>
    requires dest < |net.lanes|
  {
    RouteDijkstra(net, FreeFlow(net), dest).next
  }

  /** The table served in adaptive mode: a function of the network and the weights only. */
  ghost function RerouteTable(net: Network, w: seq<real>, dest: nat): (r: seq<int>)
    requires Drivable(net) && NonNegative(w) && |w| == |net.lanes| && dest < |net.lanes|
    ensures IsTable(r, |net.lanes|)
  {
    DijkstraTable(net, w, dest);
    DijkstraTable(net, FreeFlow(net), dest);
    Splice(StaticTable(net, dest), RouteDijkstra(net, w, dest).next, w, dest, |net.lanes|)
  }

  /** One lane's turn: install the candidate, validate the chain it would drive, and
      revert when it strands the lane, closes a cycle, or is not clearly better. */
  method TryHop(stat: seq<int>, cand: seq<int>, w: seq<real>, dest: nat, mixed: array<int>, i: nat)
    requires IsTable(stat, |w|) && IsTable(cand, |w|) && i < |w|
    requires IsTable(mixed[..], |w|) && mixed[i] == stat[i]
    modifies mixed
    ensures mixed[..] == if Accepts(stat, cand, w, dest, old(mixed[..]), i) then old(mixed[..])[i := cand[i]] else old(mixed[..])
  {
    if cand[i] == stat[i] || cand[i] < 0 {
      return;
    }
    var oldCost: Option<real> := None;
    if stat[i] >= 0 {
      oldCost := ComputeWalk(stat, w, dest, stat[i]);
    }
    mixed[i] := cand[i];
    assert mixed[..] == old(mixed[..])[i := cand[i]];
    var mixedCost := ComputeWalk(mixed[..], w, dest, cand[i]);
    if mixedCost.None? {
      mixed[i] := stat[i];
      assert mixed[..] == old(mixed[..]);
      return;
    }
    if oldCost.Some? {
      var margin := MARGIN_SECONDS;
      if MARGIN_SHARE * oldCost.value > margin {
        margin := MARGIN_SHARE * oldCost.value;
      }
      if mixedCost.value >= oldCost.value - margin {
        mixed[i] := stat[i];
        assert mixed[..] == old(mixed[..]);
      }
    }
  }

  method ComputeReroute(stat: seq<int>, cand: seq<int>, w: seq<real>, dest: nat) returns (mixed: array<int>)
    requires IsTable(stat, |w|) && IsTable(cand, |w|)
    ensures fresh(mixed) && mixed[..] == Splice(stat, cand, w, dest, |stat|)
  {
    var n := |stat|;
    mixed := new int[n](i requires 0 <= i < n => stat[i]);
    assert mixed[..] == stat;
    for i := 0 to n
      invariant mixed[..] == Splice(stat, cand, w, dest, i)
    {
      TryHop(stat, cand, w, dest, mixed, i);
    }
  }

  // ---------------------------------------------------------------- what the table promises

  lemma {:induction false} StaticLeads(net: Network, w: seq<real>, dest: nat, i: nat, p: seq<nat>)
    requires NonNegative(w) && |w| == |net.lanes| && dest < |net.lanes| && i < |net.lanes|
    requires PathTo(net, p, i, dest) && Follows(RouteDijkstra(net, w, dest).next, p)
    ensures IsTable(RouteDijkstra(net, w, dest).next, |net.lanes|)
    ensures Leads(RouteDijkstra(net, w, dest).next, dest, i)
    decreases |p|
  {
    DijkstraTable(net, w, dest);
    var tab := RouteDijkstra(net, w, dest).next;
    if i == dest {
      assert Arrives(tab, dest, i, 0);
    } else {
      assert |p| > 1;
      PathTail(net, p, i, dest);
      assert Follows(tab, p[1..]);
      StaticLeads(net, w, dest, p[1], p[1..]);
      var k: nat :| Arrives(tab, dest, p[1], k);
      assert tab[i] == p[1];
      assert Arrives(tab, dest, i, k + 1);
    }
  }

  /** Shortest-path tables lead: every lane with a hop reaches the destination. */
  lemma DijkstraLeads(net: Network, w: seq<real>, dest: nat)
    requires NonNegative(w) && |w| == |net.lanes| && dest < |net.lanes|
    ensures AllLead(RouteDijkstra(net, w, dest).next, dest)
  {
    DijkstraTable(net, w, dest);
    var tab := RouteDijkstra(net, w, dest).next;
    forall i | 0 <= i < |tab| && (tab[i] >= 0 || i == dest) ensures Leads(tab, dest, i) {
      DijkstraHops(net, w, dest, i);
      DijkstraIsShortest(net, w, dest, i);
      if i == dest {
        assert Arrives(tab, dest, i, 0);
      } else {
        var p :| PathTo(net, p, i, dest) && Follows(tab, p);
        StaticLeads(net, w, dest, i, p);
      }
    }
  }

  lemma {:induction false} SpliceLeads(stat: seq<int>, cand: seq<int>, w: seq<real>, dest: nat, k: nat)
    requires IsTable(stat, |w|) && IsTable(cand, |w|) && k <= |w|
    requires AllLead(stat, dest) && cand[dest] == -1
    ensures AllLead(Splice(stat, cand, w, dest, k), dest)
  {
    if k > 0 {
      SpliceLeads(stat, cand, w, dest, k - 1);
      var mixed := Splice(stat, cand, w, dest, k - 1);
      if Accepts(stat, cand, w, dest, mixed, k - 1) {
        var t := mixed[k - 1 := cand[k - 1]];
        WalkArrives(t, w, dest, cand[k - 1], |stat| + 1, 0.0);
        var m: nat :| m < |stat| + 1 && Arrives(t, dest, cand[k - 1], m);
        assert Leads(t, dest, cand[k - 1]);
        SpliceKeepsLeading(mixed, dest, k - 1, cand[k - 1]);
      }
    }
  }

  /** Each lane keeps its static hop or takes its fresh one, and which of the two was
      settled at its own turn. */
  lemma {:induction false} SpliceChoice(stat: seq<int>, cand: seq<int>, w: seq<real>, dest: nat, k: nat, i: nat)
    requires IsTable(stat, |w|) && IsTable(cand, |w|) && i < k <= |w|
    ensures Splice(stat, cand, w, dest, k)[i] ==
      if Accepts(stat, cand, w, dest, Splice(stat, cand, w, dest, i), i) then cand[i] else stat[i]
  {
    if i < k - 1 {
      SpliceChoice(stat, cand, w, dest, k - 1, i);
    }
  }

  /** The served table, for every network, destination and weights: hops are successor
      edges, exactly the lanes that cannot reach the destination (and the destination)
      have none, and every other lane is driven there in fewer hops than there are lanes,
      however many splices were accepted. */
  lemma RerouteIsSafe(net: Network, w: seq<real>, dest: nat, i: nat)
    requires Drivable(net) && NonNegative(w) && |w| == |net.lanes| && dest < |net.lanes| && i < |net.lanes|
    ensures var tab := RerouteTable(net, w, dest);
      && (tab[i] >= 0 ==> Edge(net, i, tab[i]))
      && (tab[i] == -1 <==> i == dest || !Reachable(net, i, dest))
      && (Reachable(net, i, dest) ==> exists k: nat | k < |net.lanes| :: Arrives(tab, dest, i, k))
  {
    var stat, cand := StaticTable(net, dest), RouteDijkstra(net, w, dest).next;
    var tab := RerouteTable(net, w, dest);
    var n := |net.lanes|;
    DijkstraTable(net, w, dest);
    DijkstraTable(net, FreeFlow(net), dest);
    DijkstraHops(net, w, dest, i);
    DijkstraHops(net, FreeFlow(net), dest, i);
    DijkstraHops(net, w, dest, dest);
    DijkstraLeads(net, FreeFlow(net), dest);
    SpliceLeads(stat, cand, w, dest, n);
    SpliceChoice(stat, cand, w, dest, n, i);
    if Reachable(net, i, dest) {
      assert Leads(tab, dest, i);
      var k: nat :| Arrives(tab, dest, i, k);
      ArrivesWithin(tab, dest, i, k);
    }
  }

  /** The chain from lane i costs what the walk from its hop reports. */
  lemma WalkFromHop(tab: seq<int>, w: seq<real>, dest: nat, i: nat) returns (k: nat)
    requires IsTable(tab, |w|) && i < |w| && i != dest && tab[i] >= 0
    requires Leads(tab, dest, tab[i])
    ensures Arrives(tab, dest, i, k)
    ensures Walk(tab, w, dest, tab[i], |w| + 1, 0.0) == Some(PathCost(w, Route(tab, dest, i, k)))
  {
    var m: nat :| Arrives(tab, dest, tab[i], m);
    ArrivesWithin(tab, dest, tab[i], m);
    WalkIsRoute(tab, w, dest, tab[i], |w| + 1, 0.0, m);
    k := m + 1;
    assert Route(tab, dest, i, k)[1..] == Route(tab, dest, tab[i], m);
  }

  /** Table `then'` beats table `stat` from lane i by more than the margin. */
  ghost predicate BeatsByMargin(then': seq<int>, stat: seq<int>, w: seq<real>, dest: nat, i: nat)
    requires IsTable(then', |w|) && IsTable(stat, |w|) && i < |w|
  {
    exists k: nat, m: nat | Arrives(stat, dest, i, k) && Arrives(then', dest, i, m) ::
      var before := PathCost(w, Route(stat, dest, i, k));
      PathCost(w, Route(then', dest, i, m)) < before - Margin(before)
  }

  lemma AcceptedBeats(stat: seq<int>, cand: seq<int>, w: seq<real>, dest: nat, mixed: seq<int>, i: nat)
    requires IsTable(stat, |w|) && IsTable(cand, |w|) && IsTable(mixed, |w|) && i < |w| && i != dest
    requires AllLead(stat, dest) && stat[i] >= 0
    requires Accepts(stat, cand, w, dest, mixed, i)
    ensures BeatsByMargin(mixed[i := cand[i]], stat, w, dest, i)
  {
    var then' := mixed[i := cand[i]];
    assert Leads(stat, dest, i);
    var k0: nat :| Arrives(stat, dest, i, k0);
    assert Arrives(stat, dest, stat[i], k0 - 1);
    var k := WalkFromHop(stat, w, dest, i);
    WalkArrives(then', w, dest, cand[i], |w| + 1, 0.0);
    var m := WalkFromHop(then', w, dest, i);
    assert Arrives(stat, dest, i, k) && Arrives(then', dest, i, m);
  }

  /** The margin is earned when a hop is accepted: a lane leaves its free-flow hop only if
      the chain it would then drive costs less than its free-flow chain, under the same
      weights, by more than max(30 s, 15 %). */
  lemma RerouteEarnsMargin(net: Network, w: seq<real>, dest: nat, i: nat)
    requires Drivable(net) && NonNegative(w) && |w| == |net.lanes| && dest < |net.lanes| && i < |net.lanes|
    requires RerouteTable(net, w, dest)[i] != StaticTable(net, dest)[i]
    ensures IsTable(StaticTable(net, dest), |net.lanes|) && IsTable(RouteDijkstra(net, w, dest).next, |net.lanes|)
    ensures var stat, cand := StaticTable(net, dest), RouteDijkstra(net, w, dest).next;
      BeatsByMargin(Splice(stat, cand, w, dest, i)[i := cand[i]], stat, w, dest, i)
  {
    var stat, cand := StaticTable(net, dest), RouteDijkstra(net, w, dest).next;
    DijkstraTable(net, w, dest);
    DijkstraTable(net, FreeFlow(net), dest);
    DijkstraHops(net, w, dest, i);
    DijkstraHops(net, FreeFlow(net), dest, i);
    DijkstraLeads(net, FreeFlow(net), dest);
    SpliceChoice(stat, cand, w, dest, |net.lanes|, i);
    AcceptedBeats(stat, cand, w, dest, Splice(stat, cand, w, dest, i), i);
  }
}
