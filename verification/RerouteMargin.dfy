/** A network on which the margin of an accepted hop does not last: a later splice further
    down the chain, with an earlier one behind it, uses it up again. */
module RerouteMargin {
  import opened LaneGraph
  import opened Dijkstra
  import opened Reroute

  /** `d` proves `tab` to be the only shortest-path table: each hop is tight and every
      other successor is strictly worse. */
  ghost predicate Certifies(net: Network, w: seq<real>, dest: nat, tab: seq<int>, d: seq<real>) {
    && |w| == |net.lanes| == |d| && IsTable(tab, |net.lanes|) && dest < |net.lanes|
    && tab[dest] == -1 && d[dest] == 0.0
    && forall i | 0 <= i < |net.lanes| && i != dest :: HopCertified(net, w, tab, d, i)
  }

  ghost predicate HopCertified(net: Network, w: seq<real>, tab: seq<int>, d: seq<real>, i: nat)
    requires i < |w| == |net.lanes| == |d| && IsTable(tab, |net.lanes|)
  {
    && tab[i] >= 0 && Edge(net, i, tab[i]) && d[i] == d[tab[i]] + w[tab[i]]
    && forall s: nat | s < |net.lanes| && Edge(net, i, s) && s != tab[i] :: d[i] < d[s] + w[s]
  }

  lemma {:induction false} DistAtLeast(net: Network, w: seq<real>, dest: nat, tab: seq<int>, d: seq<real>, st: State, order: seq<nat>, k: nat)
    requires Certifies(net, w, dest, tab, d) && Inv(net, w, dest, st, order) && k < |order|
    ensures st.dist[order[k]].Finite? && st.dist[order[k]].v >= d[order[k]]
  {
    var i := order[k];
    assert st.done[i] && HopInv(net, w, dest, st, i) && HopInv(net, w, dest, st, dest);
    if i != dest {
      var j :| 0 <= j < k && order[j] == st.next[i];
      assert HopCertified(net, w, tab, d, i);
      DistAtLeast(net, w, dest, tab, d, st, order, j);
    }
  }

  lemma {:induction false} DistAtMost(net: Network, w: seq<real>, dest: nat, tab: seq<int>, d: seq<real>, st: State, order: seq<nat>, i: nat, k: nat)
    requires Certifies(net, w, dest, tab, d) && Inv(net, w, dest, st, order) && st.heap == []
    requires i < |tab| && Arrives(tab, dest, i, k)
    ensures st.dist[i].Finite? && st.done[i] && st.dist[i].v <= d[i]
    decreases k
  {
    if k > 0 {
      assert HopCertified(net, w, tab, d, i);
      DistAtMost(net, w, dest, tab, d, st, order, tab[i], k - 1);
      assert Relaxed(net, w, st, tab[i], i);
    }
  }

  /** A certified table is the one the builder returns. */
  lemma CertifiedTable(net: Network, w: seq<real>, dest: nat, tab: seq<int>, d: seq<real>)
    requires NonNegative(w) && Certifies(net, w, dest, tab, d) && AllLead(tab, dest)
    ensures RouteDijkstra(net, w, dest).next == tab
  {
    var order := DijkstraInv(net, w, dest);
    var st := RouteDijkstra(net, w, dest);
    forall i | 0 <= i < |net.lanes| ensures st.dist[i] == Finite(d[i]) && st.done[i] {
      assert i != dest ==> HopCertified(net, w, tab, d, i);
      assert Leads(tab, dest, i);
      var k: nat :| Arrives(tab, dest, i, k);
      DistAtMost(net, w, dest, tab, d, st, order, i, k);
      var m :| 0 <= m < |order| && order[m] == i;
      DistAtLeast(net, w, dest, tab, d, st, order, m);
    }
    forall i | 0 <= i < |net.lanes| ensures st.next[i] == tab[i] {
      assert HopInv(net, w, dest, st, i);
      assert i != dest ==> HopCertified(net, w, tab, d, i);
    }
  }

  // ---------------------------------------------------------------- the margin lost

  function Road(seconds: real, successors: seq<nat>): Lane {
    Lane("", seconds, 1.0, successors, None, None, false, false, false, "")
  }

  /** Lane 1 is accepted via 2 and 0 while lane 0 is already spliced; lane 2 is spliced
      later, onto lane 3, whose own saving of exactly 30 s is not enough to leave its slow
      free-flow hop. */
  const EXAMPLE := Network([
    Road(1.0, [6, 7]), Road(1.0, [5, 2]), Road(1.0, [0, 3]), Road(2.0, [8, 9]), Road(1.0, []),
    Road(1.0, [4]), Road(1.0, [4]), Road(2.0, [4]), Road(1.0, [4]), Road(2.0, [4])])

  const FREE := [1.0, 1.0, 1.0, 2.0, 1.0, 1.0, 1.0, 2.0, 1.0, 2.0]
  const CONGESTED := [1.0, 1.0, 1.0, 2.0, 1.0, 42.0, 199.0, 9.0, 32.0, 2.0]
  const STATIC := [6, 5, 0, 8, -1, 4, 4, 4, 4, 4]
  const CANDIDATES := [7, 2, 3, 9, -1, 4, 4, 4, 4, 4]
  const SERVED := [7, 2, 3, 8, -1, 4, 4, 4, 4, 4]

  lemma ExampleLeads(tab: seq<int>)
    requires tab == STATIC || tab == CANDIDATES || tab == SERVED
    ensures AllLead(tab, 4)
  {
    assert Arrives(tab, 4, 4, 0);
    forall i | 5 <= i < 10 ensures Arrives(tab, 4, i, 1) {}
    assert Arrives(tab, 4, 3, 2) && Arrives(tab, 4, 0, 2);
    assert Arrives(tab, 4, 2, 3);
    assert if tab == STATIC then Arrives(tab, 4, 1, 2) else Arrives(tab, 4, 1, 4);
    forall i | 0 <= i < |tab| ensures Leads(tab, 4, i) {
      if i == 0 || i == 3 { assert Arrives(tab, 4, i, 2); }
      else if i >= 5 { assert Arrives(tab, 4, i, 1); }
    }
  }

  lemma ExampleWeights()
    ensures FreeFlow(EXAMPLE) == FREE
  {
    var n := |EXAMPLE.lanes|;
    assert n == 10;
    forall i | 0 <= i < n ensures FreeFlow(EXAMPLE)[i] == FREE[i] {
      assert EXAMPLE.lanes[i].speedLimit == 1.0 && EXAMPLE.lanes[i].length == FREE[i];
    }
  }

  lemma ExampleValid()
    ensures EXAMPLE.Valid() && NonNegative(FREE) && NonNegative(CONGESTED) && |CONGESTED| == |EXAMPLE.lanes| == |FREE| == 10
  {
  }

  const FREE_COST := [2.0, 2.0, 3.0, 2.0, 0.0, 1.0, 1.0, 1.0, 1.0, 1.0]
  const CONGESTED_COST := [10.0, 6.0, 5.0, 3.0, 0.0, 1.0, 1.0, 1.0, 1.0, 1.0]

  lemma ExampleHop(w: seq<real>, tab: seq<int>, d: seq<real>, i: nat)
    requires |EXAMPLE.lanes| == 10 && i < 10 && i != 4
    requires (w == FREE && tab == STATIC && d == FREE_COST) || (w == CONGESTED && tab == CANDIDATES && d == CONGESTED_COST)
    ensures HopCertified(EXAMPLE, w, tab, d, i)
  {
    var next := EXAMPLE.lanes[i].successors;
    if i >= 5 {
      assert next == [4];
    } else {
      assert next == [[6, 7], [5, 2], [0, 3], [8, 9]][i];
    }
    assert Edge(EXAMPLE, i, tab[i]) by { assert tab[i] == next[0] || tab[i] == next[1]; }
    forall s: nat | s < 10 && Edge(EXAMPLE, i, s) && s != tab[i] ensures d[i] < d[s] + w[s] {
      assert s == next[0] || s == next[1];
    }
  }

  lemma ExampleCertified(w: seq<real>, tab: seq<int>, d: seq<real>)
    requires (w == FREE && tab == STATIC && d == FREE_COST) || (w == CONGESTED && tab == CANDIDATES && d == CONGESTED_COST)
    ensures Certifies(EXAMPLE, w, 4, tab, d)
  {
    hide HopCertified;
    assert |EXAMPLE.lanes| == 10;
    forall i | 0 <= i < 10 && i != 4 ensures HopCertified(EXAMPLE, w, tab, d, i) {
      ExampleHop(w, tab, d, i);
    }
  }

  lemma ExampleFreeTable()
    ensures |FREE| == |EXAMPLE.lanes| && RouteDijkstra(EXAMPLE, FREE, 4).next == STATIC
  {
    hide Certifies, AllLead, RouteDijkstra;
    ExampleValid();
    ExampleCertified(FREE, STATIC, FREE_COST);
    ExampleLeads(STATIC);
    CertifiedTable(EXAMPLE, FREE, 4, STATIC, FREE_COST);
  }

  lemma ExampleStatic()
    ensures Drivable(EXAMPLE) && StaticTable(EXAMPLE, 4) == STATIC
  {
    ExampleWeights();
    ExampleValid();
    ExampleFreeTable();
  }

  lemma ExampleCandidates()
    ensures NonNegative(CONGESTED) && |CONGESTED| == |EXAMPLE.lanes|
    ensures RouteDijkstra(EXAMPLE, CONGESTED, 4).next == CANDIDATES
  {
    hide Certifies, AllLead, RouteDijkstra;
    ExampleValid();
    ExampleCertified(CONGESTED, CANDIDATES, CONGESTED_COST);
    ExampleLeads(CANDIDATES);
    CertifiedTable(EXAMPLE, CONGESTED, 4, CANDIDATES, CONGESTED_COST);
  }

  const AFTER_0 := [7, 5, 0, 8, -1, 4, 4, 4, 4, 4]
  const AFTER_1 := [7, 2, 0, 8, -1, 4, 4, 4, 4, 4]

  lemma ExampleLane0()
    ensures Splice(STATIC, CANDIDATES, CONGESTED, 4, 1) == AFTER_0
  {
    var w := CONGESTED;
    assert Walk(STATIC, w, 4, 6, 11, 0.0) == Some(200.0);
    assert Walk(AFTER_0, w, 4, 7, 11, 0.0) == Some(10.0);
    assert STATIC[0 := CANDIDATES[0]] == AFTER_0;
    assert Accepts(STATIC, CANDIDATES, w, 4, Splice(STATIC, CANDIDATES, w, 4, 0), 0);
  }

  lemma ExampleLane1()
    requires Splice(STATIC, CANDIDATES, CONGESTED, 4, 1) == AFTER_0
    ensures Splice(STATIC, CANDIDATES, CONGESTED, 4, 2) == AFTER_1
  {
    var w := CONGESTED;
    assert Walk(STATIC, w, 4, 5, 11, 0.0) == Some(43.0);
    assert Walk(AFTER_1, w, 4, 7, 9, 2.0) == Some(12.0);
    assert Walk(AFTER_1, w, 4, 2, 11, 0.0) == Some(12.0);
    assert AFTER_0[1 := CANDIDATES[1]] == AFTER_1;
    assert Accepts(STATIC, CANDIDATES, w, 4, AFTER_0, 1);
  }

  lemma ExampleLane2()
    requires Splice(STATIC, CANDIDATES, CONGESTED, 4, 2) == AFTER_1
    ensures Splice(STATIC, CANDIDATES, CONGESTED, 4, 3) == SERVED
  {
    var w := CONGESTED;
    assert Walk(STATIC, w, 4, 6, 10, 1.0) == Some(201.0);
    assert Walk(STATIC, w, 4, 0, 11, 0.0) == Some(201.0);
    assert Walk(SERVED, w, 4, 8, 10, 2.0) == Some(35.0);
    assert Walk(SERVED, w, 4, 3, 11, 0.0) == Some(35.0);
    assert AFTER_1[2 := CANDIDATES[2]] == SERVED;
    assert Accepts(STATIC, CANDIDATES, w, 4, AFTER_1, 2);
  }

  lemma ExampleLane3()
    requires Splice(STATIC, CANDIDATES, CONGESTED, 4, 3) == SERVED
    ensures Splice(STATIC, CANDIDATES, CONGESTED, 4, 4) == SERVED
  {
    var w := CONGESTED;
    var trial := SERVED[3 := CANDIDATES[3]];
    assert Walk(STATIC, w, 4, 8, 11, 0.0) == Some(33.0);
    assert Walk(trial, w, 4, 9, 11, 0.0) == Some(3.0);
    assert !Accepts(STATIC, CANDIDATES, w, 4, SERVED, 3);
  }

  lemma ExampleSplices()
    ensures Splice(STATIC, CANDIDATES, CONGESTED, 4, 10) == SERVED
  {
    ExampleLane0();
    ExampleLane1();
    ExampleLane2();
    ExampleLane3();
    ExampleRest(4);
  }

  lemma {:induction false} ExampleRest(k: nat)
    requires 4 <= k <= 10 && Splice(STATIC, CANDIDATES, CONGESTED, 4, k) == SERVED
    ensures Splice(STATIC, CANDIDATES, CONGESTED, 4, 10) == SERVED
    decreases 10 - k
  {
    if k < 10 {
      ExampleRest(k + 1);
    }
  }

  lemma ExampleServedCost()
    ensures forall m: nat | Arrives(SERVED, 4, 1, m) :: PathCost(CONGESTED, Route(SERVED, 4, 1, m)) == 36.0
  {
    var w := CONGESTED;
    assert Arrives(SERVED, 4, 8, 1) && Arrives(SERVED, 4, 3, 2) && Arrives(SERVED, 4, 2, 3);
    assert Walk(SERVED, w, 4, 8, 9, 3.0) == Some(36.0);
    assert Walk(SERVED, w, 4, 2, 11, 0.0) == Some(36.0);
    assert Leads(SERVED, 4, 2);
    var m := WalkFromHop(SERVED, w, 4, 1);
    forall m': nat | Arrives(SERVED, 4, 1, m') ensures m' == m {
      ArrivesOnce(SERVED, 4, 1, m, m');
    }
  }

  lemma ExampleStaticCost()
    ensures forall k: nat | Arrives(STATIC, 4, 1, k) :: PathCost(CONGESTED, Route(STATIC, 4, 1, k)) == 43.0
  {
    var w := CONGESTED;
    assert Arrives(STATIC, 4, 5, 1);
    assert Walk(STATIC, w, 4, 5, 11, 0.0) == Some(43.0);
    assert Leads(STATIC, 4, 5);
    var k := WalkFromHop(STATIC, w, 4, 1);
    forall k': nat | Arrives(STATIC, 4, 1, k') ensures k' == k {
      ArrivesOnce(STATIC, 4, 1, k, k');
    }
  }

  lemma ExampleServed()
    ensures Drivable(EXAMPLE) && NonNegative(CONGESTED) && |CONGESTED| == |EXAMPLE.lanes|
    ensures RerouteTable(EXAMPLE, CONGESTED, 4) == SERVED && StaticTable(EXAMPLE, 4) == STATIC
  {
    ExampleValid();
    ExampleStatic();
    ExampleCandidates();
    ExampleSplices();
  }

  /** The margin need not survive in the table that is served: lane 1 was accepted at 12 s
      against 43 s, but the chain served costs 36 s. */
  lemma MarginCanBeLost()
    ensures Drivable(EXAMPLE) && NonNegative(CONGESTED) && |CONGESTED| == |EXAMPLE.lanes|
    ensures IsTable(StaticTable(EXAMPLE, 4), |EXAMPLE.lanes|)
    ensures RerouteTable(EXAMPLE, CONGESTED, 4)[1] != StaticTable(EXAMPLE, 4)[1]
    ensures !BeatsByMargin(RerouteTable(EXAMPLE, CONGESTED, 4), StaticTable(EXAMPLE, 4), CONGESTED, 4, 1)
  {
    ExampleServed();
    ExampleServedCost();
    ExampleStaticCost();
  }
}
