/** Which of several shortest ways the tables take: the first to be settled, and lanes are
    settled by distance and then by index. */
module DijkstraTies {
  import opened LaneGraph
  import opened Dijkstra

  /** None of the first k + 1 lanes settled is the hop of lane i. */
  ghost predicate BeforeHop(st: State, order: seq<nat>, i: nat, k: nat)
    requires i < |st.next|
  {
    k < |order| && forall j | 0 <= j <= k :: order[j] != st.next[i]
  }

  /** A successor settled before the hop is no way as short. */
  ghost predicate FirstBest(net: Network, w: seq<real>, dest: nat, st: State, order: seq<nat>)
    requires Shaped(st, |net.lanes|) && |w| == |net.lanes| && forall k | 0 <= k < |order| :: order[k] < |net.lanes|
  {
    forall i: nat, k: nat | i < |net.lanes| && i != dest && BeforeHop(st, order, i, k) && Edge(net, i, order[k]) && st.dist[i].Finite? ::
      st.dist[order[k]].Finite? && st.dist[i].v < st.dist[order[k]].v + w[order[k]]
  }

  /** Settled lanes come, by distance and index, before whatever is still to be settled. */
  ghost predicate SettledFirst(st: State, order: seq<nat>, n: nat)
    requires Shaped(st, n) && forall k | 0 <= k < |order| :: order[k] < n
  {
    forall k, m | 0 <= k < |order| && 0 <= m < |st.heap| && !st.done[st.heap[m].idx] ::
      ItemLess(Item(order[k], st.dist[order[k]]), st.heap[m])
  }

  ghost predicate InOrder(st: State, order: seq<nat>, n: nat)
    requires Shaped(st, n) && forall k | 0 <= k < |order| :: order[k] < n
  {
    forall a, b | 0 <= a < b < |order| :: ItemLess(Item(order[a], st.dist[order[a]]), Item(order[b], st.dist[order[b]]))
  }

  ghost predicate Positive(w: seq<real>) {
    forall i | 0 <= i < |w| :: w[i] > 0.0
  }

  // ---------------------------------------------------------------- relaxing

  /** The lanes settled before u: done, and not u. */
  ghost predicate Earlier(st: State, order: seq<nat>, u: nat, n: nat)
    requires Shaped(st, n)
  {
    forall k | 0 <= k < |order| :: order[k] < n && st.done[order[k]] && order[k] != u
  }

  lemma RelaxTies(net: Network, w: seq<real>, dest: nat, st: State, u: nat, d: real, order: seq<nat>, p: nat)
    requires NonNegative(w) && Relaxing(net, w, dest, st, u, d) && p < |net.lanes| && Edge(net, p, u)
    requires Earlier(st, order, u, |net.lanes|) && FirstBest(net, w, dest, st, order)
    ensures var r := Relax(st, u, Finite(d + w[u]), p); Earlier(r, order, u, |net.lanes|) && FirstBest(net, w, dest, r, order)
  {
    var r := Relax(st, u, Finite(d + w[u]), p);
    forall i: nat, k: nat | i < |net.lanes| && i != dest && BeforeHop(r, order, i, k) && Edge(net, i, order[k]) && r.dist[i].Finite?
      ensures r.dist[order[k]].Finite? && r.dist[i].v < r.dist[order[k]].v + w[order[k]]
    {
      if r != st && i == p {
        assert Relaxed(net, w, st, order[k], p);
      } else {
        assert BeforeHop(st, order, i, k);
      }
    }
  }

  lemma {:induction false} RelaxAllTies(net: Network, w: seq<real>, dest: nat, st: State, u: nat, d: real, order: seq<nat>, ps: seq<nat>)
    requires NonNegative(w) && Relaxing(net, w, dest, st, u, d)
    requires Below(ps, |net.lanes|) && forall p | p in ps :: Edge(net, p, u)
    requires Earlier(st, order, u, |net.lanes|) && FirstBest(net, w, dest, st, order)
    ensures var r := RelaxAll(st, u, Finite(d + w[u]), ps); Earlier(r, order, u, |net.lanes|) && FirstBest(net, w, dest, r, order)
  {
    hide FirstBest, NonNegative;
    if ps != [] {
      var n := |ps| - 1;
      RelaxAllTies(net, w, dest, st, u, d, order, ps[..n]);
      RelaxAllKeeps(net, w, dest, st, u, d, ps[..n]);
      RelaxTies(net, w, dest, RelaxAll(st, u, Finite(d + w[u]), ps[..n]), u, d, order, ps[n]);
      assert ps == ps[..n] + [ps[n]];
    }
  }

  /** Whatever relaxing pushes lies beyond u. */
  lemma {:induction false} RelaxAllPushes(net: Network, w: seq<real>, st: State, u: nat, c: Cost, ps: seq<nat>)
    requires Shaped(st, |net.lanes|) && Below(ps, |net.lanes|)
    ensures var r := RelaxAll(st, u, c, ps);
      && |st.heap| <= |r.heap| && r.heap[..|st.heap|] == st.heap
      && (forall m | |st.heap| <= m < |r.heap| :: r.heap[m].dist == c && !st.done[r.heap[m].idx])
      && forall i | 0 <= i < |net.lanes| && st.done[i] :: r.dist[i] == st.dist[i] && r.next[i] == st.next[i]
  {
    if ps != [] {
      RelaxAllPushes(net, w, st, u, c, ps[..|ps| - 1]);
    }
  }

  // ---------------------------------------------------------------- one lane settled

  lemma BestOfSettled(net: Network, w: seq<real>, dest: nat, r: State, order: seq<nat>, u: nat)
    requires Shaped(r, |net.lanes|) && |w| == |net.lanes| && Hops(net, w, dest, r) && Popped(r, |net.lanes|, dest, order + [u])
    requires Earlier(r, order, u, |net.lanes|) && u < |net.lanes| && FirstBest(net, w, dest, r, order)
    ensures forall k | 0 <= k < |order + [u]| :: (order + [u])[k] < |net.lanes|
    ensures FirstBest(net, w, dest, r, order + [u])
  {
    var o := order + [u];
    forall i: nat, k: nat | i < |net.lanes| && i != dest && BeforeHop(r, o, i, k) && Edge(net, i, o[k]) && r.dist[i].Finite?
      ensures r.dist[o[k]].Finite? && r.dist[i].v < r.dist[o[k]].v + w[o[k]]
    {
      assert HopInv(net, w, dest, r, i);
      assert k < |order| ==> BeforeHop(r, order, i, k) by {
        assert forall j | 0 <= j < |order| :: o[j] == order[j];
      }
    }
  }

  lemma SettledStay(net: Network, w: seq<real>, dest: nat, st: State, order: seq<nat>, u: nat, h: seq<Item>)
    requires Shaped(st, |net.lanes|) && Earlier(st, order, u, |net.lanes|) && u < |net.lanes| && !st.done[u]
    requires |w| == |net.lanes| && FirstBest(net, w, dest, st, order)
    requires forall it | it in h :: it.idx < |net.lanes|
    ensures var r := st.(heap := h, done := st.done[u := true]);
      Shaped(r, |net.lanes|) && Earlier(r, order, u, |net.lanes|) && FirstBest(net, w, dest, r, order)
  {
    var r := st.(heap := h, done := st.done[u := true]);
    forall k | 0 <= k < |h| ensures h[k].idx < |net.lanes| {
      assert h[k] in h;
    }
    forall i: nat, k: nat | i < |net.lanes| && i != dest && BeforeHop(r, order, i, k) && Edge(net, i, order[k]) && r.dist[i].Finite?
      ensures r.dist[order[k]].Finite? && r.dist[i].v < r.dist[order[k]].v + w[order[k]]
    {
      assert BeforeHop(st, order, i, k);
    }
  }

  /** The state of a pop, with the lane settled and its predecessors still to be relaxed. */
  function Popping(st: State, u: nat): State
    requires st.heap != [] && u < |st.done|
  {
    st.(heap := Without(st.heap, LeastIndex(st.heap)), done := st.done[u := true])
  }

  lemma OrderEarlier(net: Network, w: seq<real>, dest: nat, st: State, order: seq<nat>, u: nat)
    requires Inv(net, w, dest, st, order) && u < |net.lanes| && !st.done[u]
    ensures Earlier(st, order, u, |net.lanes|)
  {
    hide Hops, HeapCovers, EdgesRelaxed, DoneBeforeHeap;
  }

  lemma PoppingTies(net: Network, w: seq<real>, dest: nat, st: State, order: seq<nat>, u: nat)
    requires Inv(net, w, dest, st, order) && st.heap != []
    requires u == st.heap[LeastIndex(st.heap)].idx && !st.done[u]
    requires Earlier(st, order, u, |net.lanes|) && FirstBest(net, w, dest, st, order)
    ensures st.dist[u].Finite? && Relaxing(net, w, dest, Popping(st, u), u, st.dist[u].v)
    ensures Earlier(Popping(st, u), order, u, |net.lanes|) && FirstBest(net, w, dest, Popping(st, u), order)
  {
    hide FirstBest, Hops, HeapCovers, EdgesRelaxed, Popped, DoneFirst, DoneBeforeHeap, Earlier;
    PopIsFinal(net, w, dest, st, order);
    WithoutKeeps(st.heap, LeastIndex(st.heap));
    HeapInRange(st, |net.lanes|);
    SettledStay(net, w, dest, st, order, u, Without(st.heap, LeastIndex(st.heap)));
  }

  /** A lane that is settled keeps the hops the first of the best. */
  lemma FreshTies(net: Network, w: seq<real>, dest: nat, st: State, order: seq<nat>, u: nat)
    requires NonNegative(w) && Inv(net, w, dest, st, order) && st.heap != []
    requires u == st.heap[LeastIndex(st.heap)].idx && !st.done[u]
    requires Earlier(st, order, u, |net.lanes|) && FirstBest(net, w, dest, st, order)
    ensures forall k | 0 <= k < |order + [u]| :: (order + [u])[k] < |net.lanes|
    ensures FirstBest(net, w, dest, Step(net, w, st), order + [u])
  {
    hide FirstBest, Hops, HeapCovers, EdgesRelaxed, DoneFirst, DoneBeforeHeap, Step, Preds, NonNegative, Earlier, Popped, Relaxing;
    PoppingTies(net, w, dest, st, order, u);
    StepFresh(net, w, st, u);
    PredsExact(net, u);
    RelaxAllTies(net, w, dest, Popping(st, u), u, st.dist[u].v, order, Preds(net, u));
    FreshKeeps(net, w, dest, st, order, u);
    InvHops(net, w, dest, Step(net, w, st), order + [u]);
    BestOfSettled(net, w, dest, Step(net, w, st), order, u);
  }

  lemma InvHops(net: Network, w: seq<real>, dest: nat, st: State, order: seq<nat>)
    requires Inv(net, w, dest, st, order)
    ensures Shaped(st, |net.lanes|) && |w| == |net.lanes| && Hops(net, w, dest, st) && Popped(st, |net.lanes|, dest, order)
  {
  }

  lemma HeapInRange(st: State, n: nat)
    requires Shaped(st, n)
    ensures forall it | it in st.heap :: it.idx < n
  {
  }

  // ---------------------------------------------------------------- the order of settling

  lemma PopComesFirst(st: State, n: nat, order: seq<nat>, u: nat)
    requires Shaped(st, n) && HeapCovers(st, n) && st.heap != [] && u == st.heap[LeastIndex(st.heap)].idx && !st.done[u]
    requires Earlier(st, order, u, n) && SettledFirst(st, order, n) && InOrder(st, order, n)
    ensures InOrder(st, order + [u], n)
    ensures forall it | it in Without(st.heap, LeastIndex(st.heap)) && it.idx != u && !st.done[it.idx] ::
      forall k | 0 <= k < |order + [u]| :: ItemLess(Item((order + [u])[k], st.dist[(order + [u])[k]]), it)
  {
    var h, k := st.heap, LeastIndex(st.heap);
    var o := order + [u];
    PopIsLeast(st, n);
    assert h[k] == Item(u, st.dist[u]);
    forall a, b | 0 <= a < b < |o| ensures ItemLess(Item(o[a], st.dist[o[a]]), Item(o[b], st.dist[o[b]])) {
      assert o[a] == order[a];
      if b == |order| {
        assert ItemLess(Item(order[a], st.dist[order[a]]), h[k]);
      }
    }
    WithoutKeeps(h, k);
    forall it, j | it in Without(h, k) && it.idx != u && !st.done[it.idx] && 0 <= j < |o| ensures ItemLess(Item(o[j], st.dist[o[j]]), it) {
      var m :| 0 <= m < |h| && h[m] == it;
      if j < |order| {
        assert ItemLess(Item(order[j], st.dist[order[j]]), h[m]);
      } else {
        assert !ItemLess(h[m], h[k]);
      }
    }
  }

  /** With positive weights whatever is pushed lies beyond the lane just settled. */
  lemma PushedLater(net: Network, w: seq<real>, st: State, r: State, order: seq<nat>, u: nat)
    requires Shaped(st, |net.lanes|) && Shaped(r, |net.lanes|) && |w| == |net.lanes| && u < |net.lanes| && Positive(w)
    requires forall k | 0 <= k < |order| :: order[k] < |net.lanes| && r.dist[order[k]] == st.dist[order[k]] && st.dist[order[k]].Finite?
    requires |order| > 0 && order[|order| - 1] == u && st.dist[u].Finite? && InOrder(st, order, |net.lanes|)
    requires |st.heap| <= |r.heap| && r.heap[..|st.heap|] == st.heap && r.done == st.done
    requires forall m | |st.heap| <= m < |r.heap| :: r.heap[m].dist == Finite(st.dist[u].v + w[u])
    requires SettledFirst(st, order, |net.lanes|)
    ensures SettledFirst(r, order, |net.lanes|) && InOrder(r, order, |net.lanes|)
  {
    forall k, m | 0 <= k < |order| && 0 <= m < |r.heap| && !r.done[r.heap[m].idx]
      ensures ItemLess(Item(order[k], r.dist[order[k]]), r.heap[m])
    {
      if m < |st.heap| {
        assert r.heap[m] == st.heap[m];
      } else {
        assert k < |order| - 1 ==> ItemLess(Item(order[k], st.dist[order[k]]), Item(u, st.dist[u]));
      }
    }
  }

  lemma FreshOrders(net: Network, w: seq<real>, dest: nat, st: State, order: seq<nat>, u: nat)
    requires Positive(w) && NonNegative(w) && Inv(net, w, dest, st, order) && st.heap != []
    requires u == st.heap[LeastIndex(st.heap)].idx && !st.done[u] && Earlier(st, order, u, |net.lanes|)
    requires SettledFirst(st, order, |net.lanes|) && InOrder(st, order, |net.lanes|)
    ensures forall k | 0 <= k < |order + [u]| :: (order + [u])[k] < |net.lanes|
    ensures SettledFirst(Step(net, w, st), order + [u], |net.lanes|) && InOrder(Step(net, w, st), order + [u], |net.lanes|)
  {
    hide Hops, EdgesRelaxed, DoneFirst, DoneBeforeHeap, Step, Preds, NonNegative, Popped, Relaxing, ItemLess, Positive;
    PopIsFinal(net, w, dest, st, order);
    StepFresh(net, w, st, u);
    PredsExact(net, u);
    PopComesFirst(st, |net.lanes|, order, u);
    var mid, o := Popping(st, u), order + [u];
    MidSettled(st, |net.lanes|, order, u);
    DoneFinite(net, w, dest, st, order, u);
    RelaxAllPushes(net, w, mid, u, Finite(st.dist[u].v + w[u]), Preds(net, u));
    PushedLater(net, w, mid, Step(net, w, st), o, u);
  }

  lemma MidSettled(st: State, n: nat, order: seq<nat>, u: nat)
    requires Shaped(st, n) && st.heap != [] && u < n && Earlier(st, order, u, n) && InOrder(st, order + [u], n)
    requires forall it | it in Without(st.heap, LeastIndex(st.heap)) && it.idx != u && it.idx < n && !st.done[it.idx] ::
      forall k | 0 <= k < |order + [u]| :: ItemLess(Item((order + [u])[k], st.dist[(order + [u])[k]]), it)
    ensures Shaped(Popping(st, u), n)
    ensures SettledFirst(Popping(st, u), order + [u], n) && InOrder(Popping(st, u), order + [u], n)
  {
    hide ItemLess;
    var h := Without(st.heap, LeastIndex(st.heap));
    forall m | 0 <= m < |h| ensures h[m] in h && h[m].idx < n {
      WithoutKeeps(st.heap, LeastIndex(st.heap));
    }
  }

  lemma DoneFinite(net: Network, w: seq<real>, dest: nat, st: State, order: seq<nat>, u: nat)
    requires Inv(net, w, dest, st, order) && st.heap != [] && u == st.heap[LeastIndex(st.heap)].idx && !st.done[u]
    ensures forall k | 0 <= k < |order| :: order[k] < |net.lanes| && st.done[order[k]] && st.dist[order[k]].Finite?
  {
    hide Hops, EdgesRelaxed;
    PopIsLeast(st, |net.lanes|);
    var k := LeastIndex(st.heap);
    assert st.heap[k] in st.heap;
    assert DoneFirst(st, |net.lanes|, st.heap[k].dist.v);
  }

  // ---------------------------------------------------------------- whole runs

  ghost predicate Ties(net: Network, w: seq<real>, dest: nat, st: State, order: seq<nat>) {
    && Inv(net, w, dest, st, order)
    && (forall a, b | 0 <= a < b < |order| :: order[a] != order[b])
    && FirstBest(net, w, dest, st, order)
    && (Positive(w) ==> SettledFirst(st, order, |net.lanes|) && InOrder(st, order, |net.lanes|))
  }

  lemma StaleTies(net: Network, w: seq<real>, dest: nat, st: State, order: seq<nat>)
    requires Ties(net, w, dest, st, order) && st.heap != [] && st.done[st.heap[LeastIndex(st.heap)].idx]
    ensures Ties(net, w, dest, st.(heap := Without(st.heap, LeastIndex(st.heap))), order)
  {
    hide Hops, HeapCovers, EdgesRelaxed, DoneBeforeHeap, ItemLess, Positive;
    StaleKeeps(net, w, dest, st, order);
    var k := LeastIndex(st.heap);
    var r := st.(heap := Without(st.heap, k));
    forall m | 0 <= m < |r.heap| ensures r.heap[m] in st.heap {
      WithoutKeeps(st.heap, k);
    }
    forall i: nat, m: nat | i < |net.lanes| && i != dest && BeforeHop(r, order, i, m) && Edge(net, i, order[m]) && r.dist[i].Finite?
      ensures r.dist[order[m]].Finite? && r.dist[i].v < r.dist[order[m]].v + w[order[m]]
    {
      assert BeforeHop(st, order, i, m);
    }
  }

  lemma StepTies(net: Network, w: seq<real>, dest: nat, st: State, order: seq<nat>) returns (order': seq<nat>)
    requires NonNegative(w) && Ties(net, w, dest, st, order) && st.heap != []
    ensures Ties(net, w, dest, Step(net, w, st), order')
  {
    hide Inv, FirstBest, SettledFirst, InOrder, Positive, NonNegative, RelaxAll;
    InvHops(net, w, dest, st, order);
    var u := st.heap[LeastIndex(st.heap)].idx;
    if st.done[u] {
      StaleTies(net, w, dest, st, order);
      order' := order;
    } else {
      OrderEarlier(net, w, dest, st, order, u);
      FreshTies(net, w, dest, st, order, u);
      FreshKeeps(net, w, dest, st, order, u);
      if Positive(w) {
        FreshOrders(net, w, dest, st, order, u);
      }
      order' := order + [u];
    }
  }

  lemma {:induction false} RunTies(net: Network, w: seq<real>, dest: nat, st: State, order: seq<nat>) returns (order': seq<nat>)
    requires NonNegative(w) && Ties(net, w, dest, st, order)
    ensures Ties(net, w, dest, Run(net, w, st), order')
    decreases Open(st.done), |st.heap|
  {
    hide Ties, NonNegative, Step;
    TiesShape(net, w, dest, st, order);
    if st.heap == [] {
      order' := order;
    } else {
      var o := StepTies(net, w, dest, st, order);
      order' := RunTies(net, w, dest, Step(net, w, st), o);
    }
  }

  lemma TiesShape(net: Network, w: seq<real>, dest: nat, st: State, order: seq<nat>)
    requires Ties(net, w, dest, st, order)
    ensures Shaped(st, |net.lanes|) && |w| == |net.lanes|
  {
  }

  /** Lanes are settled one by one, each once, all that can reach the destination; and the hop of
      a lane is the first settled of the successors on a shortest way. */
  lemma HopIsFirstSettled(net: Network, w: seq<real>, dest: nat) returns (order: seq<nat>)
    requires NonNegative(w) && |w| == |net.lanes| && dest < |net.lanes|
    ensures var r := RouteDijkstra(net, w, dest);
      && (forall a, b | 0 <= a < b < |order| :: order[a] != order[b])
      && (forall i: nat :: i in order <==> i < |net.lanes| && r.dist[i].Finite?)
      && (forall k | 0 <= k < |order| :: order[k] < |net.lanes|)
      && FirstBest(net, w, dest, r, order)
      && (Positive(w) ==> InOrder(r, order, |net.lanes|))
  {
    hide FirstBest, SettledFirst, InOrder, Positive, Run;
    StartTies(net, w, dest);
    order := RunTies(net, w, dest, Initial(|net.lanes|, dest), []);
    var r := RouteDijkstra(net, w, dest);
    forall i: nat ensures i in order <==> i < |net.lanes| && r.dist[i].Finite? {
      ReachedSettled(net, w, dest, r, order, i);
    }
    forall k | 0 <= k < |order| ensures order[k] < |net.lanes| {
      assert order[k] in order;
    }
  }

  lemma StartTies(net: Network, w: seq<real>, dest: nat)
    requires |w| == |net.lanes| && dest < |net.lanes|
    ensures Ties(net, w, dest, Initial(|net.lanes|, dest), [])
  {
  }

  lemma ReachedSettled(net: Network, w: seq<real>, dest: nat, st: State, order: seq<nat>, i: nat)
    requires Inv(net, w, dest, st, order) && st.heap == []
    ensures i in order <==> i < |net.lanes| && st.dist[i].Finite?
  {
    if i in order {
      var k :| 0 <= k < |order| && order[k] == i;
      assert order[k] == dest || st.next[order[k]] in order[..k];
      assert HopInv(net, w, dest, st, i);
    }
  }

  /** Where weights are positive: of all successors that lead on to a shortest way, the hop is
      the nearest to the destination, and of those the one of least index. */
  lemma TiesAreBroken(net: Network, w: seq<real>, dest: nat, i: nat, u: nat)
    requires Positive(w) && |w| == |net.lanes| && dest < |net.lanes| && i < |net.lanes| && i != dest && u < |net.lanes| && Edge(net, i, u)
    requires var r := RouteDijkstra(net, w, dest); r.dist[i].Finite? && r.dist[u].Finite? && r.dist[i].v == r.dist[u].v + w[u]
    ensures var r := RouteDijkstra(net, w, dest);
      && 0 <= r.next[i] < |net.lanes| && r.dist[r.next[i]].Finite?
      && (r.dist[r.next[i]].v < r.dist[u].v || (r.dist[r.next[i]].v == r.dist[u].v && r.next[i] <= u))
  {
    hide RouteDijkstra;
    var order := HopIsFirstSettled(net, w, dest);
    var r := RouteDijkstra(net, w, dest);
    var o := DijkstraInv(net, w, dest);
    assert HopInv(net, w, dest, r, i);
    var h: nat := r.next[i];
    assert u in order && h in order;
    var a: nat :| a < |order| && order[a] == h;
    var b: nat :| b < |order| && order[b] == u;
    if b < a {
      ComesBefore(r, order, i, a, b);
    } else if a < b {
      SettledEarlier(r, order, |net.lanes|, a, b);
    }
  }

  lemma ComesBefore(st: State, order: seq<nat>, i: nat, a: nat, b: nat)
    requires i < |st.next| && b < a < |order| && order[a] == st.next[i] && forall x, y | 0 <= x < y < |order| :: order[x] != order[y]
    ensures BeforeHop(st, order, i, b)
  {
  }

  lemma SettledEarlier(st: State, order: seq<nat>, n: nat, a: nat, b: nat)
    requires Shaped(st, n) && (forall k | 0 <= k < |order| :: order[k] < n) && InOrder(st, order, n) && a < b < |order|
    ensures ItemLess(Item(order[a], st.dist[order[a]]), Item(order[b], st.dist[order[b]]))
  {
  }
}
