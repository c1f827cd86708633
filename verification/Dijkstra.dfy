/** Reverse shortest paths towards a destination lane, with lazy deletion: stale heap
    entries stay until popped and are skipped by the done flags. */
module Dijkstra {
  import opened LaneGraph

  datatype Cost = Infinite | Finite(v: real)

  function Plus(c: Cost, x: real): Cost {
    match c
    case Infinite => Infinite
    case Finite(v) => Finite(v + x)
  }

  predicate Less(a: Cost, b: Cost) {
    a.Finite? && (b.Infinite? || a.v < b.v)
  }

  /** A heap entry; ties on distance break towards the lower lane index. */
  datatype Item = Item(idx: nat, dist: Cost)

  predicate ItemLess(a: Item, b: Item) {
    if a.dist != b.dist then Less(a.dist, b.dist) else a.idx < b.idx
  }

  predicate IsLeast(h: seq<Item>, k: nat) {
    k < |h| && forall i | 0 <= i < |h| :: !ItemLess(h[i], h[k])
  }

  /** Position of the entry the heap pops: the first among the least. */
  function LeastIndex(h: seq<Item>): (k: nat)
    requires h != []
    ensures IsLeast(h, k)
  {
    if |h| == 1 then 0
    else
      var k := LeastIndex(h[..|h| - 1]);
      if ItemLess(h[|h| - 1], h[k]) then |h| - 1 else k
  }

  function Without(h: seq<Item>, k: nat): seq<Item>
    requires k < |h|
  {
    h[..k] + h[k + 1..]
  }

  method PopLeast(h: seq<Item>) returns (it: Item, rest: seq<Item>)
    requires h != []
    ensures it == h[LeastIndex(h)] && rest == Without(h, LeastIndex(h))
  {
    var k := 0;
    assert h[..1] == [h[0]];
    for i := 1 to |h|
      invariant k < i && k == LeastIndex(h[..i])
    {
      assert h[..i + 1][..i] == h[..i];
      if ItemLess(h[i], h[k]) {
        k := i;
      }
    }
    assert h[..|h|] == h;
    return h[k], h[..k] + h[k + 1..];
  }

  // ---------------------------------------------------------------- the algorithm as a function

  datatype State = State(dist: seq<Cost>, next: seq<int>, done: seq<bool>, heap: seq<Item>)

  predicate Shaped(st: State, n: nat) {
    && |st.dist| == n && |st.next| == n && |st.done| == n
    && forall k | 0 <= k < |st.heap| :: st.heap[k].idx < n
  }

  function Initial(n: nat, dest: nat): (st: State)
    requires dest < n
    ensures Shaped(st, n)
  {
    State(seq(n, i => if i == dest then Finite(0.0) else Infinite), seq(n, _ => -1), seq(n, _ => false),
          [Item(dest, Finite(0.0))])
  }

  /** One relaxation of predecessor p over popped lane u, entered at cost c. */
  function Relax(st: State, u: nat, c: Cost, p: nat): (r: State)
    requires Shaped(st, |st.dist|) && p < |st.dist|
    ensures Shaped(r, |st.dist|) && r.done == st.done
  {
    if !st.done[p] && Less(c, st.dist[p]) then
      State(st.dist[p := c], st.next[p := u], st.done, st.heap + [Item(p, c)])
    else st
  }

  function RelaxAll(st: State, u: nat, c: Cost, ps: seq<nat>): (r: State)
    requires Shaped(st, |st.dist|) && Below(ps, |st.dist|)
    ensures Shaped(r, |st.dist|) && r.done == st.done && |r.dist| == |st.dist|
  {
    if ps == [] then st
    else Relax(RelaxAll(st, u, c, ps[..|ps| - 1]), u, c, ps[|ps| - 1])
  }

  function Open(done: seq<bool>): nat {
    if done == [] then 0 else Open(done[..|done| - 1]) + if done[|done| - 1] then 0 else 1
  }

  lemma {:induction false} OpenDrops(done: seq<bool>, u: nat)
    requires u < |done| && !done[u]
    ensures Open(done[u := true]) < Open(done)
  {
    var n := |done| - 1;
    if u < n {
      OpenDrops(done[..n], u);
      assert done[u := true][..n] == done[..n][u := true];
    } else {
      assert done[u := true][..n] == done[..n];
    }
  }

  /** Pops one entry. */
  function Step(net: Network, w: seq<real>, st: State): (r: State)
    requires Shaped(st, |net.lanes|) && |w| == |net.lanes| && st.heap != []
    ensures Shaped(r, |net.lanes|)
    ensures (r.done == st.done && |r.heap| < |st.heap|) || Open(r.done) < Open(st.done)
  {
    var k := LeastIndex(st.heap);
    var u := st.heap[k].idx;
    var popped := st.(heap := Without(st.heap, k));
    assert Shaped(popped, |net.lanes|);
    if st.done[u] then popped
    else
      PredsExact(net, u);
      OpenDrops(st.done, u);
      RelaxAll(popped.(done := st.done[u := true]), u, Plus(st.dist[u], w[u]), Preds(net, u))
  }

  function Run(net: Network, w: seq<real>, st: State): (r: State)
    requires Shaped(st, |net.lanes|) && |w| == |net.lanes|
    ensures Shaped(r, |net.lanes|) && r.heap == []
    decreases Open(st.done), |st.heap|
  {
    if st.heap == [] then st else Run(net, w, Step(net, w, st))
  }

  /** Next hops and costs of every lane towards dest. */
  function RouteDijkstra(net: Network, w: seq<real>, dest: nat): (r: State)
    requires |w| == |net.lanes| && dest < |net.lanes|
    ensures Shaped(r, |net.lanes|)
  {
    Run(net, w, Initial(|net.lanes|, dest))
  }

  // ---------------------------------------------------------------- the algorithm in place

  /** Relaxes the predecessors of a freshly done lane, pushing what improves. */
  method RelaxPreds(u: nat, c: Cost, ps: seq<nat>, dist: array<Cost>, next: array<int>, done: array<bool>, heap: seq<Item>)
    returns (h: seq<Item>)
    requires Shaped(State(dist[..], next[..], done[..], heap), dist.Length)
    requires Below(ps, dist.Length)
    modifies dist, next
    ensures State(dist[..], next[..], done[..], h) == RelaxAll(old(State(dist[..], next[..], done[..], heap)), u, c, ps)
  {
    h := heap;
    ghost var before := State(dist[..], next[..], done[..], heap);
    for k := 0 to |ps|
      invariant State(dist[..], next[..], done[..], h) == RelaxAll(before, u, c, ps[..k])
    {
      assert ps[..k + 1][..k] == ps[..k];
      var p := ps[k];
      if !done[p] && Less(c, dist[p]) {
        dist[p] := c;
        next[p] := u;
        h := h + [Item(p, c)];
      }
    }
    assert ps[..|ps|] == ps;
  }

  /** Pops one entry; a lane popped for the first time is done and relaxes its
      predecessors, a stale entry is dropped. */
  method PopStep(net: Network, w: seq<real>, preds: array<seq<nat>>, dist: array<Cost>, next: array<int>, done: array<bool>, heap: seq<Item>)
    returns (h: seq<Item>)
    requires Shaped(State(dist[..], next[..], done[..], heap), |net.lanes|) && |w| == |net.lanes| && heap != []
    requires preds.Length == |net.lanes| && forall u | 0 <= u < preds.Length :: preds[u] == Preds(net, u)
    modifies dist, next, done
    ensures State(dist[..], next[..], done[..], h) == Step(net, w, old(State(dist[..], next[..], done[..], heap)))
  {
    var it, rest := PopLeast(heap);
    var u := it.idx;
    if done[u] {
      h := rest;
    } else {
      done[u] := true;
      assert done[..] == old(done[..])[u := true];
      PredsExact(net, u);
      h := RelaxPreds(u, Plus(dist[u], w[u]), preds[u], dist, next, done, rest);
    }
  }

  method ComputeRouteDijkstra(net: Network, w: seq<real>, dest: nat) returns (next: array<int>, dist: array<Cost>)
    requires net.Valid() && |w| == |net.lanes| && dest < |net.lanes|
    ensures fresh(next) && fresh(dist)
    ensures next[..] == RouteDijkstra(net, w, dest).next && dist[..] == RouteDijkstra(net, w, dest).dist
  {
    var n := |net.lanes|;
    var preds := RoutePreds(net);
    dist := new Cost[n](_ => Infinite);
    next := new int[n](_ => -1);
    var done := new bool[n](_ => false);
    dist[dest] := Finite(0.0);
    var h := [Item(dest, Finite(0.0))];
    ghost var st := State(dist[..], next[..], done[..], h);
    assert st == Initial(n, dest);
    while h != []
      modifies dist, next, done
      invariant st == State(dist[..], next[..], done[..], h)
      invariant Shaped(st, n)
      invariant Run(net, w, st) == RouteDijkstra(net, w, dest)
      decreases Open(st.done), |h|
    {
      h := PopStep(net, w, preds, dist, next, done, h);
      st := Step(net, w, st);
    }
  }

  // ---------------------------------------------------------------- correctness

  /** Distances are non-negative and hops lead to done lanes at exactly the edge's cost. */
  ghost predicate HopInv(net: Network, w: seq<real>, dest: nat, st: State, i: nat)
    requires Shaped(st, |net.lanes|) && |w| == |net.lanes| && i < |net.lanes|
  {
    if i == dest || st.dist[i].Infinite? then st.next[i] == -1
    else
      && 0 <= st.next[i] < |net.lanes|
      && st.done[st.next[i]]
      && Edge(net, i, st.next[i])
      && st.dist[st.next[i]].Finite?
      && st.dist[i].v == st.dist[st.next[i]].v + w[st.next[i]]
  }

  ghost predicate Hops(net: Network, w: seq<real>, dest: nat, st: State)
    requires Shaped(st, |net.lanes|) && |w| == |net.lanes|
  {
    && dest < |net.lanes| && st.dist[dest] == Finite(0.0)
    && (forall i | 0 <= i < |net.lanes| && st.dist[i].Finite? :: st.dist[i].v >= 0.0)
    && (forall i | 0 <= i < |net.lanes| :: HopInv(net, w, dest, st, i))
  }

  /** Open lanes with a distance are in the heap under it; no entry undercuts its lane. */
  ghost predicate HeapCovers(st: State, n: nat)
    requires Shaped(st, n)
  {
    && (forall i | 0 <= i < n && !st.done[i] && st.dist[i].Finite? :: Item(i, st.dist[i]) in st.heap)
    && (forall it | it in st.heap :: it.idx < n && it.dist.Finite? && st.dist[it.idx].Finite? && st.dist[it.idx].v <= it.dist.v)
  }

  /** Done lanes are no farther than anything still to be popped, or than `cap`. */
  ghost predicate DoneFirst(st: State, n: nat, cap: real)
    requires Shaped(st, n)
  {
    forall i | 0 <= i < n && st.done[i] :: st.dist[i].Finite? && st.dist[i].v <= cap
  }

  ghost predicate DoneBeforeHeap(st: State, n: nat)
    requires Shaped(st, n)
  {
    forall it | it in st.heap && it.dist.Finite? :: DoneFirst(st, n, it.dist.v)
  }

  ghost predicate Relaxed(net: Network, w: seq<real>, st: State, u: nat, p: nat)
    requires Shaped(st, |net.lanes|) && |w| == |net.lanes| && u < |net.lanes| && p < |net.lanes|
  {
    st.dist[u].Finite? && st.dist[p].Finite? && st.dist[p].v <= st.dist[u].v + w[u]
  }

  /** Every edge into a done lane other than `except` is relaxed. */
  ghost predicate EdgesRelaxed(net: Network, w: seq<real>, st: State, except: int)
    requires Shaped(st, |net.lanes|) && |w| == |net.lanes|
  {
    forall u, p | 0 <= u < |net.lanes| && 0 <= p < |net.lanes| && st.done[u] && u != except && Edge(net, p, u) ::
      Relaxed(net, w, st, u, p)
  }

  /** `order` lists the done lanes as popped: each hop leads to an earlier one. */
  ghost predicate Popped(st: State, n: nat, dest: nat, order: seq<nat>)
    requires Shaped(st, n)
  {
    && (forall k | 0 <= k < |order| :: order[k] < n && st.done[order[k]])
    && (forall i | 0 <= i < n && st.done[i] :: i in order)
    && (forall k | 0 <= k < |order| :: order[k] == dest || st.next[order[k]] in order[..k])
  }

  ghost predicate Inv(net: Network, w: seq<real>, dest: nat, st: State, order: seq<nat>) {
    && Shaped(st, |net.lanes|) && |w| == |net.lanes|
    && Hops(net, w, dest, st)
    && HeapCovers(st, |net.lanes|)
    && DoneBeforeHeap(st, |net.lanes|)
    && EdgesRelaxed(net, w, st, -1)
    && Popped(st, |net.lanes|, dest, order)
  }

  ghost predicate NonNegative(w: seq<real>) {
    forall i | 0 <= i < |w| :: w[i] >= 0.0
  }

  /** While lane u, done at cost d, relaxes its predecessors: the invariant, with u's own
      edges outstanding. */
  ghost predicate Relaxing(net: Network, w: seq<real>, dest: nat, st: State, u: nat, d: real) {
    && Shaped(st, |net.lanes|) && |w| == |net.lanes| && u < |net.lanes|
    && st.done[u] && st.dist[u] == Finite(d)
    && Hops(net, w, dest, st)
    && HeapCovers(st, |net.lanes|)
    && DoneFirst(st, |net.lanes|, d)
    && (forall it | it in st.heap :: it.dist.Finite? && d <= it.dist.v)
    && EdgesRelaxed(net, w, st, u)
  }

  lemma RelaxKeeps(net: Network, w: seq<real>, dest: nat, st: State, u: nat, d: real, p: nat)
    requires NonNegative(w) && Relaxing(net, w, dest, st, u, d) && p < |net.lanes| && Edge(net, p, u)
    ensures var r := Relax(st, u, Finite(d + w[u]), p);
      && Relaxing(net, w, dest, r, u, d)
      && Relaxed(net, w, r, u, p)
      && (forall q | 0 <= q < |net.lanes| && Relaxed(net, w, st, u, q) :: Relaxed(net, w, r, u, q))
      && (forall i | 0 <= i < |net.lanes| && st.done[i] :: r.next[i] == st.next[i])
  {
    var r := Relax(st, u, Finite(d + w[u]), p);
    if !st.done[p] && Less(Finite(d + w[u]), st.dist[p]) {
      assert p != u && p != dest;
      forall i | 0 <= i < |net.lanes| ensures HopInv(net, w, dest, r, i) {
        assert HopInv(net, w, dest, st, i);
      }
      forall u', p' | 0 <= u' < |net.lanes| && 0 <= p' < |net.lanes| && r.done[u'] && u' != u && Edge(net, p', u')
        ensures Relaxed(net, w, r, u', p')
      {
        assert Relaxed(net, w, st, u', p');
      }
    } else if st.done[p] {
      assert st.dist[p].v <= d;
    }
  }

  lemma {:induction false} RelaxAllKeeps(net: Network, w: seq<real>, dest: nat, st: State, u: nat, d: real, ps: seq<nat>)
    requires NonNegative(w) && Relaxing(net, w, dest, st, u, d)
    requires Below(ps, |net.lanes|) && forall p | p in ps :: Edge(net, p, u)
    ensures var r := RelaxAll(st, u, Finite(d + w[u]), ps);
      && Relaxing(net, w, dest, r, u, d)
      && (forall p | p in ps :: Relaxed(net, w, r, u, p))
      && (forall i | 0 <= i < |net.lanes| && st.done[i] :: r.next[i] == st.next[i])
  {
    if ps != [] {
      var n := |ps| - 1;
      RelaxAllKeeps(net, w, dest, st, u, d, ps[..n]);
      RelaxKeeps(net, w, dest, RelaxAll(st, u, Finite(d + w[u]), ps[..n]), u, d, ps[n]);
      assert ps == ps[..n] + [ps[n]];
    }
  }

  lemma WithoutKeeps(h: seq<Item>, k: nat)
    requires k < |h|
    ensures forall it | it in Without(h, k) :: it in h
    ensures forall it | it in h && it != h[k] :: it in Without(h, k)
  {
    forall it | it in h && it != h[k] ensures it in Without(h, k) {
      var i :| 0 <= i < |h| && h[i] == it;
      if i < k {
        assert Without(h, k)[i] == it;
      } else {
        assert Without(h, k)[i - 1] == it;
      }
    }
  }

  lemma PopIsLeast(st: State, n: nat)
    requires Shaped(st, n) && HeapCovers(st, n) && st.heap != []
    requires !st.done[st.heap[LeastIndex(st.heap)].idx]
    ensures var k := LeastIndex(st.heap);
      && st.heap[k].dist == st.dist[st.heap[k].idx] && st.heap[k].dist.Finite?
      && forall it | it in st.heap :: it.dist.Finite? && st.heap[k].dist.v <= it.dist.v
  {
    var k := LeastIndex(st.heap);
    assert st.heap[k] in st.heap;
    var own := Item(st.heap[k].idx, st.dist[st.heap[k].idx]);
    assert own in st.heap;
    var j :| 0 <= j < |st.heap| && st.heap[j] == own;
    assert !ItemLess(st.heap[j], st.heap[k]);
    forall it | it in st.heap ensures it.dist.Finite? && st.heap[k].dist.v <= it.dist.v {
      var i :| 0 <= i < |st.heap| && st.heap[i] == it;
      assert !ItemLess(st.heap[i], st.heap[k]);
    }
  }

  lemma SameHopsAndEdges(net: Network, w: seq<real>, dest: nat, st: State, r: State, u: int)
    requires Shaped(st, |net.lanes|) && Shaped(r, |net.lanes|) && |w| == |net.lanes|
    requires r.dist == st.dist && r.next == st.next
    requires forall i | 0 <= i < |net.lanes| :: (st.done[i] ==> r.done[i]) && (r.done[i] && i != u ==> st.done[i])
    requires Hops(net, w, dest, st) && EdgesRelaxed(net, w, st, -1)
    ensures Hops(net, w, dest, r) && EdgesRelaxed(net, w, r, u)
  {
    forall i | 0 <= i < |net.lanes| ensures HopInv(net, w, dest, r, i) {
      assert HopInv(net, w, dest, st, i);
    }
    forall u', p' | 0 <= u' < |net.lanes| && 0 <= p' < |net.lanes| && r.done[u'] && u' != u && Edge(net, p', u')
      ensures Relaxed(net, w, r, u', p')
    {
      assert Relaxed(net, w, st, u', p');
    }
  }

  /** A fresh pop is final: the entry carries the lane's own distance, and nothing left is
      nearer. */
  lemma PopIsFinal(net: Network, w: seq<real>, dest: nat, st: State, order: seq<nat>)
    requires Inv(net, w, dest, st, order) && st.heap != []
    requires !st.done[st.heap[LeastIndex(st.heap)].idx]
    ensures var k := LeastIndex(st.heap);
      var u := st.heap[k].idx;
      && st.dist[u].Finite?
      && Relaxing(net, w, dest, st.(heap := Without(st.heap, k), done := st.done[u := true]), u, st.dist[u].v)
  {
    var k := LeastIndex(st.heap);
    var u := st.heap[k].idx;
    PopIsLeast(st, |net.lanes|);
    var r := st.(heap := Without(st.heap, k), done := st.done[u := true]);
    WithoutKeeps(st.heap, k);
    SameHopsAndEdges(net, w, dest, st, r, u);
    assert st.heap[k] in st.heap;
    assert DoneFirst(st, |net.lanes|, st.heap[k].dist.v);
  }

  lemma StaleKeeps(net: Network, w: seq<real>, dest: nat, st: State, order: seq<nat>)
    requires Inv(net, w, dest, st, order) && st.heap != []
    requires var u := st.heap[LeastIndex(st.heap)].idx; st.done[u]
    ensures Inv(net, w, dest, st.(heap := Without(st.heap, LeastIndex(st.heap))), order)
  {
    var k := LeastIndex(st.heap);
    var r := st.(heap := Without(st.heap, k));
    WithoutKeeps(st.heap, k);
    SameHopsAndEdges(net, w, dest, st, r, -1);
    forall it | it in r.heap && it.dist.Finite? ensures DoneFirst(r, |net.lanes|, it.dist.v) {
      assert DoneFirst(st, |net.lanes|, it.dist.v);
    }
  }

  lemma RelaxedAllIsInv(net: Network, w: seq<real>, dest: nat, st: State, u: nat, d: real)
    requires Relaxing(net, w, dest, st, u, d)
    requires forall p | p in Preds(net, u) :: p < |net.lanes| && Relaxed(net, w, st, u, p)
    ensures DoneBeforeHeap(st, |net.lanes|) && EdgesRelaxed(net, w, st, -1)
  {
    PredsExact(net, u);
  }

  lemma PoppedGrows(net: Network, w: seq<real>, dest: nat, st: State, r: State, order: seq<nat>, u: nat)
    requires Inv(net, w, dest, st, order) && u < |net.lanes| && !st.done[u] && st.dist[u].Finite?
    requires Shaped(r, |net.lanes|) && r.done == st.done[u := true]
    requires r.next[u] == st.next[u] && forall i | 0 <= i < |net.lanes| && st.done[i] :: r.next[i] == st.next[i]
    ensures Popped(r, |net.lanes|, dest, order + [u])
  {
    var o := order + [u];
    forall k | 0 <= k < |o| ensures o[k] == dest || r.next[o[k]] in o[..k] {
      if k < |order| {
        assert o[..k] == order[..k] && o[k] == order[k];
      } else {
        assert o[..k] == order && HopInv(net, w, dest, st, u);
      }
    }
  }

  lemma RelaxPredsKeeps(net: Network, w: seq<real>, dest: nat, st: State, u: nat, d: real)
    requires NonNegative(w) && Relaxing(net, w, dest, st, u, d)
    ensures Below(Preds(net, u), |net.lanes|)
    ensures var r := RelaxAll(st, u, Finite(d + w[u]), Preds(net, u));
      && Relaxing(net, w, dest, r, u, d)
      && (forall p | p in Preds(net, u) :: p < |net.lanes| && Relaxed(net, w, r, u, p))
      && (forall i | 0 <= i < |net.lanes| && st.done[i] :: r.next[i] == st.next[i])
  {
    PredsExact(net, u);
    RelaxAllKeeps(net, w, dest, st, u, d, Preds(net, u));
  }

  lemma StepFresh(net: Network, w: seq<real>, st: State, u: nat)
    requires Shaped(st, |net.lanes|) && |w| == |net.lanes| && st.heap != []
    requires u == st.heap[LeastIndex(st.heap)].idx && !st.done[u] && st.dist[u].Finite?
    ensures Below(Preds(net, u), |net.lanes|)
    ensures var mid := st.(heap := Without(st.heap, LeastIndex(st.heap)), done := st.done[u := true]);
      Shaped(mid, |net.lanes|) && Step(net, w, st) == RelaxAll(mid, u, Finite(st.dist[u].v + w[u]), Preds(net, u))
  {
    PredsExact(net, u);
  }

  lemma FreshRelaxes(net: Network, w: seq<real>, dest: nat, st: State, order: seq<nat>, u: nat)
    requires NonNegative(w) && Inv(net, w, dest, st, order) && st.heap != []
    requires u == st.heap[LeastIndex(st.heap)].idx && !st.done[u]
    ensures st.dist[u].Finite? && var r := Step(net, w, st);
      && Relaxing(net, w, dest, r, u, st.dist[u].v)
      && r.done == st.done[u := true]
      && (forall p | p in Preds(net, u) :: p < |net.lanes| && Relaxed(net, w, r, u, p))
      && (forall i | 0 <= i < |net.lanes| && r.done[i] :: r.next[i] == st.next[i])
  {
    hide Hops, HeapCovers, EdgesRelaxed, Popped, Relaxed, DoneFirst, DoneBeforeHeap, Step, Preds, NonNegative;
    var k := LeastIndex(st.heap);
    PopIsFinal(net, w, dest, st, order);
    StepFresh(net, w, st, u);
    RelaxPredsKeeps(net, w, dest, st.(heap := Without(st.heap, k), done := st.done[u := true]), u, st.dist[u].v);
  }

  lemma FreshKeeps(net: Network, w: seq<real>, dest: nat, st: State, order: seq<nat>, u: nat)
    requires NonNegative(w) && Inv(net, w, dest, st, order) && st.heap != []
    requires u == st.heap[LeastIndex(st.heap)].idx && !st.done[u]
    ensures Inv(net, w, dest, Step(net, w, st), order + [u])
  {
    FreshRelaxes(net, w, dest, st, order, u);
    var r := Step(net, w, st);
    RelaxedAllIsInv(net, w, dest, r, u, st.dist[u].v);
    PoppedGrows(net, w, dest, st, r, order, u);
  }

  lemma StepKeepsInv(net: Network, w: seq<real>, dest: nat, st: State, order: seq<nat>) returns (order': seq<nat>)
    requires NonNegative(w) && Inv(net, w, dest, st, order) && st.heap != []
    ensures Inv(net, w, dest, Step(net, w, st), order')
  {
    var u := st.heap[LeastIndex(st.heap)].idx;
    if st.done[u] {
      StaleKeeps(net, w, dest, st, order);
      order' := order;
    } else {
      FreshKeeps(net, w, dest, st, order, u);
      order' := order + [u];
    }
  }

  lemma {:induction false} RunKeepsInv(net: Network, w: seq<real>, dest: nat, st: State, order: seq<nat>) returns (order': seq<nat>)
    requires NonNegative(w) && Inv(net, w, dest, st, order)
    ensures Inv(net, w, dest, Run(net, w, st), order')
    decreases Open(st.done), |st.heap|
  {
    if st.heap == [] {
      order' := order;
    } else {
      var o := StepKeepsInv(net, w, dest, st, order);
      order' := RunKeepsInv(net, w, dest, Step(net, w, st), o);
    }
  }

  lemma DijkstraInv(net: Network, w: seq<real>, dest: nat) returns (order: seq<nat>)
    requires NonNegative(w) && |w| == |net.lanes| && dest < |net.lanes|
    ensures Inv(net, w, dest, RouteDijkstra(net, w, dest), order)
    ensures RouteDijkstra(net, w, dest).heap == []
  {
    order := RunKeepsInv(net, w, dest, Initial(|net.lanes|, dest), []);
  }

  /** No path beats the computed distance; in particular every lane with a path has one. */
  lemma {:induction false} PathsCostAtLeast(net: Network, w: seq<real>, dest: nat, st: State, order: seq<nat>, p: seq<nat>, i: nat)
    requires Inv(net, w, dest, st, order) && st.heap == [] && PathTo(net, p, i, dest)
    ensures st.dist[i].Finite? && st.dist[i].v <= PathCost(w, p)
  {
    if |p| > 1 {
      PathTail(net, p, i, dest);
      PathsCostAtLeast(net, w, dest, st, order, p[1..], p[1]);
      assert st.done[p[1]];
      assert Relaxed(net, w, st, p[1], i);
    }
  }

  /** Following the hops from a reached lane realises its distance. */
  lemma {:induction false} HopsRealise(net: Network, w: seq<real>, dest: nat, st: State, order: seq<nat>, k: nat) returns (p: seq<nat>)
    requires Shaped(st, |net.lanes|) && |w| == |net.lanes| && k < |order|
    requires Hops(net, w, dest, st) && Popped(st, |net.lanes|, dest, order)
    requires st.dist[order[k]].Finite?
    ensures PathTo(net, p, order[k], dest) && PathCost(w, p) == st.dist[order[k]].v
    ensures forall m | 0 <= m < |p| - 1 :: st.next[p[m]] == p[m + 1]
    decreases k
  {
    var i := order[k];
    if i == dest {
      p := [i];
    } else {
      assert HopInv(net, w, dest, st, i);
      var j :| 0 <= j < k && order[j] == st.next[i];
      var q := HopsRealise(net, w, dest, st, order, j);
      PathCons(net, q, i, st.next[i], dest);
      p := [i] + q;
    }
  }

  /** `p` follows the hops of a table from i to dest. */
  ghost predicate Follows(tab: seq<int>, p: seq<nat>) {
    forall m | 0 <= m < |p| - 1 :: p[m] < |tab| && tab[p[m]] == p[m + 1]
  }

  /** The distance of every lane is the least cost over all its paths to the destination,
      and following the hops realises exactly that cost; a lane has no distance exactly
      when it has no path. */
  lemma {:induction false} DijkstraIsShortest(net: Network, w: seq<real>, dest: nat, i: nat)
    requires NonNegative(w) && |w| == |net.lanes| && dest < |net.lanes| && i < |net.lanes|
    ensures var r := RouteDijkstra(net, w, dest);
      && (r.dist[i].Finite? <==> Reachable(net, i, dest))
      && (forall p | PathTo(net, p, i, dest) :: r.dist[i].Finite? && r.dist[i].v <= PathCost(w, p))
      && (r.dist[i].Finite? ==>
            exists p :: PathTo(net, p, i, dest) && Follows(r.next, p) && PathCost(w, p) == r.dist[i].v)
  {
    var order := DijkstraInv(net, w, dest);
    var r := RouteDijkstra(net, w, dest);
    forall p | PathTo(net, p, i, dest) ensures r.dist[i].Finite? && r.dist[i].v <= PathCost(w, p) {
      PathsCostAtLeast(net, w, dest, r, order, p, i);
    }
    if r.dist[i].Finite? {
      assert r.done[i];
      var k :| 0 <= k < |order| && order[k] == i;
      var p := HopsRealise(net, w, dest, r, order, k);
      assert Follows(r.next, p);
    }
  }

  /** Hops are successor edges, absent exactly at the destination and on lanes that
      cannot reach it. */
  lemma DijkstraHops(net: Network, w: seq<real>, dest: nat, i: nat)
    requires NonNegative(w) && |w| == |net.lanes| && dest < |net.lanes| && i < |net.lanes|
    ensures var next := RouteDijkstra(net, w, dest).next;
      && (next[i] == -1 <==> i == dest || !Reachable(net, i, dest))
      && (next[i] != -1 ==> 0 <= next[i] < |net.lanes| && Edge(net, i, next[i]))
  {
    var order := DijkstraInv(net, w, dest);
    DijkstraIsShortest(net, w, dest, i);
    assert HopInv(net, w, dest, RouteDijkstra(net, w, dest), i);
  }
}
