/** Lateral depth: the least number of lane changes on any way to the destination, found
    by a layered 0-1 breadth-first search over the reversed lane graph. */
module LatDepth {
  import opened LaneGraph

  predicate Lateral(net: Network, i: nat, j: nat)
    requires i < |net.lanes|
  {
    net.lanes[i].left == Some(j) || net.lanes[i].right == Some(j)
  }

  /** A lane's neighbours have it as theirs. */
  ghost predicate Mutual(net: Network) {
    forall i, j | 0 <= i < |net.lanes| && 0 <= j < |net.lanes| :: Lateral(net, i, j) <==> Lateral(net, j, i)
  }

  /** A way alternates driving along successor edges and hopping across lateral links. */
  ghost predicate Way(net: Network, p: seq<nat>, i: nat, dest: nat) {
    && |p| > 0 && p[0] == i && p[|p| - 1] == dest
    && (forall k | 0 <= k < |p| :: p[k] < |net.lanes|)
    && (forall k | 0 <= k < |p| - 1 :: Edge(net, p[k], p[k + 1]) || Lateral(net, p[k], p[k + 1]))
  }

  /** Lane changes along a way: the steps that cannot be driven. */
  ghost function Hops(net: Network, p: seq<nat>): nat
    requires forall k | 0 <= k < |p| :: p[k] < |net.lanes|
  {
    if |p| <= 1 then 0 else (if Edge(net, p[0], p[1]) then 0 else 1) + Hops(net, p[1..])
  }

  ghost predicate HasWay(net: Network, i: nat, dest: nat, d: int) {
    exists p :: Way(net, p, i, dest) && Hops(net, p) <= d
  }

  // ---------------------------------------------------------------- invariants

  ghost predicate Sound(net: Network, dest: nat, depth: seq<int>, d: int) {
    && |depth| == |net.lanes| && dest < |net.lanes| && depth[dest] == 0
    && forall i | 0 <= i < |depth| :: -1 <= depth[i] <= d && (depth[i] >= 0 ==> HasWay(net, i, dest, depth[i]))
  }

  /** The lane's predecessors are no deeper. */
  ghost predicate DriveClosed(net: Network, depth: seq<int>, u: nat)
    requires |depth| == |net.lanes| && u < |depth|
  {
    forall p | 0 <= p < |depth| && Edge(net, p, u) :: 0 <= depth[p] <= depth[u]
  }

  /** The lane's lateral neighbours are at most one deeper. */
  ghost predicate HopClosed(net: Network, depth: seq<int>, u: nat)
    requires |depth| == |net.lanes| && u < |depth|
  {
    forall q | 0 <= q < |depth| && Lateral(net, q, u) :: 0 <= depth[q] <= depth[u] + 1
  }

  /** Lanes shallower than d are settled. */
  ghost predicate ClosedBelow(net: Network, depth: seq<int>, d: int)
    requires |depth| == |net.lanes|
  {
    forall u | 0 <= u < |depth| && 0 <= depth[u] < d :: DriveClosed(net, depth, u) && HopClosed(net, depth, u)
  }

  /** `layer` lists exactly the lanes at depth d. */
  ghost predicate IsLayer(depth: seq<int>, layer: seq<nat>, d: int) {
    && (forall k | 0 <= k < |layer| :: layer[k] < |depth| && depth[layer[k]] == d)
    && (forall i | 0 <= i < |depth| && depth[i] == d :: i in layer)
  }

  ghost function Unset(depth: seq<int>): nat {
    if depth == [] then 0 else Unset(depth[..|depth| - 1]) + if depth[|depth| - 1] < 0 then 1 else 0
  }

  lemma {:induction false} UnsetDrops(depth: seq<int>, i: nat, d: int)
    requires i < |depth| && depth[i] < 0 && d >= 0
    ensures Unset(depth[i := d]) == Unset(depth) - 1
  {
    var n := |depth| - 1;
    if i < n {
      UnsetDrops(depth[..n], i, d);
      assert depth[i := d][..n] == depth[..n][i := d];
    } else {
      assert depth[i := d][..n] == depth[..n];
    }
  }

  lemma WayCons(net: Network, i: nat, j: nat, dest: nat, d: int, e: int)
    requires i < |net.lanes| && j < |net.lanes| && HasWay(net, j, dest, d)
    requires if Edge(net, i, j) then e == d else Lateral(net, i, j) && e == d + 1
    ensures HasWay(net, i, dest, e)
  {
    var p :| Way(net, p, j, dest) && Hops(net, p) <= d;
    var q := [i] + p;
    assert q[1..] == p;
    assert forall k | 0 < k < |q| :: q[k] == p[k - 1];
    assert Way(net, q, i, dest) && Hops(net, q) <= e;
  }

  lemma WayWider(net: Network, i: nat, dest: nat, d: int, e: int)
    requires HasWay(net, i, dest, d) && d <= e
    ensures HasWay(net, i, dest, e)
  {
    var p :| Way(net, p, i, dest) && Hops(net, p) <= d;
    assert Hops(net, p) <= e;
  }

  /** Setting an unset lane never disturbs a lane that is already closed: an unset lane is
      no neighbour of it. */
  lemma SetKeepsClosed(net: Network, depth: seq<int>, i: nat, d: int)
    requires |depth| == |net.lanes| && i < |depth| && depth[i] < 0
    ensures forall x | 0 <= x < |depth| && x != i && DriveClosed(net, depth, x) :: DriveClosed(net, depth[i := d], x)
    ensures forall x | 0 <= x < |depth| && x != i && HopClosed(net, depth, x) :: HopClosed(net, depth[i := d], x)
  {
  }

  /** Setting an unset lane to a depth its neighbour u accounts for. */
  lemma SetKeepsSound(net: Network, dest: nat, depth: seq<int>, d: int, i: nat, e: int, u: nat)
    requires Sound(net, dest, depth, e) && i < |depth| && depth[i] < 0 && 0 <= d <= e
    requires u < |depth| && depth[u] >= 0
    requires if Edge(net, i, u) then depth[u] <= d else Lateral(net, i, u) && depth[u] + 1 <= d
    ensures Sound(net, dest, depth[i := d], e)
  {
    WayWider(net, u, dest, depth[u], if Edge(net, i, u) then d else d - 1);
    WayCons(net, i, u, dest, if Edge(net, i, u) then d else d - 1, d);
  }

  lemma SetKeepsLayers(depth: seq<int>, i: nat, d: int, layer: seq<nat>)
    requires i < |depth| && depth[i] < 0 && d >= 0 && IsLayer(depth, layer, d)
    ensures IsLayer(depth[i := d], layer + [i], d)
  {
    forall x | 0 <= x < |depth| && depth[i := d][x] == d ensures x in layer + [i] {
      if x != i {
        assert x in layer;
      }
    }
  }

  /** The state of the search at layer d. */
  ghost predicate Searching(net: Network, dest: nat, depth: seq<int>, layer: seq<nat>, d: int) {
    && Sound(net, dest, depth, d)
    && ClosedBelow(net, depth, d)
    && IsLayer(depth, layer, d)
  }

  /** The state while the lateral neighbours of a closed layer d seed layer d + 1. */
  ghost predicate Seeding(net: Network, dest: nat, depth: seq<int>, layer: seq<nat>, next: seq<nat>, d: int) {
    && Sound(net, dest, depth, d + 1)
    && ClosedBelow(net, depth, d)
    && IsLayer(depth, layer, d)
    && IsLayer(depth, next, d + 1)
    && forall u | 0 <= u < |depth| && depth[u] == d :: DriveClosed(net, depth, u)
  }

  /** From a to b lanes were only set: set lanes keep their depth, closed ones stay closed. */
  ghost predicate Grown(net: Network, a: seq<int>, b: seq<int>) {
    && |a| == |b| == |net.lanes|
    && forall x | 0 <= x < |a| && a[x] >= 0 ::
         && b[x] == a[x]
         && (DriveClosed(net, a, x) ==> DriveClosed(net, b, x))
         && (HopClosed(net, a, x) ==> HopClosed(net, b, x))
  }

  lemma GrownTransitive(net: Network, a: seq<int>, b: seq<int>, c: seq<int>)
    requires Grown(net, a, b) && Grown(net, b, c)
    ensures Grown(net, a, c)
  {
  }

  lemma SetGrows(net: Network, depth: seq<int>, i: nat, d: int)
    requires |depth| == |net.lanes| && i < |depth| && depth[i] < 0
    ensures Grown(net, depth, depth[i := d])
  {
    SetKeepsClosed(net, depth, i, d);
  }

  lemma LayerOpens(net: Network, dest: nat, depth: seq<int>, layer: seq<nat>, d: int)
    requires Searching(net, dest, depth, layer, d)
    requires forall u | 0 <= u < |depth| && depth[u] == d :: DriveClosed(net, depth, u)
    ensures Seeding(net, dest, depth, layer, [], d)
  {
  }

  /** The first k lanes of the layer have seeded their neighbours. */
  ghost predicate Seeded(net: Network, depth: seq<int>, layer: seq<nat>, k: nat)
    requires |depth| == |net.lanes|
  {
    k <= |layer| && forall j | 0 <= j < k :: layer[j] < |depth| && HopClosed(net, depth, layer[j])
  }

  lemma SeededGrows(net: Network, a: seq<int>, b: seq<int>, layer: seq<nat>, d: nat, k: nat)
    requires Grown(net, a, b) && k < |layer| && Seeded(net, a, layer, k) && IsLayer(a, layer, d)
    requires layer[k] < |b| && HopClosed(net, b, layer[k])
    ensures Seeded(net, b, layer, k + 1)
  {
  }

  lemma LayerDone(net: Network, dest: nat, depth: seq<int>, layer: seq<nat>, next: seq<nat>, d: int)
    requires Seeding(net, dest, depth, layer, next, d) && Seeded(net, depth, layer, |layer|)
    ensures Searching(net, dest, depth, next, d + 1)
  {
    forall u | 0 <= u < |depth| && 0 <= depth[u] < d + 1
      ensures DriveClosed(net, depth, u) && HopClosed(net, depth, u)
    {
      if depth[u] == d {
        assert u in layer;
      }
    }
  }

  lemma JoinKeeps(net: Network, dest: nat, depth: seq<int>, layer: seq<nat>, d: nat, u: nat, p: nat)
    requires Searching(net, dest, depth, layer, d)
    requires u < |depth| && depth[u] == d && p < |depth| && depth[p] < 0 && Edge(net, p, u)
    ensures Searching(net, dest, depth[p := d], layer + [p], d)
    ensures Unset(depth[p := d]) == Unset(depth) - 1
  {
    SetKeepsSound(net, dest, depth, d, p, d, u);
    SetKeepsClosed(net, depth, p, d);
    SetKeepsLayers(depth, p, d, layer);
    UnsetDrops(depth, p, d);
  }

  lemma SeedKeeps(net: Network, dest: nat, depth: seq<int>, layer: seq<nat>, next: seq<nat>, d: nat, u: nat, nb: nat)
    requires Seeding(net, dest, depth, layer, next, d)
    requires u < |depth| && depth[u] == d && nb < |depth| && depth[nb] < 0 && Lateral(net, nb, u)
    ensures Seeding(net, dest, depth[nb := d + 1], layer, next + [nb], d)
    ensures Unset(depth[nb := d + 1]) == Unset(depth) - 1
  {
    SetKeepsSound(net, dest, depth, d + 1, nb, d + 1, u);
    SetKeepsClosed(net, depth, nb, d + 1);
    SetKeepsLayers(depth, nb, d + 1, next);
    UnsetDrops(depth, nb, d + 1);
  }

  // ---------------------------------------------------------------- the search

  /** One predecessor of the layer, if unset, joins it. */
  method Join(net: Network, dest: nat, depth: array<int>, layer0: seq<nat>, ghost u: nat, p: nat, d: nat) returns (layer: seq<nat>)
    requires depth.Length == |net.lanes| && u < depth.Length && depth[u] == d && p < depth.Length && Edge(net, p, u)
    requires Searching(net, dest, depth[..], layer0, d)
    modifies depth
    ensures Searching(net, dest, depth[..], layer, d) && 0 <= depth[p] <= d
    ensures layer0 <= layer && Unset(depth[..]) + |layer| == old(Unset(depth[..])) + |layer0|
    ensures Grown(net, old(depth[..]), depth[..])
  {
    layer := layer0;
    if depth[p] < 0 {
      ghost var before := depth[..];
      JoinKeeps(net, dest, before, layer, d, u, p);
      SetGrows(net, before, p, d);
      depth[p] := d;
      assert depth[..] == before[p := d];
      layer := layer + [p];
    }
  }

  /** The predecessors of one lane of the layer join it, at no lane change. */
  method JoinPreds(net: Network, dest: nat, depth: array<int>, layer0: seq<nat>, u: nat, d: nat) returns (layer: seq<nat>)
    requires depth.Length == |net.lanes| && u < depth.Length && depth[u] == d
    requires Searching(net, dest, depth[..], layer0, d)
    modifies depth
    ensures Searching(net, dest, depth[..], layer, d) && DriveClosed(net, depth[..], u)
    ensures layer0 <= layer && Unset(depth[..]) + |layer| == old(Unset(depth[..])) + |layer0|
    ensures Grown(net, old(depth[..]), depth[..])
  {
    hide Searching;
    layer := layer0;
    var preds := Preds(net, u);
    PredsExact(net, u);
    for j := 0 to |preds|
      invariant Searching(net, dest, depth[..], layer, d)
      invariant layer0 <= layer && Unset(depth[..]) + |layer| == old(Unset(depth[..])) + |layer0|
      invariant Grown(net, old(depth[..]), depth[..])
      invariant forall k | 0 <= k < j :: 0 <= depth[preds[k]] <= d
    {
      assert preds[j] in preds;
      ghost var before := depth[..];
      layer := Join(net, dest, depth, layer, u, preds[j], d);
      assert forall k | 0 <= k < j :: before[preds[k]] >= 0;
      GrownTransitive(net, old(depth[..]), before, depth[..]);
    }
    forall p | 0 <= p < depth.Length && Edge(net, p, u) ensures 0 <= depth[p] <= depth[u] {
      assert p in preds;
    }
  }

  /** Everything that can drive to the layer joins it, at no lane change. */
  method DriveClosure(net: Network, dest: nat, depth: array<int>, frontier: seq<nat>, d: nat) returns (layer: seq<nat>)
    requires depth.Length == |net.lanes| && Searching(net, dest, depth[..], frontier, d)
    modifies depth
    ensures Searching(net, dest, depth[..], layer, d)
    ensures forall u | 0 <= u < depth.Length && depth[u] == d :: DriveClosed(net, depth[..], u)
    ensures Unset(depth[..]) <= old(Unset(depth[..]))
  {
    layer := frontier;
    var i := 0;
    while i < |layer|
      invariant 0 <= i <= |layer|
      invariant Searching(net, dest, depth[..], layer, d)
      invariant forall k | 0 <= k < i :: DriveClosed(net, depth[..], layer[k])
      invariant Unset(depth[..]) <= old(Unset(depth[..]))
      decreases Unset(depth[..]), |layer| - i
    {
      ghost var before, done := depth[..], layer[..i];
      layer := JoinPreds(net, dest, depth, layer, layer[i], d);
      forall k | 0 <= k < i ensures DriveClosed(net, depth[..], layer[k]) {
        assert layer[k] == done[k] && before[layer[k]] >= 0;
      }
      i := i + 1;
    }
    forall u | 0 <= u < depth.Length && depth[u] == d ensures DriveClosed(net, depth[..], u) {
      assert u in layer;
    }
  }

  /** One lateral neighbour of the layer, if unset, belongs to the next. */
  method Seed(net: Network, dest: nat, depth: array<int>, ghost layer: seq<nat>, next0: seq<nat>, ghost u: nat, nb: nat, d: nat)
    returns (next: seq<nat>)
    requires Mutual(net) && depth.Length == |net.lanes| && Seeding(net, dest, depth[..], layer, next0, d)
    requires u < depth.Length && depth[u] == d && nb < depth.Length && Lateral(net, u, nb)
    modifies depth
    ensures Seeding(net, dest, depth[..], layer, next, d) && 0 <= depth[nb] <= d + 1
    ensures Unset(depth[..]) + |next| == old(Unset(depth[..])) + |next0|
    ensures Grown(net, old(depth[..]), depth[..])
  {
    next := next0;
    if depth[nb] < 0 {
      ghost var before := depth[..];
      assert Lateral(net, nb, u);
      SeedKeeps(net, dest, before, layer, next, d, u, nb);
      SetGrows(net, before, nb, d + 1);
      depth[nb] := d + 1;
      assert depth[..] == before[nb := d + 1];
      next := next + [nb];
    }
  }

  /** Left then right. */
  method SeedBoth(net: Network, dest: nat, depth: array<int>, ghost layer: seq<nat>, next0: seq<nat>, u: nat, d: nat)
    returns (next: seq<nat>)
    requires net.Valid() && Mutual(net) && depth.Length == |net.lanes| && Seeding(net, dest, depth[..], layer, next0, d)
    requires u < depth.Length && depth[u] == d
    modifies depth
    ensures Seeding(net, dest, depth[..], layer, next, d) && HopClosed(net, depth[..], u)
    ensures Unset(depth[..]) + |next| == old(Unset(depth[..])) + |next0|
    ensures Grown(net, old(depth[..]), depth[..])
  {
    hide Seeding;
    next := next0;
    var l := net.lanes[u];
    assert LinksInside(l, |net.lanes|);
    if l.left.Some? {
      next := Seed(net, dest, depth, layer, next, u, l.left.value, d);
    }
    if l.right.Some? {
      ghost var before := depth[..];
      next := Seed(net, dest, depth, layer, next, u, l.right.value, d);
      GrownTransitive(net, old(depth[..]), before, depth[..]);
    }
    BothSides(net, depth[..], u);
  }

  lemma BothSides(net: Network, depth: seq<int>, u: nat)
    requires net.Valid() && Mutual(net) && |depth| == |net.lanes| && u < |depth|
    requires LinksInside(net.lanes[u], |net.lanes|)
    requires net.lanes[u].left.Some? ==> 0 <= depth[net.lanes[u].left.value] <= depth[u] + 1
    requires net.lanes[u].right.Some? ==> 0 <= depth[net.lanes[u].right.value] <= depth[u] + 1
    ensures HopClosed(net, depth, u)
  {
    forall q | 0 <= q < |depth| && Lateral(net, q, u) ensures 0 <= depth[q] <= depth[u] + 1 {
      assert Lateral(net, u, q);
    }
  }

  /** Whoever can hop into this layer begins the next one. */
  method HopStep(net: Network, dest: nat, depth: array<int>, layer: seq<nat>, d: nat) returns (next: seq<nat>)
    requires net.Valid() && Mutual(net) && depth.Length == |net.lanes| && Searching(net, dest, depth[..], layer, d)
    requires forall u | 0 <= u < depth.Length && depth[u] == d :: DriveClosed(net, depth[..], u)
    modifies depth
    ensures Searching(net, dest, depth[..], next, d + 1)
    ensures Unset(depth[..]) + |next| == old(Unset(depth[..]))
  {
    next := [];
    ghost var now := depth[..];
    LayerOpens(net, dest, now, layer, d);
    for k := 0 to |layer|
      invariant now == depth[..] && Seeding(net, dest, now, layer, next, d)
      invariant Seeded(net, now, layer, k)
      invariant Unset(now) + |next| == old(Unset(depth[..]))
    {
      ghost var before := now;
      assert layer[k] < |now| && now[layer[k]] == d;
      next := SeedBoth(net, dest, depth, layer, next, layer[k], d);
      now := depth[..];
      SeededGrows(net, before, now, layer, d, k);
    }
    LayerDone(net, dest, now, layer, next, d);
  }

  method RouteLatDepth(net: Network, dest: nat) returns (depth: array<int>)
    requires net.Valid() && Mutual(net) && dest < |net.lanes|
    ensures fresh(depth) && depth.Length == |net.lanes|
    ensures forall i | 0 <= i < depth.Length :: LatDepthIs(net, i, dest, depth[i])
    ensures forall i | 0 <= i < depth.Length :: depth[i] == 0 <==> Reachable(net, i, dest)
  {
    var n := |net.lanes|;
    depth := new int[n](_ => -1);
    depth[dest] := 0;
    var frontier := [dest];
    var d := 0;
    assert Way(net, [dest], dest, dest) && Hops(net, [dest]) == 0;
    while |frontier| > 0
      invariant 0 <= d
      invariant Searching(net, dest, depth[..], frontier, d)
      decreases Unset(depth[..]), |frontier|
    {
      var layer := DriveClosure(net, dest, depth, frontier, d);
      frontier := HopStep(net, dest, depth, layer, d);
      d := d + 1;
    }
    forall i | 0 <= i < n ensures LatDepthIs(net, i, dest, depth[i]) && (depth[i] == 0 <==> Reachable(net, i, dest)) {
      Settled(net, dest, depth[..], d, i);
      DepthZeroIsReachable(net, i, dest, depth[i]);
    }
  }

  // ---------------------------------------------------------------- what it computes

  /** d is the least number of lane changes over all ways from i; -1 when there is none. */
  ghost predicate LatDepthIs(net: Network, i: nat, dest: nat, d: int) {
    && (d == -1 <==> !exists p :: Way(net, p, i, dest))
    && (d != -1 ==> (exists p :: Way(net, p, i, dest) && Hops(net, p) == d)
                    && forall p | Way(net, p, i, dest) :: d <= Hops(net, p))
  }

  lemma {:induction false} WaysCostAtLeast(net: Network, dest: nat, depth: seq<int>, d: int, p: seq<nat>, i: nat)
    requires Sound(net, dest, depth, d) && (forall u | 0 <= u < |depth| :: depth[u] < d) && ClosedBelow(net, depth, d)
    requires Way(net, p, i, dest)
    ensures 0 <= depth[i] <= Hops(net, p)
  {
    if |p| > 1 {
      WaysCostAtLeast(net, dest, depth, d, p[1..], p[1]);
      assert DriveClosed(net, depth, p[1]) && HopClosed(net, depth, p[1]);
    }
  }

  lemma Settled(net: Network, dest: nat, depth: seq<int>, d: int, i: nat)
    requires Sound(net, dest, depth, d) && ClosedBelow(net, depth, d) && IsLayer(depth, [], d) && i < |depth|
    ensures LatDepthIs(net, i, dest, depth[i])
  {
    forall u | 0 <= u < |depth| ensures depth[u] < d {
      var layer: seq<nat> := [];
      assert depth[u] != d by { assert u !in layer; }
    }
    forall p | Way(net, p, i, dest) ensures 0 <= depth[i] <= Hops(net, p) {
      WaysCostAtLeast(net, dest, depth, d, p, i);
    }
    if depth[i] >= 0 {
      var p :| Way(net, p, i, dest) && Hops(net, p) <= depth[i];
      assert Hops(net, p) == depth[i];
    }
  }

  lemma {:induction false} FreeWayDrives(net: Network, i: nat, dest: nat, p: seq<nat>)
    requires Way(net, p, i, dest) && Hops(net, p) == 0
    ensures PathTo(net, p, i, dest)
    decreases |p|
  {
    if |p| > 1 {
      FreeWayDrives(net, p[1], dest, p[1..]);
      forall k | 0 <= k < |p| - 1 ensures Edge(net, p[k], p[k + 1]) {
        if k > 0 {
          assert Edge(net, p[1..][k - 1], p[1..][k]);
        }
      }
    }
  }

  lemma {:induction false} PathIsFreeWay(net: Network, i: nat, dest: nat, p: seq<nat>)
    requires PathTo(net, p, i, dest)
    ensures Way(net, p, i, dest) && Hops(net, p) == 0
    decreases |p|
  {
    if |p| > 1 {
      PathTail(net, p, i, dest);
      PathIsFreeWay(net, p[1], dest, p[1..]);
    }
  }

  /** A lane that can drive to the destination needs no lane change, and only such lanes. */
  lemma DepthZeroIsReachable(net: Network, i: nat, dest: nat, d: int)
    requires i < |net.lanes| && LatDepthIs(net, i, dest, d)
    ensures d == 0 <==> Reachable(net, i, dest)
  {
    if d == 0 {
      var p :| Way(net, p, i, dest) && Hops(net, p) == d;
      FreeWayDrives(net, i, dest, p);
    }
    if Reachable(net, i, dest) {
      var p :| PathTo(net, p, i, dest);
      PathIsFreeWay(net, i, dest, p);
    }
  }
}
