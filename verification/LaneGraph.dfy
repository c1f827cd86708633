/** The lane network: an immutable array of lanes linked by index. */
module LaneGraph {
  datatype Option<+T> = None | Some(value: T)

  datatype Lane = Lane(
    id: string,
    length: real,
    speedLimit: real,
    successors: seq<nat>,
    left: Option<nat>,
    right: Option<nat>,
    exit: bool,
    endWall: bool,
    internal: bool,
    section: string)

  datatype Network = Network(lanes: seq<Lane>) {
    ghost predicate Valid() {
      forall i | 0 <= i < |lanes| :: LinksInside(lanes[i], |lanes|)
    }
  }

  ghost predicate LinksInside(l: Lane, n: nat) {
    && (forall k | 0 <= k < |l.successors| :: l.successors[k] < n)
    && (l.left.Some? ==> l.left.value < n)
    && (l.right.Some? ==> l.right.value < n)
  }

  predicate Edge(net: Network, i: nat, j: nat)
    requires i < |net.lanes|
  {
    j in net.lanes[i].successors
  }

  /** Seconds to cross the lane, empty, at its limit. */
  function FreeFlowTime(l: Lane): real {
    if l.speedLimit <= 0.0 then l.length else l.length / l.speedLimit
  }

  // ---------------------------------------------------------------- paths

  ghost predicate IsPath(net: Network, p: seq<nat>) {
    && |p| > 0
    && (forall k | 0 <= k < |p| :: p[k] < |net.lanes|)
    && (forall k | 0 <= k < |p| - 1 :: Edge(net, p[k], p[k + 1]))
  }

  ghost predicate PathTo(net: Network, p: seq<nat>, i: nat, dest: nat) {
    IsPath(net, p) && p[0] == i && p[|p| - 1] == dest
  }

  /** The travel time of a path is the time of the lanes it enters. */
  ghost function PathCost(w: seq<real>, p: seq<nat>): real
    requires forall k | 0 <= k < |p| :: p[k] < |w|
  {
    if |p| <= 1 then 0.0 else w[p[1]] + PathCost(w, p[1..])
  }

  ghost predicate Reachable(net: Network, i: nat, dest: nat) {
    exists p :: PathTo(net, p, i, dest)
  }

  lemma PathTail(net: Network, p: seq<nat>, i: nat, dest: nat)
    requires PathTo(net, p, i, dest) && |p| > 1
    ensures PathTo(net, p[1..], p[1], dest) && Edge(net, i, p[1])
  {
  }

  lemma PathCons(net: Network, p: seq<nat>, i: nat, j: nat, dest: nat)
    requires PathTo(net, p, j, dest) && i < |net.lanes| && Edge(net, i, j)
    ensures PathTo(net, [i] + p, i, dest) && ([i] + p)[1..] == p
  {
  }

  // ---------------------------------------------------------------- predecessors

  /** The reverse adjacency, built in lane-then-successor order. */
  function PredsFrom(net: Network, u: nat, i: nat): seq<nat>
    requires i <= |net.lanes|
  {
    if i == 0 then [] else PredsFrom(net, u, i - 1) + Copies(net.lanes[i - 1].successors, u, i - 1)
  }

  function Copies(succ: seq<nat>, u: nat, i: nat): seq<nat> {
    if succ == [] then []
    else Copies(succ[..|succ| - 1], u, i) + if succ[|succ| - 1] == u then [i] else []
  }

  function Preds(net: Network, u: nat): seq<nat> {
    PredsFrom(net, u, |net.lanes|)
  }

  lemma {:induction false} CopiesExact(succ: seq<nat>, u: nat, i: nat, p: nat)
    ensures p in Copies(succ, u, i) <==> p == i && u in succ
  {
    if succ != [] {
      CopiesExact(succ[..|succ| - 1], u, i, p);
      assert succ == succ[..|succ| - 1] + [succ[|succ| - 1]];
    }
  }

  lemma {:induction false} PredsFromExact(net: Network, u: nat, i: nat, p: nat)
    requires i <= |net.lanes|
    ensures p in PredsFrom(net, u, i) <==> p < i && Edge(net, p, u)
  {
    if i > 0 {
      PredsFromExact(net, u, i - 1, p);
      CopiesExact(net.lanes[i - 1].successors, u, i - 1, p);
    }
  }

  predicate Below(ps: seq<nat>, n: nat) {
    forall k | 0 <= k < |ps| :: ps[k] < n
  }

  /** The predecessors of u are exactly the lanes with an edge into it. */
  lemma PredsExact(net: Network, u: nat)
    ensures Below(Preds(net, u), |net.lanes|)
    ensures forall p | p in Preds(net, u) :: p < |net.lanes| && Edge(net, p, u)
    ensures forall p: nat | p < |net.lanes| && Edge(net, p, u) :: p in Preds(net, u)
  {
    forall p: nat ensures p in Preds(net, u) <==> p < |net.lanes| && Edge(net, p, u) {
      PredsFromExact(net, u, |net.lanes|, p);
    }
    forall k | 0 <= k < |Preds(net, u)| ensures Preds(net, u)[k] < |net.lanes| {
      assert Preds(net, u)[k] in Preds(net, u);
    }
  }

  /** Enters lane i under each of its successors. */
  method AddPred(net: Network, preds: array<seq<nat>>, i: nat)
    requires net.Valid() && i < |net.lanes| == preds.Length
    modifies preds
    ensures forall u | 0 <= u < preds.Length :: preds[u] == old(preds[u]) + Copies(net.lanes[i].successors, u, i)
  {
    var succ := net.lanes[i].successors;
    assert LinksInside(net.lanes[i], |net.lanes|);
    for k := 0 to |succ|
      invariant forall u | 0 <= u < preds.Length :: preds[u] == old(preds[u]) + Copies(succ[..k], u, i)
    {
      assert succ[..k + 1][..k] == succ[..k];
      var s := succ[k];
      preds[s] := preds[s] + [i];
    }
    assert succ[..|succ|] == succ;
  }

  method RoutePreds(net: Network) returns (preds: array<seq<nat>>)
    requires net.Valid()
    ensures fresh(preds) && preds.Length == |net.lanes|
    ensures forall u | 0 <= u < preds.Length :: preds[u] == Preds(net, u)
  {
    hide Copies;
    preds := new seq<nat>[|net.lanes|](_ => []);
    for i := 0 to |net.lanes|
      invariant forall u | 0 <= u < preds.Length :: preds[u] == PredsFrom(net, u, i)
    {
      AddPred(net, preds, i);
    }
  }
}
