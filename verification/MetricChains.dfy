/** Which lanes a vehicle drove between two observations: the successor chains from its
    last-seen lane, enumerated depth first in successor order and capped. */
module MetricChains {
  import opened LaneGraph

  const MAX_CROSS_DEPTH := 8
  const CHAIN_CAP := 3

  datatype Found = Found(chains: seq<seq<nat>>, truncated: bool)

  /** What ends a chain: a lane itself or beside it, an exit, or a lane by id. */
  datatype Target = Arrival(lane: nat) | AnyExit | Named(id: string)

  predicate Matches(net: Network, target: Target, l: nat)
    requires l < |net.lanes|
  {
    match target
    case Arrival(cur) => l == cur || net.lanes[l].left == Some(cur) || net.lanes[l].right == Some(cur)
    case AnyExit => net.lanes[l].exit
    case Named(id) => net.lanes[l].id == id
  }

  // ---------------------------------------------------------------- depth first

  /** Extends the path from its last lane. */
  function Dfs(net: Network, target: Target, cap: nat, path: seq<nat>, st: Found): Found
    requires net.Valid() && path != [] && forall i | 0 <= i < |path| :: path[i] < |net.lanes|
    decreases if |path| <= MAX_CROSS_DEPTH then MAX_CROSS_DEPTH + 1 - |path| else 0, 1, 0
  {
    if |st.chains| > cap then st
    else if |path| > MAX_CROSS_DEPTH then st.(truncated := true)
    else Branches(net, target, cap, path, 0, st)
  }

  /** The successors of the path's last lane, from the k-th on. */
  function Branches(net: Network, target: Target, cap: nat, path: seq<nat>, k: nat, st: Found): Found
    requires net.Valid() && path != [] && forall i | 0 <= i < |path| :: path[i] < |net.lanes|
    requires |path| <= MAX_CROSS_DEPTH && k <= |net.lanes[path[|path| - 1]].successors|
    decreases MAX_CROSS_DEPTH + 1 - |path|, 0, |net.lanes[path[|path| - 1]].successors| - k
  {
    var lane := net.lanes[path[|path| - 1]];
    if k == |lane.successors| then st
    else
      assert LinksInside(lane, |net.lanes|);
      var s := lane.successors[k];
      var next :=
        if s in path then st
        else if Matches(net, target, s) then st.(chains := st.chains + [path + [s]])
        else Dfs(net, target, cap, path + [s], st);
      Branches(net, target, cap, path, k + 1, next)
  }

  /** A chain as the search promises it: a simple successor path of at most eight hops, ending
      in the first lane on it that matches. */
  ghost predicate IsChain(net: Network, target: Target, from: nat, c: seq<nat>) {
    && IsPath(net, c) && c[0] == from && 2 <= |c| <= 9
    && (forall i, j | 0 <= i < j < |c| :: c[i] != c[j])
    && Matches(net, target, c[|c| - 1])
    && forall i | 0 < i < |c| - 1 :: !Matches(net, target, c[i])
  }

  ghost predicate AllChains(net: Network, target: Target, from: nat, cs: seq<seq<nat>>) {
    forall k | 0 <= k < |cs| :: IsChain(net, target, from, cs[k])
  }

  /** A path under way: simple, and not yet at a match. */
  ghost predicate UnderWay(net: Network, target: Target, from: nat, path: seq<nat>) {
    && IsPath(net, path) && path[0] == from
    && (forall i, j | 0 <= i < j < |path| :: path[i] != path[j])
    && forall i | 0 < i < |path| :: !Matches(net, target, path[i])
  }

  lemma StepOn(net: Network, target: Target, from: nat, path: seq<nat>, k: nat)
    requires net.Valid() && UnderWay(net, target, from, path) && |path| <= MAX_CROSS_DEPTH
    requires k < |net.lanes[path[|path| - 1]].successors| && net.lanes[path[|path| - 1]].successors[k] !in path
    ensures var s := net.lanes[path[|path| - 1]].successors[k];
      && s < |net.lanes|
      && (Matches(net, target, s) ==> IsChain(net, target, from, path + [s]))
      && (!Matches(net, target, s) ==> UnderWay(net, target, from, path + [s]))
  {
    var lane := net.lanes[path[|path| - 1]];
    assert LinksInside(lane, |net.lanes|);
    var s := lane.successors[k];
    assert Edge(net, path[|path| - 1], s);
    hide Matches;
  }

  lemma {:induction false} DfsSound(net: Network, target: Target, from: nat, cap: nat, path: seq<nat>, st: Found)
    requires net.Valid() && UnderWay(net, target, from, path) && AllChains(net, target, from, st.chains)
    ensures AllChains(net, target, from, Dfs(net, target, cap, path, st).chains)
    decreases if |path| <= MAX_CROSS_DEPTH then MAX_CROSS_DEPTH + 1 - |path| else 0, 1, 0
  {
    hide Matches, IsChain;
    if |st.chains| <= cap && |path| <= MAX_CROSS_DEPTH {
      BranchesSound(net, target, from, cap, path, 0, st);
    }
  }

  lemma {:induction false} BranchesSound(net: Network, target: Target, from: nat, cap: nat, path: seq<nat>, k: nat, st: Found)
    requires net.Valid() && UnderWay(net, target, from, path) && AllChains(net, target, from, st.chains)
    requires |path| <= MAX_CROSS_DEPTH && k <= |net.lanes[path[|path| - 1]].successors|
    ensures AllChains(net, target, from, Branches(net, target, cap, path, k, st).chains)
    decreases MAX_CROSS_DEPTH + 1 - |path|, 0, |net.lanes[path[|path| - 1]].successors| - k
  {
    hide Matches, IsChain;
    var lane := net.lanes[path[|path| - 1]];
    if k < |lane.successors| {
      assert LinksInside(lane, |net.lanes|);
      var s := lane.successors[k];
      if s in path {
        BranchesSound(net, target, from, cap, path, k + 1, st);
      } else {
        StepOn(net, target, from, path, k);
        if Matches(net, target, s) {
          BranchesSound(net, target, from, cap, path, k + 1, st.(chains := st.chains + [path + [s]]));
        } else {
          DfsSound(net, target, from, cap, path + [s], st);
          BranchesSound(net, target, from, cap, path, k + 1, Dfs(net, target, cap, path + [s], st));
        }
      }
    }
  }

  /** Nothing was cut short: no branch at the depth bound, no more chains than the cap. */
  predicate Whole(f: Found, cap: nat) {
    !f.truncated && |f.chains| <= cap
  }

  lemma {:induction false} DfsGrows(net: Network, target: Target, cap: nat, path: seq<nat>, st: Found)
    requires net.Valid() && path != [] && forall i | 0 <= i < |path| :: path[i] < |net.lanes|
    ensures var r := Dfs(net, target, cap, path, st); st.chains <= r.chains && (st.truncated ==> r.truncated)
    decreases if |path| <= MAX_CROSS_DEPTH then MAX_CROSS_DEPTH + 1 - |path| else 0, 1, 0
  {
    hide Matches;
    if |st.chains| <= cap && |path| <= MAX_CROSS_DEPTH {
      BranchesGrow(net, target, cap, path, 0, st);
    }
  }

  lemma {:induction false} BranchesGrow(net: Network, target: Target, cap: nat, path: seq<nat>, k: nat, st: Found)
    requires net.Valid() && path != [] && forall i | 0 <= i < |path| :: path[i] < |net.lanes|
    requires |path| <= MAX_CROSS_DEPTH && k <= |net.lanes[path[|path| - 1]].successors|
    ensures var r := Branches(net, target, cap, path, k, st); st.chains <= r.chains && (st.truncated ==> r.truncated)
    decreases MAX_CROSS_DEPTH + 1 - |path|, 0, |net.lanes[path[|path| - 1]].successors| - k
  {
    hide Matches;
    var lane := net.lanes[path[|path| - 1]];
    if k < |lane.successors| {
      assert LinksInside(lane, |net.lanes|);
      var s := lane.successors[k];
      if s in path {
        BranchesGrow(net, target, cap, path, k + 1, st);
      } else if Matches(net, target, s) {
        BranchesGrow(net, target, cap, path, k + 1, st.(chains := st.chains + [path + [s]]));
      } else {
        DfsGrows(net, target, cap, path + [s], st);
        BranchesGrow(net, target, cap, path, k + 1, Dfs(net, target, cap, path + [s], st));
      }
    }
  }

  /** A chain that goes on from the path. */
  ghost predicate GoesOn(net: Network, target: Target, from: nat, path: seq<nat>, c: seq<nat>) {
    IsChain(net, target, from, c) && |path| < |c| && path == c[..|path|]
  }

  /** The search of a path misses no chain that goes on from it. */
  lemma {:induction false} DfsComplete(net: Network, target: Target, from: nat, cap: nat, path: seq<nat>, st: Found, c: seq<nat>)
    requires net.Valid() && UnderWay(net, target, from, path) && GoesOn(net, target, from, path, c)
    requires Whole(Dfs(net, target, cap, path, st), cap)
    ensures c in Dfs(net, target, cap, path, st).chains
    decreases if |path| <= MAX_CROSS_DEPTH then MAX_CROSS_DEPTH + 1 - |path| else 0, 1, 0
  {
    hide Matches;
    var lane := net.lanes[path[|path| - 1]];
    assert c[|path| - 1] == path[|path| - 1] && Edge(net, c[|path| - 1], c[|path| - 1 + 1]);
    var k: nat :| k < |lane.successors| && lane.successors[k] == c[|path|];
    BranchesComplete(net, target, from, cap, path, 0, st, c, k);
  }

  lemma {:induction false} BranchesComplete(net: Network, target: Target, from: nat, cap: nat, path: seq<nat>, k: nat, st: Found, c: seq<nat>, at: nat)
    requires net.Valid() && UnderWay(net, target, from, path) && GoesOn(net, target, from, path, c)
    requires |path| <= MAX_CROSS_DEPTH && k <= at < |net.lanes[path[|path| - 1]].successors|
    requires net.lanes[path[|path| - 1]].successors[at] == c[|path|]
    requires Whole(Branches(net, target, cap, path, k, st), cap)
    ensures c in Branches(net, target, cap, path, k, st).chains
    decreases MAX_CROSS_DEPTH + 1 - |path|, 0, |net.lanes[path[|path| - 1]].successors| - k
  {
    hide Matches, IsChain;
    var lane := net.lanes[path[|path| - 1]];
    assert LinksInside(lane, |net.lanes|);
    var s := lane.successors[k];
    var next := AfterBranch(net, target, cap, path, s, st);
    BranchesGrow(net, target, cap, path, k + 1, next);
    if k < at {
      BranchesComplete(net, target, from, cap, path, k + 1, next, c, at);
    } else {
      NextOfChain(net, target, from, path, c);
      if Matches(net, target, s) {
        assert c == path + [s];
      } else {
        StepOn(net, target, from, path, k);
        DfsComplete(net, target, from, cap, path + [s], st, c);
      }
      assert c in next.chains;
    }
  }

  /** What the search holds after the branch to s. */
  function AfterBranch(net: Network, target: Target, cap: nat, path: seq<nat>, s: nat, st: Found): Found
    requires net.Valid() && path != [] && (forall i | 0 <= i < |path| :: path[i] < |net.lanes|) && s < |net.lanes|
  {
    if s in path then st
    else if Matches(net, target, s) then st.(chains := st.chains + [path + [s]])
    else Dfs(net, target, cap, path + [s], st)
  }

  /** The next lane of a chain is new on the path, and the chain ends there if and only if it
      matches. */
  lemma NextOfChain(net: Network, target: Target, from: nat, path: seq<nat>, c: seq<nat>)
    requires UnderWay(net, target, from, path) && GoesOn(net, target, from, path, c)
    ensures c[|path|] !in path && c[|path|] < |net.lanes|
    ensures Matches(net, target, c[|path|]) ==> c == path + [c[|path|]]
    ensures !Matches(net, target, c[|path|]) ==> GoesOn(net, target, from, path + [c[|path|]], c)
  {
    hide Matches;
    assert forall i | 0 <= i < |path| :: path[i] == c[i];
    assert c[..|path| + 1] == path + [c[|path|]];
  }

  // ---------------------------------------------------------------- cut short

  /** A simple path of eight hops that has met no match. */
  ghost predicate TooDeep(net: Network, target: Target, from: nat) {
    exists path :: UnderWay(net, target, from, path) && |path| == 9
  }

  lemma {:induction false} DfsCutShort(net: Network, target: Target, from: nat, cap: nat, path: seq<nat>, st: Found)
    requires net.Valid() && UnderWay(net, target, from, path) && |path| <= 9
    ensures Dfs(net, target, cap, path, st).truncated ==> st.truncated || TooDeep(net, target, from)
    decreases if |path| <= MAX_CROSS_DEPTH then MAX_CROSS_DEPTH + 1 - |path| else 0, 1, 0
  {
    hide Matches;
    if |path| <= MAX_CROSS_DEPTH {
      BranchesCutShort(net, target, from, cap, path, 0, st);
    }
  }

  lemma {:induction false} BranchesCutShort(net: Network, target: Target, from: nat, cap: nat, path: seq<nat>, k: nat, st: Found)
    requires net.Valid() && UnderWay(net, target, from, path)
    requires |path| <= MAX_CROSS_DEPTH && k <= |net.lanes[path[|path| - 1]].successors|
    ensures Branches(net, target, cap, path, k, st).truncated ==> st.truncated || TooDeep(net, target, from)
    decreases MAX_CROSS_DEPTH + 1 - |path|, 0, |net.lanes[path[|path| - 1]].successors| - k
  {
    hide Matches, IsChain, TooDeep;
    var lane := net.lanes[path[|path| - 1]];
    if k < |lane.successors| {
      assert LinksInside(lane, |net.lanes|);
      var s := lane.successors[k];
      if s !in path && !Matches(net, target, s) {
        StepOn(net, target, from, path, k);
        DfsCutShort(net, target, from, cap, path + [s], st);
      }
      BranchesCutShort(net, target, from, cap, path, k + 1, AfterBranch(net, target, cap, path, s, st));
    }
  }

  // ---------------------------------------------------------------- shortest first

  function InsertChain(cs: seq<seq<nat>>, c: seq<nat>): (r: seq<seq<nat>>)
    ensures |r| == |cs| + 1
  {
    if cs == [] || |cs[|cs| - 1]| <= |c| then cs + [c]
    else InsertChain(cs[..|cs| - 1], c) + [cs[|cs| - 1]]
  }

  /** The stable sort by length. */
  function ByLength(cs: seq<seq<nat>>): (r: seq<seq<nat>>)
    ensures |r| == |cs|
  {
    if cs == [] then [] else InsertChain(ByLength(cs[..|cs| - 1]), cs[|cs| - 1])
  }

  ghost predicate Ascending(cs: seq<seq<nat>>) {
    forall i, j | 0 <= i < j < |cs| :: |cs[i]| <= |cs[j]|
  }

  lemma {:induction false} InsertChainSorts(cs: seq<seq<nat>>, c: seq<nat>)
    requires Ascending(cs)
    ensures Ascending(InsertChain(cs, c))
    ensures forall x :: x in InsertChain(cs, c) <==> x in cs || x == c
  {
    if cs != [] && |cs[|cs| - 1]| > |c| {
      var n := |cs| - 1;
      InsertChainSorts(cs[..n], c);
      var r := InsertChain(cs[..n], c);
      assert cs == cs[..n] + [cs[n]];
      forall i | 0 <= i < |r| ensures |r[i]| <= |cs[n]| && (r[i] in cs || r[i] == c) {
        assert r[i] in r;
        assert r[i] in cs[..n] || r[i] == c;
      }
    } else {
      forall i | 0 <= i < |cs| ensures |cs[i]| <= |c| {
        assert |cs[i]| <= |cs[|cs| - 1]|;
      }
    }
  }

  lemma {:induction false} ByLengthSorts(cs: seq<seq<nat>>)
    ensures Ascending(ByLength(cs))
    ensures forall x :: x in ByLength(cs) <==> x in cs
  {
    if cs != [] {
      assert cs == cs[..|cs| - 1] + [cs[|cs| - 1]];
      ByLengthSorts(cs[..|cs| - 1]);
      InsertChainSorts(ByLength(cs[..|cs| - 1]), cs[|cs| - 1]);
    }
  }

  function FindChains(net: Network, from: nat, target: Target): (r: Found)
    requires net.Valid() && from < |net.lanes|
    ensures |r.chains| <= 3
  {
    var f := Dfs(net, target, CHAIN_CAP, [from], Found([], false));
    var cs := ByLength(f.chains);
    if |cs| > CHAIN_CAP then Found(cs[..CHAIN_CAP], true) else Found(cs, f.truncated)
  }

  /** Every chain returned is a simple successor path to the first match on it, and none
      returned is shorter than the first. */
  lemma FindChainsSound(net: Network, from: nat, target: Target)
    requires net.Valid() && from < |net.lanes|
    ensures var r := FindChains(net, from, target); AllChains(net, target, from, r.chains) && Ascending(r.chains)
  {
    hide Matches, IsChain, Dfs;
    var f := Dfs(net, target, CHAIN_CAP, [from], Found([], false));
    DfsSound(net, target, from, CHAIN_CAP, [from], Found([], false));
    ByLengthSorts(f.chains);
    var cs := ByLength(f.chains);
    forall k | 0 <= k < |cs| ensures IsChain(net, target, from, cs[k]) {
      assert cs[k] in cs;
      var j :| 0 <= j < |f.chains| && f.chains[j] == cs[k];
    }
  }

  /** And unless the search says it was cut short, every chain there is was returned. */
  lemma FindChainsComplete(net: Network, from: nat, target: Target, c: seq<nat>)
    requires net.Valid() && from < |net.lanes| && IsChain(net, target, from, c)
    requires !FindChains(net, from, target).truncated
    ensures c in FindChains(net, from, target).chains
  {
    hide Matches, Dfs, ByLength;
    var none := Found([], false);
    var f := Dfs(net, target, CHAIN_CAP, [from], none);
    ByLengthSorts(f.chains);
    assert c[..1] == [from];
    DfsComplete(net, target, from, CHAIN_CAP, [from], none, c);
  }

  /** It says so only when three chains are enough, or a path ran eight hops without a match. */
  lemma CutShortHasCause(net: Network, from: nat, target: Target)
    requires net.Valid() && from < |net.lanes| && FindChains(net, from, target).truncated
    ensures |FindChains(net, from, target).chains| == 3 || TooDeep(net, target, from)
  {
    hide Matches, Dfs, ByLength, TooDeep;
    DfsCutShort(net, target, from, CHAIN_CAP, [from], Found([], false));
  }

  /** The search as it runs: one path, pushed and popped, and what it has found. */
  class ChainSearch {
    const net: Network
    const target: Target
    const cap: nat
    var path: seq<nat>
    var found: Found

    ghost predicate Valid()
      reads this
    {
      net.Valid() && path != [] && forall i | 0 <= i < |path| :: path[i] < |net.lanes|
    }

    constructor (net: Network, target: Target, cap: nat, from: nat)
      requires net.Valid() && from < |net.lanes|
      ensures this.net == net && this.target == target && this.cap == cap && Valid()
      ensures path == [from] && found == Found([], false)
    {
      this.net, this.target, this.cap, this.path, this.found := net, target, cap, [from], Found([], false);
    }

    method Visit()
      requires Valid()
      modifies this
      ensures path == old(path) && found == Dfs(net, target, cap, path, old(found))
      decreases if |path| <= MAX_CROSS_DEPTH then MAX_CROSS_DEPTH + 1 - |path| else 0
    {
      hide Matches;
      if |found.chains| > cap {
        return;
      }
      if |path| > MAX_CROSS_DEPTH {
        found := found.(truncated := true);
        return;
      }
      var lane := net.lanes[path[|path| - 1]];
      for k := 0 to |lane.successors|
        invariant path == old(path)
        invariant Branches(net, target, cap, path, k, found) == Branches(net, target, cap, path, 0, old(found))
      {
        assert LinksInside(lane, |net.lanes|);
        var s := lane.successors[k];
        if s !in path {
          if Matches(net, target, s) {
            found := found.(chains := found.chains + [path + [s]]);
          } else {
            path := path + [s];
            Visit();
            path := path[..|path| - 1];
          }
        }
      }
    }
  }

  method SearchChains(net: Network, from: nat, target: Target) returns (r: Found)
    requires net.Valid() && from < |net.lanes|
    ensures r == FindChains(net, from, target)
  {
    hide Dfs;
    var search := new ChainSearch(net, target, CHAIN_CAP, from);
    search.Visit();
    var cs := ByLength(search.found.chains);
    r := if |cs| > CHAIN_CAP then Found(cs[..CHAIN_CAP], true) else Found(cs, search.found.truncated);
  }

  // ---------------------------------------------------------------- what the kernel asks

  datatype Crossing = Disjoint | Crossed(chain: seq<nat>, ambiguous: bool)

  /** The chain driven in a tick that changed lanes. */
  function CrossedChain(net: Network, prev: nat, cur: nat): (r: Crossing)
    requires net.Valid() && prev < |net.lanes|
  {
    var f := FindChains(net, prev, Arrival(cur));
    if f.chains == [] then Disjoint else Crossed(f.chains[0], f.truncated || |f.chains| > 1)
  }

  predicate OneTarget(cs: seq<seq<nat>>)
    requires forall k | 0 <= k < |cs| :: cs[k] != []
  {
    cs != [] && forall k | 0 <= k < |cs| :: cs[k][|cs[k]| - 1] == cs[0][|cs[0]| - 1]
  }

  /** The one matching lane reachable, with the shortest chain to it. */
  function ChainResolve(net: Network, from: nat, target: Target): (r: Crossing)
    requires net.Valid() && from < |net.lanes|
  {
    FindChainsSound(net, from, target);
    var f := FindChains(net, from, target);
    if OneTarget(f.chains) then Crossed(f.chains[0], f.truncated || |f.chains| > 1) else Disjoint
  }

  lemma CrossedIsChain(net: Network, prev: nat, cur: nat)
    requires net.Valid() && prev < |net.lanes|
    ensures CrossedChain(net, prev, cur).Crossed? ==> IsChain(net, Arrival(cur), prev, CrossedChain(net, prev, cur).chain)
  {
    FindChainsSound(net, prev, Arrival(cur));
  }

  lemma ResolvedIsChain(net: Network, from: nat, target: Target)
    requires net.Valid() && from < |net.lanes|
    ensures ChainResolve(net, from, target).Crossed? ==> IsChain(net, target, from, ChainResolve(net, from, target).chain)
  {
    FindChainsSound(net, from, target);
  }

  /** A crossing called unambiguous is the only one that can have been driven; none shorter
      was missed unless the search was cut short; and there is no crossing when it found none. */
  lemma CrossedIsOnly(net: Network, prev: nat, cur: nat, c: seq<nat>)
    requires net.Valid() && prev < |net.lanes| && IsChain(net, Arrival(cur), prev, c)
    ensures var r := CrossedChain(net, prev, cur);
      && (r.Crossed? && !r.ambiguous ==> c == r.chain)
      && (!FindChains(net, prev, Arrival(cur)).truncated ==> r.Crossed? && |r.chain| <= |c|)
  {
    hide FindChains, IsChain;
    var f := FindChains(net, prev, Arrival(cur));
    FindChainsSound(net, prev, Arrival(cur));
    if !f.truncated {
      FindChainsComplete(net, prev, Arrival(cur), c);
      var j :| 0 <= j < |f.chains| && f.chains[j] == c;
    }
  }
}
