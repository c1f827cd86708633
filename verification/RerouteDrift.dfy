/** What later splices do to a lane that was accepted earlier: the realised cost of a lane
    moves by exactly what each later splice on its chain adds or saves, so whether the margin
    it earned is still there in the served table is a matter of adding these up. */
module RerouteDrift {
  import opened LaneGraph
  import opened Dijkstra
  import opened Reroute

  // ---------------------------------------------------------------- what a table costs

  /** The cost of the chain the table drives from lane i. */
  ghost function Cost(tab: seq<int>, w: seq<real>, dest: nat, i: nat): real
    requires IsTable(tab, |w|) && i < |w|
  {
    if Leads(tab, dest, i) then
      var k: nat :| Arrives(tab, dest, i, k);
      PathCost(w, Route(tab, dest, i, k))
    else 0.0
  }

  /** Lane x is on the chain from lane i. */
  ghost predicate Through(tab: seq<int>, dest: nat, i: nat, x: nat)
    requires IsTable(tab, |tab|) && i < |tab|
  {
    exists k: nat | Arrives(tab, dest, i, k) :: x in Route(tab, dest, i, k)
  }

  lemma CostIs(tab: seq<int>, w: seq<real>, dest: nat, i: nat, k: nat)
    requires IsTable(tab, |w|) && i < |w| && Arrives(tab, dest, i, k)
    ensures Cost(tab, w, dest, i) == PathCost(w, Route(tab, dest, i, k))
    ensures forall x: nat :: Through(tab, dest, i, x) <==> x in Route(tab, dest, i, k)
  {
    forall m: nat | Arrives(tab, dest, i, m) ensures m == k {
      ArrivesOnce(tab, dest, i, k, m);
    }
  }

  /** One hop along the chain. */
  lemma CostStep(tab: seq<int>, w: seq<real>, dest: nat, i: nat, k: nat)
    requires IsTable(tab, |w|) && i < |w| && Arrives(tab, dest, i, k) && i != dest
    ensures Cost(tab, w, dest, i) == w[tab[i]] + Cost(tab, w, dest, tab[i])
    ensures forall x: nat :: Through(tab, dest, i, x) <==> x == i || Through(tab, dest, tab[i], x)
  {
    CostIs(tab, w, dest, i, k);
    CostIs(tab, w, dest, tab[i], k - 1);
    assert Route(tab, dest, i, k)[1..] == Route(tab, dest, tab[i], k - 1);
    assert Route(tab, dest, i, k) == [i] + Route(tab, dest, tab[i], k - 1);
  }

  lemma CostAtEnd(tab: seq<int>, w: seq<real>, dest: nat)
    requires IsTable(tab, |w|) && dest < |w|
    ensures Cost(tab, w, dest, dest) == 0.0 && forall x: nat :: Through(tab, dest, dest, x) <==> x == dest
  {
    CostIs(tab, w, dest, dest, 0);
  }

  // ---------------------------------------------------------------- one splice

  /** A splice at lane x moves the cost of every lane whose chain runs through x by what it
      moves the cost of x, and of no other lane. */
  lemma {:induction false} SpliceMoves(tab: seq<int>, w: seq<real>, dest: nat, x: nat, hop: nat, i: nat, k: nat)
    requires AllLead(tab, dest) && |tab| == |w| && x < |w| && x != dest && hop < |w| && AllLead(tab[x := hop], dest)
    requires i < |w| && Arrives(tab, dest, i, k)
    ensures Leads(tab[x := hop], dest, i)
    ensures Cost(tab[x := hop], w, dest, i) - Cost(tab, w, dest, i)
      == if Through(tab, dest, i, x) then Cost(tab[x := hop], w, dest, x) - Cost(tab, w, dest, x) else 0.0
    decreases k
  {
    var t := tab[x := hop];
    assert i == dest || t[i] >= 0;
    assert Leads(t, dest, i);
    if i == dest {
      CostAtEnd(tab, w, dest);
      CostAtEnd(t, w, dest);
    } else if i == x {
      CostStep(tab, w, dest, i, k);
    } else {
      var m: nat :| Arrives(t, dest, i, m);
      CostStep(tab, w, dest, i, k);
      CostStep(t, w, dest, i, m);
      SpliceMoves(tab, w, dest, x, hop, tab[i], k - 1);
    }
  }

  // ---------------------------------------------------------------- the builder's turns

  /** What the builder starts from: a static table that leads, and no hop at the destination. */
  ghost predicate Building(stat: seq<int>, cand: seq<int>, w: seq<real>, dest: nat) {
    IsTable(stat, |w|) && IsTable(cand, |w|) && AllLead(stat, dest) && cand[dest] == -1
  }

  ghost predicate AcceptsAt(stat: seq<int>, cand: seq<int>, w: seq<real>, dest: nat, x: nat)
    requires Building(stat, cand, w, dest) && x < |w|
  {
    Accepts(stat, cand, w, dest, Splice(stat, cand, w, dest, x), x)
  }

  /** How much dearer lane x's own turn makes its chain. */
  ghost function Rise(stat: seq<int>, cand: seq<int>, w: seq<real>, dest: nat, x: nat): real
    requires Building(stat, cand, w, dest) && x < |w|
  {
    Cost(Splice(stat, cand, w, dest, x + 1), w, dest, x) - Cost(Splice(stat, cand, w, dest, x), w, dest, x)
  }

  /** Lane x is spliced in its turn, on what is then the chain of lane i. */
  ghost predicate Touches(stat: seq<int>, cand: seq<int>, w: seq<real>, dest: nat, i: nat, x: nat)
    requires Building(stat, cand, w, dest) && x < |w| && i < |w|
  {
    AcceptsAt(stat, cand, w, dest, x) && Through(Splice(stat, cand, w, dest, x), dest, i, x)
  }

  lemma {:induction false} SpliceKeepsHops(stat: seq<int>, cand: seq<int>, w: seq<real>, dest: nat, k: nat, i: nat)
    requires Building(stat, cand, w, dest) && k <= |w| && i < |w|
    ensures stat[i] >= 0 ==> Splice(stat, cand, w, dest, k)[i] >= 0
  {
    if k > 0 {
      SpliceKeepsHops(stat, cand, w, dest, k - 1, i);
    }
  }

  /** A lane that the static table leads is led by every table on the way. */
  lemma StillLed(stat: seq<int>, cand: seq<int>, w: seq<real>, dest: nat, k: nat, i: nat)
    requires Building(stat, cand, w, dest) && k <= |w| && i < |w| && stat[i] >= 0
    ensures AllLead(Splice(stat, cand, w, dest, k), dest) && Leads(Splice(stat, cand, w, dest, k), dest, i)
  {
    SpliceLeads(stat, cand, w, dest, k);
    SpliceKeepsHops(stat, cand, w, dest, k, i);
  }

  /** One turn of the builder, for every lane. */
  lemma TurnMoves(stat: seq<int>, cand: seq<int>, w: seq<real>, dest: nat, x: nat, i: nat)
    requires Building(stat, cand, w, dest) && x < |w| && i < |w| && stat[i] >= 0
    ensures Cost(Splice(stat, cand, w, dest, x + 1), w, dest, i) - Cost(Splice(stat, cand, w, dest, x), w, dest, i)
      == if Touches(stat, cand, w, dest, i, x) then Rise(stat, cand, w, dest, x) else 0.0
  {
    hide Cost, Through, AllLead;
    var mixed := Splice(stat, cand, w, dest, x);
    StillLed(stat, cand, w, dest, x, i);
    SpliceLeads(stat, cand, w, dest, x + 1);
    if AcceptsAt(stat, cand, w, dest, x) {
      var k: nat :| Arrives(mixed, dest, i, k);
      SpliceMoves(mixed, w, dest, x, cand[x], i, k);
    }
  }

  /** A turn makes no lane's chain dearer exactly when it does not make its own so: the check
      the builder does not make, since it compares with the static chain. */
  lemma TurnRaisesNobody(stat: seq<int>, cand: seq<int>, w: seq<real>, dest: nat, x: nat)
    requires Building(stat, cand, w, dest) && x < |w| && stat[x] >= 0
    ensures (forall i | 0 <= i < |w| && stat[i] >= 0 ::
               Cost(Splice(stat, cand, w, dest, x + 1), w, dest, i) <= Cost(Splice(stat, cand, w, dest, x), w, dest, i))
      <==> Rise(stat, cand, w, dest, x) <= 0.0
  {
    hide Cost, Touches, Splice;
    forall i | 0 <= i < |w| && stat[i] >= 0
      ensures Cost(Splice(stat, cand, w, dest, x + 1), w, dest, i) - Cost(Splice(stat, cand, w, dest, x), w, dest, i)
        == if Touches(stat, cand, w, dest, i, x) then Rise(stat, cand, w, dest, x) else 0.0
    {
      TurnMoves(stat, cand, w, dest, x, i);
    }
  }

  // ---------------------------------------------------------------- adding up

  /** What the turns i + 1 .. k - 1 add to the cost of lane i. */
  ghost function Drift(stat: seq<int>, cand: seq<int>, w: seq<real>, dest: nat, i: nat, k: nat): real
    requires Building(stat, cand, w, dest) && i < k <= |w|
  {
    if k == i + 1 then 0.0
    else
      Drift(stat, cand, w, dest, i, k - 1)
      + if Touches(stat, cand, w, dest, i, k - 1) then Rise(stat, cand, w, dest, k - 1) else 0.0
  }

  lemma {:induction false} DriftIsChange(stat: seq<int>, cand: seq<int>, w: seq<real>, dest: nat, i: nat, k: nat)
    requires Building(stat, cand, w, dest) && i < k <= |w| && stat[i] >= 0
    ensures Cost(Splice(stat, cand, w, dest, k), w, dest, i)
      == Cost(Splice(stat, cand, w, dest, i + 1), w, dest, i) + Drift(stat, cand, w, dest, i, k)
  {
    hide Cost, Touches, Splice, Rise;
    if k > i + 1 {
      DriftIsChange(stat, cand, w, dest, i, k - 1);
      TurnMoves(stat, cand, w, dest, k - 1, i);
    }
  }

  lemma BeatsIsCost(tab: seq<int>, stat: seq<int>, w: seq<real>, dest: nat, i: nat)
    requires IsTable(tab, |w|) && IsTable(stat, |w|) && i < |w| && Leads(tab, dest, i) && Leads(stat, dest, i)
    ensures BeatsByMargin(tab, stat, w, dest, i)
      <==> Cost(tab, w, dest, i) < Cost(stat, w, dest, i) - Margin(Cost(stat, w, dest, i))
  {
    var k: nat :| Arrives(stat, dest, i, k);
    var m: nat :| Arrives(tab, dest, i, m);
    CostIs(stat, w, dest, i, k);
    CostIs(tab, w, dest, i, m);
    forall k': nat | Arrives(stat, dest, i, k') ensures k' == k {
      ArrivesOnce(stat, dest, i, k, k');
    }
    forall m': nat | Arrives(tab, dest, i, m') ensures m' == m {
      ArrivesOnce(tab, dest, i, m, m');
    }
  }

  /** The margin of a lane is there in the served table if and only if what it cost when it was
      decided, and what the later splices on its chain added, stay clear of the static cost.
      It accounts for the margin turn by turn and is read off the build; what can be asked
      beforehand is in `TurnRaisesNobody`, for one turn, and `ServedMargin`, for the table. */
  lemma MarginServedIff(stat: seq<int>, cand: seq<int>, w: seq<real>, dest: nat, i: nat)
    requires Building(stat, cand, w, dest) && i < |w| && stat[i] >= 0
    ensures BeatsByMargin(Splice(stat, cand, w, dest, |w|), stat, w, dest, i)
      <==> Cost(Splice(stat, cand, w, dest, i + 1), w, dest, i) + Drift(stat, cand, w, dest, i, |w|)
           < Cost(stat, w, dest, i) - Margin(Cost(stat, w, dest, i))
  {
    hide Cost, Splice, Drift, Margin, BeatsByMargin;
    StillLed(stat, cand, w, dest, |w|, i);
    assert Leads(stat, dest, i);
    DriftIsChange(stat, cand, w, dest, i, |w|);
    BeatsIsCost(Splice(stat, cand, w, dest, |w|), stat, w, dest, i);
  }

  // ---------------------------------------------------------------- when it lasts

  lemma {:induction false} NoRiseNoDrift(stat: seq<int>, cand: seq<int>, w: seq<real>, dest: nat, i: nat, k: nat)
    requires Building(stat, cand, w, dest) && i < k <= |w|
    requires forall x | i < x < k && Touches(stat, cand, w, dest, i, x) :: Rise(stat, cand, w, dest, x) <= 0.0
    ensures Drift(stat, cand, w, dest, i, k) <= 0.0
  {
    hide Touches, Rise;
    if k > i + 1 {
      NoRiseNoDrift(stat, cand, w, dest, i, k - 1);
    }
  }

  /** The margin earned at acceptance lasts into the served table if no later splice on the
      lane's chain makes its own chain dearer. */
  lemma MarginLasts(stat: seq<int>, cand: seq<int>, w: seq<real>, dest: nat, i: nat)
    requires Building(stat, cand, w, dest) && i < |w| && i != dest && stat[i] >= 0 && AcceptsAt(stat, cand, w, dest, i)
    requires forall x | i < x < |w| && Touches(stat, cand, w, dest, i, x) :: Rise(stat, cand, w, dest, x) <= 0.0
    ensures BeatsByMargin(Splice(stat, cand, w, dest, |w|), stat, w, dest, i)
  {
    hide Cost, Drift, Margin, BeatsByMargin, Touches, Rise;
    NoRiseNoDrift(stat, cand, w, dest, i, |w|);
    MarginServedIff(stat, cand, w, dest, i);
    AcceptedBeats(stat, cand, w, dest, Splice(stat, cand, w, dest, i), i);
    StillLed(stat, cand, w, dest, i + 1, i);
    assert Leads(stat, dest, i);
    BeatsIsCost(Splice(stat, cand, w, dest, i + 1), stat, w, dest, i);
  }

  /** Tables a and b agree on every lane of a route. */
  ghost predicate AgreeOn(a: seq<int>, b: seq<int>, p: seq<nat>)
    requires |a| == |b| && forall m | 0 <= m < |p| :: p[m] < |a|
  {
    forall m | 0 <= m < |p| :: a[p[m]] == b[p[m]]
  }

  lemma {:induction false} SameRoute(a: seq<int>, b: seq<int>, dest: nat, i: nat, k: nat)
    requires IsTable(a, |a|) && IsTable(b, |a|) && i < |a| && Arrives(a, dest, i, k)
    requires AgreeOn(a, b, Route(a, dest, i, k))
    ensures Arrives(b, dest, i, k) && Route(b, dest, i, k) == Route(a, dest, i, k)
    decreases k
  {
    if k > 0 {
      var p, q := Route(a, dest, i, k), Route(a, dest, a[i], k - 1);
      assert p == [i] + q;
      assert a[p[0]] == b[p[0]];
      forall m | 0 <= m < |q| ensures a[q[m]] == b[q[m]] {
        assert p[m + 1] == q[m];
      }
      SameRoute(a, b, dest, a[i], k - 1);
    }
  }

  /** The chain from lane x is still the static one. */
  ghost predicate StaticTail(stat: seq<int>, cand: seq<int>, w: seq<real>, dest: nat, x: nat)
    requires Building(stat, cand, w, dest) && x < |w|
  {
    var mixed := Splice(stat, cand, w, dest, x);
    forall y | 0 <= y < x && Through(mixed, dest, x, y) :: mixed[y] == stat[y]
  }

  /** A lane whose chain was static saves its own margin at its turn. */
  lemma StaticTailSaves(stat: seq<int>, cand: seq<int>, w: seq<real>, dest: nat, x: nat)
    requires Building(stat, cand, w, dest) && x < |w| && x != dest && stat[x] >= 0
    requires AcceptsAt(stat, cand, w, dest, x) && StaticTail(stat, cand, w, dest, x)
    ensures Rise(stat, cand, w, dest, x) < -Margin(Cost(stat, w, dest, x))
  {
    hide Margin, BeatsByMargin;
    var mixed := Splice(stat, cand, w, dest, x);
    StillLed(stat, cand, w, dest, x, x);
    StillLed(stat, cand, w, dest, x + 1, x);
    var k: nat :| Arrives(mixed, dest, x, k);
    CostIs(mixed, w, dest, x, k);
    var p := Route(mixed, dest, x, k);
    forall m | 0 <= m < |p| ensures mixed[p[m]] == stat[p[m]] {
      assert p[m] in p;
    }
    SameRoute(mixed, stat, dest, x, k);
    CostIs(stat, w, dest, x, k);
    AcceptedBeats(stat, cand, w, dest, mixed, x);
    assert Leads(stat, dest, x);
    BeatsIsCost(mixed[x := cand[x]], stat, w, dest, x);
  }

  /** So the margin can be lost only at a later splice, on the lane's chain, that has an
      earlier splice behind it and makes its own chain dearer. */
  lemma LostBehindSplice(stat: seq<int>, cand: seq<int>, w: seq<real>, dest: nat, i: nat) returns (x: nat, y: nat)
    requires Building(stat, cand, w, dest) && i < |w| && i != dest && stat[i] >= 0 && AcceptsAt(stat, cand, w, dest, i)
    requires forall z | 0 <= z < |w| && cand[z] >= 0 :: stat[z] >= 0
    requires !BeatsByMargin(Splice(stat, cand, w, dest, |w|), stat, w, dest, i)
    ensures i < x < |w| && Touches(stat, cand, w, dest, i, x) && Rise(stat, cand, w, dest, x) > 0.0
    ensures y < x && Through(Splice(stat, cand, w, dest, x), dest, x, y)
    ensures Splice(stat, cand, w, dest, x)[y] != stat[y]
  {
    hide Cost, Through, Margin, BeatsByMargin, Rise, Splice;
    if forall z | i < z < |w| && Touches(stat, cand, w, dest, i, z) :: Rise(stat, cand, w, dest, z) <= 0.0 {
      MarginLasts(stat, cand, w, dest, i);
    }
    x :| i < x < |w| && Touches(stat, cand, w, dest, i, x) && Rise(stat, cand, w, dest, x) > 0.0;
    MarginPositive(Cost(stat, w, dest, x));
    if StaticTail(stat, cand, w, dest, x) {
      StaticTailSaves(stat, cand, w, dest, x);
    }
    y :| 0 <= y < x && Through(Splice(stat, cand, w, dest, x), dest, x, y) && Splice(stat, cand, w, dest, x)[y] != stat[y];
  }

  lemma MarginPositive(cost: real)
    ensures Margin(cost) > 0.0
  {
  }

  // ---------------------------------------------------------------- a chain nobody decides on

  /** No lane on the chain that i was accepted on, and still to come, has a hop of its own to
      offer. */
  ghost predicate Undecided(stat: seq<int>, cand: seq<int>, w: seq<real>, dest: nat, i: nat)
    requires Building(stat, cand, w, dest) && i < |w|
  {
    forall x | i < x < |w| && Through(Splice(stat, cand, w, dest, i + 1), dest, i, x) :: cand[x] == stat[x] || cand[x] < 0
  }

  lemma TurnHops(stat: seq<int>, cand: seq<int>, w: seq<real>, dest: nat, x: nat, y: nat)
    requires Building(stat, cand, w, dest) && x < |w| && y < |w|
    requires y == x ==> cand[x] == stat[x] || cand[x] < 0
    ensures Splice(stat, cand, w, dest, x + 1)[y] == Splice(stat, cand, w, dest, x)[y]
  {
  }

  lemma {:induction false} UndecidedStays(stat: seq<int>, cand: seq<int>, w: seq<real>, dest: nat, i: nat, k: nat, m: nat)
    requires Building(stat, cand, w, dest) && i < k <= |w| && Undecided(stat, cand, w, dest, i)
    requires Arrives(Splice(stat, cand, w, dest, i + 1), dest, i, m)
    ensures Arrives(Splice(stat, cand, w, dest, k), dest, i, m)
    ensures Route(Splice(stat, cand, w, dest, k), dest, i, m) == Route(Splice(stat, cand, w, dest, i + 1), dest, i, m)
  {
    hide Splice, Accepts, Through;
    if k > i + 1 {
      UndecidedStays(stat, cand, w, dest, i, k - 1, m);
      var a, b := Splice(stat, cand, w, dest, k - 1), Splice(stat, cand, w, dest, k);
      var p := Route(a, dest, i, m);
      CostIs(Splice(stat, cand, w, dest, i + 1), w, dest, i, m);
      forall j | 0 <= j < |p| ensures a[p[j]] == b[p[j]] {
        assert p[j] in p;
        assert Through(Splice(stat, cand, w, dest, i + 1), dest, i, p[j]);
        TurnHops(stat, cand, w, dest, k - 1, p[j]);
      }
      SameRoute(a, b, dest, i, m);
    }
  }

  /** Then the served table drives the very chain it was accepted on, and the margin stands. */
  lemma UndecidedLasts(stat: seq<int>, cand: seq<int>, w: seq<real>, dest: nat, i: nat)
    requires Building(stat, cand, w, dest) && i < |w| && i != dest && stat[i] >= 0 && AcceptsAt(stat, cand, w, dest, i)
    requires Undecided(stat, cand, w, dest, i)
    ensures BeatsByMargin(Splice(stat, cand, w, dest, |w|), stat, w, dest, i)
  {
    hide Margin, BeatsByMargin, Undecided;
    var then' := Splice(stat, cand, w, dest, i + 1);
    StillLed(stat, cand, w, dest, i + 1, i);
    var m: nat :| Arrives(then', dest, i, m);
    UndecidedStays(stat, cand, w, dest, i, |w|, m);
    CostIs(then', w, dest, i, m);
    CostIs(Splice(stat, cand, w, dest, |w|), w, dest, i, m);
    AcceptedBeats(stat, cand, w, dest, Splice(stat, cand, w, dest, i), i);
    assert Leads(stat, dest, i);
    BeatsIsCost(then', stat, w, dest, i);
    BeatsIsCost(Splice(stat, cand, w, dest, |w|), stat, w, dest, i);
  }

  // ---------------------------------------------------------------- the served table

  /** What the network's own tables give the builder to start from. */
  lemma NetworkBuilds(net: Network, w: seq<real>, dest: nat)
    requires Drivable(net) && NonNegative(w) && |w| == |net.lanes| && dest < |net.lanes|
    ensures Building(StaticTable(net, dest), RouteDijkstra(net, w, dest).next, w, dest)
    ensures forall z | 0 <= z < |w| && RouteDijkstra(net, w, dest).next[z] >= 0 :: StaticTable(net, dest)[z] >= 0
  {
    DijkstraTable(net, w, dest);
    DijkstraTable(net, FreeFlow(net), dest);
    DijkstraLeads(net, FreeFlow(net), dest);
    DijkstraHops(net, w, dest, dest);
    forall z | 0 <= z < |w| && RouteDijkstra(net, w, dest).next[z] >= 0 ensures StaticTable(net, dest)[z] >= 0 {
      DijkstraHops(net, w, dest, z);
      DijkstraHops(net, FreeFlow(net), dest, z);
    }
  }

  /** For the table the engine serves: a lane that left its free-flow hop still beats its
      free-flow chain by the margin, if no later splice on its chain has an earlier splice
      behind it. */
  lemma ServedMargin(net: Network, w: seq<real>, dest: nat, i: nat)
    requires Drivable(net) && NonNegative(w) && |w| == |net.lanes| && dest < |net.lanes| && i < |net.lanes|
    requires RerouteTable(net, w, dest)[i] != StaticTable(net, dest)[i]
    ensures Building(StaticTable(net, dest), RouteDijkstra(net, w, dest).next, w, dest)
    ensures var stat, cand := StaticTable(net, dest), RouteDijkstra(net, w, dest).next;
      (forall x | i < x < |w| && Touches(stat, cand, w, dest, i, x) :: StaticTail(stat, cand, w, dest, x))
      ==> BeatsByMargin(RerouteTable(net, w, dest), stat, w, dest, i)
  {
    hide Margin, BeatsByMargin, StaticTail, Rise, Cost, Accepts;
    var stat, cand := StaticTable(net, dest), RouteDijkstra(net, w, dest).next;
    NetworkBuilds(net, w, dest);
    SpliceChoice(stat, cand, w, dest, |w|, i);
    DijkstraHops(net, w, dest, i);
    DijkstraHops(net, FreeFlow(net), dest, i);
    if forall x | i < x < |w| && Touches(stat, cand, w, dest, i, x) :: StaticTail(stat, cand, w, dest, x) {
      forall x | i < x < |w| && Touches(stat, cand, w, dest, i, x) ensures Rise(stat, cand, w, dest, x) <= 0.0 {
        AcceptedLane(stat, cand, w, dest, x);
        StaticTailSaves(stat, cand, w, dest, x);
        MarginPositive(Cost(stat, w, dest, x));
      }
      AcceptedLane(stat, cand, w, dest, i);
      MarginLasts(stat, cand, w, dest, i);
    }
  }

  lemma AcceptedLane(stat: seq<int>, cand: seq<int>, w: seq<real>, dest: nat, x: nat)
    requires Building(stat, cand, w, dest) && x < |w| && AcceptsAt(stat, cand, w, dest, x)
    ensures x != dest && cand[x] >= 0
  {
  }

  // ---------------------------------------------------------------- which hop is taken

  /** A lane takes its fresh hop if and only if the table with the hop installed, and every
      lane before it decided, drives the lane to the destination - and for clearly less than
      the free-flow table does, where that one gets there at all. */
  lemma TakesFreshHopIff(stat: seq<int>, cand: seq<int>, w: seq<real>, dest: nat, i: nat, k: nat)
    requires Building(stat, cand, w, dest) && i < k <= |w| && cand[i] >= 0 && cand[i] != stat[i]
    ensures var there := Splice(stat, cand, w, dest, i)[i := cand[i]];
      var old', new' := Cost(stat, w, dest, i), Cost(there, w, dest, i);
      if Leads(there, dest, i) && (stat[i] >= 0 ==> new' < old' - if 0.15 * old' > 30.0 then 0.15 * old' else 30.0)
      then Splice(stat, cand, w, dest, k)[i] == cand[i]
      else Splice(stat, cand, w, dest, k)[i] == stat[i]
  {
    hide Cost, Splice;
    var there := Splice(stat, cand, w, dest, i)[i := cand[i]];
    SpliceChoice(stat, cand, w, dest, k, i);
    LedByHop(there, dest, i);
    WalkArrives(there, w, dest, cand[i], |w| + 1, 0.0);
    if Leads(there, dest, i) {
      WalkIsCost(there, w, dest, i);
    }
    if stat[i] >= 0 {
      assert Leads(stat, dest, i);
      LedByHop(stat, dest, i);
      WalkIsCost(stat, w, dest, i);
    }
  }

  /** So it is in the table the engine serves, for every lane whose shortest-path hop under the
      frozen weights is not its free-flow hop. */
  lemma ServesFreshHopIff(net: Network, w: seq<real>, dest: nat, i: nat)
    requires Drivable(net) && NonNegative(w) && |w| == |net.lanes| && dest < |net.lanes| && i < |net.lanes|
    requires var cand := RouteDijkstra(net, w, dest).next; cand[i] >= 0 && cand[i] != StaticTable(net, dest)[i]
    ensures Building(StaticTable(net, dest), RouteDijkstra(net, w, dest).next, w, dest)
    ensures var stat, cand := StaticTable(net, dest), RouteDijkstra(net, w, dest).next;
      var there := Splice(stat, cand, w, dest, i)[i := cand[i]];
      var old', new' := Cost(stat, w, dest, i), Cost(there, w, dest, i);
      if Leads(there, dest, i) && new' < old' - if 0.15 * old' > 30.0 then 0.15 * old' else 30.0
      then RerouteTable(net, w, dest)[i] == cand[i]
      else RerouteTable(net, w, dest)[i] == stat[i]
  {
    hide Cost, Splice;
    NetworkBuilds(net, w, dest);
    TakesFreshHopIff(StaticTable(net, dest), RouteDijkstra(net, w, dest).next, w, dest, i, |w|);
  }

  /** A lane is led if and only if it has a hop and the lane hopped to is led. */
  lemma LedByHop(tab: seq<int>, dest: nat, i: nat)
    requires IsTable(tab, |tab|) && i < |tab| && i != dest && tab[i] >= 0
    ensures Leads(tab, dest, i) <==> Leads(tab, dest, tab[i])
  {
    if Leads(tab, dest, i) {
      var k: nat :| Arrives(tab, dest, i, k);
      assert Arrives(tab, dest, tab[i], k - 1);
    }
    if Leads(tab, dest, tab[i]) {
      var k: nat :| Arrives(tab, dest, tab[i], k);
      assert Arrives(tab, dest, i, k + 1);
    }
  }

  lemma WalkIsCost(tab: seq<int>, w: seq<real>, dest: nat, i: nat)
    requires IsTable(tab, |w|) && i < |w| && i != dest && tab[i] >= 0 && Leads(tab, dest, tab[i])
    ensures Walk(tab, w, dest, tab[i], |w| + 1, 0.0) == Some(Cost(tab, w, dest, i))
  {
    var k := WalkFromHop(tab, w, dest, i);
    CostIs(tab, w, dest, i, k);
  }
}
