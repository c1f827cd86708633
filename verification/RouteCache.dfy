/** The engine's routing state: live and epoch-frozen travel times and the memoised
    next-hop tables. Tables are derived state; the memo must never show. */
module RouteCache {
  import opened Arith
  import opened LaneGraph
  import opened Dijkstra
  import opened Reroute

  /** Nobody has left free flow: the adaptive table is the static one. */
  lemma {:induction false} FreeFlowReroutesNothing(net: Network, dest: nat, k: nat)
    requires Drivable(net) && dest < |net.lanes| && k <= |net.lanes|
    ensures IsTable(StaticTable(net, dest), |net.lanes|)
    ensures Splice(StaticTable(net, dest), StaticTable(net, dest), FreeFlow(net), dest, k) == StaticTable(net, dest)
    ensures RerouteTable(net, FreeFlow(net), dest) == Splice(StaticTable(net, dest), StaticTable(net, dest), FreeFlow(net), dest, |net.lanes|)
  {
    DijkstraTable(net, FreeFlow(net), dest);
    if k > 0 {
      FreeFlowReroutesNothing(net, dest, k - 1);
    }
  }

  lemma EpochZeroIsStatic(net: Network, dest: nat)
    requires Drivable(net) && dest < |net.lanes|
    ensures RerouteTable(net, FreeFlow(net), dest) == StaticTable(net, dest)
  {
    FreeFlowReroutesNothing(net, dest, |net.lanes|);
  }

  /** The table in play for given frozen weights: what a cold engine would build. */
  ghost function Served(net: Network, adaptive: bool, ttSnap: seq<real>, dest: nat): seq<int>
    requires Drivable(net) && dest < |net.lanes|
    requires adaptive ==> |ttSnap| == |net.lanes| && NonNegative(ttSnap)
  {
    if adaptive then RerouteTable(net, ttSnap, dest) else StaticTable(net, dest)
  }

  ghost predicate UniqueIds(net: Network) {
    forall i, j | 0 <= i < j < |net.lanes| :: net.lanes[i].id != net.lanes[j].id
  }

  /** Estimates never fall below free flow, nor - with the strand cap on - above the
      larger of the cap and free flow. */
  ghost predicate Plausible(net: Network, tt: seq<real>, cap: real) {
    && |tt| == |net.lanes|
    && forall i | 0 <= i < |tt| ::
         && FreeFlow(net)[i] <= tt[i]
         && (cap > 0.0 ==> tt[i] <= cap || tt[i] <= FreeFlow(net)[i])
  }

  // ---------------------------------------------------------------- what is recorded

  /** The network and the parameters of a run, the time constants in ticks. */
  datatype Rules = Rules(net: Network, adaptive: bool, dt: real, strandAfterS: real, epochTicks: nat, relaxTicks: real) {
    ghost predicate Valid() {
      Drivable(net) && UniqueIds(net) && dt >= 0.0 && epochTicks >= 1 && relaxTicks >= 1.0
    }
  }

  /** The part of the routing state that a keyframe carries. */
  datatype Times = Times(tick: nat, ttEMA: seq<real>, ttSnap: seq<real>)

  ghost predicate Sound(rules: Rules, t: Times) {
    && rules.Valid()
    && (rules.adaptive ==>
          Plausible(rules.net, t.ttEMA, rules.strandAfterS) && Plausible(rules.net, t.ttSnap, rules.strandAfterS)
          && NonNegative(t.ttSnap))
  }

  /** One tick's decay of every estimate towards free flow. */
  function Decayed(rules: Rules, tt: seq<real>): (r: seq<real>)
    requires |tt| == |rules.net.lanes| && rules.relaxTicks >= 1.0
    ensures |r| == |tt|
  {
    seq(|tt|, i requires 0 <= i < |tt| => tt[i] + (FreeFlow(rules.net)[i] - tt[i]) / rules.relaxTicks)
  }

  /** The routing phase of a tick: relax, and freeze the weights at an epoch rollover. */
  function Begun(rules: Rules, t: Times): Times
    requires rules.epochTicks >= 1 && rules.relaxTicks >= 1.0 && (rules.adaptive ==> |t.ttEMA| == |rules.net.lanes|)
  {
    if !rules.adaptive then t.(tick := t.tick + 1)
    else
      var ema := Decayed(rules, t.ttEMA);
      Times(t.tick + 1, ema, if (t.tick + 1) % rules.epochTicks == 0 then ema else t.ttSnap)
  }

  /** A dwell sample: capped at the strand horizon, then floored at free flow. */
  function Sample(rules: Rules, lane: nat, ticks: nat): real
    requires lane < |rules.net.lanes|
  {
    var dwell := ticks as real * rules.dt;
    var capped := if rules.strandAfterS > 0.0 && dwell > rules.strandAfterS then rules.strandAfterS else dwell;
    var ff := FreeFlow(rules.net)[lane];
    if capped < ff then ff else capped
  }

  /** A vehicle that entered the lane at entryTick leaves it: an eighth of the sample is
      folded into the estimate of that lane alone. */
  function Left(rules: Rules, t: Times, lane: nat, entryTick: nat): Times
    requires lane < |rules.net.lanes| && entryTick <= t.tick && (rules.adaptive ==> |t.ttEMA| == |rules.net.lanes|)
  {
    if !rules.adaptive then t
    else t.(ttEMA := t.ttEMA[lane := t.ttEMA[lane] + (Sample(rules, lane, t.tick - entryTick) - t.ttEMA[lane]) / 8.0])
  }

  lemma BegunSound(rules: Rules, t: Times)
    requires Sound(rules, t)
    ensures Sound(rules, Begun(rules, t))
  {
    if rules.adaptive {
      var ff := FreeFlow(rules.net);
      forall i | 0 <= i < |ff| ensures ff[i] <= Decayed(rules, t.ttEMA)[i] <= t.ttEMA[i] {
        Decay(t.ttEMA[i], ff[i], rules.relaxTicks);
      }
    }
  }

  lemma LeftSound(rules: Rules, t: Times, lane: nat, entryTick: nat)
    requires Sound(rules, t) && lane < |rules.net.lanes| && entryTick <= t.tick
    ensures Sound(rules, Left(rules, t, lane, entryTick))
  {
  }

  lemma SoundLengths(rules: Rules, t: Times)
    requires Sound(rules, t)
    ensures rules.adaptive ==> |t.ttEMA| == |t.ttSnap| == |rules.net.lanes|
  {
  }

  lemma Decay(x: real, ff: real, k: real)
    requires k >= 1.0 && x >= ff
    ensures ff <= x + (ff - x) / k <= x
  {
    var gap := x - ff;
    assert (ff - x) / k == -(gap / k);
    assert 0.0 <= gap / k <= gap;
  }

  // ---------------------------------------------------------------- what is served

  /** The served hop of a lane: a successor other than the lane itself exactly when the
      destination can be reached and is another lane. */
  lemma ServedHop(net: Network, adaptive: bool, ttSnap: seq<real>, dest: nat, i: nat)
    requires Drivable(net) && dest < |net.lanes| && i < |net.lanes|
    requires adaptive ==> |ttSnap| == |net.lanes| && NonNegative(ttSnap)
    ensures |Served(net, adaptive, ttSnap, dest)| == |net.lanes|
    ensures var hop := Served(net, adaptive, ttSnap, dest)[i];
      if i == dest || !Reachable(net, i, dest) then hop == -1
      else 0 <= hop < |net.lanes| && hop != i && Edge(net, i, hop)
  {
    var w := if adaptive then ttSnap else FreeFlow(net);
    var tab := Served(net, adaptive, ttSnap, dest);
    if adaptive {
      RerouteIsSafe(net, ttSnap, dest, i);
    } else {
      DijkstraHops(net, w, dest, i);
      DijkstraLeads(net, w, dest);
    }
    if i != dest && Reachable(net, i, dest) {
      var k: nat :| Arrives(tab, dest, i, k);
      if tab[i] == i {
        ArrivesOnce(tab, dest, i, k, k - 1);
      }
    }
  }

  lemma EpochStep(t: nat, e: nat)
    requires e >= 1
    ensures (t + 1) / e == if (t + 1) % e == 0 then t / e + 1 else t / e
  {
    var q, r := t / e, t % e;
    assert t == q * e + r;
    if r + 1 == e {
      assert t + 1 == (q + 1) * e;
      DivModUnique(t + 1, q + 1, 0, e);
    } else {
      DivModUnique(t + 1, q, r + 1, e);
    }
  }

  /** The lane with an id, among the first m. */
  function LaneOf(net: Network, id: string, m: nat): (r: Option<nat>)
    requires m <= |net.lanes|
    ensures r.Some? ==> r.value < m && net.lanes[r.value].id == id
    ensures r.None? ==> forall i | 0 <= i < m :: net.lanes[i].id != id
  {
    if m == 0 then None
    else
      var r := LaneOf(net, id, m - 1);
      if r.Some? then r else if net.lanes[m - 1].id == id then Some(m - 1) else None
  }

  /** The hop a vehicle on `lane` routed to `destId` is given: a function of the recorded
      state alone. */
  ghost function HopOf(rules: Rules, t: Times, lane: nat, destId: string): (r: Option<nat>)
    requires Sound(rules, t) && lane < |rules.net.lanes|
    ensures r.Some? ==> Edge(rules.net, lane, r.value)
  {
    var dest := LaneOf(rules.net, destId, |rules.net.lanes|);
    if dest.None? || dest.value == lane then None
    else
      ServedHop(rules.net, rules.adaptive, t.ttSnap, dest.value, lane);
      var hop := Served(rules.net, rules.adaptive, t.ttSnap, dest.value)[lane];
      if hop < 0 then None else Some(hop)
  }

  /** There is a hop exactly when the id names another lane that can be reached. */
  lemma HopExists(rules: Rules, t: Times, lane: nat, destId: string)
    requires Sound(rules, t) && lane < |rules.net.lanes|
    ensures var n := |rules.net.lanes|;
      HopOf(rules, t, lane, destId).Some? <==>
        exists d | 0 <= d < n :: rules.net.lanes[d].id == destId && d != lane && Reachable(rules.net, lane, d)
  {
    var dest := LaneOf(rules.net, destId, |rules.net.lanes|);
    if dest.Some? && dest.value != lane {
      ServedHop(rules.net, rules.adaptive, t.ttSnap, dest.value, lane);
    }
  }

  class RoutingEngine {
    const rules: Rules

    var tick: nat
    var ttEMA: seq<real>
    var ttSnap: seq<real>
    var routeTabs: map<nat, seq<int>>
    var routeEpochs: map<nat, nat>
    var staticTabs: map<nat, seq<int>>

    /** What a keyframe of this engine carries; the tables are left out. */
    function Recorded(): Times
      reads this
    {
      Times(tick, ttEMA, ttSnap)
    }

    /** A memoised table stamped with the current epoch is the rebuild over the frozen
        weights; no stamp lies in the future. */
    ghost predicate FreshIsRebuild()
      requires Sound(rules, Recorded())
      reads this
    {
      forall d | d in routeTabs :: d < |rules.net.lanes| &&
        if rules.adaptive then
          && d in routeEpochs && routeEpochs[d] <= tick / rules.epochTicks
          && (routeEpochs[d] == tick / rules.epochTicks ==> routeTabs[d] == Served(rules.net, rules.adaptive, ttSnap, d))
        else routeTabs[d] == Served(rules.net, rules.adaptive, ttSnap, d)
    }

    ghost predicate Valid()
      reads this
    {
      && Sound(rules, Recorded())
      && (forall d | d in staticTabs :: d < |rules.net.lanes| && staticTabs[d] == StaticTable(rules.net, d))
      && FreshIsRebuild()
    }

    /** A new engine starts at free flow with cold caches. */
    constructor New(rules: Rules)
      requires rules.Valid()
      ensures Valid() && this.rules == rules && Recorded() == Times(0, FreeFlow(rules.net), FreeFlow(rules.net))
      ensures routeTabs == map[] && staticTabs == map[]
    {
      this.rules := rules;
      tick, routeTabs, routeEpochs, staticTabs := 0, map[], map[], map[];
      ttEMA, ttSnap := FreeFlow(rules.net), FreeFlow(rules.net);
    }

    /** An engine restored from a keyframe: clock and travel times are the recorded ones,
        every cache is cold. */
    constructor Restored(rules: Rules, t: Times)
      requires Sound(rules, t)
      ensures Valid() && this.rules == rules && Recorded() == t && routeTabs == map[] && staticTabs == map[]
    {
      this.rules := rules;
      tick, routeTabs, routeEpochs, staticTabs := t.tick, map[], map[], map[];
      ttEMA, ttSnap := t.ttEMA, t.ttSnap;
    }

    method StaticRouteTable(dest: nat) returns (t: seq<int>)
      requires Valid() && dest < |rules.net.lanes|
      modifies this`staticTabs
      ensures Valid() && t == StaticTable(rules.net, dest)
    {
      if dest in staticTabs {
        return staticTabs[dest];
      }
      var next, _ := ComputeRouteDijkstra(rules.net, FreeFlow(rules.net), dest);
      t := next[..];
      staticTabs := staticTabs[dest := t];
    }

    method Reroute(dest: nat) returns (t: seq<int>)
      requires Valid() && rules.adaptive && dest < |rules.net.lanes|
      modifies this`staticTabs
      ensures Valid() && t == RerouteTable(rules.net, ttSnap, dest)
    {
      var net := rules.net;
      var next, _ := ComputeRouteDijkstra(net, ttSnap, dest);
      var stat := StaticRouteTable(dest);
      DijkstraTable(net, ttSnap, dest);
      DijkstraTable(net, FreeFlow(net), dest);
      var mixed := ComputeReroute(stat, next[..], ttSnap, dest);
      t := mixed[..];
    }

    method Remember(dest: nat, t: seq<int>)
      requires Valid() && dest < |rules.net.lanes| && t == Served(rules.net, rules.adaptive, ttSnap, dest)
      modifies this`routeTabs, this`routeEpochs
      ensures Valid() && routeTabs == old(routeTabs)[dest := t]
    {
      hide Plausible, Served, StaticTable, NonNegative;
      routeTabs := routeTabs[dest := t];
      if rules.adaptive {
        routeEpochs := routeEpochs[dest := tick / rules.epochTicks];
      }
    }

    /** Serves the memo when it is current, else rebuilds it at once. Either way the
        caller gets the table a cold engine would build. */
    method RouteTable(dest: nat) returns (t: seq<int>)
      requires Valid() && dest < |rules.net.lanes|
      modifies this`staticTabs, this`routeTabs, this`routeEpochs
      ensures Valid() && t == Served(rules.net, rules.adaptive, ttSnap, dest)
    {
      if dest in routeTabs {
        if !rules.adaptive || routeEpochs[dest] >= tick / rules.epochTicks {
          return routeTabs[dest];
        }
        t := Reroute(dest);
      } else if rules.adaptive {
        t := Reroute(dest);
      } else {
        var next, _ := ComputeRouteDijkstra(rules.net, FreeFlow(rules.net), dest);
        t := next[..];
      }
      Remember(dest, t);
    }

    /** Every lane's estimate decays one tick towards free flow. */
    method RelaxTravelTimes()
      requires rules.Valid() && |ttEMA| == |rules.net.lanes|
      modifies this`ttEMA
      ensures ttEMA == Decayed(rules, old(ttEMA))
    {
      ghost var before := ttEMA;
      for i := 0 to |rules.net.lanes|
        invariant |ttEMA| == |rules.net.lanes|
        invariant forall j | 0 <= j < i :: ttEMA[j] == Decayed(rules, before)[j]
        invariant forall j | i <= j < |rules.net.lanes| :: ttEMA[j] == before[j]
      {
        ttEMA := ttEMA[i := ttEMA[i] + (FreeFlowTime(rules.net.lanes[i]) - ttEMA[i]) / rules.relaxTicks];
      }
    }

    /** Stale tables are left in the memo; their stamps now lie in the past. */
    method BeginTick()
      requires Valid()
      modifies this`tick, this`ttEMA, this`ttSnap
      ensures Valid() && Recorded() == Begun(rules, old(Recorded()))
    {
      BegunSound(rules, Recorded());
      EpochStep(tick, rules.epochTicks);
      tick := tick + 1;
      if rules.adaptive {
        RelaxTravelTimes();
        if tick % rules.epochTicks == 0 {
          ttSnap := ttEMA;
        }
      }
    }

    method NoteLaneLeave(lane: nat, entryTick: nat)
      requires Valid() && lane < |rules.net.lanes| && entryTick <= tick
      modifies this`ttEMA
      ensures Valid() && Recorded() == Left(rules, old(Recorded()), lane, entryTick)
    {
      hide Served, StaticTable, Sound, FreeFlowTime;
      SoundLengths(rules, Recorded());
      LeftSound(rules, Recorded(), lane, entryTick);
      if !rules.adaptive {
        return;
      }
      var dwell := (tick - entryTick) as real * rules.dt;
      if rules.strandAfterS > 0.0 && dwell > rules.strandAfterS {
        dwell := rules.strandAfterS;
      }
      var ff := FreeFlowTime(rules.net.lanes[lane]);
      if dwell < ff {
        dwell := ff;
      }
      ttEMA := ttEMA[lane := ttEMA[lane] + (dwell - ttEMA[lane]) / 8.0];
    }

    method LaneById(id: string) returns (r: Option<nat>)
      ensures r == LaneOf(rules.net, id, |rules.net.lanes|)
    {
      r := None;
      for i := 0 to |rules.net.lanes|
        invariant r == LaneOf(rules.net, id, i)
      {
        if r.None? && rules.net.lanes[i].id == id {
          r := Some(i);
        }
      }
    }

    /** The successor to take towards a destination, or none when the destination is
        unknown, is this very lane, or cannot be reached from it. */
    method RouteNextHop(lane: nat, destId: string) returns (r: Option<nat>)
      requires Valid() && lane < |rules.net.lanes|
      modifies this`staticTabs, this`routeTabs, this`routeEpochs
      ensures Valid() && r == HopOf(rules, Recorded(), lane, destId)
    {
      hide Served, StaticTable, Reachable, IsTable;
      var dest := LaneById(destId);
      if dest.None? || dest.value == lane {
        return None;
      }
      var tab := RouteTable(dest.value);
      ServedHop(rules.net, rules.adaptive, ttSnap, dest.value, lane);
      var hop := tab[lane];
      if hop < 0 || hop == lane {
        return None;
      }
      var next: nat := hop;
      var listed := IsSuccessor(lane, next);
      r := if listed then Some(next) else None;
    }

    method IsSuccessor(lane: nat, hop: nat) returns (r: bool)
      requires lane < |rules.net.lanes|
      ensures r <==> Edge(rules.net, lane, hop)
    {
      var succ := rules.net.lanes[lane].successors;
      for k := 0 to |succ|
        invariant forall j | 0 <= j < k :: succ[j] != hop
      {
        if succ[k] == hop {
          return true;
        }
      }
      return false;
    }
  }

  // ---------------------------------------------------------------- lock-step

  /** What the rest of the engine asks of the routing state. */
  datatype Call =
    | Begin
    | Leave(lane: nat, entryTick: nat)
    | Ask(lane: nat, destId: string)

  ghost predicate Callable(rules: Rules, t: Times, call: Call) {
    match call
    case Begin => true
    case Leave(lane, entryTick) => lane < |rules.net.lanes| && entryTick <= t.tick
    case Ask(lane, _) => lane < |rules.net.lanes|
  }

  ghost function AfterCall(rules: Rules, t: Times, call: Call): (r: Times)
    requires Sound(rules, t) && Callable(rules, t, call)
    ensures Sound(rules, r)
  {
    match call
    case Begin => BegunSound(rules, t); Begun(rules, t)
    case Leave(lane, entryTick) => LeftSound(rules, t, lane, entryTick); Left(rules, t, lane, entryTick)
    case Ask(_, _) => t
  }

  ghost predicate AllCallable(rules: Rules, t: Times, calls: seq<Call>)
    requires Sound(rules, t)
    decreases |calls|
  {
    calls == [] || (Callable(rules, t, calls[0]) && AllCallable(rules, AfterCall(rules, t, calls[0]), calls[1..]))
  }

  ghost function AfterCalls(rules: Rules, t: Times, calls: seq<Call>): Times
    requires Sound(rules, t) && AllCallable(rules, t, calls)
    decreases |calls|
  {
    if calls == [] then t else AfterCalls(rules, AfterCall(rules, t, calls[0]), calls[1..])
  }

  /** The hops given along the way, one per question. */
  ghost function Hops(rules: Rules, t: Times, calls: seq<Call>): seq<Option<nat>>
    requires Sound(rules, t) && AllCallable(rules, t, calls)
    decreases |calls|
  {
    if calls == [] then []
    else
      var rest := Hops(rules, AfterCall(rules, t, calls[0]), calls[1..]);
      if calls[0].Ask? then [HopOf(rules, t, calls[0].lane, calls[0].destId)] + rest else rest
  }

  /** Whatever the engine has memoised, a run of calls goes as the recorded state alone has
      it: the same hops, the same state after them. */
  method Drive(e: RoutingEngine, calls: seq<Call>) returns (hops: seq<Option<nat>>)
    requires e.Valid() && AllCallable(e.rules, e.Recorded(), calls)
    modifies e
    ensures e.Valid() && e.Recorded() == AfterCalls(e.rules, old(e.Recorded()), calls)
    ensures hops == Hops(e.rules, old(e.Recorded()), calls)
  {
    hops := [];
    ghost var t0 := e.Recorded();
    for i := 0 to |calls|
      invariant e.Valid() && AllCallable(e.rules, e.Recorded(), calls[i..])
      invariant AfterCalls(e.rules, e.Recorded(), calls[i..]) == AfterCalls(e.rules, t0, calls)
      invariant hops + Hops(e.rules, e.Recorded(), calls[i..]) == Hops(e.rules, t0, calls)
    {
      assert calls[i..][0] == calls[i] && calls[i..][1..] == calls[i + 1..];
      match calls[i]
      case Begin => e.BeginTick();
      case Leave(lane, entryTick) => e.NoteLaneLeave(lane, entryTick);
      case Ask(lane, destId) =>
        var hop := e.RouteNextHop(lane, destId);
        hops := hops + [hop];
    }
  }

  /** A restore in the middle of an epoch, with every cache cold, stays invisible: under the
      same calls the restored engine gives the hops the uninterrupted one gives, tick after
      tick, whatever the latter had memoised. */
  method RestoreRunsInStep(live: RoutingEngine, calls: seq<Call>) returns (a: seq<Option<nat>>, b: seq<Option<nat>>)
    requires live.Valid() && AllCallable(live.rules, live.Recorded(), calls)
    modifies live
    ensures a == b == Hops(live.rules, old(live.Recorded()), calls)
  {
    var restored := new RoutingEngine.Restored(live.rules, live.Recorded());
    b := Drive(restored, calls);
    a := Drive(live, calls);
  }
}
