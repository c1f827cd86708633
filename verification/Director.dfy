/** Director spawn verbs: validation, the bounded injection queue, and what becomes of an
    accepted directive. */
module Director {
  import opened LaneGraph
  import opened SignalControl

  const SPAWN_HOLD_TICKS := 600
  const MAX_REQUEST_ID_BYTES := 65535

  datatype SpawnDirective = SpawnDirective(
    requestId: string, origin: string, typeName: string, earliestTick: nat, destination: string, offset: real)

  /** An accepted directive: resolved, and stamped with the tick at which it was accepted. */
  datatype TickedSpawn = TickedSpawn(tick: nat, typeIdx: nat, laneIdx: nat, directive: SpawnDirective)

  /** What a directive is resolved against. */
  datatype Site = Site(lanes: seq<Lane>, origins: seq<nat>, types: seq<string>) {
    predicate Valid() {
      forall k | 0 <= k < |origins| :: origins[k] < |lanes|
    }
  }

  datatype Refusal =
    | RequestIdTooLong
    | BadOffset
    | UnknownOrigin
    | OffsetPastEnd
    | NotAnOrigin
    | UnknownDestination
    | DestinationIsWall
    | UnknownType
    | DuplicateQueued
    | DuplicateBuffered

  datatype Verdict = Refused(why: Refusal) | Accepted(spawn: TickedSpawn)

  // ---------------------------------------------------------------- validation

  /** The first position at which an id occurs. */
  function FirstAt(ids: seq<string>, id: string): (r: Option<nat>)
    ensures r.Some? ==> r.value < |ids| && ids[r.value] == id && id !in ids[..r.value]
    ensures r.None? <==> id !in ids
  {
    if ids == [] then None
    else if ids[0] == id then Some(0)
    else
      var r := FirstAt(ids[1..], id);
      assert ids == [ids[0]] + ids[1..];
      if r.None? then None
      else
        assert ids[..r.value + 1] == [ids[0]] + ids[1..][..r.value];
        Some(r.value + 1)
  }

  function LaneIds(lanes: seq<Lane>): (ids: seq<string>)
    ensures |ids| == |lanes|
    ensures forall i | 0 <= i < |lanes| :: ids[i] == lanes[i].id
  {
    seq(|lanes|, i requires 0 <= i < |lanes| => lanes[i].id)
  }

  function OriginIds(site: Site): (ids: seq<string>)
    requires site.Valid()
    ensures |ids| == |site.origins|
    ensures forall k | 0 <= k < |ids| :: ids[k] == site.lanes[site.origins[k]].id
  {
    seq(|site.origins|, k requires 0 <= k < |site.origins| => site.lanes[site.origins[k]].id)
  }

  datatype Place = Nowhere(why: Refusal) | At(lane: nat)

  /** Where a directive injects: at a portal, or mid-lane when it gives an offset. */
  function PlaceOf(site: Site, d: SpawnDirective): (r: Place)
    requires site.Valid()
    ensures r.At? ==> r.lane < |site.lanes| && site.lanes[r.lane].id == d.origin
  {
    var lane := FirstAt(LaneIds(site.lanes), d.origin);
    if d.offset < 0.0 then Nowhere(BadOffset)
    else if d.offset > 0.0 then
      if lane.None? then Nowhere(UnknownOrigin)
      else if d.offset >= site.lanes[lane.value].length then Nowhere(OffsetPastEnd)
      else At(lane.value)
    else
      var origin := FirstAt(OriginIds(site), d.origin);
      if origin.Some? then At(site.origins[origin.value])
      else if lane.None? then Nowhere(UnknownOrigin)
      else Nowhere(NotAnOrigin)
  }

  predicate HasId(ds: seq<TickedSpawn>, requestId: string) {
    exists i | 0 <= i < |ds| :: ds[i].directive.requestId == requestId
  }

  /** Validation, in the order of the checks. */
  function Judge(site: Site, queue: seq<TickedSpawn>, buffer: seq<TickedSpawn>, d: SpawnDirective): (v: Verdict)
    requires site.Valid()
    ensures v.Accepted? ==> v.spawn.tick == 0 && v.spawn.directive == d && v.spawn.laneIdx < |site.lanes| && v.spawn.typeIdx < |site.types|
    ensures v.Accepted? ==> !HasId(queue + buffer, d.requestId)
  {
    if |d.requestId| > MAX_REQUEST_ID_BYTES then Refused(RequestIdTooLong)
    else
      var place := PlaceOf(site, d);
      if place.Nowhere? then Refused(place.why)
      else
        var dest := FirstAt(LaneIds(site.lanes), d.destination);
        if d.destination != "" && dest.None? then Refused(UnknownDestination)
        else if d.destination != "" && site.lanes[dest.value].endWall then Refused(DestinationIsWall)
        else
          var typ := FirstAt(site.types, d.typeName);
          if typ.None? then Refused(UnknownType)
          else if HasId(queue, d.requestId) then Refused(DuplicateQueued)
          else if HasId(buffer, d.requestId) then Refused(DuplicateBuffered)
          else Accepted(TickedSpawn(0, typ.value, place.lane, d))
  }

  // ---------------------------------------------------------------- one boundary

  /** How a directive left the queue. */
  datatype Departure = Departure(spawn: TickedSpawn, tick: nat, injected: bool)

  /** The queue midway through a boundary: the world so far, who keeps waiting, who left. */
  datatype Draining<W> = Draining(world: W, kept: seq<TickedSpawn>, left: seq<Departure>)

  function Stamped(ds: seq<TickedSpawn>, now: nat): (r: seq<TickedSpawn>)
    ensures |r| == |ds| && forall i | 0 <= i < |ds| :: r[i] == ds[i].(tick := now)
  {
    seq(|ds|, i requires 0 <= i < |ds| => ds[i].(tick := now))
  }

  predicate Expired(d: TickedSpawn, now: nat) {
    now > d.directive.earliestTick + SPAWN_HOLD_TICKS
  }

  function DrainOne<W>(attempt: (W, Table, nat, TickedSpawn) -> Option<W>, ov: Table, st: Draining<W>, d: TickedSpawn, now: nat): Draining<W> {
    if d.directive.earliestTick > now then st.(kept := st.kept + [d])
    else if Expired(d, now) then st.(left := st.left + [Departure(d, now, false)])
    else
      var w := attempt(st.world, ov, now, d);
      if w.None? then st.(kept := st.kept + [d])
      else st.(world := w.value, left := st.left + [Departure(d, now, true)])
  }

  /** The whole queue, each directive on its own merits. */
  function Drain<W>(attempt: (W, Table, nat, TickedSpawn) -> Option<W>, ov: Table, world: W, ds: seq<TickedSpawn>, now: nat): Draining<W> {
    if ds == [] then Draining(world, [], [])
    else DrainOne(attempt, ov, Drain(attempt, ov, world, ds[..|ds| - 1], now), ds[|ds| - 1], now)
  }

  function Spawns(gone: seq<Departure>): (ds: seq<TickedSpawn>)
    ensures |ds| == |gone| && forall i | 0 <= i < |gone| :: ds[i] == gone[i].spawn
  {
    seq(|gone|, i requires 0 <= i < |gone| => gone[i].spawn)
  }

  // ---------------------------------------------------------------- what a boundary does

  lemma DrainOneConserves<W>(attempt: (W, Table, nat, TickedSpawn) -> Option<W>, ov: Table, st: Draining<W>, d: TickedSpawn, now: nat)
    ensures var r := DrainOne(attempt, ov, st, d, now);
      multiset(r.kept) + multiset(Spawns(r.left)) == multiset(st.kept) + multiset(Spawns(st.left)) + multiset{d}
  {
    var r := DrainOne(attempt, ov, st, d, now);
    if r.left == st.left {
      assert r.kept == st.kept + [d];
    } else {
      assert r.kept == st.kept;
      assert Spawns(r.left) == Spawns(st.left) + [d];
    }
  }

  /** Nothing is lost or invented: the queue splits into those who stay and those who left. */
  lemma {:induction false} DrainConserves<W>(attempt: (W, Table, nat, TickedSpawn) -> Option<W>, ov: Table, world: W, ds: seq<TickedSpawn>, now: nat)
    ensures var st := Drain(attempt, ov, world, ds, now);
      multiset(ds) == multiset(st.kept) + multiset(Spawns(st.left))
  {
    if ds != [] {
      var n := |ds| - 1;
      DrainConserves(attempt, ov, world, ds[..n], now);
      var st := Drain(attempt, ov, world, ds[..n], now);
      var r := DrainOne(attempt, ov, st, ds[n], now);
      assert ds == ds[..n] + [ds[n]];
      DrainOneConserves(attempt, ov, st, ds[n], now);
    }
  }

  /** The order of those who stay is the order of the queue. */
  ghost predicate InOrder(kept: seq<TickedSpawn>, ds: seq<TickedSpawn>) {
    if kept == [] then true
    else if ds == [] then false
    else
      var k, n := |kept| - 1, |ds| - 1;
      (kept[k] == ds[n] && InOrder(kept[..k], ds[..n])) || InOrder(kept, ds[..n])
  }

  lemma {:induction false} DrainKeepsOrder<W>(attempt: (W, Table, nat, TickedSpawn) -> Option<W>, ov: Table, world: W, ds: seq<TickedSpawn>, now: nat)
    ensures InOrder(Drain(attempt, ov, world, ds, now).kept, ds)
  {
    if ds != [] {
      var n := |ds| - 1;
      DrainKeepsOrder(attempt, ov, world, ds[..n], now);
      var st := Drain(attempt, ov, world, ds[..n], now);
      assert (st.kept + [ds[n]])[..|st.kept|] == st.kept;
    }
  }

  ghost predicate DistinctIds(ds: seq<TickedSpawn>) {
    forall i, j | 0 <= i < j < |ds| :: ds[i].directive.requestId != ds[j].directive.requestId
  }

  lemma {:induction false} OrderKeepsDistinct(kept: seq<TickedSpawn>, ds: seq<TickedSpawn>)
    requires InOrder(kept, ds) && DistinctIds(ds)
    ensures DistinctIds(kept) && forall x | x in kept :: x in ds
    decreases |ds|
  {
    if kept != [] {
      var k, n := |kept| - 1, |ds| - 1;
      if kept[k] == ds[n] && InOrder(kept[..k], ds[..n]) {
        OrderKeepsDistinct(kept[..k], ds[..n]);
        forall i | 0 <= i < k ensures kept[i].directive.requestId != kept[k].directive.requestId {
          assert kept[..k][i] in ds[..n];
        }
      } else {
        OrderKeepsDistinct(kept, ds[..n]);
      }
      forall x | x in kept ensures x in ds {
        assert x == kept[k] || x in kept[..k];
        assert x == ds[n] || x in ds[..n];
      }
    }
  }

  /** The bounded wait, of 600 ticks past the earliest. A directive is queued only within its
      window; it was injected only within its window and not before it was accepted; and it
      expired at the first tick past its window - or on arrival, when it came too late. */
  predicate WaitsInTime(d: TickedSpawn, now: nat) {
    d.tick <= now <= d.directive.earliestTick + 600
  }

  predicate LeftInTime(g: Departure) {
    var e := g.spawn.directive.earliestTick;
    if g.injected then Max(g.spawn.tick, e) <= g.tick <= e + 600
    else g.tick == Max(g.spawn.tick, e + 601)
  }

  function Max(a: nat, b: nat): nat {
    if a < b then b else a
  }

  ghost predicate AllInTime<W>(st: Draining<W>, now: nat) {
    && (forall i | 0 <= i < |st.kept| :: WaitsInTime(st.kept[i], now))
    && (forall i | 0 <= i < |st.left| :: LeftInTime(st.left[i]))
  }

  lemma DrainOneInTime<W>(attempt: (W, Table, nat, TickedSpawn) -> Option<W>, ov: Table, st: Draining<W>, d: TickedSpawn, now: nat)
    requires now > 0 && AllInTime(st, now)
    requires d.tick == now || WaitsInTime(d, now - 1)
    ensures AllInTime(DrainOne(attempt, ov, st, d, now), now)
  {
    if d.directive.earliestTick > now {
      assert WaitsInTime(d, now);
    } else if Expired(d, now) {
      assert LeftInTime(Departure(d, now, false));
    } else {
      assert WaitsInTime(d, now) && LeftInTime(Departure(d, now, true));
    }
  }

  lemma {:induction false} DrainInTime<W>(attempt: (W, Table, nat, TickedSpawn) -> Option<W>, ov: Table, world: W, ds: seq<TickedSpawn>, now: nat)
    requires now > 0
    requires forall i | 0 <= i < |ds| :: ds[i].tick == now || WaitsInTime(ds[i], now - 1)
    ensures AllInTime(Drain(attempt, ov, world, ds, now), now)
  {
    if ds != [] {
      var n := |ds| - 1;
      DrainInTime(attempt, ov, world, ds[..n], now);
      DrainOneInTime(attempt, ov, Drain(attempt, ov, world, ds[..n], now), ds[n], now);
    }
  }

  // ---------------------------------------------------------------- the counters

  datatype Tally = Tally(
    injected: nat, expired: nat, deadOnArrival: nat, expiredByLane: map<string, nat>, firstExpire: nat, lastInject: nat)

  const NO_TALLY := Tally(0, 0, 0, map[], 0, 0)

  function CountOne(t: Tally, g: Departure): Tally {
    if g.injected then t.(injected := t.injected + 1, lastInject := g.tick)
    else
      var lane := g.spawn.directive.origin;
      t.(expired := t.expired + 1,
         expiredByLane := t.expiredByLane[lane := 1 + if lane in t.expiredByLane then t.expiredByLane[lane] else 0],
         firstExpire := if t.firstExpire == 0 then g.tick else t.firstExpire,
         deadOnArrival := t.deadOnArrival + if Expired(g.spawn, g.spawn.tick) then 1 else 0)
  }

  function CountAll(t: Tally, gone: seq<Departure>): Tally {
    if gone == [] then t else CountOne(CountAll(t, gone[..|gone| - 1]), gone[|gone| - 1])
  }

  lemma {:induction false} CountAllAppends(t: Tally, a: seq<Departure>, b: seq<Departure>)
    ensures CountAll(t, a + b) == CountAll(CountAll(t, a), b)
  {
    if b == [] {
      assert a + b == a;
    } else {
      var n := |b| - 1;
      CountAllAppends(t, a, b[..n]);
      assert (a + b)[..|a + b| - 1] == a + b[..n];
    }
  }

  /** The kinds of departure that are counted. */
  datatype Kind = Injected | Expiry | ExpiryFrom(lane: string) | DeadOnArrival

  /** Dead on arrival means: expired on the tick it was accepted, past its window already. */
  ghost predicate Of(g: Departure, kind: Kind) {
    match kind
    case Injected => g.injected
    case Expiry => !g.injected
    case ExpiryFrom(lane) => !g.injected && g.spawn.directive.origin == lane
    case DeadOnArrival => !g.injected && g.tick == g.spawn.tick > g.spawn.directive.earliestTick + 600
  }

  /** Which departures are of a kind. */
  ghost function Those(gone: seq<Departure>, kind: Kind): set<nat> {
    set i: nat | i < |gone| && Of(gone[i], kind)
  }

  lemma ThoseGrow(gone: seq<Departure>, kind: Kind)
    requires gone != []
    ensures var n := |gone| - 1;
      |Those(gone, kind)| == |Those(gone[..n], kind)| + if Of(gone[n], kind) then 1 else 0
  {
    hide Of;
    var n := |gone| - 1;
    assert Those(gone, kind) == Those(gone[..n], kind) + if Of(gone[n], kind) then {n} else {};
  }

  /** The counters count the departures: all of them, those injected, those expired and those
      dead on arrival. */
  lemma {:induction false} CountsEveryDeparture(gone: seq<Departure>)
    requires forall i | 0 <= i < |gone| :: LeftInTime(gone[i])
    ensures var t := CountAll(NO_TALLY, gone);
      && t.injected + t.expired == |gone|
      && t.injected == |Those(gone, Injected)|
      && t.expired == |Those(gone, Expiry)|
      && t.deadOnArrival == |Those(gone, DeadOnArrival)|
  {
    if gone != [] {
      CountsEveryDeparture(gone[..|gone| - 1]);
      ThoseGrow(gone, Injected);
      ThoseGrow(gone, Expiry);
      ThoseGrow(gone, DeadOnArrival);
    }
  }

  /** And those expired, lane by lane. */
  lemma {:induction false} CountsByLane(gone: seq<Departure>, lane: string)
    ensures var lanes := CountAll(NO_TALLY, gone).expiredByLane;
      |Those(gone, ExpiryFrom(lane))| == if lane in lanes then lanes[lane] else 0
  {
    if gone != [] {
      CountsByLane(gone[..|gone| - 1], lane);
      ThoseGrow(gone, ExpiryFrom(lane));
    }
  }

  /** The last injection and the first expiry are remembered. */
  lemma {:induction false} RemembersLastInjection(gone: seq<Departure>, k: nat)
    requires k < |gone| && gone[k].injected && forall i | k < i < |gone| :: !gone[i].injected
    ensures CountAll(NO_TALLY, gone).lastInject == gone[k].tick
  {
    if k < |gone| - 1 {
      RemembersLastInjection(gone[..|gone| - 1], k);
    }
  }

  lemma {:induction false} RemembersFirstExpiry(gone: seq<Departure>, k: nat)
    requires k <= |gone| && forall i | 0 <= i < k :: gone[i].injected
    requires k < |gone| ==> !gone[k].injected && gone[k].tick > 0
    ensures CountAll(NO_TALLY, gone).firstExpire == if k < |gone| then gone[k].tick else 0
  {
    if gone != [] {
      var n := |gone| - 1;
      RemembersFirstExpiry(gone[..n], if k < n then k else n);
    }
  }

  // ---------------------------------------------------------------- the queue itself

  /** What every run keeps of the queue at tick `now`. */
  ghost predicate QueueInv(queue: seq<TickedSpawn>, buffer: seq<TickedSpawn>, log: seq<TickedSpawn>, gone: seq<Departure>, now: nat) {
    && DistinctIds(queue + buffer)
    && multiset(log) == multiset(queue) + multiset(Spawns(gone))
    && (forall i | 0 <= i < |queue| :: WaitsInTime(queue[i], now))
    && (forall i | 0 <= i < |gone| :: LeftInTime(gone[i]))
  }

  lemma EnqueueKeepsInv(site: Site, queue: seq<TickedSpawn>, buffer: seq<TickedSpawn>, log: seq<TickedSpawn>, gone: seq<Departure>, now: nat, d: SpawnDirective)
    requires site.Valid() && QueueInv(queue, buffer, log, gone, now) && Judge(site, queue, buffer, d).Accepted?
    ensures QueueInv(queue, buffer + [Judge(site, queue, buffer, d).spawn], log, gone, now)
  {
    var all := queue + buffer;
    assert queue + (buffer + [Judge(site, queue, buffer, d).spawn]) == all + [Judge(site, queue, buffer, d).spawn];
    forall i | 0 <= i < |all| ensures all[i].directive.requestId != d.requestId {
      assert !HasId(all, d.requestId);
    }
  }

  lemma StampedDistinct(queue: seq<TickedSpawn>, buffer: seq<TickedSpawn>, now: nat)
    requires DistinctIds(queue + buffer)
    ensures DistinctIds(queue + Stamped(buffer, now))
  {
    var a, b := queue + buffer, queue + Stamped(buffer, now);
    assert forall i | 0 <= i < |b| :: b[i].directive == a[i].directive;
  }

  lemma LogSplits(log: seq<TickedSpawn>, queue: seq<TickedSpawn>, joined: seq<TickedSpawn>, gone: seq<Departure>, kept: seq<TickedSpawn>, left: seq<Departure>)
    requires multiset(log) == multiset(queue) + multiset(Spawns(gone))
    requires multiset(queue + joined) == multiset(kept) + multiset(Spawns(left))
    ensures multiset(log + joined) == multiset(kept) + multiset(Spawns(gone + left))
  {
    assert Spawns(gone + left) == Spawns(gone) + Spawns(left);
    forall x ensures multiset(log + joined)[x] == (multiset(kept) + multiset(Spawns(gone + left)))[x] {
      assert multiset(log + joined)[x] == multiset(log)[x] + multiset(joined)[x];
      assert multiset(queue + joined)[x] == multiset(queue)[x] + multiset(joined)[x];
    }
  }

  lemma WaitersInTime(queue: seq<TickedSpawn>, buffer: seq<TickedSpawn>, now: nat)
    requires now > 0 && forall i | 0 <= i < |queue| :: WaitsInTime(queue[i], now - 1)
    ensures var ds := queue + Stamped(buffer, now);
      forall i | 0 <= i < |ds| :: ds[i].tick == now || WaitsInTime(ds[i], now - 1)
  {
  }

  /** One boundary keeps it: accepted == injected + expired + waiting, no id is live twice,
      and every wait is bounded. */
  lemma BoundaryKeepsInv<W>(attempt: (W, Table, nat, TickedSpawn) -> Option<W>, ov: Table, world: W,
                            queue: seq<TickedSpawn>, buffer: seq<TickedSpawn>, log: seq<TickedSpawn>, gone: seq<Departure>, now: nat)
    requires now > 0 && QueueInv(queue, buffer, log, gone, now - 1)
    ensures var st := Drain(attempt, ov, world, queue + Stamped(buffer, now), now);
      QueueInv(st.kept, [], log + Stamped(buffer, now), gone + st.left, now)
  {
    var ds := queue + Stamped(buffer, now);
    var st := Drain(attempt, ov, world, ds, now);
    DrainConserves(attempt, ov, world, ds, now);
    DrainKeepsOrder(attempt, ov, world, ds, now);
    StampedDistinct(queue, buffer, now);
    OrderKeepsDistinct(st.kept, ds);
    WaitersInTime(queue, buffer, now);
    DrainInTime(attempt, ov, world, ds, now);
    assert st.kept + [] == st.kept;
    assert forall i | 0 <= i < |gone + st.left| :: LeftInTime((gone + st.left)[i]);
    LogSplits(log, queue, Stamped(buffer, now), gone, st.kept, st.left);
  }

  class DirectorQueue<W> {
    const site: Site
    var dirNew: seq<TickedSpawn>
    var dirQueue: seq<TickedSpawn>
    var appliedSpawns: seq<TickedSpawn>
    var spawnLog: seq<TickedSpawn>
    var tally: Tally
    ghost var gone: seq<Departure>

    ghost predicate Valid(now: nat)
      reads this
    {
      && site.Valid()
      && QueueInv(dirQueue, dirNew, spawnLog, gone, now)
      && tally == CountAll(NO_TALLY, gone)
    }

    constructor (site: Site)
      requires site.Valid()
      ensures Valid(0) && this.site == site
      ensures dirNew == [] && dirQueue == [] && spawnLog == [] && tally == NO_TALLY && gone == []
    {
      this.site := site;
      dirNew, dirQueue, appliedSpawns, spawnLog := [], [], [], [];
      tally, gone := NO_TALLY, [];
    }

    method Find(ids: seq<string>, id: string) returns (r: Option<nat>)
      ensures r == FirstAt(ids, id)
    {
      hide FirstAt;
      for i := 0 to |ids|
        invariant forall j | 0 <= j < i :: ids[j] != id
      {
        if ids[i] == id {
          return Some(i);
        }
      }
      return None;
    }

    method HasIdIn(ds: seq<TickedSpawn>, requestId: string) returns (found: bool)
      ensures found <==> HasId(ds, requestId)
    {
      for i := 0 to |ds|
        invariant forall j | 0 <= j < i :: ds[j].directive.requestId != requestId
      {
        if ds[i].directive.requestId == requestId {
          return true;
        }
      }
      return false;
    }

    /** Accepts or refuses one directive; a refused one leaves the run unaffected. */
    method EnqueueSpawn(d: SpawnDirective, ghost now: nat) returns (v: Verdict)
      requires Valid(now)
      modifies this`dirNew
      ensures Valid(now)
      ensures v == Judge(site, old(dirQueue), old(dirNew), d)
      ensures dirNew == if v.Accepted? then old(dirNew) + [v.spawn] else old(dirNew)
    {
      if |d.requestId| > MAX_REQUEST_ID_BYTES {
        return Refused(RequestIdTooLong);
      }
      var laneIds := LaneIds(site.lanes);
      var at := Find(laneIds, d.origin);
      var lane: nat;
      if d.offset < 0.0 {
        return Refused(BadOffset);
      } else if d.offset > 0.0 {
        if at.None? {
          return Refused(UnknownOrigin);
        }
        if d.offset >= site.lanes[at.value].length {
          return Refused(OffsetPastEnd);
        }
        lane := at.value;
      } else {
        var origin := Find(OriginIds(site), d.origin);
        if origin.None? {
          return Refused(if at.None? then UnknownOrigin else NotAnOrigin);
        }
        lane := site.origins[origin.value];
      }
      if d.destination != "" {
        var dest := Find(laneIds, d.destination);
        if dest.None? {
          return Refused(UnknownDestination);
        }
        if site.lanes[dest.value].endWall {
          return Refused(DestinationIsWall);
        }
      }
      var typ := Find(site.types, d.typeName);
      if typ.None? {
        return Refused(UnknownType);
      }
      var dup := HasIdIn(dirQueue, d.requestId);
      if dup {
        return Refused(DuplicateQueued);
      }
      dup := HasIdIn(dirNew, d.requestId);
      if dup {
        return Refused(DuplicateBuffered);
      }
      v := Accepted(TickedSpawn(0, typ.value, lane, d));
      EnqueueKeepsInv(site, dirQueue, dirNew, spawnLog, gone, now, d);
      dirNew := dirNew + [v.spawn];
    }

    /** The buffered directives join the queue, stamped with this tick. */
    method AcceptNew(now: nat)
      modifies this`dirNew, this`dirQueue, this`appliedSpawns, this`spawnLog
      ensures dirNew == [] && appliedSpawns == Stamped(old(dirNew), now)
      ensures dirQueue == old(dirQueue) + appliedSpawns && spawnLog == old(spawnLog) + appliedSpawns
    {
      appliedSpawns := [];
      for i := 0 to |dirNew|
        invariant dirNew == old(dirNew) && appliedSpawns == Stamped(dirNew, now)[..i]
        invariant dirQueue == old(dirQueue) + appliedSpawns && spawnLog == old(spawnLog) + appliedSpawns
      {
        var d := dirNew[i].(tick := now);
        dirQueue := dirQueue + [d];
        appliedSpawns := appliedSpawns + [d];
        spawnLog := spawnLog + [d];
      }
      dirNew := [];
    }

    /** Counts one directive dropped past its window. */
    method CountExpiry(d: TickedSpawn, now: nat)
      modifies this`tally
      ensures tally == CountOne(old(tally), Departure(d, now, false))
    {
      var lane := d.directive.origin;
      var n := if lane in tally.expiredByLane then tally.expiredByLane[lane] else 0;
      tally := tally.(expired := tally.expired + 1, expiredByLane := tally.expiredByLane[lane := n + 1]);
      if tally.firstExpire == 0 {
        tally := tally.(firstExpire := now);
      }
      if d.tick > d.directive.earliestTick + SPAWN_HOLD_TICKS {
        tally := tally.(deadOnArrival := tally.deadOnArrival + 1);
      }
    }

    /** One directive: kept, dropped past its window, or injected. */
    method TryOne(attempt: (W, Table, nat, TickedSpawn) -> Option<W>, ov: Table, world0: W, d: TickedSpawn, now: nat,
                  ghost kept: seq<TickedSpawn>, ghost left0: seq<Departure>, ghost tally0: Tally)
      returns (world: W, keep: bool, ghost left: seq<Departure>)
      requires tally == CountAll(tally0, left0)
      modifies this`tally
      ensures DrainOne(attempt, ov, Draining(world0, kept, left0), d, now)
              == Draining(world, if keep then kept + [d] else kept, left)
      ensures tally == CountAll(tally0, left)
    {
      world, keep, left := world0, true, left0;
      if d.directive.earliestTick > now {
        return;
      }
      if now > d.directive.earliestTick + SPAWN_HOLD_TICKS {
        CountExpiry(d, now);
        left := left0 + [Departure(d, now, false)];
        assert left[..|left0|] == left0;
        keep := false;
        return;
      }
      var w := attempt(world, ov, now, d);
      if w.None? {
        return;
      }
      world := w.value;
      tally := tally.(injected := tally.injected + 1, lastInject := now);
      left := left0 + [Departure(d, now, true)];
      assert left[..|left0|] == left0;
      keep := false;
    }

    /** The whole queue, each directive tried once. */
    method DrainQueue(attempt: (W, Table, nat, TickedSpawn) -> Option<W>, ov: Table, world0: W, now: nat)
      returns (world: W, ghost left: seq<Departure>)
      requires tally == CountAll(NO_TALLY, gone)
      modifies this`tally, this`dirQueue, this`gone
      ensures Draining(world, dirQueue, left) == Drain(attempt, ov, world0, old(dirQueue), now)
      ensures tally == CountAll(old(tally), left) == CountAll(NO_TALLY, gone) && gone == old(gone) + left
    {
      hide DrainOne, CountOne;
      world, left := world0, [];
      ghost var ds := dirQueue;
      var kept: seq<TickedSpawn> := [];
      for i := 0 to |dirQueue|
        invariant dirQueue == ds && gone == old(gone)
        invariant Draining(world, kept, left) == Drain(attempt, ov, world0, ds[..i], now)
        invariant tally == CountAll(old(tally), left)
      {
        var d := dirQueue[i];
        assert ds[..i + 1][..i] == ds[..i];
        var keep;
        world, keep, left := TryOne(attempt, ov, world, d, now, kept, left, old(tally));
        if keep {
          kept := kept + [d];
        }
      }
      assert ds[..|ds|] == ds;
      dirQueue := kept;
      CountAllAppends(NO_TALLY, gone, left);
      gone := gone + left;
    }

    /** One tick boundary: stamp and queue what was buffered, then try each directive. */
    method StepDirectorSpawns(attempt: (W, Table, nat, TickedSpawn) -> Option<W>, ov: Table, world0: W, now: nat) returns (world: W)
      requires now > 0 && Valid(now - 1)
      modifies this
      ensures Valid(now)
      ensures var st := Drain(attempt, ov, world0, old(dirQueue) + Stamped(old(dirNew), now), now);
        && world == st.world
        && dirQueue == st.kept
        && gone == old(gone) + st.left
        && tally == CountAll(old(tally), st.left)
      ensures dirNew == [] && appliedSpawns == Stamped(old(dirNew), now) && spawnLog == old(spawnLog) + appliedSpawns
    {
      hide QueueInv;
      BoundaryKeepsInv(attempt, ov, world0, dirQueue, dirNew, spawnLog, gone, now);
      AcceptNew(now);
      ghost var left;
      world, left := DrainQueue(attempt, ov, world0, now);
    }
  }
}
