/** Where a tick is booked: what each vehicle-tick puts on each single lane, stated in metres,
    seconds and lengths only. */
module MetricLanes {
  import opened LaneGraph
  import opened MetricSets
  import opened MetricChains
  import opened MetricTicks
  import opened MetricLedger

  function Pos(x: real): (r: real)
    ensures r >= 0.0 && r >= x
  {
    if x > 0.0 then x else 0.0
  }

  // ---------------------------------------------------------------- bookings by lane

  lemma {:induction false} OnLaneAppends(a: seq<Booking>, b: seq<Booking>, l: nat)
    ensures OnLane(a + b, l) == Plus(OnLane(a, l), OnLane(b, l))
  {
    hide Plus;
    if b == [] {
      assert a + b == a;
      PlusAssociates(OnLane(a, l), ZERO, ZERO);
    } else {
      var n := |b| - 1;
      OnLaneAppends(a, b[..n], l);
      assert (a + b)[..|a + b| - 1] == a + b[..n];
      PlusAssociates(OnLane(a, l), OnLane(b[..n], l), b[n].a);
    }
  }

  /** Bookings of one lane put their sum there and nothing elsewhere. */
  lemma {:induction false} AllOfOneLane(bs: seq<Booking>, lane: nat, l: nat)
    requires forall i | 0 <= i < |bs| :: bs[i].lane == lane
    ensures OnLane(bs, l) == if l == lane then Sum(bs) else ZERO
  {
    if bs != [] {
      AllOfOneLane(bs[..|bs| - 1], lane, l);
    }
  }

  ghost predicate Apart(shares: seq<Share>) {
    forall i, j | 0 <= i < j < |shares| :: shares[i].lane != shares[j].lane
  }

  function Part(net: Network, vt: VType, f: real, shares: seq<Share>, totalT: real, i: nat): Amount
    requires OnNet(net, shares) && i < |shares|
  {
    Amount(shares[i].d, Portion(shares, totalT, i), Portion(shares, totalT, i) * vt.length,
           Portion(shares, TickLoss(net, vt, f, shares, totalT), i), 0)
  }

  lemma ShareOnLane(net: Network, vt: VType, f: real, shares: seq<Share>, totalT: real, i: nat, l: nat)
    requires OnNet(net, shares) && i < |shares|
    ensures OnLane(ShareBookings(net, vt, f, shares, totalT, i), l)
      == if l == shares[i].lane then Part(net, vt, f, shares, totalT, i) else ZERO
  {
    hide Portion, TickLoss, Sum, OnLane;
    AllOfOneLane(ShareBookings(net, vt, f, shares, totalT, i), shares[i].lane, l);
  }

  lemma {:induction false} AccountOff(net: Network, vt: VType, f: real, shares: seq<Share>, totalT: real, k: nat, l: nat)
    requires OnNet(net, shares) && k <= |shares| && forall i | 0 <= i < k :: shares[i].lane != l
    ensures OnLane(AccountShares(net, vt, f, shares, totalT, k), l) == ZERO
  {
    hide ShareBookings, OnLane;
    if k == 0 {
      NoneOnLane(l);
    } else {
      AccountOff(net, vt, f, shares, totalT, k - 1, l);
      ShareOnLane(net, vt, f, shares, totalT, k - 1, l);
      OnLaneAppends(AccountShares(net, vt, f, shares, totalT, k - 1), ShareBookings(net, vt, f, shares, totalT, k - 1), l);
    }
  }

  lemma OneBooking(b: Booking, l: nat)
    ensures OnLane([b], l) == if l == b.lane then b.a else ZERO
  {
    assert [b][..0] == [];
    ZeroFirst(b.a);
  }

  lemma NoneOnLane(l: nat)
    ensures OnLane([], l) == ZERO
  {
  }

  lemma {:induction false} AccountOn(net: Network, vt: VType, f: real, shares: seq<Share>, totalT: real, k: nat, i: nat)
    requires OnNet(net, shares) && i < k <= |shares| && Apart(shares)
    ensures OnLane(AccountShares(net, vt, f, shares, totalT, k), shares[i].lane) == Part(net, vt, f, shares, totalT, i)
  {
    hide ShareBookings, OnLane, Part;
    var l := shares[i].lane;
    if i == k - 1 {
      AccountOff(net, vt, f, shares, totalT, k - 1, l);
    } else {
      AccountOn(net, vt, f, shares, totalT, k - 1, i);
    }
    ShareOnLane(net, vt, f, shares, totalT, k - 1, l);
    OnLaneAppends(AccountShares(net, vt, f, shares, totalT, k - 1), ShareBookings(net, vt, f, shares, totalT, k - 1), l);
    PlusAssociates(Part(net, vt, f, shares, totalT, i), ZERO, ZERO);
    ZeroFirst(Part(net, vt, f, shares, totalT, i));
  }

  lemma ZeroFirst(a: Amount)
    ensures Plus(ZERO, a) == a
  {
  }

  // ---------------------------------------------------------------- sharing out

  /** Two shares are to each other as what is positive of two distances. */
  predicate Proportional(x: real, dx: real, y: real, dy: real) {
    x * Pos(dy) == y * Pos(dx)
  }

  /** A time and a loss shared out over distances: in proportion to what of them is positive,
      or all to the last one when nothing is. Presence is the time times the vehicle length. */
  ghost predicate SharedOut(parts: seq<Amount>, ds: seq<real>, time: real, loss: real, length: real) {
    && |parts| == |ds| > 0
    && (forall i | 0 <= i < |ds| :: parts[i] == Amount(ds[i], parts[i].time, parts[i].time * length, parts[i].loss, 0))
    && (forall i, j | 0 <= i < |ds| && 0 <= j < |ds| :: Proportional(parts[i].time, ds[i], parts[j].time, ds[j]))
    && (forall i, j | 0 <= i < |ds| && 0 <= j < |ds| :: Proportional(parts[i].loss, ds[i], parts[j].loss, ds[j]))
    && ((forall i | 0 <= i < |ds| :: ds[i] <= 0.0) ==> forall i | 0 <= i < |ds| - 1 :: parts[i].time == parts[i].loss == 0.0)
    && SumAmounts(parts).time == time && SumAmounts(parts).loss == loss
  }

  lemma FractionsSwap(whole: real, a: real, b: real, D: real)
    requires D > 0.0
    ensures Fraction(whole, a, D) * b == Fraction(whole, b, D) * a
  {
    var q := whole / D;
    assert whole == q * D;
    assert whole * a == q * a * D && whole * b == q * b * D;
    Cancels(q * a, D);
    Cancels(q * b, D);
  }

  lemma {:induction false} PositiveCovers(shares: seq<Share>, i: nat)
    requires i < |shares|
    ensures Positive(shares) >= Clamped(shares[i].d)
  {
    if i < |shares| - 1 {
      PositiveCovers(shares[..|shares| - 1], i);
    }
  }

  lemma {:induction false} NonePositive(shares: seq<Share>)
    requires forall i | 0 <= i < |shares| :: shares[i].d <= 0.0
    ensures Positive(shares) == 0.0
  {
    if shares != [] {
      NonePositive(shares[..|shares| - 1]);
    }
  }

  lemma PortionsInProportion(shares: seq<Share>, whole: real, i: nat, j: nat)
    requires i < |shares| && j < |shares|
    ensures Portion(shares, whole, i) * Pos(shares[j].d) == Portion(shares, whole, j) * Pos(shares[i].d)
  {
    hide Positive, Portion, Fraction;
    PositiveCovers(shares, i);
    PositiveCovers(shares, j);
    if Positive(shares) > 0.0 {
      PortionIsFraction(shares, whole, i);
      PortionIsFraction(shares, whole, j);
      FractionsSwap(whole, Pos(shares[i].d), Pos(shares[j].d), Positive(shares));
    } else {
      assert Pos(shares[i].d) == 0.0 && Pos(shares[j].d) == 0.0;
    }
  }

  function Parts(net: Network, vt: VType, f: real, shares: seq<Share>, totalT: real): (r: seq<Amount>)
    requires OnNet(net, shares)
    ensures |r| == |shares| && forall i | 0 <= i < |r| :: r[i] == Part(net, vt, f, shares, totalT, i)
  {
    seq(|shares|, i requires 0 <= i < |shares| => Part(net, vt, f, shares, totalT, i))
  }

  lemma {:induction false} PartsAddUp(net: Network, vt: VType, f: real, shares: seq<Share>, totalT: real, k: nat)
    requires OnNet(net, shares) && k <= |shares|
    ensures SumAmounts(Parts(net, vt, f, shares, totalT)[..k]).time == Portions(shares, totalT, k)
    ensures SumAmounts(Parts(net, vt, f, shares, totalT)[..k]).loss == Portions(shares, TickLoss(net, vt, f, shares, totalT), k)
  {
    hide Portion, TickLoss, Parts;
    if k > 0 {
      PartsAddUp(net, vt, f, shares, totalT, k - 1);
      assert Parts(net, vt, f, shares, totalT)[..k][..k - 1] == Parts(net, vt, f, shares, totalT)[..k - 1];
    }
  }

  function Ds(shares: seq<Share>): (r: seq<real>)
    ensures |r| == |shares| && forall i | 0 <= i < |r| :: r[i] == shares[i].d
  {
    seq(|shares|, i requires 0 <= i < |shares| => shares[i].d)
  }

  lemma PartsInProportion(net: Network, vt: VType, f: real, shares: seq<Share>, totalT: real, i: nat, j: nat)
    requires OnNet(net, shares) && i < |shares| && j < |shares|
    ensures var parts := Parts(net, vt, f, shares, totalT);
      && Proportional(parts[i].time, shares[i].d, parts[j].time, shares[j].d)
      && Proportional(parts[i].loss, shares[i].d, parts[j].loss, shares[j].d)
  {
    hide Portion, TickLoss, Parts, Pos;
    PortionsInProportion(shares, totalT, i, j);
    PortionsInProportion(shares, TickLoss(net, vt, f, shares, totalT), i, j);
  }

  lemma PartsStill(net: Network, vt: VType, f: real, shares: seq<Share>, totalT: real, i: nat)
    requires OnNet(net, shares) && i < |shares| - 1 && forall j | 0 <= j < |shares| :: shares[j].d <= 0.0
    ensures Parts(net, vt, f, shares, totalT)[i].time == Parts(net, vt, f, shares, totalT)[i].loss == 0.0
  {
    hide Portion, TickLoss, Parts, Positive;
    NonePositive(shares);
    StillPortion(shares, totalT, i);
    StillPortion(shares, TickLoss(net, vt, f, shares, totalT), i);
  }

  lemma PartsTotal(net: Network, vt: VType, f: real, shares: seq<Share>, totalT: real)
    requires OnNet(net, shares) && shares != []
    ensures SumAmounts(Parts(net, vt, f, shares, totalT)).time == totalT
    ensures SumAmounts(Parts(net, vt, f, shares, totalT)).loss == TickLoss(net, vt, f, shares, totalT)
  {
    hide Portions, TickLoss, Parts, SumAmounts;
    PartsAddUp(net, vt, f, shares, totalT, |shares|);
    assert Parts(net, vt, f, shares, totalT)[..|shares|] == Parts(net, vt, f, shares, totalT);
    PortionsMakeWhole(shares, totalT);
    PortionsMakeWhole(shares, TickLoss(net, vt, f, shares, totalT));
  }

  lemma PartsShareOut(net: Network, vt: VType, f: real, shares: seq<Share>, totalT: real)
    requires OnNet(net, shares) && shares != []
    ensures SharedOut(Parts(net, vt, f, shares, totalT), Ds(shares), totalT, TickLoss(net, vt, f, shares, totalT), vt.length)
  {
    hide Portion, TickLoss, Parts, SumAmounts, Ds, Pos, Proportional;
    var parts, ds := Parts(net, vt, f, shares, totalT), Ds(shares);
    forall i, j | 0 <= i < |ds| && 0 <= j < |ds|
      ensures Proportional(parts[i].time, ds[i], parts[j].time, ds[j]) && Proportional(parts[i].loss, ds[i], parts[j].loss, ds[j])
    {
      PartsInProportion(net, vt, f, shares, totalT, i, j);
    }
    if forall i | 0 <= i < |ds| :: ds[i] <= 0.0 {
      forall j | 0 <= j < |shares| ensures shares[j].d <= 0.0 {
        assert ds[j] <= 0.0;
      }
      forall i | 0 <= i < |ds| - 1 ensures parts[i].time == parts[i].loss == 0.0 {
        PartsStill(net, vt, f, shares, totalT, i);
      }
    }
    PartsTotal(net, vt, f, shares, totalT);
  }

  lemma StillPortion(shares: seq<Share>, whole: real, i: nat)
    requires i < |shares| - 1 && Positive(shares) == 0.0
    ensures Portion(shares, whole, i) == 0.0
  {
  }

  // ---------------------------------------------------------------- lanes and metres

  /** Desired speed on a lane: the driver's factor times the lower of limit and type speed. */
  function Desired(net: Network, vt: VType, f: real, l: nat): real
    requires l < |net.lanes|
  {
    if vt.v0 <= net.lanes[l].speedLimit then f * vt.v0 else f * net.lanes[l].speedLimit
  }

  /** Seconds the first k distances take at desired speed. */
  function Undelayed(net: Network, vt: VType, f: real, ls: seq<nat>, ds: seq<real>, k: nat): real
    requires k <= |ls| == |ds| && forall i | 0 <= i < |ls| :: ls[i] < |net.lanes|
  {
    if k == 0 then 0.0
    else
      var v0 := Desired(net, vt, f, ls[k - 1]);
      Undelayed(net, vt, f, ls, ds, k - 1) + if ds[k - 1] > 0.0 && v0 != 0.0 then ds[k - 1] / v0 else 0.0
  }

  /** The first of some distances that has to be driven at desired speed zero. */
  ghost predicate Stuck(net: Network, vt: VType, f: real, ls: seq<nat>, ds: seq<real>, k: nat)
    requires k <= |ls| == |ds| && forall i | 0 <= i < |ls| :: ls[i] < |net.lanes|
  {
    exists i | 0 <= i < k :: ds[i] > 0.0 && Desired(net, vt, f, ls[i]) == 0.0
  }

  /** Time lost: what the distances took beyond desired speed, never less than nothing. */
  ghost function LossOver(net: Network, vt: VType, f: real, ls: seq<nat>, ds: seq<real>, time: real): real
    requires |ls| == |ds| && forall i | 0 <= i < |ls| :: ls[i] < |net.lanes|
  {
    if Stuck(net, vt, f, ls, ds, |ls|) then 0.0 else Pos(time - Undelayed(net, vt, f, ls, ds, |ls|))
  }

  ghost predicate Matched(shares: seq<Share>, ls: seq<nat>, ds: seq<real>) {
    |shares| == |ls| == |ds| && forall i | 0 <= i < |shares| :: shares[i] == Share(ls[i], ds[i])
  }

  lemma StuckGrows(net: Network, vt: VType, f: real, ls: seq<nat>, ds: seq<real>, k: nat)
    requires 0 < k <= |ls| == |ds| && forall i | 0 <= i < |ls| :: ls[i] < |net.lanes|
    ensures Stuck(net, vt, f, ls, ds, k)
      <==> Stuck(net, vt, f, ls, ds, k - 1) || (ds[k - 1] > 0.0 && Desired(net, vt, f, ls[k - 1]) == 0.0)
  {
    hide Desired;
  }

  lemma {:induction false} FreeTimeIs(net: Network, vt: VType, f: real, shares: seq<Share>, ls: seq<nat>, ds: seq<real>, k: nat)
    requires OnNet(net, shares) && Matched(shares, ls, ds) && k <= |shares|
    requires forall i | 0 <= i < |ls| :: ls[i] < |net.lanes|
    ensures FreeTime(net, vt, f, shares[..k])
      == if Stuck(net, vt, f, ls, ds, k) then None else Some(Undelayed(net, vt, f, ls, ds, k))
  {
    hide Stuck, Desired;
    if k == 0 {
      NotStuck(net, vt, f, ls, ds);
    } else {
      FreeTimeIs(net, vt, f, shares, ls, ds, k - 1);
      StuckGrows(net, vt, f, ls, ds, k);
      SpeedIs(net, vt, f, ls[k - 1]);
      assert shares[..k][..k - 1] == shares[..k - 1];
    }
  }

  lemma NotStuck(net: Network, vt: VType, f: real, ls: seq<nat>, ds: seq<real>)
    requires |ls| == |ds| && forall i | 0 <= i < |ls| :: ls[i] < |net.lanes|
    ensures !Stuck(net, vt, f, ls, ds, 0)
  {
  }

  lemma SpeedIs(net: Network, vt: VType, f: real, l: nat)
    requires l < |net.lanes|
    ensures V0Eff(net, vt, f, l) == Desired(net, vt, f, l)
  {
  }

  lemma LossIs(net: Network, vt: VType, f: real, shares: seq<Share>, ls: seq<nat>, ds: seq<real>, time: real)
    requires OnNet(net, shares) && Matched(shares, ls, ds)
    requires forall i | 0 <= i < |ls| :: ls[i] < |net.lanes|
    ensures TickLoss(net, vt, f, shares, time) == LossOver(net, vt, f, ls, ds, time)
  {
    hide FreeTime, Stuck, Undelayed;
    FreeTimeIs(net, vt, f, shares, ls, ds, |shares|);
    assert shares[..|shares|] == shares;
  }

  /** A time driven over some lanes: each is booked its metres, and time and loss are shared
      out over them; no other lane is booked anything. */
  ghost predicate DrivenOver(
    net: Network, bs: seq<Booking>, vt: VType, f: real, ls: seq<nat>, ds: seq<real>, time: real)
    requires forall i | 0 <= i < |ls| :: ls[i] < |net.lanes|
  {
    && |ls| == |ds|
    && SharedOut(seq(|ls|, i requires 0 <= i < |ls| => OnLane(bs, ls[i])), ds, time, LossOver(net, vt, f, ls, ds, time), vt.length)
    && forall l: nat | l !in ls :: OnLane(bs, l) == ZERO
  }

  lemma AccountDrives(net: Network, vt: VType, f: real, shares: seq<Share>, ls: seq<nat>, ds: seq<real>, time: real)
    requires OnNet(net, shares) && shares != [] && Matched(shares, ls, ds)
    requires forall i, j | 0 <= i < j < |ls| :: ls[i] != ls[j]
    ensures forall i | 0 <= i < |ls| :: ls[i] < |net.lanes|
    ensures DrivenOver(net, AccountShares(net, vt, f, shares, time, |shares|), vt, f, ls, ds, time)
    ensures forall i | 0 <= i < |ls| ::
      OnLane(AccountShares(net, vt, f, shares, time, |shares|), ls[i]) == Parts(net, vt, f, shares, time)[i]
  {
    hide AccountShares, OnLane, SharedOut, LossOver, Part, Parts, Ds, TickLoss;
    forall i | 0 <= i < |ls| ensures ls[i] < |net.lanes| {
      assert shares[i].lane < |net.lanes|;
    }
    var bs, parts := AccountShares(net, vt, f, shares, time, |shares|), Parts(net, vt, f, shares, time);
    forall i | 0 <= i < |ls| ensures OnLane(bs, ls[i]) == parts[i] {
      AccountOn(net, vt, f, shares, time, |shares|, i);
    }
    forall l: nat | l !in ls ensures OnLane(bs, l) == ZERO {
      forall i | 0 <= i < |shares| ensures shares[i].lane != l {
        assert ls[i] in ls;
      }
      AccountOff(net, vt, f, shares, time, |shares|, l);
    }
    PartsShareOut(net, vt, f, shares, time);
    LossIs(net, vt, f, shares, ls, ds, time);
    assert Ds(shares) == ds;
    assert seq(|ls|, i requires 0 <= i < |ls| => OnLane(bs, ls[i])) == parts;
  }

  // ---------------------------------------------------------------- ticks on one lane

  /** A whole tick on one lane. */
  ghost function Alone(net: Network, v: Vehicle, l: nat, d: real, dt: real): Amount
    requires l < |net.lanes|
  {
    var v0 := Desired(net, v.vt, v.f, l);
    Amount(d, dt, dt * v.vt.length, if v0 == 0.0 then 0.0 else Pos(dt - d / v0), 0)
  }

  ghost predicate AllOn(bs: seq<Booking>, lane: nat, a: Amount) {
    forall l: nat :: OnLane(bs, l) == if l == lane then a else ZERO
  }

  lemma OneLaneIsAlone(net: Network, v: Vehicle, l: nat, d: real, dt: real, dropped: nat)
    requires l < |net.lanes|
    ensures AllOn(OneLane(net, v, l, d, dt, dropped).bookings, l, Alone(net, v, l, d, dt))
  {
    hide OnLane, Sum;
    var bs := OneLane(net, v, l, d, dt, dropped).bookings;
    SumOfThree(bs[0], bs[1], bs[2]);
    forall k: nat ensures OnLane(bs, k) == if k == l then Alone(net, v, l, d, dt) else ZERO {
      AllOfOneLane(bs, l, k);
    }
  }

  /** A vehicle that stays on its lane is booked there for what it moved, or for the way round
      on a lane that leads into itself. */
  lemma StayIsThere(net: Network, c: Config, last: map<nat, LastObs>, fr: Frame, v: Vehicle)
    requires net.Valid() && LastValid(net, last) && v.lane < |net.lanes| && v.id in last && last[v.id].lane == v.lane
    ensures var prev := last[v.id];
      AllOn(VehicleTick(net, c, last, fr, v).bookings, v.lane,
            Alone(net, v, v.lane, if v.s >= prev.s then v.s - prev.s else Pos(net.lanes[v.lane].length - prev.s + v.s), c.dt))
  {
    hide AllOn, OneLane, Alone;
    var d := v.s - last[v.id].s;
    OneLaneIsAlone(net, v, v.lane, if d < 0.0 then Clamped(net.lanes[v.lane].length - last[v.id].s + v.s) else d, c.dt, 0);
  }

  /** A lateral hop is booked on the lane left and on no other: not on the one hopped to. */
  lemma HopIsOnLaneLeft(net: Network, c: Config, last: map<nat, LastObs>, fr: Frame, v: Vehicle)
    requires net.Valid() && LastValid(net, last) && v.lane < |net.lanes| && v.id in last && last[v.id].lane != v.lane
    requires var from := net.lanes[last[v.id].lane]; from.left == Some(v.lane) || from.right == Some(v.lane)
    ensures var prev := last[v.id];
      AllOn(VehicleTick(net, c, last, fr, v).bookings, prev.lane, Alone(net, v, prev.lane, Pos(v.s - prev.s), c.dt))
  {
    hide AllOn, OneLane, Alone;
    OneLaneIsAlone(net, v, last[v.id].lane, Clamped(v.s - last[v.id].s), c.dt, 0);
  }

  /** A vehicle first seen is booked on its lane from the point where it entered, or from its
      start; off an origin lane, and not entered mid-lane, it counts as a dropped crossing. */
  lemma FirstIsFromEntry(net: Network, c: Config, last: map<nat, LastObs>, fr: Frame, v: Vehicle)
    requires net.Valid() && LastValid(net, last) && v.lane < |net.lanes| && v.id !in last
    ensures var k := VehicleTick(net, c, last, fr, v);
      && AllOn(k.bookings, v.lane, Alone(net, v, v.lane, Pos(v.s - if v.id in fr.entries then fr.entries[v.id] else 0.0), c.dt))
      && k.dropped == if v.id !in fr.entries && v.lane !in fr.origins then 1 else 0
  {
    hide AllOn, Alone;
    var entry := if v.id in fr.entries then fr.entries[v.id] else 0.0;
    OneLaneIsAlone(net, v, v.lane, Clamped(v.s - entry), c.dt, if v.id !in fr.entries && v.lane !in fr.origins then 1 else 0);
  }

  /** A stop is booked once, on the lane of the first tick below 0.1 m/s. */
  lemma StopIsBookedOnce(last: map<nat, LastObs>, v: Vehicle, l: nat)
    ensures OnLane(StopBookings(last, v), l)
      == Amount(0.0, 0.0, 0.0, 0.0, if l == v.lane && v.v < 0.1 && !(v.id in last && last[v.id].stopped) then 1 else 0)
  {
    hide OnLane, Sum;
    if Starts(last, v) {
      OneBooking(StopStart(v.lane), l);
    } else {
      NoneOnLane(l);
    }
  }

  // ---------------------------------------------------------------- ticks over several lanes

  /** The lanes driven between two observations: the chain found, or, when there is none, the
      two lanes seen. */
  ghost predicate Way(net: Network, from: nat, to: nat, chain: seq<nat>)
    requires net.Valid() && from < |net.lanes|
  {
    match CrossedChain(net, from, to)
    case Disjoint => chain == [from, to]
    case Crossed(c, _) => chain == c
  }

  lemma WayFacts(net: Network, prev: LastObs, v: Vehicle, chain: seq<nat>)
    requires net.Valid() && prev.lane < |net.lanes| && v.lane < |net.lanes| && prev.lane != v.lane && Way(net, prev.lane, v.lane, chain)
    ensures |chain| >= 2 && chain[0] == prev.lane && Driven(net, prev, v).0 == chain
    ensures forall i | 0 <= i < |chain| :: chain[i] < |net.lanes|
    ensures forall i, j | 0 <= i < j < |chain| :: chain[i] != chain[j]
  {
    hide CrossedChain;
    CrossedIsChain(net, prev.lane, v.lane);
  }

  /** Metres of a crossing: the rest of the lane left, the lanes between in full, and the
      position reached on the last. */
  function Metres(net: Network, first: real, chain: seq<nat>, s: real): (r: seq<real>)
    requires |chain| >= 2 && forall i | 0 <= i < |chain| :: chain[i] < |net.lanes|
    ensures |r| == |chain| && r[0] == first && r[|chain| - 1] == Pos(s)
    ensures forall i | 0 < i < |chain| - 1 :: r[i] == net.lanes[chain[i]].length
  {
    seq(|chain|, i requires 0 <= i < |chain| =>
      if i == 0 then first else if i == |chain| - 1 then Pos(s) else net.lanes[chain[i]].length)
  }

  lemma CrossShares(net: Network, prev: LastObs, v: Vehicle, chain: seq<nat>) returns (shares: seq<Share>)
    requires net.Valid() && prev.lane < |net.lanes| && v.lane < |net.lanes| && prev.lane != v.lane && Way(net, prev.lane, v.lane, chain)
    ensures |chain| >= 2 && chain[0] == prev.lane && chain[|chain| - 1] != prev.lane && forall i | 0 <= i < |chain| :: chain[i] < |net.lanes|
    ensures forall i, j | 0 <= i < j < |chain| :: chain[i] != chain[j]
    ensures OnNet(net, shares) && Matched(shares, chain, Metres(net, net.lanes[prev.lane].length - prev.s, chain, v.s))
    ensures Driven(net, prev, v).0 == chain
    ensures shares == [Share(prev.lane, net.lanes[prev.lane].length - prev.s)] + Lengths(net, chain[1..|chain| - 1])
                      + [Share(chain[|chain| - 1], Clamped(v.s))]
  {
    hide Driven, Way;
    WayFacts(net, prev, v, chain);
    var n := |chain| - 1;
    shares := [Share(prev.lane, net.lanes[prev.lane].length - prev.s)] + Lengths(net, chain[1..n]) + [Share(chain[n], Clamped(v.s))];
    var ds := Metres(net, net.lanes[prev.lane].length - prev.s, chain, v.s);
    forall i | 0 <= i < |shares| ensures shares[i] == Share(chain[i], ds[i]) {
      if 0 < i < n {
        assert Lengths(net, chain[1..n])[i - 1] == Share(chain[1..n][i - 1], net.lanes[chain[1..n][i - 1]].length);
      }
    }
  }

  lemma WithinCrosses(net: Network, c: Config, last: map<nat, LastObs>, fr: Frame, v: Vehicle)
    requires net.Valid() && LastValid(net, last) && v.lane < |net.lanes| && v.id in last && last[v.id].lane != v.lane
    requires var from := net.lanes[last[v.id].lane];
      from.left != Some(v.lane) && from.right != Some(v.lane) && last[v.id].s <= from.length
    ensures VehicleTick(net, c, last, fr, v) == CrossTick(net, last[v.id], v, c.dt)
  {
    hide CrossTick;
  }

  /** A crossing from within the lane books, lane by lane: the rest of the lane left, every
      lane between in full, the way into the last; time and loss in proportion; nothing on
      any other lane. */
  lemma CrossingByLane(net: Network, c: Config, last: map<nat, LastObs>, fr: Frame, v: Vehicle, chain: seq<nat>)
    requires net.Valid() && LastValid(net, last) && v.lane < |net.lanes| && v.id in last && last[v.id].lane != v.lane
    requires var from := net.lanes[last[v.id].lane];
      from.left != Some(v.lane) && from.right != Some(v.lane) && last[v.id].s <= from.length
    requires Way(net, last[v.id].lane, v.lane, chain)
    ensures |chain| >= 2 && chain[0] == last[v.id].lane && forall i | 0 <= i < |chain| :: chain[i] < |net.lanes|
    ensures var prev := last[v.id];
      DrivenOver(net, VehicleTick(net, c, last, fr, v).bookings, v.vt, v.f, chain,
                 Metres(net, net.lanes[prev.lane].length - prev.s, chain, v.s), c.dt)
  {
    hide AccountShares, TickLoss, SumD, Arrived, DrivenOver, Driven, Way, VehicleTick, Metres;
    var prev := last[v.id];
    WithinCrosses(net, c, last, fr, v);
    var shares := CrossShares(net, prev, v, chain);
    AccountDrives(net, v.vt, v.f, shares, chain, Metres(net, net.lanes[prev.lane].length - prev.s, chain, v.s), c.dt);
  }

  lemma SignedOnLane(net: Network, m: nat, d: real, t: real, length: real, tl: real, l: nat)
    requires m < |net.lanes|
    ensures OnLane(Signed(net, m, d, t, length, tl), l) == if l == m then Amount(d, t, t * length, tl, 0) else ZERO
  {
    hide OnLane, Sum;
    AllOfOneLane(Signed(net, m, d, t, length, tl), m, l);
  }

  /** What the refund puts on the lane left. */
  ghost function TakenBack(net: Network, prev: LastObs, length: real): Amount
    requires prev.lane < |net.lanes|
  {
    var over := prev.s - net.lanes[prev.lane].length;
    var back := if prev.s > 0.0 then over / prev.s else 1.0;
    Amount(-over, -(back * prev.dtShare), -(back * prev.dtShare * length), -(back * prev.tlShare), 0)
  }

  lemma RefundOnLane(net: Network, prev: LastObs, length: real, l: nat)
    requires prev.lane < |net.lanes|
    ensures OnLane(Refund(net, prev, length), l) == if l == prev.lane then TakenBack(net, prev, length) else ZERO
  {
    hide OnLane, Signed;
    var t := PastTime(net, prev);
    SignedOnLane(net, prev.lane, -Past(net, prev), -t, length, -PastLoss(net, prev), l);
    assert -t * length == -(t * length);
  }

  /** What the carry puts on the last lane. */
  ghost function Carried(net: Network, prev: LastObs, length: real): Amount
    requires prev.lane < |net.lanes|
  {
    var a := TakenBack(net, prev, length);
    Amount(0.0, -a.time, -a.occ, -a.loss, 0)
  }

  lemma CarryOnLane(net: Network, prev: LastObs, m: nat, length: real, l: nat)
    requires prev.lane < |net.lanes| && m < |net.lanes|
    ensures OnLane(Signed(net, m, 0.0, PastTime(net, prev), length, PastLoss(net, prev)), l)
      == if l == m then Carried(net, prev, length) else ZERO
  {
    hide OnLane, Signed;
    SignedOnLane(net, m, 0.0, PastTime(net, prev), length, PastLoss(net, prev), l);
  }

  lemma RefundShares(net: Network, prev: LastObs, v: Vehicle, chain: seq<nat>) returns (shares: seq<Share>)
    requires net.Valid() && prev.lane < |net.lanes| && v.lane < |net.lanes| && prev.lane != v.lane && Way(net, prev.lane, v.lane, chain)
    ensures |chain| >= 2 && chain[0] == prev.lane && forall i | 0 <= i < |chain| :: chain[i] < |net.lanes|
    ensures forall i, j | 0 <= i < j < |chain| :: chain[i] != chain[j]
    ensures OnNet(net, shares) && Matched(shares, chain[1..], Metres(net, 0.0, chain, v.s)[1..])
    ensures Driven(net, prev, v).0 == chain && shares == Lengths(net, chain[1..|chain| - 1]) + [Share(chain[|chain| - 1], Clamped(v.s))]
  {
    hide Driven, Way;
    WayFacts(net, prev, v, chain);
    var n := |chain| - 1;
    shares := Lengths(net, chain[1..n]) + [Share(chain[n], Clamped(v.s))];
    var ls, ds := chain[1..], Metres(net, 0.0, chain, v.s)[1..];
    forall i | 0 <= i < |shares| ensures shares[i] == Share(ls[i], ds[i]) {
      if i < n - 1 {
        assert Lengths(net, chain[1..n])[i] == Share(chain[1..n][i], net.lanes[chain[1..n][i]].length);
      }
    }
  }

  lemma OnLaneThree(a: seq<Booking>, b: seq<Booking>, c: seq<Booking>, l: nat)
    ensures OnLane(a + b + c, l) == Plus(Plus(OnLane(a, l), OnLane(b, l)), OnLane(c, l))
  {
    OnLaneAppends(a, b, l);
    OnLaneAppends(a + b, c, l);
  }

  /** What a refunding tick puts on each lane: the refund, the carry and the tick's own part. */
  lemma RefundTickOnLane(net: Network, prev: LastObs, v: Vehicle, dt: real, chain: seq<nat>, shares: seq<Share>, l: nat)
    requires net.Valid() && prev.lane < |net.lanes| && v.lane < |net.lanes| && OnNet(net, shares) && Driven(net, prev, v).0 == chain
    requires shares == Lengths(net, chain[1..|chain| - 1]) + [Share(chain[|chain| - 1], Clamped(v.s))]
    ensures OnLane(RefundTick(net, prev, v, dt).bookings, l)
      == Plus(Plus(if l == prev.lane then TakenBack(net, prev, v.vt.length) else ZERO,
                   if l == chain[|chain| - 1] then Carried(net, prev, v.vt.length) else ZERO),
              OnLane(AccountShares(net, v.vt, v.f, shares, dt, |shares|), l))
  {
    hide AccountShares, TickLoss, SumD, Driven, OnLane, Refund, Signed, TakenBack, Carried, Plus, PastTime, PastLoss, Past;
    var m := chain[|chain| - 1];
    RefundOnLane(net, prev, v.vt.length, l);
    CarryOnLane(net, prev, m, v.vt.length, l);
    OnLaneThree(Refund(net, prev, v.vt.length), Signed(net, m, 0.0, PastTime(net, prev), v.vt.length, PastLoss(net, prev)),
                AccountShares(net, v.vt, v.f, shares, dt, |shares|), l);
  }

  lemma ZeroesFall(a: Amount)
    ensures Plus(Plus(ZERO, ZERO), a) == a && Plus(Plus(a, ZERO), ZERO) == a
  {
  }

  lemma CarryAdds(a: Amount, b: Amount)
    ensures Plus(Plus(ZERO, a), b) == Plus(a, b)
  {
  }

  /** The crossing of a vehicle past its lane end is booked as a refund. */
  lemma PastEndRefunds(net: Network, c: Config, last: map<nat, LastObs>, fr: Frame, v: Vehicle)
    requires net.Valid() && LastValid(net, last) && v.lane < |net.lanes| && v.id in last && last[v.id].lane != v.lane
    requires var from := net.lanes[last[v.id].lane];
      from.left != Some(v.lane) && from.right != Some(v.lane) && last[v.id].s > from.length
    ensures VehicleTick(net, c, last, fr, v) == RefundTick(net, last[v.id], v, c.dt)
  {
    hide RefundTick;
  }

  lemma RefundParts(net: Network, prev: LastObs, v: Vehicle, dt: real, chain: seq<nat>, shares: seq<Share>) returns (parts: seq<Amount>)
    requires net.Valid() && prev.lane < |net.lanes| && v.lane < |net.lanes| && |chain| >= 2 && chain[0] == prev.lane
    requires forall i, j | 0 <= i < j < |chain| :: chain[i] != chain[j]
    requires OnNet(net, shares) && Driven(net, prev, v).0 == chain
    requires shares == Lengths(net, chain[1..|chain| - 1]) + [Share(chain[|chain| - 1], Clamped(v.s))]
    requires Matched(shares, chain[1..], Metres(net, 0.0, chain, v.s)[1..])
    ensures forall i | 0 <= i < |chain| :: chain[i] < |net.lanes|
    ensures |parts| == |chain| - 1
    ensures var ds := Metres(net, 0.0, chain, v.s)[1..];
      SharedOut(parts, ds, dt, LossOver(net, v.vt, v.f, chain[1..], ds, dt), v.vt.length)
    ensures var bs := RefundTick(net, prev, v, dt).bookings;
      && OnLane(bs, prev.lane) == TakenBack(net, prev, v.vt.length)
      && (forall i | 0 < i < |chain| - 1 :: OnLane(bs, chain[i]) == parts[i - 1])
      && OnLane(bs, chain[|chain| - 1]) == Plus(Carried(net, prev, v.vt.length), parts[|parts| - 1])
      && forall l: nat | l !in chain :: OnLane(bs, l) == ZERO
  {
    hide AccountShares, Driven, OnLane, Parts, LossOver, SharedOut, TakenBack, Carried, Plus, RefundTick;
    var ls, ds, n := chain[1..], Metres(net, 0.0, chain, v.s)[1..], |chain| - 1;
    var bs, own := RefundTick(net, prev, v, dt).bookings, AccountShares(net, v.vt, v.f, shares, dt, |shares|);
    AccountDrives(net, v.vt, v.f, shares, ls, ds, dt);
    parts := seq(|ls|, i requires 0 <= i < |ls| => OnLane(own, ls[i]));
    RefundTickOnLane(net, prev, v, dt, chain, shares, prev.lane);
    ZeroesFall(TakenBack(net, prev, v.vt.length));
    assert prev.lane !in ls;
    forall i | 0 < i < n ensures OnLane(bs, chain[i]) == parts[i - 1] {
      RefundTickOnLane(net, prev, v, dt, chain, shares, chain[i]);
      ZeroesFall(parts[i - 1]);
    }
    RefundTickOnLane(net, prev, v, dt, chain, shares, chain[n]);
    CarryAdds(Carried(net, prev, v.vt.length), parts[n - 1]);
    forall l: nat | l !in chain ensures OnLane(bs, l) == ZERO {
      RefundTickOnLane(net, prev, v, dt, chain, shares, l);
      ZeroesFall(ZERO);
    }
  }

  /** A crossing by a vehicle that was seen past its lane end: the part of the last booking
      that lay past the end is taken back from that lane - metres, time, presence and loss -
      and its time, presence and loss go to the last lane, on top of what this tick books
      there. The tick itself is shared out over the lanes after the one left. */
  lemma RefundByLane(net: Network, c: Config, last: map<nat, LastObs>, fr: Frame, v: Vehicle, chain: seq<nat>)
    returns (parts: seq<Amount>)
    requires net.Valid() && LastValid(net, last) && v.lane < |net.lanes| && v.id in last && last[v.id].lane != v.lane
    requires var from := net.lanes[last[v.id].lane];
      from.left != Some(v.lane) && from.right != Some(v.lane) && last[v.id].s > from.length
    requires Way(net, last[v.id].lane, v.lane, chain)
    ensures |chain| >= 2 && chain[0] == last[v.id].lane && forall i | 0 <= i < |chain| :: chain[i] < |net.lanes|
    ensures |parts| == |chain| - 1
    ensures var ds := Metres(net, 0.0, chain, v.s)[1..];
      SharedOut(parts, ds, c.dt, LossOver(net, v.vt, v.f, chain[1..], ds, c.dt), v.vt.length)
    ensures var prev, bs := last[v.id], VehicleTick(net, c, last, fr, v).bookings;
      && OnLane(bs, prev.lane) == TakenBack(net, prev, v.vt.length)
      && (forall i | 0 < i < |chain| - 1 :: OnLane(bs, chain[i]) == parts[i - 1])
      && OnLane(bs, chain[|chain| - 1]) == Plus(Carried(net, prev, v.vt.length), parts[|parts| - 1])
      && forall l: nat | l !in chain :: OnLane(bs, l) == ZERO
  {
    hide AccountShares, DrivenOver, Driven, Way, OnLane, Parts, LossOver, SharedOut, TakenBack, Carried, Plus, RefundTick, VehicleTick;
    var prev := last[v.id];
    PastEndRefunds(net, c, last, fr, v);
    var shares := RefundShares(net, prev, v, chain);
    parts := RefundParts(net, prev, v, c.dt, chain, shares);
  }

  // ---------------------------------------------------------------- what an observation keeps

  lemma ArrivedIsPortion(shares: seq<Share>, whole: real)
    requires shares != []
    ensures Arrived(shares, whole) == Portion(shares, whole, |shares| - 1)
  {
    hide Positive;
  }

  /** What a crossing remembers for a later refund is what it booked to the last lane. */
  lemma KeptIsBooked(net: Network, c: Config, last: map<nat, LastObs>, fr: Frame, v: Vehicle, chain: seq<nat>)
    requires net.Valid() && LastValid(net, last) && v.lane < |net.lanes| && v.id in last && last[v.id].lane != v.lane
    requires var from := net.lanes[last[v.id].lane];
      from.left != Some(v.lane) && from.right != Some(v.lane) && last[v.id].s <= from.length
    requires Way(net, last[v.id].lane, v.lane, chain)
    ensures var k := VehicleTick(net, c, last, fr, v);
      |chain| >= 2 && k.dtShare == OnLane(k.bookings, chain[|chain| - 1]).time && k.tlShare == OnLane(k.bookings, chain[|chain| - 1]).loss
  {
    hide AccountShares, TickLoss, SumD, Arrived, Driven, Way, OnLane, Portion, VehicleTick;
    var prev := last[v.id];
    WithinCrosses(net, c, last, fr, v);
    var shares := CrossShares(net, prev, v, chain);
    AccountOn(net, v.vt, v.f, shares, c.dt, |shares|, |shares| - 1);
    ArrivedIsPortion(shares, c.dt);
    ArrivedIsPortion(shares, TickLoss(net, v.vt, v.f, shares, c.dt));
  }

  // ---------------------------------------------------------------- leaving, and the horizon

  /** Positive metres among the first k. */
  function Ahead(ds: seq<real>, k: nat): (r: real)
    requires k <= |ds|
    ensures r >= 0.0
  {
    if k == 0 then 0.0 else Ahead(ds, k - 1) + Pos(ds[k - 1])
  }

  lemma {:induction false} PositiveIs(shares: seq<Share>, ls: seq<nat>, ds: seq<real>, k: nat)
    requires Matched(shares, ls, ds) && k <= |shares|
    ensures Positive(shares[..k]) == Ahead(ds, k)
  {
    if k > 0 {
      PositiveIs(shares, ls, ds, k - 1);
      assert shares[..k][..k - 1] == shares[..k - 1];
    }
  }

  /** Metres of a way out: the rest of the lane, and every further lane in full. */
  function MetresOut(net: Network, prev: LastObs, chain: seq<nat>): (r: seq<real>)
    requires chain != [] && prev.lane < |net.lanes| && forall i | 0 <= i < |chain| :: chain[i] < |net.lanes|
    ensures |r| == |chain| && r[0] == net.lanes[prev.lane].length - prev.s
    ensures forall i | 0 < i < |chain| :: r[i] == net.lanes[chain[i]].length
  {
    seq(|chain|, i requires 0 <= i < |chain| => if i == 0 then net.lanes[prev.lane].length - prev.s else net.lanes[chain[i]].length)
  }

  /** Seconds for the metres ahead at the last speed seen: a tick at most, none for no metres. */
  function SecondsOut(speed: real, metres: real, dt: real): real {
    if metres <= 0.0 then 0.0 else if speed > 0.0 && metres / speed < dt then metres / speed else dt
  }

  /** An exit of the network, or the lane a route ends on. */
  ghost predicate WayOut(net: Network, prev: LastObs, l: nat)
    requires l < |net.lanes|
  {
    net.lanes[l].exit || (prev.route != "" && net.lanes[l].id == prev.route)
  }

  /** The shares of a departure follow a simple path, which ends at a way out if its end is known. */
  ghost predicate Leaves(net: Network, prev: LastObs, x: Leaving, chain: seq<nat>)
    requires prev.lane < |net.lanes|
  {
    && IsPath(net, chain) && chain[0] == prev.lane && (forall i, j | 0 <= i < j < |chain| :: chain[i] != chain[j])
    && Matched(x.shares, chain, MetresOut(net, prev, chain))
    && x.dropped <= 1
    && if x.dropped == 0 then x.lane == Some(chain[|chain| - 1]) && WayOut(net, prev, chain[|chain| - 1])
       else x.lane == None && chain == [prev.lane]
  }

  lemma ChainOut(net: Network, prev: LastObs, target: Target, chain: seq<nat>)
    requires prev.lane < |net.lanes| && IsChain(net, target, prev.lane, chain)
    requires target == AnyExit || (target == Named(prev.route) && prev.route != "")
    ensures IsPath(net, chain) && chain[0] == prev.lane && forall i, j | 0 <= i < j < |chain| :: chain[i] != chain[j]
    ensures WayOut(net, prev, chain[|chain| - 1])
  {
  }

  lemma ChainShares(net: Network, prev: LastObs, own: Share, chain: seq<nat>)
    requires prev.lane < |net.lanes| && chain != [] && chain[0] == prev.lane && forall i | 0 <= i < |chain| :: chain[i] < |net.lanes|
    requires own == Share(prev.lane, net.lanes[prev.lane].length - prev.s)
    ensures Matched([own] + Lengths(net, chain[1..]), chain, MetresOut(net, prev, chain))
  {
    forall i | 0 < i < |chain| ensures ([own] + Lengths(net, chain[1..]))[i] == Share(chain[i], net.lanes[chain[i]].length) {
      assert Lengths(net, chain[1..])[i - 1] == Share(chain[1..][i - 1], net.lanes[chain[1..][i - 1]].length);
    }
  }

  lemma ResolvedLeaves(net: Network, prev: LastObs, r: Crossing, target: Target) returns (chain: seq<nat>)
    requires prev.lane < |net.lanes| && (r.Crossed? ==> IsChain(net, target, prev.lane, r.chain))
    requires target == AnyExit || (target == Named(prev.route) && prev.route != "")
    ensures r.Crossed? ==> IsPath(net, r.chain)
    ensures Leaves(net, prev, ResolvedExit(net, Share(prev.lane, net.lanes[prev.lane].length - prev.s), r), chain)
  {
    hide IsChain, WayOut, MetresOut, Lengths, Edge;
    if r.Crossed? {
      ChainOut(net, prev, target, r.chain);
    }
    chain := if r.Disjoint? || r.ambiguous then [prev.lane] else r.chain;
    ChainShares(net, prev, Share(prev.lane, net.lanes[prev.lane].length - prev.s), chain);
    assert chain == [prev.lane] ==> Lengths(net, chain[1..]) == [];
  }

  lemma ExitLeaves(net: Network, prev: LastObs) returns (chain: seq<nat>)
    requires net.Valid() && prev.lane < |net.lanes|
    ensures Leaves(net, prev, ExitShares(net, prev), chain)
  {
    hide ChainResolve, ResolvedExit, IsChain;
    ResolvedIsChain(net, prev.lane, Named(prev.route));
    ResolvedIsChain(net, prev.lane, AnyExit);
    var named := ChainResolve(net, prev.lane, Named(prev.route));
    if WayOut(net, prev, prev.lane) {
      chain := [prev.lane];
    } else if prev.route != "" && named.Crossed? {
      chain := ResolvedLeaves(net, prev, named, Named(prev.route));
    } else {
      chain := ResolvedLeaves(net, prev, ChainResolve(net, prev.lane, AnyExit), AnyExit);
    }
  }

  /** A vehicle that drove out is booked the rest of its lane and in full the lanes of one
      simple way to an exit, or to the lane its route ends on; only the rest of its lane when
      no such way is certain, and then a dropped crossing is counted. */
  lemma ExitByLane(net: Network, prev: LastObs, dt: real) returns (chain: seq<nat>)
    requires net.Valid() && prev.lane < |net.lanes|
    ensures IsPath(net, chain) && chain[0] == prev.lane && forall i, j | 0 <= i < j < |chain| :: chain[i] != chain[j]
    ensures var k, ds := ExitTick(net, prev, dt), MetresOut(net, prev, chain);
      && DrivenOver(net, k.bookings, prev.vt, prev.f, chain, ds, SecondsOut(prev.v, Ahead(ds, |ds|), dt))
      && (k.dropped == 0 || k.dropped == 1)
      && (if k.dropped == 0 then WayOut(net, prev, chain[|chain| - 1]) && ExitShares(net, prev).lane == Some(chain[|chain| - 1])
          else chain == [prev.lane] && ExitShares(net, prev).lane == None)
  {
    hide AccountShares, TickLoss, SumD, ExitShares, DrivenOver, Positive, WayOut;
    chain := ExitLeaves(net, prev);
    var x, ds := ExitShares(net, prev), MetresOut(net, prev, chain);
    PositiveIs(x.shares, chain, ds, |ds|);
    assert x.shares[..|ds|] == x.shares;
    AccountDrives(net, prev.vt, prev.f, x.shares, chain, ds, ExitTime(prev, x.shares, dt));
  }

  /** A vehicle still past its lane end at the horizon: the overshoot is taken back, and its
      metres - nothing else - go to the only successor; nothing is booked for anyone else. */
  lemma HorizonByLane(net: Network, prev: LastObs, l: nat)
    requires net.Valid() && prev.lane < |net.lanes|
    ensures var over, succ := prev.s - net.lanes[prev.lane].length, net.lanes[prev.lane].successors;
      OnLane(HorizonTick(net, prev).bookings, l) ==
      if over <= 0.0 then ZERO
      else Plus(if l == prev.lane then TakenBack(net, prev, prev.vt.length) else ZERO,
                if succ == [l] then Amount(over, 0.0, 0.0, 0.0, 0) else ZERO)
  {
    hide OnLane, Refund, TakenBack, Plus;
    var lane := net.lanes[prev.lane];
    NoneOnLane(l);
    if prev.s > lane.length {
      RefundOnLane(net, prev, prev.vt.length, l);
      PlusAssociates(OnLane(Refund(net, prev, prev.vt.length), l), ZERO, ZERO);
      if |lane.successors| == 1 {
        var b := Segment(lane.successors[0], Past(net, prev), 0.0);
        OneBooking(b, l);
        OnLaneAppends(Refund(net, prev, prev.vt.length), [b], l);
        assert lane.successors == [l] <==> b.lane == l;
      }
    }
  }
}
