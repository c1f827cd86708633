/** What one tick of one vehicle is booked as: distance, time, presence and time loss, split
    over the lanes driven, with refunds of what an earlier tick booked past a lane end. */
module MetricTicks {
  import opened LaneGraph
  import opened MetricSets
  import opened MetricChains

  const STOP_SPEED := 0.1

  datatype VType = VType(name: string, length: real, v0: real)

  datatype Vehicle = Vehicle(id: nat, lane: nat, s: real, v: real, vt: VType, f: real, route: string)

  /** The observation of a vehicle one tick ago, and what was booked to its lane then. */
  datatype LastObs = LastObs(
    lane: nat, s: real, v: real, vt: VType, f: real, stopped: bool, dtShare: real, tlShare: real, route: string)

  /** One lane's part of a tick's travel; negative for a refund. */
  datatype Share = Share(lane: nat, d: real)

  function V0Eff(net: Network, vt: VType, f: real, l: nat): real
    requires l < |net.lanes|
  {
    f * if net.lanes[l].speedLimit < vt.v0 then net.lanes[l].speedLimit else vt.v0
  }

  function Clamped(x: real): real {
    if x > 0.0 then x else 0.0
  }

  ghost predicate OnNet(net: Network, shares: seq<Share>) {
    forall i | 0 <= i < |shares| :: shares[i].lane < |net.lanes|
  }

  // ---------------------------------------------------------------- splitting a tick

  function SumD(shares: seq<Share>): real {
    if shares == [] then 0.0 else SumD(shares[..|shares| - 1]) + shares[|shares| - 1].d
  }

  function Positive(shares: seq<Share>): (r: real)
    ensures r >= 0.0
  {
    if shares == [] then 0.0 else Positive(shares[..|shares| - 1]) + Clamped(shares[|shares| - 1].d)
  }

  /** Time the positive shares take at desired speed; none at desired speed zero. */
  function FreeTime(net: Network, vt: VType, f: real, shares: seq<Share>): Option<real>
    requires OnNet(net, shares)
  {
    if shares == [] then Some(0.0)
    else
      var n := |shares| - 1;
      var r := FreeTime(net, vt, f, shares[..n]);
      if shares[n].d <= 0.0 then r
      else
        var v0 := V0Eff(net, vt, f, shares[n].lane);
        if r.None? || v0 == 0.0 then None else Some(r.value + shares[n].d / v0)
  }

  /** One clamp per vehicle-tick. */
  function TickLoss(net: Network, vt: VType, f: real, shares: seq<Share>, totalT: real): (r: real)
    requires OnNet(net, shares)
    ensures r >= 0.0
  {
    var free := FreeTime(net, vt, f, shares);
    if free.None? then 0.0 else Clamped(totalT - free.value)
  }

  /** The part of a whole that goes to share i: in proportion to positive distance, or all to
      the last lane when nobody moved. */
  function Portion(shares: seq<Share>, whole: real, i: nat): real
    requires i < |shares|
  {
    var D := Positive(shares);
    if D > 0.0 then (if shares[i].d <= 0.0 then 0.0 else whole * shares[i].d / D)
    else if i < |shares| - 1 then 0.0
    else whole
  }

  /** The bookings of the first k shares. */
  function AccountShares(net: Network, vt: VType, f: real, shares: seq<Share>, totalT: real, k: nat): seq<Booking>
    requires OnNet(net, shares) && k <= |shares|
  {
    if k == 0 then []
    else
      AccountShares(net, vt, f, shares, totalT, k - 1) + ShareBookings(net, vt, f, shares, totalT, k - 1)
  }

  function Portions(shares: seq<Share>, whole: real, k: nat): real
    requires k <= |shares|
  {
    if k == 0 then 0.0 else Portions(shares, whole, k - 1) + Portion(shares, whole, k - 1)
  }

  lemma ProportionAdds(whole: real, a: real, d: real, D: real)
    requires D > 0.0
    ensures whole * a / D + whole * d / D == whole * (a + d) / D
  {
  }

  lemma PositivePrefix(shares: seq<Share>, k: nat)
    requires k <= |shares|
    ensures Positive(shares[..k]) == if k == 0 then 0.0 else Positive(shares[..k - 1]) + Clamped(shares[k - 1].d)
  {
    if k > 0 {
      assert shares[..k][..k - 1] == shares[..k - 1];
    }
  }

  lemma ZeroPortion(whole: real, D: real)
    requires D > 0.0
    ensures whole * 0.0 / D == 0.0
  {
  }

  function Fraction(whole: real, part: real, D: real): real
    requires D > 0.0
  {
    whole * part / D
  }

  lemma FractionFacts(whole: real, a: real, d: real, D: real)
    requires D > 0.0
    ensures Fraction(whole, a, D) + Fraction(whole, d, D) == Fraction(whole, a + d, D)
    ensures Fraction(whole, 0.0, D) == 0.0 && Fraction(whole, D, D) == whole
  {
    ProportionAdds(whole, a, d, D);
    ZeroPortion(whole, D);
    Cancels(whole, D);
  }

  lemma {:induction false} PortionsMoving(shares: seq<Share>, whole: real, k: nat)
    requires k <= |shares| && Positive(shares) > 0.0
    ensures Portions(shares, whole, k) == Fraction(whole, Positive(shares[..k]), Positive(shares))
  {
    hide Positive, Fraction, Portion;
    PositivePrefix(shares, k);
    var D := Positive(shares);
    if k > 0 {
      PortionsMoving(shares, whole, k - 1);
      PortionIsFraction(shares, whole, k - 1);
      FractionFacts(whole, Positive(shares[..k - 1]), Clamped(shares[k - 1].d), D);
    } else {
      FractionFacts(whole, 0.0, 0.0, D);
    }
  }

  lemma PortionIsFraction(shares: seq<Share>, whole: real, i: nat)
    requires i < |shares| && Positive(shares) > 0.0
    ensures Portion(shares, whole, i) == Fraction(whole, Clamped(shares[i].d), Positive(shares))
  {
    hide Positive;
    ZeroPortion(whole, Positive(shares));
    if shares[i].d <= 0.0 {
      assert Clamped(shares[i].d) == 0.0;
    } else {
      assert Clamped(shares[i].d) == shares[i].d;
      assert Fraction(whole, shares[i].d, Positive(shares)) == whole * shares[i].d / Positive(shares);
    }
  }

  lemma {:induction false} PortionsStill(shares: seq<Share>, whole: real, k: nat)
    requires k <= |shares| && Positive(shares) == 0.0
    ensures Portions(shares, whole, k) == if 0 < k == |shares| then whole else 0.0
  {
    if k > 0 {
      PortionsStill(shares, whole, k - 1);
    }
  }

  /** The portions make up the whole. */
  lemma PortionsMakeWhole(shares: seq<Share>, whole: real)
    requires shares != []
    ensures Portions(shares, whole, |shares|) == whole
  {
    if Positive(shares) > 0.0 {
      PortionsMoving(shares, whole, |shares|);
      assert shares[..|shares|] == shares;
      FractionFacts(whole, 0.0, 0.0, Positive(shares));
    } else {
      PortionsStill(shares, whole, |shares|);
    }
  }

  lemma Cancels(x: real, D: real)
    requires D > 0.0
    ensures x * D / D == x
  {
  }

  lemma PortionSign(shares: seq<Share>, whole: real, i: nat)
    requires i < |shares| && whole >= 0.0
    ensures Portion(shares, whole, i) >= 0.0
  {
    var D := Positive(shares);
    if D > 0.0 && shares[i].d > 0.0 {
      ProductSign(whole, shares[i].d, D);
    }
  }

  lemma ProductSign(a: real, b: real, D: real)
    requires a >= 0.0 && b > 0.0 && D > 0.0
    ensures a * b / D >= 0.0
  {
    assert a * b >= 0.0;
  }

  lemma SumOne(bs: seq<Booking>, b: Booking)
    ensures Sum(bs + [b]) == Plus(Sum(bs), b.a)
  {
    assert (bs + [b])[..|bs|] == bs;
  }

  lemma SumOfThree(a: Booking, b: Booking, c: Booking)
    ensures Sum([a, b, c]) == Amount(a.a.dist + b.a.dist + c.a.dist, a.a.time + b.a.time + c.a.time, a.a.occ + b.a.occ + c.a.occ,
                                     a.a.loss + b.a.loss + c.a.loss, a.a.stops + b.a.stops + c.a.stops)
  {
    hide Sum;
    NoSum();
    SumThree([], a, b, c);
    assert [] + [a, b, c] == [a, b, c];
  }

  lemma SumThree(bs: seq<Booking>, a: Booking, b: Booking, c: Booking)
    ensures Sum(bs + [a, b, c]) == Plus(Plus(Plus(Sum(bs), a.a), b.a), c.a)
  {
    hide Sum, Plus;
    SumOne(bs, a);
    SumOne(bs + [a], b);
    SumOne(bs + [a] + [b], c);
    assert bs + [a] + [b] + [c] == bs + [a, b, c];
  }

  /** The three bookings of share i. */
  function ShareBookings(net: Network, vt: VType, f: real, shares: seq<Share>, totalT: real, i: nat): (r: seq<Booking>)
    requires OnNet(net, shares) && i < |shares|
    ensures Sum(r) == Amount(shares[i].d, Portion(shares, totalT, i), Portion(shares, totalT, i) * vt.length,
                             Portion(shares, TickLoss(net, vt, f, shares, totalT), i), 0)
    ensures OnLanes(r, |net.lanes|)
  {
    var t, tl := Portion(shares, totalT, i), Portion(shares, TickLoss(net, vt, f, shares, totalT), i);
    PortionSign(shares, TickLoss(net, vt, f, shares, totalT), i);
    var a, b, c := Segment(shares[i].lane, shares[i].d, t), Loss(shares[i].lane, tl), Presence(shares[i].lane, t * vt.length);
    SumOfThree(a, b, c);
    [a, b, c]
  }

  lemma {:induction false} AccountPrefix(net: Network, vt: VType, f: real, shares: seq<Share>, totalT: real, k: nat)
    requires OnNet(net, shares) && k <= |shares|
    ensures Sum(AccountShares(net, vt, f, shares, totalT, k))
      == Amount(SumD(shares[..k]), Portions(shares, totalT, k), Portions(shares, totalT, k) * vt.length,
                Portions(shares, TickLoss(net, vt, f, shares, totalT), k), 0)
    ensures OnLanes(AccountShares(net, vt, f, shares, totalT, k), |net.lanes|)
  {
    hide Portion, TickLoss, Sum, Positive, ShareBookings;
    if k == 0 {
      assert shares[..0] == [];
      NoSum();
    } else {
      AccountPrefix(net, vt, f, shares, totalT, k - 1);
      var before, now := AccountShares(net, vt, f, shares, totalT, k - 1), ShareBookings(net, vt, f, shares, totalT, k - 1);
      SumAppends(before, now);
      assert SumD(shares[..k]) == SumD(shares[..k - 1]) + shares[k - 1].d by {
        assert shares[..k][..k - 1] == shares[..k - 1];
      }
      var T, t := Portions(shares, totalT, k - 1), Portion(shares, totalT, k - 1);
      assert T * vt.length + t * vt.length == (T + t) * vt.length;
    }
  }

  lemma NoSum()
    ensures Sum([]) == ZERO
  {
  }

  /** However a tick is split, its distance, time, presence and loss are booked in full. */
  lemma AccountTotals(net: Network, vt: VType, f: real, shares: seq<Share>, totalT: real)
    requires OnNet(net, shares) && shares != []
    ensures Sum(AccountShares(net, vt, f, shares, totalT, |shares|))
      == Amount(SumD(shares), totalT, totalT * vt.length, TickLoss(net, vt, f, shares, totalT), 0)
    ensures OnLanes(AccountShares(net, vt, f, shares, totalT, |shares|), |net.lanes|)
  {
    hide Portions, AccountShares, TickLoss;
    AccountPrefix(net, vt, f, shares, totalT, |shares|);
    assert shares[..|shares|] == shares;
    PortionsMakeWhole(shares, totalT);
    PortionsMakeWhole(shares, TickLoss(net, vt, f, shares, totalT));
  }

  // ---------------------------------------------------------------- a tick observed

  /** What a tick books, what the trip adds up, and what its last lane was booked. */
  datatype Tick = Tick(bookings: seq<Booking>, dist: real, loss: real, dtShare: real, tlShare: real, dropped: nat)

  /** The whole tick on one lane. */
  function OneLane(net: Network, v: Vehicle, l: nat, d: real, dt: real, dropped: nat): Tick
    requires l < |net.lanes|
  {
    var v0 := V0Eff(net, v.vt, v.f, l);
    var tl := if v0 == 0.0 then 0.0 else Clamped(dt - d / v0);
    Tick([Segment(l, d, dt), Loss(l, tl), Presence(l, dt * v.vt.length)], d, tl, dt, tl, dropped)
  }

  /** A first observation: travel since the entry point. Off an origin lane, and not entered
      mid-lane, the travel is not observable. */
  function FirstTick(net: Network, v: Vehicle, entry: Option<real>, atOrigin: bool, dt: real): Tick
    requires v.lane < |net.lanes|
  {
    var entryS := if entry.Some? then entry.value else 0.0;
    OneLane(net, v, v.lane, Clamped(v.s - entryS), dt, if entry.None? && !atOrigin then 1 else 0)
  }

  function StayTick(net: Network, prev: LastObs, v: Vehicle, dt: real): Tick
    requires v.lane < |net.lanes|
  {
    var d := v.s - prev.s;
    OneLane(net, v, v.lane, if d < 0.0 then Clamped(net.lanes[v.lane].length - prev.s + v.s) else d, dt, 0)
  }

  /** A lateral hop happens at the tick end: the tick was driven on the lane left. */
  function HopTick(net: Network, prev: LastObs, v: Vehicle, dt: real): Tick
    requires prev.lane < |net.lanes|
  {
    OneLane(net, v, prev.lane, Clamped(v.s - prev.s), dt, 0)
  }

  function Lengths(net: Network, ls: seq<nat>): (r: seq<Share>)
    requires forall i | 0 <= i < |ls| :: ls[i] < |net.lanes|
    ensures |r| == |ls| && OnNet(net, r) && forall i | 0 <= i < |ls| :: r[i] == Share(ls[i], net.lanes[ls[i]].length)
  {
    seq(|ls|, i requires 0 <= i < |ls| => Share(ls[i], net.lanes[ls[i]].length))
  }

  /** The lanes driven, first to last, and whether the attribution is in doubt. */
  function Driven(net: Network, prev: LastObs, v: Vehicle): (r: (seq<nat>, nat))
    requires net.Valid() && prev.lane < |net.lanes| && v.lane < |net.lanes|
    ensures |r.0| >= 2 && r.0[0] == prev.lane && forall i | 0 <= i < |r.0| :: r.0[i] < |net.lanes|
  {
    CrossedIsChain(net, prev.lane, v.lane);
    match CrossedChain(net, prev.lane, v.lane)
    case Disjoint => ([prev.lane, v.lane], 1)
    case Crossed(chain, ambiguous) => (chain, if ambiguous then 1 else 0)
  }

  /** The share of a tick booked to its last lane. */
  function Arrived(shares: seq<Share>, whole: real): real
    requires shares != []
  {
    var D, last := Positive(shares), shares[|shares| - 1];
    if D > 0.0 && last.d > 0.0 then whole * last.d / D else if D == 0.0 then whole else 0.0
  }

  /** A crossing from within the lane: its remainder, every lane between in full, and the
      arrival lane up to the vehicle. */
  function CrossTick(net: Network, prev: LastObs, v: Vehicle, dt: real): Tick
    requires net.Valid() && prev.lane < |net.lanes| && v.lane < |net.lanes|
  {
    var r := Driven(net, prev, v);
    var n := |r.0| - 1;
    var shares := [Share(prev.lane, net.lanes[prev.lane].length - prev.s)] + Lengths(net, r.0[1..n])
      + if r.0[n] != prev.lane then [Share(r.0[n], Clamped(v.s))] else [];
    var tl := TickLoss(net, v.vt, v.f, shares, dt);
    Tick(AccountShares(net, v.vt, v.f, shares, dt, |shares|), SumD(shares), tl, Arrived(shares, dt), Arrived(shares, tl), r.1)
  }

  /** The fraction of the last booking that lay past the lane end. */
  function Overshoot(net: Network, prev: LastObs): real
    requires prev.lane < |net.lanes|
  {
    if prev.s > 0.0 then (prev.s - net.lanes[prev.lane].length) / prev.s else 1.0
  }

  /** Bookings of some distance, time and loss on one lane, with the presence of a vehicle
      for that time. */
  function Signed(net: Network, l: nat, d: real, t: real, length: real, tl: real): (r: seq<Booking>)
    requires l < |net.lanes|
    ensures Sum(r) == Amount(d, t, t * length, tl, 0) && OnLanes(r, |net.lanes|)
  {
    SumOfThree(Segment(l, d, t), Presence(l, t * length), RawLoss(l, tl));
    [Segment(l, d, t), Presence(l, t * length), RawLoss(l, tl)]
  }

  function Past(net: Network, prev: LastObs): real
    requires prev.lane < |net.lanes|
  {
    prev.s - net.lanes[prev.lane].length
  }

  function PastTime(net: Network, prev: LastObs): real
    requires prev.lane < |net.lanes|
  {
    Overshoot(net, prev) * prev.dtShare
  }

  function PastLoss(net: Network, prev: LastObs): real
    requires prev.lane < |net.lanes|
  {
    Overshoot(net, prev) * prev.tlShare
  }

  /** Takes back what was booked past the lane end. */
  function Refund(net: Network, prev: LastObs, length: real): (r: seq<Booking>)
    requires prev.lane < |net.lanes|
    ensures var t := PastTime(net, prev); Sum(r) == Amount(-Past(net, prev), -t, -(t * length), -PastLoss(net, prev), 0)
    ensures OnLanes(r, |net.lanes|)
  {
    var t := PastTime(net, prev);
    assert -t * length == -(t * length);
    Signed(net, prev.lane, -Past(net, prev), -t, length, -PastLoss(net, prev))
  }

  /** A crossing by a vehicle seen past its lane end: the overshoot is refunded to that lane
      and carried to the arrival lane, and the tick's own travel splits over the rest. */
  function RefundTick(net: Network, prev: LastObs, v: Vehicle, dt: real): Tick
    requires net.Valid() && prev.lane < |net.lanes| && v.lane < |net.lanes|
  {
    var r := Driven(net, prev, v);
    var n := |r.0| - 1;
    var t, tl := PastTime(net, prev), PastLoss(net, prev);
    var shares := Lengths(net, r.0[1..n]) + [Share(r.0[n], Clamped(v.s))];
    var travel := SumD(shares);
    var loss := TickLoss(net, v.vt, v.f, shares, dt);
    Tick(
      Refund(net, prev, v.vt.length) + Signed(net, r.0[n], 0.0, t, v.vt.length, tl)
      + AccountShares(net, v.vt, v.f, shares, dt, |shares|),
      travel - Past(net, prev), loss,
      t + (if travel > 0.0 then dt * Clamped(v.s) / travel else 0.0),
      tl + (if travel > 0.0 then loss * Clamped(v.s) / travel else 0.0), r.1)
  }

  function SplitTick(net: Network, prev: LastObs, v: Vehicle, dt: real): Tick
    requires net.Valid() && prev.lane < |net.lanes| && v.lane < |net.lanes|
  {
    if net.lanes[prev.lane].length - prev.s < 0.0 then RefundTick(net, prev, v, dt) else CrossTick(net, prev, v, dt)
  }

  function MovedTick(net: Network, prev: LastObs, v: Vehicle, dt: real): Tick
    requires net.Valid() && prev.lane < |net.lanes| && v.lane < |net.lanes|
  {
    if prev.lane == v.lane then StayTick(net, prev, v, dt)
    else if net.lanes[prev.lane].left == Some(v.lane) || net.lanes[prev.lane].right == Some(v.lane) then HopTick(net, prev, v, dt)
    else SplitTick(net, prev, v, dt)
  }

  // ---------------------------------------------------------------- what a tick books

  /** A tick books its distance, exactly dt of time, and its loss, on lanes of the network. */
  ghost predicate BooksExactly(net: Network, t: Tick, dt: real) {
    && Sum(t.bookings).dist == t.dist && Sum(t.bookings).time == dt && Sum(t.bookings).loss == t.loss && Sum(t.bookings).stops == 0
    && OnLanes(t.bookings, |net.lanes|)
  }

  lemma OneLaneBooks(net: Network, v: Vehicle, l: nat, d: real, dt: real, dropped: nat)
    requires l < |net.lanes|
    ensures BooksExactly(net, OneLane(net, v, l, d, dt, dropped), dt)
  {
    hide Sum;
    var t := OneLane(net, v, l, d, dt, dropped);
    SumOfThree(t.bookings[0], t.bookings[1], t.bookings[2]);
  }

  lemma CrossBooks(net: Network, prev: LastObs, v: Vehicle, dt: real)
    requires net.Valid() && prev.lane < |net.lanes| && v.lane < |net.lanes|
    ensures BooksExactly(net, CrossTick(net, prev, v, dt), dt)
  {
    hide Sum, AccountShares, TickLoss, Driven, SumD, Arrived;
    var r := Driven(net, prev, v);
    var n := |r.0| - 1;
    var shares := [Share(prev.lane, net.lanes[prev.lane].length - prev.s)] + Lengths(net, r.0[1..n])
      + if r.0[n] != prev.lane then [Share(r.0[n], Clamped(v.s))] else [];
    AccountTotals(net, v.vt, v.f, shares, dt);
  }

  lemma RefundBooks(net: Network, prev: LastObs, v: Vehicle, dt: real)
    requires net.Valid() && prev.lane < |net.lanes| && v.lane < |net.lanes|
    ensures BooksExactly(net, RefundTick(net, prev, v, dt), dt)
  {
    hide Sum, AccountShares, TickLoss, Driven, SumD, Past, PastTime, PastLoss, Signed, Refund;
    var r := Driven(net, prev, v);
    var n := |r.0| - 1;
    var t, tl := PastTime(net, prev), PastLoss(net, prev);
    var shares := Lengths(net, r.0[1..n]) + [Share(r.0[n], Clamped(v.s))];
    AccountTotals(net, v.vt, v.f, shares, dt);
    var a, b := Refund(net, prev, v.vt.length), Signed(net, r.0[n], 0.0, t, v.vt.length, tl);
    SumAppends(a, b);
    SumAppends(a + b, AccountShares(net, v.vt, v.f, shares, dt, |shares|));
  }

  /** Each observed vehicle-tick books exactly its distance, exactly dt and exactly its loss -
      across single lanes, hops, multi-lane splits, refunds and carries. */
  lemma VehicleTickBooks(net: Network, prev: LastObs, v: Vehicle, entry: Option<real>, atOrigin: bool, dt: real)
    requires net.Valid() && prev.lane < |net.lanes| && v.lane < |net.lanes|
    ensures BooksExactly(net, FirstTick(net, v, entry, atOrigin, dt), dt)
    ensures BooksExactly(net, MovedTick(net, prev, v, dt), dt)
  {
    hide OneLane, CrossTick, RefundTick;
    OneLaneBooks(net, v, v.lane, Clamped(v.s - if entry.Some? then entry.value else 0.0), dt, if entry.None? && !atOrigin then 1 else 0);
    var d := v.s - prev.s;
    OneLaneBooks(net, v, v.lane, if d < 0.0 then Clamped(net.lanes[v.lane].length - prev.s + v.s) else d, dt, 0);
    OneLaneBooks(net, v, prev.lane, Clamped(v.s - prev.s), dt, 0);
    CrossBooks(net, prev, v, dt);
    RefundBooks(net, prev, v, dt);
  }

  // ---------------------------------------------------------------- a despawn

  /** The exit of a vehicle that left: the shares driven, the lane it left by if known. */
  datatype Leaving = Leaving(shares: seq<Share>, lane: Option<nat>, dropped: nat)

  function ResolvedExit(net: Network, own: Share, r: Crossing): Leaving
    requires r.Crossed? ==> r.chain != [] && forall i | 0 <= i < |r.chain| :: r.chain[i] < |net.lanes|
  {
    if r.Disjoint? || r.ambiguous then Leaving([own], None, 1)
    else Leaving([own] + Lengths(net, r.chain[1..]), Some(r.chain[|r.chain| - 1]), 0)
  }

  function ExitShares(net: Network, prev: LastObs): (r: Leaving)
    requires net.Valid() && prev.lane < |net.lanes|
    ensures r.shares != [] && OnNet(net, r.shares) && (r.lane.Some? ==> r.lane.value < |net.lanes|)
  {
    var own := Share(prev.lane, net.lanes[prev.lane].length - prev.s);
    ResolvedIsChain(net, prev.lane, Named(prev.route));
    ResolvedIsChain(net, prev.lane, AnyExit);
    if net.lanes[prev.lane].exit then Leaving([own], Some(prev.lane), 0)
    else if prev.route != "" && net.lanes[prev.lane].id == prev.route then Leaving([own], Some(prev.lane), 0)
    else
      var named := ChainResolve(net, prev.lane, Named(prev.route));
      if prev.route != "" && named.Crossed? then ResolvedExit(net, own, named)
      else ResolvedExit(net, own, ChainResolve(net, prev.lane, AnyExit))
  }

  /** The exit tick's time, estimated from the last speed over the positive distance. */
  function ExitTime(prev: LastObs, shares: seq<Share>, dt: real): real {
    var D := Positive(shares);
    if D <= 0.0 then 0.0
    else if prev.v > 0.0 && D / prev.v < dt then D / prev.v
    else dt
  }

  function ExitTick(net: Network, prev: LastObs, dt: real): Tick
    requires net.Valid() && prev.lane < |net.lanes|
  {
    var x := ExitShares(net, prev);
    var t := ExitTime(prev, x.shares, dt);
    Tick(AccountShares(net, prev.vt, prev.f, x.shares, t, |x.shares|), SumD(x.shares),
         TickLoss(net, prev.vt, prev.f, x.shares, t), 0.0, 0.0, x.dropped)
  }

  /** A despawn books its distance, its estimated time and its loss. */
  lemma ExitTickBooks(net: Network, prev: LastObs, dt: real)
    requires net.Valid() && prev.lane < |net.lanes|
    ensures BooksExactly(net, ExitTick(net, prev, dt), ExitTime(prev, ExitShares(net, prev).shares, dt))
    ensures dt > 0.0 ==> 0.0 <= ExitTime(prev, ExitShares(net, prev).shares, dt) <= dt
  {
    hide Sum, AccountShares, TickLoss, ExitShares, SumD;
    var x := ExitShares(net, prev);
    AccountTotals(net, prev.vt, prev.f, x.shares, ExitTime(prev, x.shares, dt));
  }

  // ---------------------------------------------------------------- the horizon

  /** A vehicle still past its lane end at the horizon: the overshoot is refunded, and its
      distance carried where there is one successor to carry it to. */
  function HorizonTick(net: Network, prev: LastObs): Tick
    requires net.Valid() && prev.lane < |net.lanes|
  {
    var lane := net.lanes[prev.lane];
    var refund := Refund(net, prev, prev.vt.length);
    if prev.s <= lane.length then Tick([], 0.0, 0.0, 0.0, 0.0, 0)
    else
      assert LinksInside(lane, |net.lanes|);
      if |lane.successors| == 1 then
        Tick(refund + [Segment(lane.successors[0], Past(net, prev), 0.0)], 0.0, -PastLoss(net, prev), 0.0, 0.0, 0)
      else Tick(refund, -Past(net, prev), -PastLoss(net, prev), 0.0, 0.0, 1)
  }

  lemma HorizonBooks(net: Network, prev: LastObs)
    requires net.Valid() && prev.lane < |net.lanes|
    ensures var t := HorizonTick(net, prev);
      Sum(t.bookings).dist == t.dist && Sum(t.bookings).loss == t.loss && Sum(t.bookings).stops == 0 && OnLanes(t.bookings, |net.lanes|)
  {
    hide Sum, Past, PastTime, PastLoss, Refund;
    var lane := net.lanes[prev.lane];
    NoSum();
    if prev.s > lane.length && |lane.successors| == 1 {
      assert LinksInside(lane, |net.lanes|);
      SumOne(Refund(net, prev, prev.vt.length), Segment(lane.successors[0], Past(net, prev), 0.0));
    }
  }
}
