/** Measurement sets: per-lane accumulators over aligned intervals, and what they add up to. */
module MetricSets {

  /** Distance, time, presence (time x length), time loss, and stop episodes. */
  datatype Amount = Amount(dist: real, time: real, occ: real, loss: real, stops: nat)

  const ZERO := Amount(0.0, 0.0, 0.0, 0.0, 0)

  function Plus(a: Amount, b: Amount): Amount {
    Amount(a.dist + b.dist, a.time + b.time, a.occ + b.occ, a.loss + b.loss, a.stops + b.stops)
  }

  datatype Booking = Booking(lane: nat, a: Amount)

  function Segment(lane: nat, dist: real, time: real): Booking {
    Booking(lane, Amount(dist, time, 0.0, 0.0, 0))
  }

  /** Only a positive loss is attributed. */
  function Loss(lane: nat, tl: real): Booking {
    Booking(lane, Amount(0.0, 0.0, 0.0, if tl > 0.0 then tl else 0.0, 0))
  }

  /** A signed loss, for refunds and carries. */
  function RawLoss(lane: nat, tl: real): Booking {
    Booking(lane, Amount(0.0, 0.0, 0.0, tl, 0))
  }

  function Presence(lane: nat, occ: real): Booking {
    Booking(lane, Amount(0.0, 0.0, occ, 0.0, 0))
  }

  function StopStart(lane: nat): Booking {
    Booking(lane, Amount(0.0, 0.0, 0.0, 0.0, 1))
  }

  function Sum(bs: seq<Booking>): Amount {
    if bs == [] then ZERO else Plus(Sum(bs[..|bs| - 1]), bs[|bs| - 1].a)
  }

  lemma PlusAssociates(a: Amount, b: Amount, c: Amount)
    ensures Plus(Plus(a, b), c) == Plus(a, Plus(b, c))
    ensures Plus(a, ZERO) == a
  {
  }

  lemma {:induction false} SumAppends(a: seq<Booking>, b: seq<Booking>)
    ensures Sum(a + b) == Plus(Sum(a), Sum(b))
  {
    hide Plus;
    if b == [] {
      assert a + b == a;
      PlusAssociates(Sum(a), ZERO, ZERO);
    } else {
      var n := |b| - 1;
      SumAppends(a, b[..n]);
      assert (a + b)[..|a + b| - 1] == a + b[..n];
      PlusAssociates(Sum(a), Sum(b[..n]), b[n].a);
    }
  }

  // ---------------------------------------------------------------- a set

  /** One closed interval: a record per element lane, in config order. It covers the
      observation ticks begin + 1 .. end. */
  datatype Round = Round(begin: nat, end: nat, partial: bool, records: seq<Amount>)

  datatype MetricSet = MetricSet(
    lanes: seq<nat>, beginTick: nat, lastTick: nat, period: nat,
    openFirst: nat, openLast: nat, acc: map<nat, Amount>, closed: seq<Round>)
  {
    /** Lanes are distinct and every one has an accumulator. */
    ghost predicate Shaped() {
      && period > 0 && openFirst > 0 && (lastTick > 0 ==> lastTick > beginTick)
      && (forall i, j | 0 <= i < j < |lanes| :: lanes[i] != lanes[j])
      && acc.Keys == (set i | 0 <= i < |lanes| :: lanes[i])
      && forall i | 0 <= i < |closed| :: |closed[i].records| == |lanes|
    }

    /** Whether a tick lies in the set's window. */
    predicate InWindow(tick: nat) {
      tick > beginTick && (lastTick == 0 || tick <= lastTick)
    }
  }

  function NewSet(lanes: seq<nat>, beginTick: nat, lastTick: nat, period: nat): MetricSet {
    MetricSet(lanes, beginTick, lastTick, period, beginTick + 1, beginTick + period,
              map l | l in lanes :: ZERO, [])
  }

  function Booked(s: MetricSet, b: Booking, tick: nat): MetricSet {
    if s.InWindow(tick) && b.lane in s.acc then s.(acc := s.acc[b.lane := Plus(s.acc[b.lane], b.a)]) else s
  }

  function BookedAll(s: MetricSet, bs: seq<Booking>, tick: nat): MetricSet {
    if bs == [] then s else Booked(BookedAll(s, bs[..|bs| - 1], tick), bs[|bs| - 1], tick)
  }

  /** The record a lane would get were the interval closed now. */
  function Current(s: MetricSet): (r: seq<Amount>)
    requires s.Shaped()
    ensures |r| == |s.lanes| && forall i | 0 <= i < |r| :: s.lanes[i] in s.acc && r[i] == s.acc[s.lanes[i]]
  {
    seq(|s.lanes|, i requires 0 <= i < |s.lanes| => s.acc[s.lanes[i]])
  }

  /** Emits the open interval and starts afresh. */
  function Closed(s: MetricSet, begin: nat, end: nat, partial: bool): MetricSet
    requires s.Shaped()
  {
    s.(closed := s.closed + [Round(begin, end, partial, Current(s))], acc := map l | l in s.acc :: ZERO)
  }

  // ---------------------------------------------------------------- what a set adds up to

  function SumAmounts(r: seq<Amount>): Amount {
    if r == [] then ZERO else Plus(SumAmounts(r[..|r| - 1]), r[|r| - 1])
  }

  function SumRounds(rs: seq<Round>): Amount {
    if rs == [] then ZERO else Plus(SumRounds(rs[..|rs| - 1]), SumAmounts(rs[|rs| - 1].records))
  }

  /** Emitted intervals and the open one together. */
  function Total(s: MetricSet): Amount
    requires s.Shaped()
  {
    Plus(SumRounds(s.closed), SumAmounts(Current(s)))
  }

  lemma {:induction false} AmountAdded(r: seq<Amount>, i: nat, a: Amount)
    requires i < |r|
    ensures SumAmounts(r[i := Plus(r[i], a)]) == Plus(SumAmounts(r), a)
  {
    var n := |r| - 1;
    if i == n {
      assert r[i := Plus(r[i], a)][..n] == r[..n];
    } else {
      assert r[i := Plus(r[i], a)][..n] == r[..n][i := Plus(r[i], a)];
      AmountAdded(r[..n], i, a);
    }
  }

  lemma BookedShaped(s: MetricSet, b: Booking, tick: nat)
    requires s.Shaped()
    ensures Booked(s, b, tick).Shaped()
  {
  }

  /** A booking in the window, on a lane of the set, adds to the total; any other leaves the
      set as it was. */
  lemma BookedTotal(s: MetricSet, b: Booking, tick: nat)
    requires s.Shaped()
    ensures Booked(s, b, tick).Shaped()
    ensures Total(Booked(s, b, tick)) == if s.InWindow(tick) && b.lane in s.lanes then Plus(Total(s), b.a) else Total(s)
  {
    hide Plus, SumAmounts, SumRounds;
    BookedShaped(s, b, tick);
    if s.InWindow(tick) && b.lane in s.acc {
      var i :| 0 <= i < |s.lanes| && s.lanes[i] == b.lane;
      PlusAssociates(SumRounds(s.closed), SumAmounts(Current(s)), b.a);
      AmountAdded(Current(s), i, b.a);
      assert Current(Booked(s, b, tick)) == Current(s)[i := Plus(Current(s)[i], b.a)];
    }
  }

  ghost predicate OnLanes(bs: seq<Booking>, n: nat) {
    forall i | 0 <= i < |bs| :: bs[i].lane < n
  }

  /** The set measures every lane. */
  ghost predicate Covering(s: MetricSet, n: nat) {
    forall l: nat | l < n :: l in s.lanes
  }

  lemma {:induction false} BookedAllShaped(s: MetricSet, bs: seq<Booking>, tick: nat)
    requires s.Shaped()
    ensures BookedAll(s, bs, tick).Shaped()
    ensures var r := BookedAll(s, bs, tick);
      r == s.(acc := r.acc)
  {
    hide Booked;
    if bs != [] {
      BookedAllShaped(s, bs[..|bs| - 1], tick);
      BookedShaped(BookedAll(s, bs[..|bs| - 1], tick), bs[|bs| - 1], tick);
      BookedKeeps(BookedAll(s, bs[..|bs| - 1], tick), bs[|bs| - 1], tick);
    }
  }

  lemma BookedKeeps(s: MetricSet, b: Booking, tick: nat)
    ensures Booked(s, b, tick) == s.(acc := Booked(s, b, tick).acc)
  {
  }

  /** In a covering set every booking of the window arrives, once. */
  lemma {:induction false} CoveringTotal(s: MetricSet, bs: seq<Booking>, tick: nat, n: nat)
    requires s.Shaped() && Covering(s, n) && s.InWindow(tick) && OnLanes(bs, n)
    ensures BookedAll(s, bs, tick).Shaped()
    ensures Total(BookedAll(s, bs, tick)) == Plus(Total(s), Sum(bs))
  {
    hide Booked, Total;
    if bs != [] {
      var m := |bs| - 1;
      CoveringTotal(s, bs[..m], tick, n);
      BookedAllShaped(s, bs[..m], tick);
      BookedTotal(BookedAll(s, bs[..m], tick), bs[m], tick);
    }
  }

  lemma {:induction false} AllZero(r: seq<Amount>)
    requires forall i | 0 <= i < |r| :: r[i] == ZERO
    ensures SumAmounts(r) == ZERO
  {
    if r != [] {
      AllZero(r[..|r| - 1]);
    }
  }

  /** The total looks at the lanes, the accumulators and the records only. */
  lemma SameTotal(s: MetricSet, t: MetricSet)
    requires s.Shaped() && t.lanes == s.lanes && t.acc == s.acc && t.closed == s.closed && t.Shaped()
    ensures Total(t) == Total(s)
  {
    assert Current(t) == Current(s);
  }

  /** Closing an interval moves its sums from the open accumulators to the records. */
  lemma ClosedTotal(s: MetricSet, begin: nat, end: nat, partial: bool)
    requires s.Shaped()
    ensures Closed(s, begin, end, partial).Shaped() && Total(Closed(s, begin, end, partial)) == Total(s)
  {
    hide Plus, SumAmounts;
    var r := Closed(s, begin, end, partial);
    assert r.acc.Keys == s.acc.Keys;
    AllZero(Current(r));
    PlusAssociates(SumRounds(r.closed), ZERO, ZERO);
    assert r.closed[..|s.closed|] == s.closed;
  }

  // ---------------------------------------------------------------- closing what is due

  /** Closes the open interval, and the one after it, as long as `tick` has reached their end. */
  function CloseFull(s: MetricSet, tick: nat): (r: MetricSet)
    requires s.Shaped()
    ensures r.Shaped()
    decreases tick + 1 - s.openLast
  {
    if s.openLast <= tick && (s.lastTick == 0 || s.openLast <= s.lastTick) then
      ClosedTotal(s, s.openFirst - 1, s.openLast, false);
      CloseFull(
        Closed(s, s.openFirst - 1, s.openLast, false)
          .(openFirst := s.openLast + 1, openLast := s.openLast + s.period), tick)
    else s
  }

  /** The final interval, cut at the set's last tick, closes as soon as that was observed. */
  function CloseLast(s: MetricSet, tick: nat): (r: MetricSet)
    requires s.Shaped()
    ensures r.Shaped()
  {
    if s.lastTick > 0 && tick >= s.lastTick && s.openFirst <= s.lastTick then
      ClosedTotal(s, s.openFirst - 1, s.lastTick, true);
      Closed(s, s.openFirst - 1, s.lastTick, true).(openFirst := s.lastTick + 1)
    else s
  }

  function CloseDue(s: MetricSet, tick: nat): (r: MetricSet)
    requires s.Shaped()
    ensures r.Shaped()
  {
    CloseLast(CloseFull(s, tick), tick)
  }

  /** At the horizon the open interval is emitted with its actual bounds. */
  function CloseHorizon(s: MetricSet, tick: nat): (r: MetricSet)
    requires s.Shaped()
    ensures r.Shaped()
  {
    var end := if s.lastTick > 0 && s.lastTick < tick then s.lastTick else tick;
    if s.openFirst <= end then
      ClosedTotal(s, s.openFirst - 1, end, true);
      Closed(s, s.openFirst - 1, end, true).(openFirst := end + 1)
    else s
  }

  lemma {:induction false} CloseFullTotal(s: MetricSet, tick: nat)
    requires s.Shaped()
    ensures Total(CloseFull(s, tick)) == Total(s)
    ensures var r := CloseFull(s, tick); r == s.(acc := r.acc, closed := r.closed, openFirst := r.openFirst, openLast := r.openLast)
    decreases tick + 1 - s.openLast
  {
    hide Total, Current;
    if s.openLast <= tick && (s.lastTick == 0 || s.openLast <= s.lastTick) {
      var c := Closed(s, s.openFirst - 1, s.openLast, false);
      ClosedTotal(s, s.openFirst - 1, s.openLast, false);
      var t := c.(openFirst := s.openLast + 1, openLast := s.openLast + s.period);
      SameTotal(c, t);
      CloseFullTotal(t, tick);
    }
  }

  lemma CloseLastTotal(s: MetricSet, tick: nat)
    requires s.Shaped()
    ensures Total(CloseLast(s, tick)) == Total(s)
  {
    hide Total, Current;
    if s.lastTick > 0 && tick >= s.lastTick && s.openFirst <= s.lastTick {
      var c := Closed(s, s.openFirst - 1, s.lastTick, true);
      ClosedTotal(s, s.openFirst - 1, s.lastTick, true);
      SameTotal(c, c.(openFirst := s.lastTick + 1));
    }
  }

  /** Closing intervals neither loses nor invents anything. */
  lemma CloseDueTotal(s: MetricSet, tick: nat)
    requires s.Shaped()
    ensures Total(CloseDue(s, tick)) == Total(s)
  {
    CloseFullTotal(s, tick);
    CloseLastTotal(CloseFull(s, tick), tick);
  }

  lemma CloseHorizonTotal(s: MetricSet, tick: nat)
    requires s.Shaped()
    ensures Total(CloseHorizon(s, tick)) == Total(s)
  {
    hide Total, Current;
    var end := if s.lastTick > 0 && s.lastTick < tick then s.lastTick else tick;
    if s.openFirst <= end {
      var c := Closed(s, s.openFirst - 1, end, true);
      ClosedTotal(s, s.openFirst - 1, end, true);
      SameTotal(c, c.(openFirst := end + 1));
    }
  }

  // ---------------------------------------------------------------- whole runs of a set

  /** What some bookings put on one lane. */
  function OnLane(bs: seq<Booking>, lane: nat): Amount {
    if bs == [] then ZERO
    else
      var n := |bs| - 1;
      if bs[n].lane == lane then Plus(OnLane(bs[..n], lane), bs[n].a) else OnLane(bs[..n], lane)
  }

  /** What the observation ticks lo + 1 .. hi put on one lane; `log[t - 1]` holds the
      bookings of tick t. */
  function Measured(log: seq<seq<Booking>>, lane: nat, lo: nat, hi: nat): Amount
    requires hi <= |log|
  {
    if hi <= lo then ZERO else Plus(Measured(log, lane, lo, hi - 1), OnLane(log[hi - 1], lane))
  }

  /** The last observed tick of the window. */
  function Seen(s: MetricSet, tick: nat): nat {
    if s.lastTick > 0 && s.lastTick < tick then s.lastTick else tick
  }

  /** The set after a run in which every tick was booked and then closed what was due. */
  function RunSet(s: MetricSet, log: seq<seq<Booking>>): (r: MetricSet)
    requires s.Shaped()
    ensures r.Shaped()
  {
    if log == [] then s
    else
      var n := |log| - 1;
      var b := BookedAll(RunSet(s, log[..n]), log[n], |log|);
      BookedAllShaped(RunSet(s, log[..n]), log[n], |log|);
      CloseDue(b, |log|)
  }

  /** Rounds follow one another from the start of the window to the open interval; a full
      one lasts a period. */
  ghost predicate Tiled(beginTick: nat, period: nat, closed: seq<Round>, openFirst: nat) {
    && (forall i | 0 <= i < |closed| ::
          && closed[i].begin == (if i == 0 then beginTick else closed[i - 1].end)
          && closed[i].begin < closed[i].end
          && (!closed[i].partial ==> closed[i].end == closed[i].begin + period))
    && openFirst == (if closed == [] then beginTick else closed[|closed| - 1].end) + 1
    && openFirst > beginTick
  }

  /** The records of a round are what its own ticks booked. */
  ghost predicate RoundMeasures(lanes: seq<nat>, log: seq<seq<Booking>>, r: Round) {
    && r.end <= |log| && |r.records| == |lanes|
    && forall i | 0 <= i < |lanes| :: r.records[i] == Measured(log, lanes[i], r.begin, r.end)
  }

  ghost predicate RoundsMeasure(lanes: seq<nat>, closed: seq<Round>, log: seq<seq<Booking>>) {
    forall k | 0 <= k < |closed| :: RoundMeasures(lanes, log, closed[k])
  }

  /** The open accumulators hold what the ticks lo + 1 .. hi booked. */
  ghost predicate OpenMeasures(lanes: seq<nat>, acc: map<nat, Amount>, log: seq<seq<Booking>>, lo: nat, hi: nat)
    requires hi <= |log|
  {
    forall i | 0 <= i < |lanes| :: lanes[i] in acc && acc[lanes[i]] == Measured(log, lanes[i], lo, hi)
  }

  /** What a run of a set keeps: the rounds tile the window without gap or overlap, each
      records exactly the bookings of its own ticks, and so does the open interval. */
  ghost predicate Measuring(s: MetricSet, log: seq<seq<Booking>>) {
    && s.Shaped()
    && Tiled(s.beginTick, s.period, s.closed, s.openFirst)
    && RoundsMeasure(s.lanes, s.closed, log)
    && OpenMeasures(s.lanes, s.acc, log, s.openFirst - 1, Seen(s, |log|))
    && (s.openFirst - 1 == s.beginTick || s.openFirst - 1 <= Seen(s, |log|))
  }

  /** The open interval is a whole one ending after `tick`, or the window ends within it. */
  ghost predicate OnGrid(s: MetricSet, tick: nat) {
    || (s.openLast == s.openFirst - 1 + s.period && s.openLast > tick)
    || (s.lastTick > 0 && s.openLast > s.lastTick)
  }

  lemma {:induction false} MeasuredGrows(log: seq<seq<Booking>>, more: seq<Booking>, lane: nat, lo: nat, hi: nat)
    requires hi <= |log|
    ensures Measured(log + [more], lane, lo, hi) == Measured(log, lane, lo, hi)
  {
    hide Plus, OnLane;
    if hi > lo {
      MeasuredGrows(log, more, lane, lo, hi - 1);
    }
  }

  lemma {:induction false} BookedOnLane(s: MetricSet, bs: seq<Booking>, tick: nat, lane: nat)
    requires s.Shaped() && lane in s.acc
    ensures var r := BookedAll(s, bs, tick);
      lane in r.acc && r.acc[lane] == if s.InWindow(tick) then Plus(s.acc[lane], OnLane(bs, lane)) else s.acc[lane]
  {
    hide Plus;
    if bs == [] {
      PlusAssociates(s.acc[lane], ZERO, ZERO);
    } else {
      var n := |bs| - 1;
      BookedOnLane(s, bs[..n], tick, lane);
      BookedAllShaped(s, bs[..n], tick);
      PlusAssociates(s.acc[lane], OnLane(bs[..n], lane), bs[n].a);
    }
  }

  /** No interval is open past the next tick of the window. */
  lemma OpenByNow(s: MetricSet, log: seq<seq<Booking>>)
    requires Measuring(s, log) && s.beginTick <= |log|
    ensures s.openFirst <= |log| + 1
  {
  }

  lemma LaneBooked(s: MetricSet, log: seq<seq<Booking>>, bs: seq<Booking>, lane: nat)
    requires Measuring(s, log) && lane in s.acc
    requires s.acc[lane] == Measured(log, lane, s.openFirst - 1, Seen(s, |log|))
    ensures var r := BookedAll(s, bs, |log| + 1);
      lane in r.acc && r.acc[lane] == Measured(log + [bs], lane, s.openFirst - 1, Seen(s, |log| + 1))
  {
    hide Plus, OnLane, Booked, RoundMeasures, OpenMeasures, RoundsMeasure;
    var tick := |log| + 1;
    BookedOnLane(s, bs, tick, lane);
    MeasuredGrows(log, bs, lane, s.openFirst - 1, Seen(s, |log|));
    if s.InWindow(tick) {
      OpenByNow(s, log);
      assert (log + [bs])[tick - 1] == bs;
    }
  }

  lemma RoundsStayMeasured(lanes: seq<nat>, closed: seq<Round>, log: seq<seq<Booking>>, bs: seq<Booking>)
    requires RoundsMeasure(lanes, closed, log)
    ensures RoundsMeasure(lanes, closed, log + [bs])
  {
    hide Measured;
    forall k | 0 <= k < |closed| ensures RoundMeasures(lanes, log + [bs], closed[k]) {
      var r := closed[k];
      assert RoundMeasures(lanes, log, r);
      forall i | 0 <= i < |lanes| ensures r.records[i] == Measured(log + [bs], lanes[i], r.begin, r.end) {
        MeasuredGrows(log, bs, lanes[i], r.begin, r.end);
      }
    }
  }

  /** Booking a tick extends what the open interval measures by that tick. */
  lemma TickBooked(s: MetricSet, log: seq<seq<Booking>>, bs: seq<Booking>)
    requires Measuring(s, log)
    ensures Measuring(BookedAll(s, bs, |log| + 1), log + [bs])
  {
    hide Plus, OnLane, Booked, Measured, RoundsMeasure, Tiled;
    var tick := |log| + 1;
    var r := BookedAll(s, bs, tick);
    BookedAllShaped(s, bs, tick);
    forall i | 0 <= i < |s.lanes|
      ensures s.lanes[i] in r.acc && r.acc[s.lanes[i]] == Measured(log + [bs], s.lanes[i], s.openFirst - 1, Seen(s, tick))
    {
      LaneBooked(s, log, bs, s.lanes[i]);
    }
    RoundsStayMeasured(s.lanes, s.closed, log, bs);
  }

  lemma RoundAdded(lanes: seq<nat>, closed: seq<Round>, r: Round, log: seq<seq<Booking>>)
    requires RoundsMeasure(lanes, closed, log) && RoundMeasures(lanes, log, r)
    ensures RoundsMeasure(lanes, closed + [r], log)
  {
    hide RoundMeasures;
    forall k | 0 <= k < |closed + [r]| ensures RoundMeasures(lanes, log, (closed + [r])[k]) {
      if k < |closed| {
        assert RoundMeasures(lanes, log, closed[k]);
      }
    }
  }

  lemma TileAdded(beginTick: nat, period: nat, closed: seq<Round>, openFirst: nat, r: Round)
    requires Tiled(beginTick, period, closed, openFirst) && r.begin == openFirst - 1 < r.end
    requires !r.partial ==> r.end == r.begin + period
    ensures Tiled(beginTick, period, closed + [r], r.end + 1)
  {
  }

  /** Closing the open interval at a tick by which it holds all its bookings. */
  lemma ClosedMeasures(s: MetricSet, log: seq<seq<Booking>>, end: nat, partial: bool)
    requires Measuring(s, log) && s.openFirst <= end == Seen(s, |log|)
    requires !partial ==> end == s.openFirst - 1 + s.period
    ensures Measuring(Closed(s, s.openFirst - 1, end, partial).(openFirst := end + 1), log)
  {
    hide Plus, OnLane, RoundsMeasure, Tiled, SumRounds, SumAmounts;
    var c := Closed(s, s.openFirst - 1, end, partial);
    ClosedTotal(s, s.openFirst - 1, end, partial);
    var round := Round(s.openFirst - 1, end, partial, Current(s));
    RoundAdded(s.lanes, s.closed, round, log);
    TileAdded(s.beginTick, s.period, s.closed, s.openFirst, round);
  }

  lemma {:induction false} CloseFullMeasures(s: MetricSet, log: seq<seq<Booking>>)
    requires Measuring(s, log) && |log| > 0 && OnGrid(s, |log| - 1)
    ensures var r := CloseFull(s, |log|); Measuring(r, log) && OnGrid(r, |log|)
    decreases |log| + 1 - s.openLast
  {
    hide RoundsMeasure, Measured, Tiled, OpenMeasures;
    if s.openLast <= |log| && (s.lastTick == 0 || s.openLast <= s.lastTick) {
      var c := Closed(s, s.openFirst - 1, s.openLast, false);
      ClosedMeasures(s, log, s.openLast, false);
      CloseFullMeasures(c.(openFirst := s.openLast + 1, openLast := s.openLast + s.period), log);
    }
  }

  lemma CloseLastMeasures(s: MetricSet, log: seq<seq<Booking>>)
    requires Measuring(s, log) && OnGrid(s, |log|)
    ensures var r := CloseLast(s, |log|); Measuring(r, log) && OnGrid(r, |log|)
  {
    hide RoundsMeasure, Measured, Tiled, OpenMeasures;
    if s.lastTick > 0 && |log| >= s.lastTick && s.openFirst <= s.lastTick {
      ClosedMeasures(s, log, s.lastTick, true);
    }
  }

  /** In every run of a set the emitted intervals tile the observed window, without gap or
      overlap, and each records exactly what the ticks it covers booked, lane by lane. */
  lemma {:induction false} IntervalsMeasureTheirTicks(lanes: seq<nat>, beginTick: nat, lastTick: nat, period: nat, log: seq<seq<Booking>>)
    requires period > 0 && (lastTick > 0 ==> lastTick > beginTick)
    requires forall i, j | 0 <= i < j < |lanes| :: lanes[i] != lanes[j]
    ensures NewSet(lanes, beginTick, lastTick, period).Shaped()
    ensures var r := RunSet(NewSet(lanes, beginTick, lastTick, period), log);
      && Measuring(r, log) && OnGrid(r, |log|)
      && r.lanes == lanes && r.beginTick == beginTick && r.lastTick == lastTick && r.period == period
  {
    hide Measured, CloseFull, CloseLast, OnGrid, Measuring;
    var s := NewSet(lanes, beginTick, lastTick, period);
    NewSetMeasures(lanes, beginTick, lastTick, period);
    if log != [] {
      var n := |log| - 1;
      IntervalsMeasureTheirTicks(lanes, beginTick, lastTick, period, log[..n]);
      var prev := RunSet(s, log[..n]);
      assert log == log[..n] + [log[n]];
      BookedAllShaped(prev, log[n], |log|);
      TickBooked(prev, log[..n], log[n]);
      var b := BookedAll(prev, log[n], |log|);
      SameGrid(prev, b, n);
      CloseFullMeasures(b, log);
      CloseFullTotal(b, |log|);
      CloseLastMeasures(CloseFull(b, |log|), log);
      CloseLastKeeps(CloseFull(b, |log|), |log|);
    }
  }

  lemma NewSetMeasures(lanes: seq<nat>, beginTick: nat, lastTick: nat, period: nat)
    requires period > 0 && (lastTick > 0 ==> lastTick > beginTick)
    requires forall i, j | 0 <= i < j < |lanes| :: lanes[i] != lanes[j]
    ensures var s := NewSet(lanes, beginTick, lastTick, period); Measuring(s, []) && OnGrid(s, 0)
  {
  }

  lemma SameGrid(s: MetricSet, t: MetricSet, tick: nat)
    requires OnGrid(s, tick) && t == s.(acc := t.acc)
    ensures OnGrid(t, tick)
  {
  }

  lemma CloseLastKeeps(s: MetricSet, tick: nat)
    requires s.Shaped()
    ensures var r := CloseLast(s, tick);
      r.lanes == s.lanes && r.beginTick == s.beginTick && r.lastTick == s.lastTick && r.period == s.period
  {
  }

  /** The final, partial interval of a run ends at the horizon, or at the set's last tick. */
  lemma HorizonMeasures(s: MetricSet, log: seq<seq<Booking>>)
    requires Measuring(s, log)
    ensures var r := CloseHorizon(s, |log|); Measuring(r, log) && (s.beginTick < |log| ==> r.openFirst == Seen(s, |log|) + 1)
  {
    hide RoundsMeasure, Measured, Tiled, OpenMeasures;
    if s.openFirst <= Seen(s, |log|) {
      ClosedMeasures(s, log, Seen(s, |log|), true);
    } else if s.beginTick < |log| {
      OpenByEnd(s, log);
    }
  }

  lemma OpenByEnd(s: MetricSet, log: seq<seq<Booking>>)
    requires Measuring(s, log) && s.beginTick < |log| && s.openFirst > Seen(s, |log|)
    ensures s.openFirst == Seen(s, |log|) + 1
  {
  }

  // ---------------------------------------------------------------- full and partial rounds

  /** A round is flagged partial exactly when it is shorter than a period, which only the end
      of the window makes it. */
  ghost predicate Flagged(closed: seq<Round>, lastTick: nat, period: nat) {
    forall i | 0 <= i < |closed| ::
      var r := closed[i];
      && r.end <= r.begin + period && (r.partial <==> r.end < r.begin + period)
      && (r.partial ==> 0 < lastTick == r.end)
  }

  /** And the open interval is a whole period, until the window is over. */
  ghost predicate Scheduled(s: MetricSet) {
    && s.period > 0 && s.openFirst > 0 && Flagged(s.closed, s.lastTick, s.period)
    && (s.openLast == s.openFirst - 1 + s.period || (s.openFirst > s.lastTick > 0 && s.openLast > s.lastTick))
  }

  lemma FlaggedMore(closed: seq<Round>, r: Round, lastTick: nat, period: nat)
    requires Flagged(closed, lastTick, period) && r.end <= r.begin + period && (r.partial <==> r.end < r.begin + period)
    requires r.partial ==> 0 < lastTick == r.end
    ensures Flagged(closed + [r], lastTick, period)
  {
  }

  /** One full round more. */
  function FullClosed(s: MetricSet): MetricSet
    requires s.Shaped()
  {
    Closed(s, s.openFirst - 1, s.openLast, false).(openFirst := s.openLast + 1, openLast := s.openLast + s.period)
  }

  lemma FullClosedScheduled(s: MetricSet)
    requires s.Shaped() && Scheduled(s) && (s.lastTick == 0 || s.openLast <= s.lastTick)
    ensures FullClosed(s).Shaped() && Scheduled(FullClosed(s))
    ensures FullClosed(s).period == s.period && FullClosed(s).lastTick == s.lastTick
  {
    hide Current, Flagged;
    ClosedTotal(s, s.openFirst - 1, s.openLast, false);
    FlaggedMore(s.closed, Round(s.openFirst - 1, s.openLast, false, Current(s)), s.lastTick, s.period);
  }

  lemma {:induction false} FullScheduled(s: MetricSet, tick: nat)
    requires s.Shaped() && Scheduled(s)
    ensures var r := CloseFull(s, tick);
      Scheduled(r) && r.period == s.period && r.lastTick == s.lastTick && !(r.openLast <= tick && (r.lastTick == 0 || r.openLast <= r.lastTick))
    decreases tick + 1 - s.openLast
  {
    hide Closed, Scheduled, Current;
    if s.openLast <= tick && (s.lastTick == 0 || s.openLast <= s.lastTick) {
      FullClosedScheduled(s);
      assert CloseFull(s, tick) == CloseFull(FullClosed(s), tick);
      FullScheduled(FullClosed(s), tick);
    }
  }

  lemma LastScheduled(s: MetricSet, tick: nat)
    requires s.Shaped() && Scheduled(s) && !(s.openLast <= tick && (s.lastTick == 0 || s.openLast <= s.lastTick))
    ensures var r := CloseLast(s, tick); Scheduled(r) && r.period == s.period && r.lastTick == s.lastTick
  {
    hide Current, Flagged;
    if s.lastTick > 0 && tick >= s.lastTick && s.openFirst <= s.lastTick {
      FlaggedMore(s.closed, Round(s.openFirst - 1, s.lastTick, true, Current(s)), s.lastTick, s.period);
    }
  }

  /** So it is in every run. */
  lemma {:induction false} RunScheduled(s: MetricSet, log: seq<seq<Booking>>)
    requires s.Shaped() && Scheduled(s)
    ensures Scheduled(RunSet(s, log)) && RunSet(s, log).period == s.period && RunSet(s, log).lastTick == s.lastTick
  {
    hide Flagged, CloseFull, CloseLast, BookedAll;
    if log != [] {
      var n := |log| - 1;
      RunScheduled(s, log[..n]);
      var prev := RunSet(s, log[..n]);
      BookedAllShaped(prev, log[n], |log|);
      var b := BookedAll(prev, log[n], |log|);
      FullScheduled(b, |log|);
      LastScheduled(CloseFull(b, |log|), |log|);
    }
  }

  /** From a fresh set on, every round emitted lasts a whole period, but for one cut short at
      the end of the window, and that one is flagged. */
  lemma RoundsAreFull(lanes: seq<nat>, beginTick: nat, lastTick: nat, period: nat, log: seq<seq<Booking>>)
    requires period > 0 && (lastTick > 0 ==> lastTick > beginTick)
    requires forall i, j | 0 <= i < j < |lanes| :: lanes[i] != lanes[j]
    ensures NewSet(lanes, beginTick, lastTick, period).Shaped()
    ensures Flagged(RunSet(NewSet(lanes, beginTick, lastTick, period), log).closed, lastTick, period)
  {
    hide RunSet;
    IntervalsMeasureTheirTicks(lanes, beginTick, lastTick, period, []);
    RunScheduled(NewSet(lanes, beginTick, lastTick, period), log);
  }
}
