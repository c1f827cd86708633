/** The journal of a metric run, and the horizon: refunds of parked overshoot, the last
    intervals, and the trips still under way. */
module MetricFinal {
  import opened AscendingIds
  import opened LaneGraph
  import opened MetricSets
  import opened MetricTicks
  import opened MetricLedger
  import opened MetricRun

  // ---------------------------------------------------------------- the journal

  lemma {:induction false} BookedTwice(s: MetricSet, a: seq<Booking>, b: seq<Booking>, tick: nat)
    ensures BookedAll(s, a + b, tick) == BookedAll(BookedAll(s, a, tick), b, tick)
  {
    hide Booked;
    if b == [] {
      assert a + b == a;
    } else {
      var n := |b| - 1;
      BookedTwice(s, a, b[..n], tick);
      assert (a + b)[..|a + b| - 1] == a + b[..n];
    }
  }

  /** Each set holds what it held before the tick plus today's bookings. */
  ghost predicate Journaled(sets: seq<MetricSet>, b: Books, tick: nat) {
    |b.sets| == |sets| && forall i | 0 <= i < |sets| :: b.sets[i] == BookedAll(sets[i], b.today, tick)
  }

  lemma BookJournals(sets: seq<MetricSet>, b: Books, bs: seq<Booking>, tick: nat)
    requires Journaled(sets, b, tick)
    ensures Journaled(sets, Book(b, bs, tick), tick)
  {
    forall i | 0 <= i < |sets| ensures BookedAll(b.sets[i], bs, tick) == BookedAll(sets[i], b.today + bs, tick) {
      BookedTwice(sets[i], b.today, bs, tick);
    }
  }

  lemma {:induction false} VehiclesJournal(net: Network, c: Config, last: map<nat, LastObs>, fr: Frame, sets: seq<MetricSet>, b: Books, n: nat)
    requires net.Valid() && LastValid(net, last) && FrameValid(net, fr) && n <= |fr.vehicles|
    requires Journaled(sets, b, fr.tick)
    ensures Journaled(sets, ObserveVehicles(net, c, last, fr, b, n), fr.tick)
  {
    hide Journaled, Book, VehicleTick;
    if n > 0 {
      VehiclesJournal(net, c, last, fr, sets, b, n - 1);
      var r, v := ObserveVehicles(net, c, last, fr, b, n - 1), fr.vehicles[n - 1];
      var bs := VehicleTick(net, c, last, fr, v).bookings + StopBookings(last, v);
      BookJournals(sets, r, bs, fr.tick);
      SameJournal(sets, Book(r, bs, fr.tick), ObserveVehicle(net, c, last, fr, r, v), fr.tick);
    }
  }

  lemma SameJournal(sets: seq<MetricSet>, a: Books, b: Books, tick: nat)
    requires Journaled(sets, a, tick) && b.sets == a.sets && b.today == a.today
    ensures Journaled(sets, b, tick)
  {
  }

  lemma {:induction false} GoneJournal(net: Network, c: Config, last: map<nat, LastObs>, fr: Frame, sets: seq<MetricSet>, b: Books, gone: seq<nat>, n: nat)
    requires net.Valid() && LastValid(net, last) && n <= |gone| && forall i | 0 <= i < |gone| :: gone[i] in last
    requires Journaled(sets, b, fr.tick)
    ensures Journaled(sets, ObserveAllGone(net, c, last, fr, b, gone, n), fr.tick)
  {
    hide Journaled, Book, ExitTick;
    if n > 0 {
      GoneJournal(net, c, last, fr, sets, b, gone, n - 1);
      var r, id := ObserveAllGone(net, c, last, fr, b, gone, n - 1), gone[n - 1];
      var bs := ExitTick(net, last[id], c.dt).bookings;
      BookJournals(sets, r, bs, fr.tick);
      SameJournal(sets, if id in fr.stranded then r else Book(r, bs, fr.tick), ObserveGone(net, c, last, fr, r, id), fr.tick);
    }
  }

  lemma TickJournal(net: Network, c: Config, fr: Frame, b: Books)
    requires net.Valid() && BooksValid(net, b) && FrameValid(net, fr)
    ensures Journaled(b.sets, BookTick(net, c, fr, b), fr.tick)
  {
    hide ObserveVehicles, ObserveAllGone, FrameValid, SetsShaped;
    var blank := b.(last := map[], today := []);
    VehiclesJournal(net, c, b.last, fr, b.sets, blank, |fr.vehicles|);
    var gone := Gone(net, c, fr, b);
    GoneJournal(net, c, b.last, fr, b.sets, ObserveVehicles(net, c, b.last, fr, blank, |fr.vehicles|), gone, |gone|);
  }

  /** The bookings of every tick of a run. */
  function Journal(net: Network, c: Config, b: Books, frames: seq<Frame>): (r: seq<seq<Booking>>)
    requires net.Valid() && BooksValid(net, b) && Consecutive(net, frames)
    ensures |r| == |frames|
  {
    if frames == [] then []
    else Journal(net, c, b, frames[..|frames| - 1]) + [Run(net, c, b, frames).today]
  }

  /** Every set of a run is its own history of that journal. */
  lemma {:induction false} RunJournals(net: Network, c: Config, b: Books, frames: seq<Frame>, i: nat)
    requires net.Valid() && BooksValid(net, b) && Consecutive(net, frames) && i < |b.sets|
    ensures var r := Run(net, c, b, frames);
      |r.sets| == |b.sets| && r.sets[i] == RunSet(b.sets[i], Journal(net, c, b, frames))
  {
    hide BookTick, CloseDue, FrameValid;
    if frames != [] {
      var n := |frames| - 1;
      RunJournals(net, c, b, frames[..n], i);
      TickJournal(net, c, frames[n], Run(net, c, b, frames[..n]));
      var j := Journal(net, c, b, frames);
      assert j[..n] == Journal(net, c, b, frames[..n]);
    }
  }

  /** In every run the emitted intervals of every set tile the ticks observed without gap or
      overlap, and record lane by lane exactly what those ticks booked. */
  lemma RunIntervals(net: Network, c: Config, sets: seq<MetricSet>, vs: seq<Vehicle>, frames: seq<Frame>, i: nat)
    requires net.Valid() && OnLanesOf(net, vs) && NewSets(sets) && Consecutive(net, frames) && i < |sets|
    ensures BooksValid(net, NewBooks(c, sets, vs))
    ensures var b := NewBooks(c, sets, vs);
      var r := Run(net, c, b, frames);
      && |r.sets| == |sets| && Measuring(r.sets[i], Journal(net, c, b, frames)) && OnGrid(r.sets[i], |frames|)
      && r.sets[i].lanes == sets[i].lanes && r.sets[i].beginTick == sets[i].beginTick
      && r.sets[i].lastTick == sets[i].lastTick && r.sets[i].period == sets[i].period
  {
    hide Run, Journal, Measuring, OnGrid, BooksValid, Consecutive, OnLanesOf;
    var b := NewBooks(c, sets, vs);
    RunBalances(net, c, sets, vs, frames);
    RunJournals(net, c, b, frames, i);
    var s := sets[i];
    IntervalsMeasureTheirTicks(s.lanes, s.beginTick, s.lastTick, s.period, Journal(net, c, b, frames));
  }

  // ---------------------------------------------------------------- the horizon

  function RefundOne(net: Network, c: Config, b: Books, id: nat, tick: nat): Books
    requires net.Valid() && LastValid(net, b.last) && id in b.last
  {
    var k := HorizonTick(net, b.last[id]);
    Book(b, k.bookings, tick)
      .(dropped := b.dropped + k.dropped,
        trips := if c.tracking && id in b.trips then b.trips[id := b.trips[id].(dist := b.trips[id].dist + k.dist)] else b.trips)
  }

  function RefundAll(net: Network, c: Config, b: Books, ids: seq<nat>, n: nat, tick: nat): (r: Books)
    requires net.Valid() && LastValid(net, b.last) && n <= |ids| && forall i | 0 <= i < |ids| :: ids[i] in b.last
    ensures r.last == b.last
  {
    if n == 0 then b else RefundOne(net, c, RefundAll(net, c, b, ids, n - 1, tick), ids[n - 1], tick)
  }

  function CloseHorizons(sets: seq<MetricSet>, tick: nat): (r: seq<MetricSet>)
    requires SetsShaped(sets)
    ensures |r| == |sets| && SetsShaped(r) && forall i | 0 <= i < |r| :: r[i] == CloseHorizon(sets[i], tick)
  {
    seq(|sets|, i requires 0 <= i < |sets| => CloseHorizon(sets[i], tick))
  }

  /** A trip still under way at the horizon is emitted as it stands. */
  function EmitOpen(b: Books, id: nat, tick: nat): Books
    requires id in b.trips
  {
    b.(records := b.records + [TripRecord(id, b.trips[id], tick, false, false)], trips := b.trips - {id})
  }

  function EmitAll(b: Books, tick: nat): (r: Books)
    decreases |b.trips|
  {
    if b.trips == map[] then b
    else
      var id := Least(b.trips.Keys);
      Smaller(b.trips, id);
      EmitAll(EmitOpen(b, id, tick), tick)
  }

  /** The ids last seen, ascending. */
  function LastIds(b: Books): (r: seq<nat>)
    ensures forall i | 0 <= i < |r| :: r[i] in b.last
  {
    GoneIds(b.last, map[])
  }

  function Finalize(net: Network, c: Config, b: Books, tick: nat): Books
    requires net.Valid() && BooksValid(net, b)
  {
    var refunded := RefundAll(net, c, b, LastIds(b), |LastIds(b)|, tick);
    RefundsShape(net, c, b, LastIds(b), |LastIds(b)|, tick);
    EmitAll(refunded.(sets := CloseHorizons(refunded.sets, tick)), tick)
  }

  lemma {:induction false} RefundsShape(net: Network, c: Config, b: Books, ids: seq<nat>, n: nat, tick: nat)
    requires net.Valid() && BooksValid(net, b) && n <= |ids| && forall i | 0 <= i < |ids| :: ids[i] in b.last
    ensures SetsShaped(RefundAll(net, c, b, ids, n, tick).sets)
  {
    hide Book, HorizonTick, SetsShaped;
    if n > 0 {
      RefundsShape(net, c, b, ids, n - 1, tick);
      BookShapes(RefundAll(net, c, b, ids, n - 1, tick), HorizonTick(net, b.last[ids[n - 1]]).bookings, tick);
    }
  }

  /** The loss taken back from the lanes at the horizon. */
  function Backs(net: Network, last: map<nat, LastObs>, ids: seq<nat>, n: nat): real
    requires net.Valid() && LastValid(net, last) && n <= |ids| && forall i | 0 <= i < |ids| :: ids[i] in last
  {
    if n == 0 then 0.0 else Backs(net, last, ids, n - 1) - HorizonTick(net, last[ids[n - 1]]).loss
  }

  lemma RefundKeeps(net: Network, c: Config, b: Books, id: nat, tick: nat, stops: nat, back: real)
    requires net.Valid() && tick > 0 && Balanced(net, c, b, stops, back) && id in b.last && KeysMatch(c, b)
    ensures var r := RefundOne(net, c, b, id, tick);
      Balanced(net, c, r, stops, back - HorizonTick(net, b.last[id]).loss) && KeysMatch(c, r)
  {
    hide HorizonTick, Sum, SetsMatch, OpenTotal, RecordTotal;
    var k := HorizonTick(net, b.last[id]);
    HorizonBooks(net, b.last[id]);
    SetsBooked(net, b.sets, Amount(b.vmt, b.vht, 0.0, b.loss - back, stops), k.bookings, tick);
    if c.tracking {
      TakeOut(b.trips, id);
      PutIn(b.trips, id, b.trips[id].(dist := b.trips[id].dist + k.dist));
    }
  }

  lemma {:induction false} RefundsKeep(net: Network, c: Config, b: Books, ids: seq<nat>, n: nat, tick: nat, stops: nat)
    requires net.Valid() && tick > 0 && Balanced(net, c, b, stops, 0.0) && KeysMatch(c, b)
    requires n <= |ids| && forall i | 0 <= i < |ids| :: ids[i] in b.last
    ensures var r := RefundAll(net, c, b, ids, n, tick);
      Balanced(net, c, r, stops, Backs(net, b.last, ids, n)) && KeysMatch(c, r)
  {
    hide RefundOne, SetsMatch, TripTotal, KeysMatch, HorizonTick, SetsShaped;
    if n > 0 {
      RefundsKeep(net, c, b, ids, n - 1, tick, stops);
      RefundKeeps(net, c, RefundAll(net, c, b, ids, n - 1, tick), ids[n - 1], tick, stops, Backs(net, b.last, ids, n - 1));
    }
  }

  lemma HorizonsClosed(net: Network, sets: seq<MetricSet>, a: Amount, tick: nat)
    requires SetsMatch(net, sets, a)
    ensures SetsMatch(net, CloseHorizons(sets, tick), a)
  {
    hide Total;
    forall i | 0 <= i < |sets|
      ensures var r := CloseHorizon(sets[i], tick); Total(r) == Total(sets[i]) && (Everything(net, r) ==> Everything(net, sets[i]))
    {
      CloseHorizonTotal(sets[i], tick);
    }
  }

  /** Emitting the open trips moves them to the records and leaves none. */
  lemma {:induction false} EmitAllKeeps(b: Books, tick: nat)
    ensures var r := EmitAll(b, tick);
      TripTotal(r) == TripTotal(b) && r == b.(trips := map[], records := r.records)
    decreases |b.trips|
  {
    hide OpenTotal, RecordTotal;
    if b.trips != map[] {
      var id := Least(b.trips.Keys);
      Smaller(b.trips, id);
      TakeOut(b.trips, id);
      RecordAdded(b, TripRecord(id, b.trips[id], tick, false, false));
      EmitAllKeeps(EmitOpen(b, id, tick), tick);
    }
  }

  /** At the horizon: no trip stays open, the emitted trips add up to the distance and loss of
      the run, and the whole-network sets to its distance and time, and to its loss short of
      what was refunded. */
  lemma FinalizeBalances(net: Network, c: Config, b: Books, tick: nat, stops: nat)
    requires net.Valid() && tick > 0 && Balanced(net, c, b, stops, 0.0) && KeysMatch(c, b)
    ensures var f := Finalize(net, c, b, tick);
      && f.trips == map[] && f.loss == b.loss
      && (c.tracking ==> RecordTotal(f.records) == Amount(f.vmt, 0.0, 0.0, f.loss, stops))
      && SetsMatch(net, f.sets, Amount(f.vmt, f.vht, 0.0, f.loss - Backs(net, b.last, LastIds(b), |LastIds(b)|), stops))
  {
    hide RefundAll, SetsMatch, EmitAll, RecordTotal, SetsShaped, LastIds, Backs;
    var ids := LastIds(b);
    RefundsKeep(net, c, b, ids, |ids|, tick, stops);
    RefundsShape(net, c, b, ids, |ids|, tick);
    RefundsLoss(net, c, b, ids, |ids|, tick);
    var r := RefundAll(net, c, b, ids, |ids|, tick);
    var closed := r.(sets := CloseHorizons(r.sets, tick));
    HorizonsClosed(net, r.sets, Amount(r.vmt, r.vht, 0.0, r.loss - Backs(net, b.last, ids, |ids|), stops), tick);
    EmitAllKeeps(closed, tick);
    NoneOpen(EmitAll(closed, tick));
  }

  lemma {:induction false} RefundsLoss(net: Network, c: Config, b: Books, ids: seq<nat>, n: nat, tick: nat)
    requires net.Valid() && LastValid(net, b.last) && n <= |ids| && forall i | 0 <= i < |ids| :: ids[i] in b.last
    ensures RefundAll(net, c, b, ids, n, tick).loss == b.loss
  {
    hide HorizonTick, BookSets;
    if n > 0 {
      RefundsLoss(net, c, b, ids, n - 1, tick);
    }
  }

  lemma NoneOpen(b: Books)
    requires b.trips == map[]
    ensures TripTotal(b) == RecordTotal(b.records)
  {
  }

  // ---------------------------------------------------------------- what is emitted

  /** Emitted intervals alone. */
  function Emitted(s: MetricSet): Amount {
    SumRounds(s.closed)
  }

  /** The refunds of the horizon reach the emitted intervals exactly when an interval is still
      open there: one that closed at the horizon tick itself was emitted before them. */
  lemma EmittedMissesRefunds(s: MetricSet, log: seq<seq<Booking>>, refunds: seq<Booking>)
    requires Measuring(s, log) && s.beginTick < |log|
    ensures BookedAll(s, refunds, |log|).Shaped()
    ensures var r := BookedAll(s, refunds, |log|);
      Emitted(CloseHorizon(r, |log|)) == if s.openFirst <= Seen(s, |log|) then Total(r) else Total(s)
  {
    hide Plus, SumAmounts, SumRounds, RoundsMeasure, Tiled, Measured;
    BookedAllShaped(s, refunds, |log|);
    var r := BookedAll(s, refunds, |log|);
    if s.openFirst <= Seen(s, |log|) {
      ClosedIsAll(r, r.openFirst - 1, Seen(s, |log|), true);
    } else {
      OpenByEnd(s, log);
      forall i | 0 <= i < |s.lanes| ensures Current(s)[i] == ZERO {
        NothingMeasured(log, s.lanes[i], s.openFirst - 1, Seen(s, |log|));
      }
      AllZero(Current(s));
      PlusAssociates(SumRounds(s.closed), ZERO, ZERO);
    }
  }

  /** What the horizon takes back, vehicle by vehicle. */
  function Refunds(net: Network, last: map<nat, LastObs>, ids: seq<nat>, n: nat): seq<Booking>
    requires net.Valid() && LastValid(net, last) && n <= |ids| && forall i | 0 <= i < |ids| :: ids[i] in last
  {
    if n == 0 then [] else Refunds(net, last, ids, n - 1) + HorizonTick(net, last[ids[n - 1]]).bookings
  }

  lemma {:induction false} RefundsJournal(net: Network, c: Config, b: Books, ids: seq<nat>, n: nat, tick: nat)
    requires net.Valid() && LastValid(net, b.last) && n <= |ids| && forall i | 0 <= i < |ids| :: ids[i] in b.last
    ensures var r := RefundAll(net, c, b, ids, n, tick);
      |r.sets| == |b.sets| && forall i | 0 <= i < |b.sets| :: r.sets[i] == BookedAll(b.sets[i], Refunds(net, b.last, ids, n), tick)
  {
    hide HorizonTick;
    if n > 0 {
      RefundsJournal(net, c, b, ids, n - 1, tick);
      var bs := HorizonTick(net, b.last[ids[n - 1]]).bookings;
      forall i | 0 <= i < |b.sets|
        ensures BookedAll(BookedAll(b.sets[i], Refunds(net, b.last, ids, n - 1), tick), bs, tick)
             == BookedAll(b.sets[i], Refunds(net, b.last, ids, n), tick)
      {
        BookedTwice(b.sets[i], Refunds(net, b.last, ids, n - 1), bs, tick);
      }
    }
  }

  /** A finished run: each set is its run's, with the refunds booked and the last interval
      closed. */
  lemma FinalSet(net: Network, c: Config, b: Books, tick: nat, i: nat)
    requires net.Valid() && BooksValid(net, b) && i < |b.sets|
    ensures var f := Finalize(net, c, b, tick);
      var r := BookedAll(b.sets[i], Refunds(net, b.last, LastIds(b), |LastIds(b)|), tick);
      && |f.sets| == |b.sets| && r.Shaped() && f.sets[i] == CloseHorizon(r, tick)
  {
    hide RefundAll, EmitAll, Refunds, BookedAll, CloseHorizon, LastIds;
    var ids := LastIds(b);
    RefundsJournal(net, c, b, ids, |ids|, tick);
    RefundsShape(net, c, b, ids, |ids|, tick);
    var refunded := RefundAll(net, c, b, ids, |ids|, tick);
    EmitAllKeeps(refunded.(sets := CloseHorizons(refunded.sets, tick)), tick);
  }

  /** A set at the horizon: it has emitted all that was booked to it, refunds included, if an
      interval was still open there, and else what had been booked before the refunds. */
  ghost predicate Emits(was: MetricSet, now: MetricSet, tick: nat) {
    was.Shaped() && now.Shaped() && Emitted(now) == if was.openFirst <= Seen(was, tick) then Total(now) else Total(was)
  }

  lemma FinalEmits(net: Network, c: Config, b: Books, log: seq<seq<Booking>>, i: nat)
    requires net.Valid() && BooksValid(net, b) && i < |b.sets|
    requires Measuring(b.sets[i], log) && b.sets[i].beginTick < |log|
    ensures var f := Finalize(net, c, b, |log|); |f.sets| == |b.sets| && Emits(b.sets[i], f.sets[i], |log|)
  {
    hide Measuring, BooksValid, Finalize, Refunds, BookedAll, CloseHorizon, Total, Emitted, LastIds, Seen;
    FinalSet(net, c, b, |log|, i);
    BooksLast(net, b);
    var refunds := Refunds(net, b.last, LastIds(b), |LastIds(b)|);
    EmittedMissesRefunds(b.sets[i], log, refunds);
    CloseHorizonTotal(BookedAll(b.sets[i], refunds, |log|), |log|);
  }

  lemma BooksLast(net: Network, b: Books)
    requires BooksValid(net, b)
    ensures LastValid(net, b.last) && forall i | 0 <= i < |b.sets| :: b.sets[i].Shaped()
  {
  }

  /** So it is at the end of every run, for every set. */
  lemma RunEmits(net: Network, c: Config, sets: seq<MetricSet>, vs: seq<Vehicle>, frames: seq<Frame>, i: nat)
    requires net.Valid() && OnLanesOf(net, vs) && NewSets(sets) && Consecutive(net, frames) && i < |sets|
    requires sets[i].beginTick < |frames|
    ensures BooksValid(net, NewBooks(c, sets, vs))
    ensures var r := Run(net, c, NewBooks(c, sets, vs), frames);
      var f := Finalize(net, c, r, |frames|);
      |f.sets| == |r.sets| == |sets| && Emits(r.sets[i], f.sets[i], |frames|)
  {
    hide Run, Journal, Measuring, OnGrid, BooksValid, Consecutive, OnLanesOf, Finalize, Emits;
    RunIntervals(net, c, sets, vs, frames, i);
    var b := NewBooks(c, sets, vs);
    FinalEmits(net, c, Run(net, c, b, frames), Journal(net, c, b, frames), i);
  }

  lemma NothingMeasured(log: seq<seq<Booking>>, lane: nat, lo: nat, hi: nat)
    requires hi <= lo && hi <= |log|
    ensures Measured(log, lane, lo, hi) == ZERO
  {
  }

  lemma ClosedIsAll(s: MetricSet, begin: nat, end: nat, partial: bool)
    requires s.Shaped()
    ensures SumRounds(Closed(s, begin, end, partial).closed) == Total(s)
  {
    hide Plus, SumAmounts;
    assert Closed(s, begin, end, partial).closed[..|s.closed|] == s.closed;
  }
}
