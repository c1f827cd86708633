/** Who wins a vehicle and what the winner changes, in plain terms. */
module IntentRules {
  import opened Intents

  // ---------------------------------------------------------------- the order

  /** Lexicographic order, a proper prefix first. */
  ghost predicate Earlier(a: string, b: string) {
    exists k | 0 <= k <= |a| && k <= |b| :: a[..k] == b[..k] && k < |b| && (k == |a| || a[k] < b[k])
  }

  lemma {:induction false} CompareMeans(a: string, b: string)
    ensures CompareStrings(a, b) < 0 <==> Earlier(a, b)
  {
    if a == [] || b == [] {
      assert a[..0] == b[..0];
    } else if a[0] != b[0] {
      assert a[..0] == b[..0];
      if Earlier(a, b) {
        var k :| 0 <= k <= |a| && k <= |b| && a[..k] == b[..k] && k < |b| && (k == |a| || a[k] < b[k]);
        assert k > 0 ==> a[..k][0] == b[..k][0];
      }
    } else {
      CompareMeans(a[1..], b[1..]);
      if Earlier(a, b) {
        var k :| 0 <= k <= |a| && k <= |b| && a[..k] == b[..k] && k < |b| && (k == |a| || a[k] < b[k]);
        assert k > 0;
        assert a[1..][..k - 1] == a[..k][1..] && b[1..][..k - 1] == b[..k][1..];
        assert Earlier(a[1..], b[1..]);
      }
      if Earlier(a[1..], b[1..]) {
        var k :| 0 <= k <= |a[1..]| && k <= |b[1..]| && a[1..][..k] == b[1..][..k] && k < |b[1..]|
          && (k == |a[1..]| || a[1..][k] < b[1..][k]);
        assert a[..k + 1] == [a[0]] + a[1..][..k] && b[..k + 1] == [b[0]] + b[1..][..k];
        assert a[..k + 1] == b[..k + 1];
      }
    }
  }

  /** For one vehicle: the higher grant goes first, then the earlier controller, then the
      lower sequence number. */
  ghost predicate Outranks(a: KeyedIntent, b: KeyedIntent) {
    || a.grant > b.grant
    || (a.grant == b.grant && Earlier(a.controller, b.controller))
    || (a.grant == b.grant && a.controller == b.controller && a.seqNo < b.seqNo)
  }

  lemma RankIsOrder(a: KeyedIntent, b: KeyedIntent)
    requires a.intent.vehicleId == b.intent.vehicleId
    ensures Before(a, b) <==> Outranks(a, b)
  {
    CompareMeans(a.controller, b.controller);
  }

  /** Of a queue in any order exactly one intent per vehicle takes effect, and none of its
      competitors outranks it; all of them are in the record, the others as superseded. */
  lemma QueueWinner(queue: seq<KeyedIntent>, tick: nat, vehicle: nat)
    requires Contends(queue, vehicle)
    ensures var log := Arbitrate(SortStable(queue), tick);
      && multiset(Keyed(log)) == multiset(queue)
      && exists w | 0 <= w < |log| ::
           && log[w].keyed.intent.vehicleId == vehicle && !log[w].superseded
           && forall i | 0 <= i < |log| && i != w && log[i].keyed.intent.vehicleId == vehicle ::
                log[i].superseded && !Outranks(log[i].keyed, log[w].keyed)
  {
    hide SortStable, Arbitrate, Outranks, Before;
    var q := SortStable(queue);
    SortStableSorted(queue);
    var log := Arbitrate(q, tick);
    assert Keyed(log) == q;
    StillContends(queue, q, vehicle);
    OneWinnerPerVehicle(q, tick, vehicle);
    var w :| 0 <= w < |q| && q[w].intent.vehicleId == vehicle && !log[w].superseded
      && forall i | 0 <= i < |q| && q[i].intent.vehicleId == vehicle :: !Before(q[i], q[w]) && (i != w ==> log[i].superseded);
    forall i | 0 <= i < |log| && i != w && log[i].keyed.intent.vehicleId == vehicle
      ensures log[i].superseded && !Outranks(log[i].keyed, log[w].keyed)
    {
      RankIsOrder(q[i], q[w]);
    }
  }

  lemma StillContends(p: seq<KeyedIntent>, q: seq<KeyedIntent>, vehicle: nat)
    requires multiset(p) == multiset(q) && Contends(p, vehicle)
    ensures Contends(q, vehicle)
  {
    var i :| 0 <= i < |p| && p[i].intent.vehicleId == vehicle;
    assert p[i] in multiset(q);
  }

  /** The record runs from the highest grant to the lowest, and within a grant by vehicle. */
  lemma RecordRuns(queue: seq<KeyedIntent>, tick: nat, i: nat, j: nat)
    requires i < j < |queue|
    ensures var log := Arbitrate(SortStable(queue), tick);
      && |log| == |queue| && log[i].tick == log[j].tick == tick
      && (log[i].keyed.grant > log[j].keyed.grant
          || (log[i].keyed.grant == log[j].keyed.grant && log[i].keyed.intent.vehicleId <= log[j].keyed.intent.vehicleId))
  {
    hide SortStable, Arbitrate;
    var q := SortStable(queue);
    SortStableSorted(queue);
    assert |q| == |multiset(q)| == |multiset(queue)| == |queue|;
    assert !Before(q[j], q[i]);
  }

  // ---------------------------------------------------------------- the axes

  /** One axis at a time, a winner changes what it sets and leaves the rest: a turn by its
      sign, a cruise setpoint held below desired speed, or given up by a negative one. */
  lemma AxisByAxis(v: Axes, i: Intent, v0: real)
    ensures var r := ApplyAxes(v, i, v0);
      && (if i.accelSet then r.reqAccOK && r.reqAcc == i.accel else r.reqAccOK == v.reqAccOK && r.reqAcc == v.reqAcc)
      && (if i.laneDelta == 0 then r.reqLane == v.reqLane else r.reqLane == i.laneDelta)
      && (if i.routeSet then r.route == i.route else r.route == v.route)
      && (i.speedSet && i.speedSetpoint < 0.0 ==> !r.cruiseOK && r.cruise == v.cruise)
      && (i.speedSet && 0.0 <= i.speedSetpoint ==>
            r.cruiseOK && r.cruise <= i.speedSetpoint && r.cruise <= v0 && (r.cruise == i.speedSetpoint || r.cruise == v0))
      && (!i.speedSet ==> r.cruiseOK == v.cruiseOK && r.cruise == v.cruise)
      && (if !i.turnSet then r.heldTurn == v.heldTurn
          else (r.heldTurn == 1 <==> i.turn > 0) && (r.heldTurn == -1 <==> i.turn < 0) && (r.heldTurn == 0 <==> i.turn == 0))
      && (if !i.signalSet then r.signals == v.signals
          else (0 <= i.signals <= 3 ==> r.signals == i.signals) && (i.signals < 0 ==> r.signals == 0) && (i.signals > 3 ==> r.signals == 3))
  {
  }
}
