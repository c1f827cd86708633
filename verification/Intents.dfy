/** Controller intents: the total order that arbitrates one tick boundary, the single
    winner per vehicle, and the axes a winner changes. */
module Intents {

  datatype Intent = Intent(
    vehicleId: nat,
    accel: real, accelSet: bool,
    speedSetpoint: real, speedSet: bool,
    laneDelta: int,
    turn: int, turnSet: bool,
    route: string, routeSet: bool,
    signals: int, signalSet: bool)

  datatype KeyedIntent = KeyedIntent(controller: string, seqNo: nat, grant: nat, held: bool, intent: Intent)

  /** A record of the arbitrated log; losers of their vehicle are kept, marked superseded. */
  datatype TickedIntent = TickedIntent(tick: nat, superseded: bool, keyed: KeyedIntent)

  // ---------------------------------------------------------------- the order

  function CompareStrings(a: string, b: string): (c: int)
    ensures c == 0 <==> a == b
  {
    if a == [] && b == [] then 0
    else if a == [] then -1
    else if b == [] then 1
    else if a[0] != b[0] then if a[0] < b[0] then -1 else 1
    else
      assert a == [a[0]] + a[1..] && b == [b[0]] + b[1..];
      CompareStrings(a[1..], b[1..])
  }

  lemma {:induction false} CompareAntisymmetric(a: string, b: string)
    ensures CompareStrings(a, b) < 0 <==> CompareStrings(b, a) > 0
    ensures CompareStrings(a, b) > 0 <==> CompareStrings(b, a) < 0
  {
    if a != [] && b != [] && a[0] == b[0] {
      CompareAntisymmetric(a[1..], b[1..]);
    }
  }

  lemma {:induction false} CompareTransitive(a: string, b: string, c: string)
    requires CompareStrings(a, b) <= 0 && CompareStrings(b, c) <= 0
    ensures CompareStrings(a, c) <= 0
    ensures CompareStrings(a, b) < 0 || CompareStrings(b, c) < 0 ==> CompareStrings(a, c) < 0
  {
    if a != [] && b != [] && c != [] && a[0] == b[0] && b[0] == c[0] {
      CompareTransitive(a[1..], b[1..], c[1..]);
    }
  }

  /** Grant descending, then vehicle, controller and sequence ascending. */
  predicate Before(a: KeyedIntent, b: KeyedIntent) {
    if a.grant != b.grant then a.grant > b.grant
    else if a.intent.vehicleId != b.intent.vehicleId then a.intent.vehicleId < b.intent.vehicleId
    else if a.controller != b.controller then CompareStrings(a.controller, b.controller) < 0
    else a.seqNo < b.seqNo
  }

  predicate SameKey(a: KeyedIntent, b: KeyedIntent) {
    a.grant == b.grant && a.intent.vehicleId == b.intent.vehicleId && a.controller == b.controller && a.seqNo == b.seqNo
  }

  lemma BeforeIsStrictOrder(a: KeyedIntent, b: KeyedIntent)
    ensures !(Before(a, b) && Before(b, a))
    ensures SameKey(a, b) <==> !Before(a, b) && !Before(b, a)
  {
    CompareAntisymmetric(a.controller, b.controller);
  }

  lemma NotBeforeTransitive(a: KeyedIntent, b: KeyedIntent, c: KeyedIntent)
    requires !Before(b, a) && !Before(c, b)
    ensures !Before(c, a)
  {
    CompareAntisymmetric(a.controller, b.controller);
    CompareAntisymmetric(b.controller, c.controller);
    CompareAntisymmetric(a.controller, c.controller);
    if a.controller != b.controller && b.controller != c.controller
       && CompareStrings(a.controller, b.controller) <= 0 && CompareStrings(b.controller, c.controller) <= 0 {
      CompareTransitive(a.controller, b.controller, c.controller);
    }
  }

  ghost predicate Sorted(q: seq<KeyedIntent>) {
    forall i, j | 0 <= i < j < |q| :: !Before(q[j], q[i])
  }

  // ---------------------------------------------------------------- stable sort

  /** Puts x behind every entry that it does not come before. */
  function Insert(q: seq<KeyedIntent>, x: KeyedIntent): (r: seq<KeyedIntent>)
    ensures multiset(r) == multiset(q) + multiset{x}
  {
    if q == [] then [x]
    else
      var n := |q| - 1;
      assert q == q[..n] + [q[n]];
      if Before(x, q[n]) then Insert(q[..n], x) + [q[n]] else q + [x]
  }

  /** The stable sort the engine applies to its queue. */
  function SortStable(q: seq<KeyedIntent>): (r: seq<KeyedIntent>)
    ensures multiset(r) == multiset(q)
  {
    if q == [] then []
    else
      var n := |q| - 1;
      assert q == q[..n] + [q[n]];
      Insert(SortStable(q[..n]), q[n])
  }

  lemma {:induction false} InsertSorted(q: seq<KeyedIntent>, x: KeyedIntent)
    requires Sorted(q)
    ensures Sorted(Insert(q, x))
  {
    if q != [] {
      var n := |q| - 1;
      BeforeIsStrictOrder(x, q[n]);
      if Before(x, q[n]) {
        InsertSorted(q[..n], x);
        var r := Insert(q[..n], x);
        forall i | 0 <= i < |r| ensures !Before(q[n], r[i]) {
          assert r[i] in multiset(r);
          assert r[i] == x || r[i] in q[..n];
        }
      } else {
        forall i | 0 <= i < |q| ensures !Before(x, q[i]) {
          NotBeforeTransitive(q[i], q[n], x);
        }
      }
    }
  }

  lemma {:induction false} SortStableSorted(q: seq<KeyedIntent>)
    ensures Sorted(SortStable(q))
  {
    if q != [] {
      SortStableSorted(q[..|q| - 1]);
      InsertSorted(SortStable(q[..|q| - 1]), q[|q| - 1]);
    }
  }

  /** Sorting what is sorted changes nothing - which is why a replay may enqueue the log in
      log order. */
  lemma {:induction false} SortStableFixed(q: seq<KeyedIntent>)
    requires Sorted(q)
    ensures SortStable(q) == q
  {
    if q != [] {
      var n := |q| - 1;
      SortStableFixed(q[..n]);
      assert q == q[..n] + [q[n]];
      if n > 0 {
        assert !Before(q[n], q[n - 1]);
      }
    }
  }

  ghost predicate DistinctKeys(q: seq<KeyedIntent>) {
    forall i, j | 0 <= i < j < |q| :: !SameKey(q[i], q[j])
  }

  lemma SameGreatest(a: seq<KeyedIntent>, b: seq<KeyedIntent>)
    requires Sorted(a) && Sorted(b) && DistinctKeys(b) && |a| == |b| > 0
    requires forall x | x in a :: x in b
    requires forall x | x in b :: x in a
    ensures a[|a| - 1] == b[|b| - 1]
  {
    var n := |a| - 1;
    assert a[n] in b && b[n] in a;
    var i :| 0 <= i <= n && b[i] == a[n];
    var j :| 0 <= j <= n && a[j] == b[n];
    BeforeIsStrictOrder(a[n], b[n]);
  }

  lemma SameElements(a: seq<KeyedIntent>, b: seq<KeyedIntent>)
    requires multiset(a) == multiset(b)
    ensures |a| == |b|
    ensures forall x | x in a :: x in b
    ensures forall x | x in b :: x in a
  {
    assert |a| == |multiset(a)| == |multiset(b)| == |b|;
    forall x | x in a ensures x in b {
      assert x in multiset(a);
    }
    forall x | x in b ensures x in a {
      assert x in multiset(b);
    }
  }

  lemma DropLast(a: seq<KeyedIntent>)
    requires a != []
    ensures multiset(a[..|a| - 1]) == multiset(a) - multiset{a[|a| - 1]}
  {
    assert a == a[..|a| - 1] + [a[|a| - 1]];
  }

  lemma {:induction false} SortedUnique(a: seq<KeyedIntent>, b: seq<KeyedIntent>)
    requires Sorted(a) && Sorted(b) && multiset(a) == multiset(b) && DistinctKeys(a) && DistinctKeys(b)
    ensures a == b
  {
    SameElements(a, b);
    if a != [] {
      var n := |a| - 1;
      assert a[n] == b[n] by {
        SameGreatest(a, b);
      }
      var p, r := a[..n], b[..n];
      assert multiset(p) == multiset(r) by {
        DropLast(a);
        DropLast(b);
      }
      SortedUnique(p, r);
      assert a == p + [a[n]] && b == r + [b[n]];
    }
  }

  lemma DistinctIsMultiset(a: seq<KeyedIntent>, b: seq<KeyedIntent>)
    requires multiset(a) == multiset(b) && DistinctKeys(a)
    ensures DistinctKeys(b)
  {
    forall i, j | 0 <= i < j < |b| ensures !SameKey(b[i], b[j]) {
      if b[i] == b[j] {
        TwiceInSeq(b, i, j);
        OnceInDistinct(a, b[i]);
      } else {
        assert b[i] in multiset(a) && b[j] in multiset(a);
        var k :| 0 <= k < |a| && a[k] == b[i];
        var m :| 0 <= m < |a| && a[m] == b[j];
        assert !SameKey(a[if k < m then k else m], a[if k < m then m else k]);
      }
    }
  }

  lemma TwiceInSeq<T>(b: seq<T>, i: nat, j: nat)
    requires i < j < |b| && b[i] == b[j]
    ensures multiset(b)[b[i]] >= 2
  {
    assert b == b[..j] + [b[j]] + b[j + 1..];
    assert b[..j] == b[..i] + [b[i]] + b[i + 1..j];
  }

  lemma {:induction false} OnceInDistinct(a: seq<KeyedIntent>, x: KeyedIntent)
    requires DistinctKeys(a)
    ensures multiset(a)[x] <= 1
  {
    if a != [] {
      var n := |a| - 1;
      assert a == a[..n] + [a[n]];
      OnceInDistinct(a[..n], x);
      if x == a[n] {
        assert x !in a[..n] by {
          assert forall k | 0 <= k < n :: !SameKey(a[k], a[n]);
        }
      }
    }
  }

  // ---------------------------------------------------------------- arbitration

  predicate Contends(q: seq<KeyedIntent>, vehicle: nat) {
    exists i | 0 <= i < |q| :: q[i].intent.vehicleId == vehicle
  }

  /** The record of a sorted queue: the first entry of each vehicle wins. */
  function Arbitrate(q: seq<KeyedIntent>, tick: nat): (r: seq<TickedIntent>)
    ensures |r| == |q|
    ensures forall i | 0 <= i < |q| :: r[i] == TickedIntent(tick, Contends(q[..i], q[i].intent.vehicleId), q[i])
  {
    if q == [] then []
    else
      var n := |q| - 1;
      var r := Arbitrate(q[..n], tick);
      assert forall i | 0 <= i < n :: q[..n][..i] == q[..i];
      r + [TickedIntent(tick, Contends(q[..n], q[n].intent.vehicleId), q[n])]
  }

  function Keyed(log: seq<TickedIntent>): (q: seq<KeyedIntent>)
    ensures |q| == |log| && forall i | 0 <= i < |log| :: q[i] == log[i].keyed
  {
    seq(|log|, i requires 0 <= i < |log| => log[i].keyed)
  }

  /** The intents that take effect, in order. */
  function Winners(log: seq<TickedIntent>): seq<Intent> {
    if log == [] then []
    else
      var n := |log| - 1;
      Winners(log[..n]) + if log[n].superseded then [] else [log[n].keyed.intent]
  }

  /** Every vehicle with an intent has exactly one winner, and no competitor comes before
      it: not a higher grant, nor, at equal grant, an earlier controller or sequence. */
  lemma OneWinnerPerVehicle(q: seq<KeyedIntent>, tick: nat, vehicle: nat)
    requires Sorted(q) && Contends(q, vehicle)
    ensures var r := Arbitrate(q, tick);
      exists w | 0 <= w < |q| ::
        && q[w].intent.vehicleId == vehicle
        && !r[w].superseded
        && forall i | 0 <= i < |q| && q[i].intent.vehicleId == vehicle :: !Before(q[i], q[w]) && (i != w ==> r[i].superseded)
  {
    var w := FirstOf(q, vehicle);
    var r := Arbitrate(q, tick);
    forall i | 0 <= i < |q| && q[i].intent.vehicleId == vehicle
      ensures !Before(q[i], q[w]) && (i != w ==> r[i].superseded)
    {
      if i != w {
        assert q[..i][w] == q[w];
      } else {
        BeforeIsStrictOrder(q[i], q[w]);
      }
    }
  }

  lemma {:induction false} FirstOf(q: seq<KeyedIntent>, vehicle: nat) returns (w: nat)
    requires Contends(q, vehicle)
    ensures w < |q| && q[w].intent.vehicleId == vehicle
    ensures forall i | 0 <= i < w :: q[i].intent.vehicleId != vehicle
  {
    if q[0].intent.vehicleId == vehicle {
      w := 0;
    } else {
      var i :| 0 <= i < |q| && q[i].intent.vehicleId == vehicle;
      assert q[1..][i - 1] == q[i];
      var v := FirstOf(q[1..], vehicle);
      w := v + 1;
      forall k | 0 <= k < w ensures q[k].intent.vehicleId != vehicle {
        if k > 0 {
          assert q[k] == q[1..][k - 1];
        }
      }
    }
  }

  /** With pairwise distinct keys the outcome does not depend on arrival order: any
      permutation of the queue leaves the same log and the same winners. */
  lemma PermutationInvariant(p: seq<KeyedIntent>, q: seq<KeyedIntent>, tick: nat)
    requires multiset(p) == multiset(q) && DistinctKeys(p)
    ensures Arbitrate(SortStable(p), tick) == Arbitrate(SortStable(q), tick)
  {
    DistinctIsMultiset(p, q);
    SortStableSorted(p);
    SortStableSorted(q);
    DistinctIsMultiset(p, SortStable(p));
    DistinctIsMultiset(q, SortStable(q));
    SortedUnique(SortStable(p), SortStable(q));
  }

  /** Re-enqueuing a recorded tick reproduces the record. */
  lemma ArbitrateReplays(q: seq<KeyedIntent>, tick: nat)
    ensures var log := Arbitrate(SortStable(q), tick);
            Arbitrate(SortStable(Keyed(log)), tick) == log
  {
    var s := SortStable(q);
    SortStableSorted(q);
    assert Keyed(Arbitrate(s, tick)) == s;
    SortStableFixed(s);
  }

  /** The world after the winners took effect, in order. */
  function ApplyWinners<W>(apply: (W, nat, Intent) -> W, world: W, log: seq<TickedIntent>, tick: nat): W {
    if log == [] then world
    else
      var n := |log| - 1;
      var w := ApplyWinners(apply, world, log[..n], tick);
      if log[n].superseded then w else apply(w, tick, log[n].keyed.intent)
  }

  class IntentQueue<W> {
    var intentQ: seq<KeyedIntent>
    var applied: seq<TickedIntent>
    var intentLog: seq<TickedIntent>

    constructor ()
      ensures intentQ == [] && applied == [] && intentLog == []
    {
      intentQ, applied, intentLog := [], [], [];
    }

    method EnqueueIntent(k: KeyedIntent)
      modifies this`intentQ
      ensures intentQ == old(intentQ) + [k]
    {
      intentQ := intentQ + [k];
    }

    /** Records the sorted queue: the first intent of each vehicle wins and takes effect. */
    method ApplySorted(apply: (W, nat, Intent) -> W, world0: W, tick: nat) returns (world: W)
      requires applied == []
      modifies this`applied, this`intentLog
      ensures applied == Arbitrate(intentQ, tick)
      ensures intentLog == old(intentLog) + applied
      ensures world == ApplyWinners(apply, world0, applied, tick)
    {
      world := world0;
      var won: set<nat> := {};
      var q := intentQ;
      assert q[..0] == [];
      for i := 0 to |q|
        invariant applied == Arbitrate(q[..i], tick)
        invariant intentLog == old(intentLog) + applied
        invariant WonBy(won, q[..i])
        invariant world == ApplyWinners(apply, world0, applied, tick)
      {
        var id := q[i].intent.vehicleId;
        var superseded := id in won;
        ArbitrateStep(apply, world0, q, i, tick);
        ContendsStep(q, i);
        if !superseded {
          won := won + {id};
          world := apply(world, tick, q[i].intent);
        }
        var entry := TickedIntent(tick, superseded, q[i]);
        applied := applied + [entry];
        intentLog := intentLog + [entry];
      }
      assert q[..|q|] == q;
    }

    /** Empties the queue; every intent in it is recorded. */
    method ApplyIntents(apply: (W, nat, Intent) -> W, world0: W, tick: nat) returns (world: W)
      modifies this
      ensures intentQ == [] && applied == Arbitrate(SortStable(old(intentQ)), tick)
      ensures intentLog == old(intentLog) + applied
      ensures world == ApplyWinners(apply, world0, applied, tick)
    {
      applied := [];
      if |intentQ| == 0 {
        return world0;
      }
      intentQ := SortStable(intentQ);
      world := ApplySorted(apply, world0, tick);
      intentQ := [];
    }
  }

  lemma ArbitrateStep<W>(apply: (W, nat, Intent) -> W, world: W, q: seq<KeyedIntent>, i: nat, tick: nat)
    requires i < |q|
    ensures var a := Arbitrate(q[..i], tick);
      var lost := Contends(q[..i], q[i].intent.vehicleId);
      && Arbitrate(q[..i + 1], tick) == a + [TickedIntent(tick, lost, q[i])]
      && ApplyWinners(apply, world, a + [TickedIntent(tick, lost, q[i])], tick)
         == if lost then ApplyWinners(apply, world, a, tick) else apply(ApplyWinners(apply, world, a, tick), tick, q[i].intent)
  {
    assert q[..i + 1][..i] == q[..i];
    var a := Arbitrate(q[..i], tick);
    assert (a + [TickedIntent(tick, Contends(q[..i], q[i].intent.vehicleId), q[i])])[..i] == a;
  }

  /** The vehicles that already have a winner. */
  ghost predicate WonBy(won: set<nat>, q: seq<KeyedIntent>) {
    forall id: nat :: id in won <==> Contends(q, id)
  }

  lemma ContendsStep(q: seq<KeyedIntent>, i: nat)
    requires i < |q|
    ensures forall won: set<nat> | WonBy(won, q[..i]) :: WonBy(won + {q[i].intent.vehicleId}, q[..i + 1])
    ensures forall won: set<nat> | WonBy(won, q[..i]) && q[i].intent.vehicleId in won :: WonBy(won, q[..i + 1])
  {
    forall id: nat ensures Contends(q[..i + 1], id) <==> Contends(q[..i], id) || id == q[i].intent.vehicleId {
      if Contends(q[..i], id) {
        var k :| 0 <= k < i && q[..i][k].intent.vehicleId == id;
        assert q[..i + 1][k] == q[..i][k];
      }
      if id == q[i].intent.vehicleId {
        assert q[..i + 1][i] == q[i];
      }
      if Contends(q[..i + 1], id) && id != q[i].intent.vehicleId {
        var k :| 0 <= k < i + 1 && q[..i + 1][k].intent.vehicleId == id;
        assert q[..i][k] == q[k];
      }
    }
  }

  // ---------------------------------------------------------------- axes

  /** Controller state carried by a vehicle. */
  datatype Axes = Axes(
    reqAcc: real, reqAccOK: bool, reqLane: int,
    cruise: real, cruiseOK: bool, heldTurn: int, signals: int, route: string)

  function ClampDir(d: int): int {
    if d > 0 then 1 else if d < 0 then -1 else 0
  }

  function ClampSignals(s: int): int {
    if s < 0 then 0 else if s > 3 then 3 else s
  }

  /** Applies the axes an intent sets; `v0` is the vehicle's desired speed on its lane. */
  function ApplyAxes(v: Axes, i: Intent, v0: real): Axes {
    v.(
      reqAcc := if i.accelSet then i.accel else v.reqAcc,
      reqAccOK := i.accelSet || v.reqAccOK,
      cruise := if i.speedSet && i.speedSetpoint >= 0.0 then (if i.speedSetpoint > v0 then v0 else i.speedSetpoint) else v.cruise,
      cruiseOK := if i.speedSet then i.speedSetpoint >= 0.0 else v.cruiseOK,
      reqLane := if i.laneDelta != 0 then i.laneDelta else v.reqLane,
      heldTurn := if i.turnSet then ClampDir(i.turn) else v.heldTurn,
      route := if i.routeSet then i.route else v.route,
      signals := if i.signalSet then ClampSignals(i.signals) else v.signals)
  }

  /** What every run keeps of the axes: turns and signals stay in their alphabets, a held
      cruise setpoint is never negative where desired speeds are not. */
  predicate AxesInRange(v: Axes) {
    -1 <= v.heldTurn <= 1 && 0 <= v.signals <= 3 && (v.cruiseOK ==> v.cruise >= 0.0)
  }

  lemma AxesStayInRange(v: Axes, i: Intent, v0: real)
    requires AxesInRange(v) && v0 >= 0.0
    ensures AxesInRange(ApplyAxes(v, i, v0))
    ensures i.speedSet && ApplyAxes(v, i, v0).cruiseOK ==> ApplyAxes(v, i, v0).cruise <= v0
  {
  }
}
