/** The travel-time estimates in plain terms: what a dwell teaches, how an estimate forgets, and
    when the weights are frozen. */
module RouteRules {
  import opened LaneGraph
  import opened Reroute
  import opened RouteCache

  /** Seconds to cross a lane at its limit; without a limit, at a metre a second. */
  function EmptySeconds(rules: Rules, lane: nat): real
    requires lane < |rules.net.lanes|
  {
    var l := rules.net.lanes[lane];
    if l.speedLimit > 0.0 then l.length / l.speedLimit else l.length
  }

  /** Leaving a lane moves its estimate to seven eighths of itself and an eighth of the dwell,
      where a dwell counts for no less than free flow and, with the strand cap on, for no more
      than the cap unless free flow is slower; nothing else changes. */
  lemma LeaveTeaches(rules: Rules, t: Times, lane: nat, entryTick: nat) returns (sample: real)
    requires rules.adaptive && lane < |rules.net.lanes| == |t.ttEMA| && entryTick <= t.tick
    ensures var r, ff, dwell := Left(rules, t, lane, entryTick), EmptySeconds(rules, lane), (t.tick - entryTick) as real * rules.dt;
      && r == t.(ttEMA := t.ttEMA[lane := (7.0 * t.ttEMA[lane] + sample) / 8.0])
      && sample >= ff
      && (rules.strandAfterS <= 0.0 || dwell <= rules.strandAfterS ==> sample >= dwell && (sample == dwell || sample == ff))
      && (rules.strandAfterS > 0.0 && dwell > rules.strandAfterS ==> sample >= rules.strandAfterS && (sample == rules.strandAfterS || sample == ff))
  {
    sample := Sample(rules, lane, t.tick - entryTick);
    var x := t.ttEMA[lane];
    assert x + (sample - x) / 8.0 == (7.0 * x + sample) / 8.0;
    assert FreeFlow(rules.net)[lane] == EmptySeconds(rules, lane);
  }

  /** A tick takes one part in relaxTicks off the distance of every estimate to free flow, and
      freezes the weights at a multiple of the epoch and only there. */
  lemma TickForgets(rules: Rules, t: Times, i: nat)
    requires rules.adaptive && rules.relaxTicks >= 1.0 && rules.epochTicks >= 1 && i < |rules.net.lanes| == |t.ttEMA|
    ensures var r, ff := Begun(rules, t), EmptySeconds(rules, i);
      && r.tick == t.tick + 1 && |r.ttEMA| == |t.ttEMA|
      && (r.ttEMA[i] - ff) * rules.relaxTicks == (t.ttEMA[i] - ff) * (rules.relaxTicks - 1.0)
      && (if r.tick % rules.epochTicks == 0 then r.ttSnap == r.ttEMA else r.ttSnap == t.ttSnap)
  {
    var x, ff, k := t.ttEMA[i], EmptySeconds(rules, i), rules.relaxTicks;
    assert FreeFlow(rules.net)[i] == ff;
    var q := (ff - x) / k;
    assert q * k == ff - x;
    assert (x + q - ff) * k == (x - ff) * k + q * k;
    assert (x - ff) * (k - 1.0) == (x - ff) * k - (x - ff);
  }

  function Power(x: real, n: nat): real {
    if n == 0 then 1.0 else x * Power(x, n - 1)
  }

  /** The state after n ticks in which nobody leaves a lane. */
  function Quiet(rules: Rules, t: Times, n: nat): (r: Times)
    requires rules.adaptive && rules.relaxTicks >= 1.0 && rules.epochTicks >= 1 && |rules.net.lanes| == |t.ttEMA|
    ensures |r.ttEMA| == |t.ttEMA| && r.tick == t.tick + n
  {
    if n == 0 then t else Begun(rules, Quiet(rules, t, n - 1))
  }

  /** Congestion that nobody renews is forgotten geometrically. */
  lemma {:induction false} QuietForgets(rules: Rules, t: Times, n: nat, i: nat)
    requires rules.adaptive && rules.relaxTicks >= 1.0 && rules.epochTicks >= 1 && i < |rules.net.lanes| == |t.ttEMA|
    ensures var ff, k := EmptySeconds(rules, i), rules.relaxTicks;
      (Quiet(rules, t, n).ttEMA[i] - ff) * Power(k, n) == (t.ttEMA[i] - ff) * Power(k - 1.0, n)
  {
    hide EmptySeconds, Begun;
    if n > 0 {
      QuietForgets(rules, t, n - 1, i);
      var before := Quiet(rules, t, n - 1);
      TickForgets(rules, before, i);
      var ff, k := EmptySeconds(rules, i), rules.relaxTicks;
      Compound(Quiet(rules, t, n).ttEMA[i] - ff, before.ttEMA[i] - ff, t.ttEMA[i] - ff, k, Power(k, n - 1), Power(k - 1.0, n - 1));
    }
  }

  lemma Compound(c: real, b: real, a: real, k: real, p: real, q: real)
    requires c * k == b * (k - 1.0) && b * p == a * q
    ensures c * (k * p) == a * ((k - 1.0) * q)
  {
    assert c * (k * p) == c * k * p;
    assert b * (k - 1.0) * p == b * p * (k - 1.0);
    assert a * q * (k - 1.0) == a * ((k - 1.0) * q);
  }
}
