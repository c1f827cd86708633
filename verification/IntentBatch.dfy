/** TSLB: a tick's intent records in one message, or in several consecutive ones when they
    outgrow the byte budget. */
module IntentBatch {
  import opened Wire
  import opened IntentRecord

  const MAGIC := 0x424c5354
  const VERSION := 1
  const HEADER_BYTES := 18
  const HEADER := [Int(4), Int(1), Int(1), Int(4), Int(8)]

  function HeaderRow(count: nat, tick: nat): seq<Item> {
    [Num(MAGIC), Num(VERSION), Num(0), Num(count), Num(tick)]
  }

  ghost predicate AllRecordable(ts: seq<Logged>, tick: nat) {
    forall i | 0 <= i < |ts| :: Recordable(ts[i]) && ts[i].tick == tick
  }

  function Records(ts: seq<Logged>): Bytes
    requires forall i | 0 <= i < |ts| :: Recordable(ts[i])
  {
    if ts == [] then [] else Records(ts[..|ts| - 1]) + Encode(ts[|ts| - 1])
  }

  lemma HeaderFits(count: nat, tick: nat)
    requires count < Pow256(4) && tick < Pow256(8)
    ensures RowFits(HEADER, HeaderRow(count, tick))
  {
    assert Pow256(0) == 1 && Pow256(1) == 256 && Pow256(2) == 65536 && Pow256(3) == 0x100_0000 && Pow256(4) == 0x1_0000_0000;
  }

  function Header(count: nat, tick: nat): Bytes
    requires count < Pow256(4) && tick < Pow256(8)
  {
    HeaderFits(count, tick);
    EncodeRow(HEADER, HeaderRow(count, tick))
  }

  /** One message. */
  function Batch(ts: seq<Logged>, tick: nat): Bytes
    requires AllRecordable(ts, tick) && |ts| < Pow256(4) && tick < Pow256(8)
  {
    Header(|ts|, tick) + Records(ts)
  }

  // ---------------------------------------------------------------- reading

  /** n records, each of the batch's tick. */
  function DecodeRecords(n: nat, tick: nat, b: Bytes): (r: Parse<seq<Logged>>)
    ensures r.Got? ==> |r.value| == n
  {
    if n == 0 then Got([], b)
    else
      var t := DecodeAt(b);
      if t.Fail? || t.value.tick != tick then Fail
      else
        var ts := DecodeRecords(n - 1, tick, t.rest);
        if ts.Fail? then Fail else Got([t.value] + ts.value, ts.rest)
  }

  datatype Decoded = Malformed | Intents(ts: seq<Logged>)

  predicate HeaderOK(row: seq<Item>) {
    NumAt(row, 0) == MAGIC && NumAt(row, 1) == VERSION && NumAt(row, 2) == 0
  }

  /** Strict: a wrong header, a count the bytes cannot hold, a record of another tick, or
      trailing bytes make the whole message malformed. */
  function DecodeTSLB(b: Bytes): Decoded {
    var row := DecodeRow(HEADER, b);
    if row.Fail? || !HeaderOK(row.value) || NumAt(row.value, 3) > |row.rest| / RECORD_MIN then Malformed
    else
      var ts := DecodeRecords(NumAt(row.value, 3), NumAt(row.value, 4), row.rest);
      if ts.Got? && ts.rest == [] then Intents(ts.value) else Malformed
  }

  function SentAll(ts: seq<Logged>): (r: seq<Logged>)
    ensures |r| == |ts| && forall i | 0 <= i < |ts| :: r[i] == Sent(ts[i])
  {
    seq(|ts|, i requires 0 <= i < |ts| => Sent(ts[i]))
  }

  lemma {:induction false} RecordsSplit(a: seq<Logged>, b: seq<Logged>)
    requires forall i | 0 <= i < |a| :: Recordable(a[i])
    requires forall i | 0 <= i < |b| :: Recordable(b[i])
    ensures Records(a + b) == Records(a) + Records(b)
  {
    hide Recordable, Encode;
    if b == [] {
      assert a + b == a;
    } else {
      var n := |b| - 1;
      RecordsSplit(a, b[..n]);
      assert (a + b)[..|a + b| - 1] == a + b[..n];
    }
  }

  lemma {:induction false} RecordsReadBack(ts: seq<Logged>, tick: nat, rest: Bytes)
    requires AllRecordable(ts, tick)
    ensures DecodeRecords(|ts|, tick, Records(ts) + rest) == Got(SentAll(ts), rest)
    decreases |ts|
  {
    hide Recordable, Encode, DecodeAt, Records, Sent;
    FirstRecord(ts, rest);
    if ts != [] {
      RecordReadsBack(ts[0], Records(ts[1..]) + rest);
      RecordsReadBack(ts[1..], tick, rest);
      SentTick(ts[0]);
      assert SentAll(ts) == [Sent(ts[0])] + SentAll(ts[1..]);
    }
  }

  lemma SentTick(t: Logged)
    ensures Sent(t).tick == t.tick
  {
  }

  lemma FirstRecord(ts: seq<Logged>, rest: Bytes)
    requires forall i | 0 <= i < |ts| :: Recordable(ts[i])
    ensures Records(ts) + rest == if ts == [] then rest else Encode(ts[0]) + (Records(ts[1..]) + rest)
  {
    hide Recordable, Encode, Records;
    if ts == [] {
      NoRecords();
      assert [] + rest == rest;
    } else {
      assert ts == [ts[0]] + ts[1..];
      RecordsSplit([ts[0]], ts[1..]);
      OneRecord(ts[0]);
      Regroup(Encode(ts[0]), Records(ts[1..]), rest);
    }
  }

  lemma NoRecords()
    ensures Records([]) == []
  {
  }

  lemma OneRecord(t: Logged)
    requires Recordable(t)
    ensures Records([t]) == Encode(t)
  {
    hide Recordable, Encode;
    assert [t][..0] == [];
    assert [] + Encode(t) == Encode(t);
  }

  lemma Regroup(a: Bytes, b: Bytes, c: Bytes)
    ensures (a + b) + c == a + (b + c)
  {
  }

  lemma {:induction false} RecordsSize(ts: seq<Logged>)
    requires forall i | 0 <= i < |ts| :: Recordable(ts[i])
    ensures |Records(ts)| >= RECORD_MIN * |ts|
  {
    hide Recordable, Encode;
    if ts != [] {
      RecordsSize(ts[..|ts| - 1]);
      RecordSize(ts[|ts| - 1]);
    }
  }

  /** A message reads back as the records it was written with. */
  lemma BatchReadsBack(ts: seq<Logged>, tick: nat)
    requires AllRecordable(ts, tick) && |ts| < Pow256(4) && tick < Pow256(8)
    ensures DecodeTSLB(Batch(ts, tick)) == Intents(SentAll(ts))
  {
    hide EncodeRow, DecodeRow, Records, DecodeRecords, Recordable;
    HeaderFits(|ts|, tick);
    RowRoundTrip(HEADER, HeaderRow(|ts|, tick), Records(ts));
    RecordsSize(ts);
    RecordsReadBack(ts, tick, []);
    assert Records(ts) + [] == Records(ts);
  }

  lemma {:induction false} RecordsExtend(n: nat, tick: nat, b: Bytes, more: Bytes)
    requires DecodeRecords(n, tick, b).Got?
    ensures DecodeRecords(n, tick, b + more) == Got(DecodeRecords(n, tick, b).value, DecodeRecords(n, tick, b).rest + more)
  {
    hide LoggedOf, DecodeRow;
    if n > 0 {
      RowExtends(INTENT, b, more);
      RecordsExtend(n - 1, tick, DecodeAt(b).rest, more);
    }
  }

  /** A message cut short, or with bytes after it, is malformed. */
  lemma OnlyWholeMessages(b: Bytes, more: Bytes)
    requires more != []
    ensures !(DecodeTSLB(b).Intents? && DecodeTSLB(b + more).Intents?)
  {
    hide DecodeRow, DecodeRecords;
    if DecodeTSLB(b).Intents? {
      var row := DecodeRow(HEADER, b);
      RowExtends(HEADER, b, more);
      RecordsExtend(NumAt(row.value, 3), NumAt(row.value, 4), row.rest, more);
    }
  }

  // ---------------------------------------------------------------- writing

  function Concat(groups: seq<seq<Logged>>): seq<Logged> {
    if groups == [] then [] else Concat(groups[..|groups| - 1]) + groups[|groups| - 1]
  }

  /** The messages of a tick: a batch for each group, no group empty. */
  ghost predicate Written(msgs: seq<Bytes>, groups: seq<seq<Logged>>, tick: nat)
    requires tick < Pow256(8)
  {
    && |msgs| == |groups|
    && forall i | 0 <= i < |groups| ::
         groups[i] != [] && AllRecordable(groups[i], tick) && |groups[i]| < Pow256(4) && msgs[i] == Batch(groups[i], tick)
  }

  /** A message outgrows the budget only to carry a single record. */
  ghost predicate WithinBudget(msgs: seq<Bytes>, groups: seq<seq<Logged>>, budget: nat) {
    |msgs| == |groups| && forall i | 0 <= i < |msgs| :: |msgs[i]| <= budget || |groups[i]| == 1
  }

  /** None of these had room for one more record of 365 bytes, the longest there is under a
      controller id of 256. */
  ghost predicate Full(msgs: seq<Bytes>, budget: nat) {
    forall i | 0 <= i < |msgs| :: |msgs[i]| + 365 > budget
  }

  lemma HeaderSize(count: nat, tick: nat)
    requires count < Pow256(4) && tick < Pow256(8)
    ensures |Header(count, tick)| == HEADER_BYTES
    ensures Header(count, tick)[..6] == Header(0, 0)[..6]
    ensures Header(count, tick)[6..] == EncodeNum(4, count) + EncodeNum(8, tick)
  {
    HeaderFits(count, tick);
    HeaderFits(0, 0);
    HeaderBytes(count, tick);
    HeaderBytes(0, 0);
  }

  lemma HeaderBytes(count: nat, tick: nat)
    requires RowFits(HEADER, HeaderRow(count, tick))
    ensures EncodeRow(HEADER, HeaderRow(count, tick))
      == (EncodeNum(4, MAGIC) + EncodeNum(1, VERSION) + EncodeNum(1, 0)) + (EncodeNum(4, count) + EncodeNum(8, tick))
  {
    hide EncodeNum;
    var row := HeaderRow(count, tick);
    EncodedFrom(HEADER, row, 0);
    EncodedFrom(HEADER, row, 1);
    EncodedFrom(HEADER, row, 2);
    EncodedFrom(HEADER, row, 3);
    EncodedFrom(HEADER, row, 4);
    assert HEADER[0..] == HEADER && row[0..] == row;
  }

  lemma EncodedFrom(ks: seq<Kind>, row: seq<Item>, i: nat)
    requires RowFits(ks, row) && i < |ks|
    ensures EncodeRow(ks[i..], row[i..]) == EncodeItem(ks[i], row[i]) + EncodeRow(ks[i + 1..], row[i + 1..])
    ensures i + 1 == |ks| ==> EncodeRow(ks[i + 1..], row[i + 1..]) == []
  {
    assert ks[i..][1..] == ks[i + 1..] && row[i..][1..] == row[i + 1..];
  }

  /** A buffer under way: a header with count and tick still zero, then the records. */
  ghost function UnderWay(cur: seq<Logged>): Bytes
    requires forall i | 0 <= i < |cur| :: Recordable(cur[i])
  {
    if cur == [] then [] else Header(0, 0) + Records(cur)
  }

  /** Count and tick are stamped into the header in place. */
  method FinishTSLB(buf: Bytes, tick: nat, count: nat, ghost cur: seq<Logged>) returns (msg: Bytes)
    requires cur != [] && AllRecordable(cur, tick) && buf == UnderWay(cur)
    requires |cur| == count < Pow256(4) && tick < Pow256(8)
    ensures msg == Batch(cur, tick) && |msg| == |buf|
  {
    hide Recordable, Records, Header, Pow256, EncodeNum;
    HeaderSize(0, 0);
    HeaderSize(count, tick);
    var w := new ByteWriter();
    w.Num(4, count);
    w.Num(8, tick);
    msg := buf[..6] + w.buf + buf[HEADER_BYTES..];
    assert buf[..6] == Header(0, 0)[..6] && buf[HEADER_BYTES..] == Records(cur);
    assert Header(count, tick) == Header(count, tick)[..6] + Header(count, tick)[6..];
  }

  /** Midway: what was published, and the message under way. */
  ghost predicate Progress(msgs: seq<Bytes>, groups: seq<seq<Logged>>, buf: Bytes, cur: seq<Logged>, seen: seq<Logged>, tick: nat, budget: nat, short: bool)
    requires tick < Pow256(8)
  {
    && AllRecordable(cur, tick) && buf == UnderWay(cur) && |cur| <= |seen|
    && (short ==> |buf| <= budget || |cur| <= 1)
    && Concat(groups) + cur == seen
    && Written(msgs, groups, tick) && (short ==> WithinBudget(msgs, groups, budget))
  }

  lemma ConcatNext(groups: seq<seq<Logged>>, cur: seq<Logged>)
    ensures Concat(groups + [cur]) + [] == Concat(groups) + cur
  {
    assert (groups + [cur])[..|groups|] == groups;
  }

  lemma WrittenNext(msgs: seq<Bytes>, groups: seq<seq<Logged>>, cur: seq<Logged>, tick: nat)
    requires tick < Pow256(8) && Written(msgs, groups, tick)
    requires cur != [] && AllRecordable(cur, tick) && |cur| < Pow256(4)
    ensures Written(msgs + [Batch(cur, tick)], groups + [cur], tick)
  {
    hide AllRecordable, Pow256, Batch;
  }

  /** Publishing the message under way. */
  lemma Published(msgs: seq<Bytes>, groups: seq<seq<Logged>>, buf: Bytes, cur: seq<Logged>, seen: seq<Logged>, tick: nat, budget: nat, short: bool)
    requires tick < Pow256(8) && Progress(msgs, groups, buf, cur, seen, tick, budget, short)
    requires |seen| < Pow256(4) && cur != [] && |Batch(cur, tick)| == |buf|
    ensures Progress(msgs + [Batch(cur, tick)], groups + [cur], [], [], seen, tick, budget, short)
  {
    hide Recordable, Pow256, Batch, Records, Header, Written, Concat;
    ConcatNext(groups, cur);
    WrittenNext(msgs, groups, cur, tick);
  }

  method Flush(msgs0: seq<Bytes>, ghost groups0: seq<seq<Logged>>, buf: Bytes, ghost cur: seq<Logged>, n: nat, ghost seen: seq<Logged>,
               tick: nat, ghost budget: nat, ghost short: bool)
    returns (msgs: seq<Bytes>, ghost groups: seq<seq<Logged>>)
    requires tick < Pow256(8) && Progress(msgs0, groups0, buf, cur, seen, tick, budget, short)
    requires |seen| < Pow256(4)
    requires 0 < n == |cur|
    ensures Progress(msgs, groups, [], [], seen, tick, budget, short)
    ensures |msgs| == |msgs0| + 1 && msgs[..|msgs0|] == msgs0 && |msgs[|msgs0|]| == |buf|
  {
    hide Recordable, Pow256, Batch, Records, Header, Written, WithinBudget, Concat, UnderWay;
    var msg := FinishTSLB(buf, tick, n, cur);
    Published(msgs0, groups0, buf, cur, seen, tick, budget, short);
    msgs, groups := msgs0 + [msg], groups0 + [cur];
  }

  /** What one more record adds. */
  lemma UnderWayNext(cur: seq<Logged>, t: Logged)
    requires (forall i | 0 <= i < |cur| :: Recordable(cur[i])) && Recordable(t)
    ensures UnderWay(cur + [t]) == (if cur == [] then Header(0, 0) else UnderWay(cur)) + Encode(t)
  {
    hide Recordable, Pow256, Header, Encode;
    assert (cur + [t])[..|cur|] == cur;
    assert Records([]) == [];
    assert Header(0, 0) + Records(cur) + Encode(t) == Header(0, 0) + (Records(cur) + Encode(t));
  }

  lemma HeaderLeads(cur: seq<Logged>)
    requires forall i | 0 <= i < |cur| :: Recordable(cur[i])
    ensures UnderWay(cur) == [] <==> cur == []
  {
    hide Recordable, Pow256, Header, Encode, Records;
    HeaderSize(0, 0) by { assert 0 < Pow256(4) && 0 < Pow256(8); }
  }

  /** One more record in the message under way. */
  method Append(buf0: Bytes, ghost cur0: seq<Logged>, t: Logged, ghost tick: nat) returns (buf: Bytes, ghost cur: seq<Logged>)
    requires Recordable(t) && t.tick == tick && AllRecordable(cur0, tick) && buf0 == UnderWay(cur0)
    ensures cur == cur0 + [t] && AllRecordable(cur, tick) && buf == UnderWay(cur)
    ensures cur0 != [] && |t.controller| <= 256 ==> |buf| <= |buf0| + RECORD_MAX
  {
    hide Recordable, Pow256, Header, Encode, UnderWay, Records;
    HeaderLeads(cur0);
    RecordSize(t);
    UnderWayNext(cur0, t);
    cur := cur0 + [t];
    buf := (if |buf0| == 0 then Header(0, 0) else buf0) + Encode(t);
  }

  method LogOne(msgs0: seq<Bytes>, ghost groups0: seq<seq<Logged>>, buf0: Bytes, ghost cur0: seq<Logged>, n0: nat,
                ghost seen: seq<Logged>, t: Logged, tick: nat, budget: nat, ghost short: bool)
    returns (msgs: seq<Bytes>, ghost groups: seq<seq<Logged>>, buf: Bytes, ghost cur: seq<Logged>, n: nat)
    requires tick < Pow256(8) && Progress(msgs0, groups0, buf0, cur0, seen, tick, budget, short)
    requires n0 == |cur0| && |seen| < Pow256(4) && Recordable(t) && t.tick == tick && (short ==> |t.controller| <= 256)
    ensures Progress(msgs, groups, buf, cur, seen + [t], tick, budget, short) && n == |cur| > 0
    ensures Full(msgs0, budget) ==> Full(msgs, budget)
  {
    hide Recordable, Pow256, Written, WithinBudget, UnderWay;
    msgs, groups, buf, cur, n := msgs0, groups0, buf0, cur0, n0;
    if n > 0 && |buf| + RECORD_MAX > budget {
      msgs, groups := Flush(msgs, groups, buf, cur, n, seen, tick, budget, short);
      buf, n, cur := [], 0, [];
    }
    assert Concat(groups) + (cur + [t]) == (Concat(groups) + cur) + [t];
    EmptyUnderWay(cur);
    buf, cur := Append(buf, cur, t, tick);
    n := n + 1;
  }

  lemma EmptyUnderWay(cur: seq<Logged>)
    requires forall i | 0 <= i < |cur| :: Recordable(cur[i])
    ensures cur == [] ==> UnderWay(cur) == []
  {
  }

  lemma NoneShort(budget: nat)
    ensures Full([], budget)
  {
  }

  /** Controller ids of a length that the room kept for one more record allows for. */
  ghost predicate ShortNames(ts: seq<Logged>) {
    forall i | 0 <= i < |ts| :: |ts[i].controller| <= 256
  }

  /** Writes a tick's intents, beginning another message where the room for one more record
      runs out. Refuses an intent of another tick. */
  method LogIntentBatch(ts: seq<Logged>, tick: nat, budget: nat) returns (ok: bool, msgs: seq<Bytes>, ghost groups: seq<seq<Logged>>)
    requires tick < Pow256(8) && |ts| < Pow256(4)
    requires forall i | 0 <= i < |ts| :: Recordable(ts[i])
    ensures ok <==> forall i | 0 <= i < |ts| :: ts[i].tick == tick
    ensures ok ==> Written(msgs, groups, tick) && Concat(groups) == ts && (ShortNames(ts) ==> WithinBudget(msgs, groups, budget))
    ensures ok && ts != [] ==> msgs != [] && Full(msgs[..|msgs| - 1], budget)
  {
    hide Recordable, Pow256, Written, WithinBudget, Progress, Concat, Full;
    ghost var short := ShortNames(ts);
    msgs, groups := [], [];
    var buf: Bytes, n: nat := [], 0;
    ghost var cur: seq<Logged> := [];
    NothingWritten(tick, budget, short);
    assert Full(msgs, budget) by { NoneShort(budget); }
    assert ts[..0] == [];
    for i := 0 to |ts|
      invariant forall k | 0 <= k < i :: ts[k].tick == tick
      invariant Progress(msgs, groups, buf, cur, ts[..i], tick, budget, short) && n == |cur|
      invariant Full(msgs, budget) && (i > 0 ==> n > 0)
    {
      if ts[i].tick != tick {
        return false, msgs, groups;
      }
      msgs, groups, buf, cur, n := LogOne(msgs, groups, buf, cur, n, ts[..i], ts[i], tick, budget, short);
      assert ts[..i] + [ts[i]] == ts[..i + 1];
    }
    ok := true;
    assert ts[..|ts|] == ts;
    if n > 0 {
      msgs, groups := Flush(msgs, groups, buf, cur, n, ts, tick, budget, short);
      AllWritten(msgs, groups, [], [], ts, tick, budget, short);
    } else {
      AllWritten(msgs, groups, buf, cur, ts, tick, budget, short);
    }
  }

  lemma AllWritten(msgs: seq<Bytes>, groups: seq<seq<Logged>>, buf: Bytes, cur: seq<Logged>, ts: seq<Logged>, tick: nat, budget: nat, short: bool)
    requires tick < Pow256(8) && Progress(msgs, groups, buf, cur, ts, tick, budget, short) && cur == []
    ensures Written(msgs, groups, tick) && Concat(groups) == ts && (short ==> WithinBudget(msgs, groups, budget))
  {
    assert Concat(groups) + [] == Concat(groups);
  }

  lemma NothingWritten(tick: nat, budget: nat, short: bool)
    requires tick < Pow256(8)
    ensures Progress([], [], [], [], [], tick, budget, short)
  {
  }

  // ---------------------------------------------------------------- the tick, read back

  /** Every message of a tick, decoded in stream order. */
  function DecodeTick(msgs: seq<Bytes>): Decoded {
    if msgs == [] then Intents([])
    else
      var n := |msgs| - 1;
      var a, b := DecodeTick(msgs[..n]), DecodeTSLB(msgs[n]);
      if a.Malformed? || b.Malformed? then Malformed else Intents(a.ts + b.ts)
  }

  lemma {:induction false} SentConcat(a: seq<Logged>, b: seq<Logged>)
    ensures SentAll(a + b) == SentAll(a) + SentAll(b)
  {
    assert SentAll(a + b) == SentAll(a) + SentAll(b);
  }

  /** However a tick was split, its messages decoded in order are the tick's records. */
  lemma {:induction false} SplitReadsBack(msgs: seq<Bytes>, groups: seq<seq<Logged>>, tick: nat)
    requires tick < Pow256(8) && Written(msgs, groups, tick)
    ensures DecodeTick(msgs) == Intents(SentAll(Concat(groups)))
  {
    hide Batch, DecodeTSLB, Recordable, Pow256;
    if msgs != [] {
      var n := |msgs| - 1;
      SplitReadsBack(msgs[..n], groups[..n], tick);
      BatchReadsBack(groups[n], tick);
      SentConcat(Concat(groups[..n]), groups[n]);
    }
  }

  /** Carried routes make the sequence read back the sequence written. */
  lemma CarriedReadsBack(ts: seq<Logged>)
    requires forall i | 0 <= i < |ts| :: RouteCarried(ts[i])
    ensures SentAll(ts) == ts
  {
    forall i | 0 <= i < |ts| ensures Sent(ts[i]) == ts[i] {
      assert RouteCarried(ts[i]);
    }
  }
}
