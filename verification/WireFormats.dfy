/** The bytes themselves: what a record, a batch and a keyframe look like on the wire, field by
    field, whatever encodes them. */
module WireFormats {
  import Arith
  import opened Wire
  import IR = IntentRecord
  import IB = IntentBatch
  import K = Keyframe
  import SC = SignalControl
  import SD = SignalDisplay

  // ---------------------------------------------------------------- numbers and rows

  function Power(n: nat): (r: nat)
    ensures r >= 1
  {
    if n == 0 then 1 else Power(n - 1) * 256
  }

  lemma {:induction false} PowerIs(n: nat)
    ensures Power(n + 1) == 256 * Power(n)
  {
  }

  /** A number of w bytes: byte k counts its 256 to the k-th. */
  function LE(w: nat, n: nat): (r: Bytes)
    ensures |r| == w
  {
    seq(w, k requires 0 <= k < w => ((n / Power(k)) % 256) as char)
  }

  lemma QuotientTwice(n: nat, p: nat)
    requires p >= 1
    ensures n / 256 / p == n / (256 * p)
  {
    var q, d := n / 256, n % 256;
    var a, c := q / p, q % p;
    assert n == 256 * q + d && q == p * a + c;
    assert 256 * (p * a) == a * (256 * p);
    assert 256 * c + d < 256 * p;
    Arith.DivModUnique(n, a, 256 * c + d, 256 * p);
  }

  lemma {:induction false} NumberIs(w: nat, n: nat)
    ensures EncodeNum(w, n) == LE(w, n)
  {
    if w > 0 {
      NumberIs(w - 1, n / 256);
      var b := EncodeNum(w, n);
      forall k | 0 <= k < w ensures b[k] == ((n / Power(k)) % 256) as char {
        if k > 0 {
          assert b[k] == EncodeNum(w - 1, n / 256)[k - 1];
          QuotientTwice(n, Power(k - 1));
        }
      }
    }
  }

  function Joined(parts: seq<Bytes>): Bytes {
    if parts == [] then [] else parts[0] + Joined(parts[1..])
  }

  function ItemBytes(k: Kind, x: Item): Bytes {
    match (k, x)
    case (Int(w), Num(n)) => LE(w, n)
    case (Text(w), Txt(s)) => LE(w, |s|) + s
    case _ => []
  }

  function RowBytes(ks: seq<Kind>, row: seq<Item>): seq<Bytes>
    requires |ks| == |row|
  {
    seq(|ks|, i requires 0 <= i < |ks| => ItemBytes(ks[i], row[i]))
  }

  lemma {:induction false} RowIs(ks: seq<Kind>, row: seq<Item>)
    requires RowFits(ks, row)
    ensures EncodeRow(ks, row) == Joined(RowBytes(ks, row))
  {
    hide LE;
    if ks != [] {
      match ks[0] {
        case Int(w) => NumberIs(w, row[0].n);
        case Text(w) => NumberIs(w, |row[0].s|);
      }
      RowIs(ks[1..], row[1..]);
      assert Fits(ks[0], row[0]);
      assert RowBytes(ks, row)[1..] == RowBytes(ks[1..], row[1..]);
    }
  }

  // ---------------------------------------------------------------- intents

  function Bit(b: bool): nat {
    if b then 1 else 0
  }

  /** Negative numbers travel in two's complement. */
  function Signed(x: int): nat
    requires -0x8000_0000 <= x < 0x8000_0000
  {
    if x >= 0 then x else 0x1_0000_0000 + x
  }

  function SentRoute(t: IR.Logged): Bytes {
    if t.routeSet then t.route[..if |t.route| <= 48 then |t.route| else 48] else []
  }

  function FlagWord(t: IR.Logged): nat {
    Bit(t.accelSet) + 2 * Bit(t.speedSet) + 4 * Bit(t.signalSet) + 8 * Bit(t.turnSet)
    + 16 * Bit(SentRoute(t) != []) + 32 * Bit(t.held) + 64 * Bit(t.superseded)
  }

  lemma SameFlags(t: IR.Logged)
    ensures SentRoute(t) == IR.SentRoute(t) && FlagWord(t) == IR.Flags(t)
  {
  }

  lemma SameSign(x: int)
    requires -0x8000_0000 <= x < 0x8000_0000
    ensures Signed(x) == ToU32(x)
  {
  }

  /** A record is, in this order: tick, sequence number, controller, vehicle, flags, lane delta,
      acceleration, speed, signals, turn, grant, and the route it carries. */
  lemma IntentBytes(t: IR.Logged) returns (parts: seq<Bytes>)
    requires IR.Recordable(t)
    ensures IR.Encode(t) == Joined(parts) && |parts| == 12
    ensures parts[0] == LE(8, t.tick) && parts[1] == LE(8, t.seqNo) && parts[2] == LE(2, |t.controller|) + t.controller
    ensures parts[3] == LE(8, t.vehicleId) && parts[4] == LE(4, FlagWord(t)) && parts[5] == LE(4, Signed(t.laneDelta))
    ensures parts[6] == LE(8, t.accel) && parts[7] == LE(8, t.speed)
    ensures parts[8] == LE(4, Signed(t.signals)) && parts[9] == LE(4, Signed(t.turn))
    ensures parts[10] == LE(1, t.grant) && parts[11] == LE(2, |SentRoute(t)|) + SentRoute(t)
  {
    hide LE, Signed, ToU32, IR.Flags, FlagWord, SentRoute, IR.SentRoute;
    IR.RowOfFits(t);
    RowIs(IR.INTENT, IR.RowOf(t));
    SameFlags(t);
    SameSign(t.laneDelta);
    SameSign(t.signals);
    SameSign(t.turn);
    parts := RowBytes(IR.INTENT, IR.RowOf(t));
  }

  /** A batch is the letters TSLB, version 1, a zero, how many records, their tick, and the
      records. */
  lemma BatchBytes(ts: seq<IR.Logged>, tick: nat) returns (parts: seq<Bytes>)
    requires IB.AllRecordable(ts, tick) && |ts| < Pow256(4) && tick < Pow256(8)
    ensures IB.Batch(ts, tick) == Joined(parts) + IB.Records(ts) && |parts| == 5
    ensures parts[0] == ['T', 'S', 'L', 'B'] && parts[1] == LE(1, 1) && parts[2] == LE(1, 0)
    ensures parts[3] == LE(4, |ts|) && parts[4] == LE(8, tick)
  {
    hide LE, IB.Records;
    IB.HeaderFits(|ts|, tick);
    RowIs(IB.HEADER, IB.HeaderRow(|ts|, tick));
    Letters(0x424c5354, 'T', 'S', 'L', 'B');
    parts := RowBytes(IB.HEADER, IB.HeaderRow(|ts|, tick));
  }

  lemma Letters(n: nat, a: Byte, b: Byte, c: Byte, d: Byte)
    requires n == a as int + 0x100 * (b as int) + 0x1_0000 * (c as int) + 0x100_0000 * (d as int)
    ensures LE(4, n) == [a, b, c, d]
  {
    NumberIs(4, n);
    assert EncodeNum(0, n / 256 / 256 / 256 / 256) == [];
    var n1 := b as int + 0x100 * (c as int) + 0x1_0000 * (d as int);
    var n2 := c as int + 0x100 * (d as int);
    assert n / 256 == n1 && n % 256 == a as int;
    assert n1 / 256 == n2 && n1 % 256 == b as int;
    assert n2 / 256 == d as int && n2 % 256 == c as int;
    assert EncodeNum(1, d as int) == [d] + EncodeNum(0, 0);
    assert EncodeNum(2, n2) == [c] + EncodeNum(1, d as int);
    assert EncodeNum(3, n1) == [b] + EncodeNum(2, n2);
    assert EncodeNum(4, n) == [a] + EncodeNum(3, n1);
  }

  // ---------------------------------------------------------------- what a reader has checked

  /** A row's first item, a number, and the rest of it. */
  lemma RowPeels(ks: seq<Kind>, b: Bytes, w: nat)
    requires ks != [] && ks[0] == Int(w) && DecodeRow(ks, b).Got?
    ensures |b| >= w && DecodeRow(ks[1..], b[w..]).Got?
    ensures var r := DecodeRow(ks, b);
      r.value == [Num(NumOf(b[..w]))] + DecodeRow(ks[1..], b[w..]).value && r.rest == DecodeRow(ks[1..], b[w..]).rest
  {
  }

  lemma LowByte(a: nat, x: nat, b: nat, y: nat)
    requires a < 256 && x < 256 && a + 256 * b == x + 256 * y
    ensures a == x && b == y
  {
  }

  lemma FourBytes(b: Bytes)
    requires |b| == 4
    ensures NumOf(b) == b[0] as int + 256 * (b[1] as int + 256 * (b[2] as int + 256 * (b[3] as int)))
  {
    assert NumOf(b[1..][1..][1..][1..]) == 0;
    assert NumOf(b[1..][1..][1..]) == b[3] as int;
    assert NumOf(b[1..][1..]) == b[2] as int + 256 * NumOf(b[1..][1..][1..]);
    assert NumOf(b[1..]) == b[1] as int + 256 * NumOf(b[1..][1..]);
  }

  lemma LettersRead(b: Bytes, n: nat, x: Byte, y: Byte, z: Byte, u: Byte)
    requires |b| == 4 && NumOf(b) == n == x as int + 0x100 * (y as int) + 0x1_0000 * (z as int) + 0x100_0000 * (u as int)
    ensures b == [x, y, z, u]
  {
    hide NumOf;
    FourBytes(b);
    var z1 := z as int + 256 * (u as int);
    var b1 := b[2] as int + 256 * (b[3] as int);
    LowByte(b[0] as int, x as int, b[1] as int + 256 * b1, y as int + 256 * z1);
    LowByte(b[1] as int, y as int, b1, z1);
    LowByte(b[2] as int, z as int, b[3] as int, u as int);
  }

  lemma HeaderPeels(b: Bytes)
    requires DecodeRow(IB.HEADER, b).Got?
    ensures var r := DecodeRow(IB.HEADER, b);
      && |b| >= 18 && |r.value| == 5 && r.rest == b[18..]
      && NumAt(r.value, 0) == NumOf(b[..4]) && NumAt(r.value, 1) == NumOf(b[4..5]) && NumAt(r.value, 2) == NumOf(b[5..6])
      && NumAt(r.value, 3) == NumOf(b[6..10]) && NumAt(r.value, 4) == NumOf(b[10..18])
  {
    hide DecodeRow, NumOf;
    var ks := IB.HEADER;
    RowPeels(ks, b, 4);
    var b1 := b[4..];
    RowPeels(ks[1..], b1, 1);
    var b2 := b1[1..];
    RowPeels(ks[1..][1..], b2, 1);
    var b3 := b2[1..];
    RowPeels(ks[1..][1..][1..], b3, 4);
    var b4 := b3[4..];
    RowPeels(ks[1..][1..][1..][1..], b4, 8);
    NoRow(ks[1..][1..][1..][1..][1..], b4[8..]);
    assert b1[..1] == b[4..5] && b2[..1] == b[5..6] && b3[..4] == b[6..10] && b4[..8] == b[10..18] && b4[8..] == b[18..];
  }

  lemma NoRow(ks: seq<Kind>, b: Bytes)
    requires ks == []
    ensures DecodeRow(ks, b) == Got([], b)
  {
  }

  lemma {:induction false} RecordsOfTick(n: nat, tick: nat, b: Bytes)
    requires IB.DecodeRecords(n, tick, b).Got?
    ensures var ts := IB.DecodeRecords(n, tick, b).value; |ts| == n && forall i | 0 <= i < n :: ts[i].tick == tick
  {
    hide IR.DecodeAt;
    if n > 0 {
      RecordsOfTick(n - 1, tick, IR.DecodeAt(b).rest);
    }
  }

  /** A message that decodes starts with the letters, version 1 and a zero; it holds as many
      records as it says, each of the tick it names, and has the bytes for them. */
  lemma DecodedIsChecked(b: Bytes)
    requires IB.DecodeTSLB(b).Intents?
    ensures var ts := IB.DecodeTSLB(b).ts;
      && |b| >= 18 + 61 * |ts|
      && b[..4] == ['T', 'S', 'L', 'B'] && b[4] as int == 1 && b[5] as int == 0
      && |ts| == NumOf(b[6..10]) && forall i | 0 <= i < |ts| :: ts[i].tick == NumOf(b[10..18])
  {
    hide DecodeRow, IB.DecodeRecords;
    HeaderPeels(b);
    LettersRead(b[..4], 0x424c5354, 'T', 'S', 'L', 'B');
    OneByte(b, 4);
    OneByte(b, 5);
    RecordsOfTick(NumOf(b[6..10]), NumOf(b[10..18]), b[18..]);
  }

  lemma OneByte(b: Bytes, i: nat)
    requires i < |b|
    ensures NumOf(b[i..i + 1]) == b[i] as int
  {
    assert b[i..i + 1][1..] == [];
  }
}
