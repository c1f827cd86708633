/** The arbitrated intents of a run on the record plane: one record per intent, batched into
    one or more TSLB messages per tick. */
module IntentRecord {
  import opened Wire

  const ROUTE_MAX := 48
  const RECORD_MIN := 61
  const RECORD_MAX := 18 + 256 + 8 + 4 + 4 + 8 + 8 + 4 + 4 + 1 + 2 + 48

  /** An arbitrated intent as recorded; accelerations and speeds are 64-bit patterns. */
  datatype Logged = Logged(
    tick: nat, seqNo: nat, controller: Bytes, grant: nat, held: bool, superseded: bool,
    vehicleId: nat, laneDelta: int, accel: nat, accelSet: bool, speed: nat, speedSet: bool,
    signals: int, signalSet: bool, turn: int, turnSet: bool, route: Bytes, routeSet: bool)

  predicate Int32(x: int) {
    -0x8000_0000 <= x < 0x8000_0000
  }

  /** Values within the widths the intent plane admits. */
  ghost predicate Recordable(t: Logged) {
    && t.tick < Pow256(8) && t.seqNo < Pow256(8) && |t.controller| < Pow256(2) && t.grant < 256
    && t.vehicleId < Pow256(8) && Int32(t.laneDelta) && t.accel < Pow256(8) && t.speed < Pow256(8)
    && Int32(t.signals) && Int32(t.turn)
  }

  // ---------------------------------------------------------------- one record

  const INTENT := [Int(8), Int(8), Text(2), Int(8), Int(4), Int(4), Int(8), Int(8), Int(4), Int(4), Int(1), Text(2)]

  function Digit(b: bool): (d: nat)
    ensures d <= 1
  {
    if b then 1 else 0
  }

  predicate HasBit(flags: nat, weight: nat)
    requires weight > 0
  {
    (flags / weight) % 2 == 1
  }

  /** The route that travels: cut at its maximum, and none unless set and non-empty. */
  function SentRoute(t: Logged): Bytes {
    if !t.routeSet || t.route == [] then []
    else if |t.route| > ROUTE_MAX then t.route[..ROUTE_MAX]
    else t.route
  }

  function Flags(t: Logged): nat {
    Digit(t.accelSet) + 2 * Digit(t.speedSet) + 4 * Digit(t.signalSet) + 8 * Digit(t.turnSet)
    + 16 * Digit(SentRoute(t) != []) + 32 * Digit(t.held) + 64 * Digit(t.superseded)
  }

  function RowOf(t: Logged): seq<Item>
    requires Int32(t.laneDelta) && Int32(t.signals) && Int32(t.turn)
  {
    [Num(t.tick), Num(t.seqNo), Txt(t.controller), Num(t.vehicleId), Num(Flags(t)), Num(ToU32(t.laneDelta)),
     Num(t.accel), Num(t.speed), Num(ToU32(t.signals)), Num(ToU32(t.turn)), Num(t.grant), Txt(SentRoute(t))]
  }

  function LoggedOf(row: seq<Item>): Logged {
    var flags := NumAt(row, 4);
    Logged(
      NumAt(row, 0), NumAt(row, 1), TextAt(row, 2), NumAt(row, 10), HasBit(flags, 32), HasBit(flags, 64),
      NumAt(row, 3), FromU32(NumAt(row, 5)), NumAt(row, 6), HasBit(flags, 1), NumAt(row, 7), HasBit(flags, 2),
      FromU32(NumAt(row, 8)), HasBit(flags, 4), FromU32(NumAt(row, 9)), HasBit(flags, 8),
      if HasBit(flags, 16) then TextAt(row, 11) else [], HasBit(flags, 16))
  }

  /** The intent a reader gets: without a route unless one travelled. */
  function Sent(t: Logged): Logged {
    t.(route := SentRoute(t), routeSet := SentRoute(t) != [])
  }

  /** Setting a route means a non-empty one within the maximum; not setting one means none. */
  predicate RouteCarried(t: Logged) {
    if t.routeSet then 0 < |t.route| <= ROUTE_MAX else t.route == []
  }

  lemma RowOfFits(t: Logged)
    requires Recordable(t)
    ensures RowFits(INTENT, RowOf(t))
  {
    assert Pow256(0) == 1 && Pow256(1) == 256 && Pow256(2) == 65536 && Pow256(3) == 0x100_0000 && Pow256(4) == 0x1_0000_0000;
  }

  lemma FlagsRead(t: Logged)
    ensures var f := Flags(t);
      && HasBit(f, 1) == t.accelSet && HasBit(f, 2) == t.speedSet && HasBit(f, 4) == t.signalSet && HasBit(f, 8) == t.turnSet
      && HasBit(f, 16) == (SentRoute(t) != []) && HasBit(f, 32) == t.held && HasBit(f, 64) == t.superseded
  {
    hide SentRoute;
    Digits(Digit(t.accelSet), Digit(t.speedSet), Digit(t.signalSet), Digit(t.turnSet),
           Digit(SentRoute(t) != []), Digit(t.held), Digit(t.superseded));
  }

  lemma Digits(a: nat, b: nat, c: nat, d: nat, e: nat, g: nat, h: nat)
    requires a <= 1 && b <= 1 && c <= 1 && d <= 1 && e <= 1 && g <= 1 && h <= 1
    ensures var f := a + 2 * b + 4 * c + 8 * d + 16 * e + 32 * g + 64 * h;
      && f % 2 == a && (f / 2) % 2 == b && (f / 4) % 2 == c && (f / 8) % 2 == d
      && (f / 16) % 2 == e && (f / 32) % 2 == g && (f / 64) % 2 == h
  {
    var f := a + 2 * b + 4 * c + 8 * d + 16 * e + 32 * g + 64 * h;
    assert f / 64 == h;
    assert f / 32 == g + 2 * h;
    assert f / 16 == e + 2 * g + 4 * h;
    assert f / 8 == d + 2 * e + 4 * g + 8 * h;
    assert f / 4 == c + 2 * d + 4 * e + 8 * g + 16 * h;
    assert f / 2 == b + 2 * c + 4 * d + 8 * e + 16 * g + 32 * h;
  }

  function Encode(t: Logged): Bytes
    requires Recordable(t)
  {
    RowOfFits(t);
    EncodeRow(INTENT, RowOf(t))
  }

  function DecodeAt(b: Bytes): Parse<Logged> {
    var row := DecodeRow(INTENT, b);
    if row.Fail? then Fail else Got(LoggedOf(row.value), row.rest)
  }

  lemma RowReadsBack(t: Logged)
    requires Recordable(t)
    ensures LoggedOf(RowOf(t)) == Sent(t)
  {
    hide SentRoute, Flags, HasBit;
    FlagsRead(t);
  }

  lemma RecordReadsBack(t: Logged, rest: Bytes)
    requires Recordable(t)
    ensures DecodeAt(Encode(t) + rest) == Got(Sent(t), rest)
  {
    hide DecodeRow, EncodeRow, LoggedOf, RowOf, Sent;
    RowOfFits(t);
    RowRoundTrip(INTENT, RowOf(t), rest);
    RowReadsBack(t);
  }

  /** A recorded intent reads back as itself exactly when its route is carried. */
  lemma RoundTripIffCarried(t: Logged, rest: Bytes)
    requires Recordable(t)
    ensures DecodeAt(Encode(t) + rest) == Got(t, rest) <==> RouteCarried(t)
  {
    hide Encode, DecodeAt;
    RecordReadsBack(t, rest);
  }

  // ---------------------------------------------------------------- record sizes

  function ItemSize(k: Kind, x: Item): nat
    requires Fits(k, x)
  {
    match k
    case Int(w) => w
    case Text(lw) => lw + |x.s|
  }

  function RowSize(ks: seq<Kind>, row: seq<Item>): nat
    requires RowFits(ks, row)
  {
    if ks == [] then 0 else ItemSize(ks[0], row[0]) + RowSize(ks[1..], row[1..])
  }

  lemma {:induction false} EncodedSize(ks: seq<Kind>, row: seq<Item>)
    requires RowFits(ks, row)
    ensures |EncodeRow(ks, row)| == RowSize(ks, row)
  {
    if ks != [] {
      EncodedSize(ks[1..], row[1..]);
    }
  }

  lemma SizeFrom(ks: seq<Kind>, row: seq<Item>, i: nat)
    requires RowFits(ks, row) && i < |ks|
    ensures RowSize(ks[i..], row[i..]) == ItemSize(ks[i], row[i]) + RowSize(ks[i + 1..], row[i + 1..])
  {
    assert ks[i..][1..] == ks[i + 1..] && row[i..][1..] == row[i + 1..];
  }

  lemma TailSize(row: seq<Item>)
    requires RowFits(INTENT, row)
    ensures RowSize(INTENT[6..], row[6..]) == 27 + |row[11].s|
  {
    hide RowSize;
    SizeFrom(INTENT, row, 6);
    SizeFrom(INTENT, row, 7);
    SizeFrom(INTENT, row, 8);
    SizeFrom(INTENT, row, 9);
    SizeFrom(INTENT, row, 10);
    SizeFrom(INTENT, row, 11);
    NoSize(INTENT[12..], row[12..]);
  }

  lemma MiddleSize(row: seq<Item>)
    requires RowFits(INTENT, row)
    ensures RowSize(INTENT[3..], row[3..]) == 43 + |row[11].s|
  {
    hide RowSize;
    SizeFrom(INTENT, row, 3);
    SizeFrom(INTENT, row, 4);
    SizeFrom(INTENT, row, 5);
    TailSize(row);
  }

  lemma IntentRowSize(row: seq<Item>)
    requires RowFits(INTENT, row)
    ensures RowSize(INTENT, row) == RECORD_MIN + |row[2].s| + |row[11].s|
  {
    hide RowSize;
    SizeFrom(INTENT, row, 0);
    SizeFrom(INTENT, row, 1);
    SizeFrom(INTENT, row, 2);
    MiddleSize(row);
    assert INTENT[0..] == INTENT && row[0..] == row;
  }

  lemma RecordSize(t: Logged)
    requires Recordable(t)
    ensures |Encode(t)| == RECORD_MIN + |t.controller| + |SentRoute(t)|
  {
    hide SentRoute, Flags, RowSize, Fits, RowFits, EncodeRow;
    RowOfFits(t);
    EncodedSize(INTENT, RowOf(t));
    IntentRowSize(RowOf(t));
  }

  lemma NoSize(ks: seq<Kind>, row: seq<Item>)
    requires ks == [] && row == []
    ensures RowSize(ks, row) == 0
  {
  }
}
