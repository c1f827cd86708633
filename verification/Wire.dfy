/** Little-endian wire rows: fixed-width numbers and length-prefixed text. A row's layout is
    its list of kinds. */
module Wire {
  import opened Arith

  type Byte = c: char | (c as int) < 256
  type Bytes = seq<Byte>

  datatype Kind = Int(width: nat) | Text(lenWidth: nat)
  datatype Item = Num(n: nat) | Txt(s: Bytes)

  datatype Parse<+T> = Fail | Got(value: T, rest: Bytes)

  function Pow256(w: nat): (r: nat)
    ensures r >= 1
  {
    if w == 0 then 1 else 256 * Pow256(w - 1)
  }

  // ---------------------------------------------------------------- numbers

  /** The low w bytes of n, least significant first. */
  function EncodeNum(w: nat, n: nat): (b: Bytes)
    ensures |b| == w
  {
    if w == 0 then [] else [(n % 256) as char] + EncodeNum(w - 1, n / 256)
  }

  function NumOf(b: Bytes): nat {
    if b == [] then 0 else (b[0] as int) + 256 * NumOf(b[1..])
  }

  lemma {:induction false} NumRoundTrip(w: nat, n: nat)
    ensures NumOf(EncodeNum(w, n)) == n % Pow256(w)
  {
    if w > 0 {
      NumRoundTrip(w - 1, n / 256);
      var p := Pow256(w - 1);
      assert EncodeNum(w, n)[1..] == EncodeNum(w - 1, n / 256);
      DigitSplit(n, p);
    }
  }

  lemma DigitSplit(n: nat, p: nat)
    requires p >= 1
    ensures n % 256 + 256 * ((n / 256) % p) == n % (256 * p)
  {
    var q, d := n / 256, n % 256;
    var a, c := q / p, q % p;
    assert n == 256 * q + d && q == p * a + c;
    assert n == (256 * p) * a + (256 * c + d) by {
      assert 256 * (p * a) == (256 * p) * a;
    }
    assert 0 <= 256 * c + d < 256 * p by {
      assert 256 * c <= 256 * (p - 1);
    }
    DivModUnique(n, a, 256 * c + d, 256 * p);
  }

  lemma {:induction false} NumFits(b: Bytes)
    ensures NumOf(b) < Pow256(|b|)
  {
    if b != [] {
      NumFits(b[1..]);
    }
  }

  // ---------------------------------------------------------------- items

  predicate Fits(k: Kind, x: Item) {
    match k
    case Int(w) => x.Num? && x.n < Pow256(w)
    case Text(lw) => x.Txt? && |x.s| < Pow256(lw)
  }

  function EncodeItem(k: Kind, x: Item): Bytes
    requires Fits(k, x)
  {
    match k
    case Int(w) => EncodeNum(w, x.n)
    case Text(lw) => EncodeNum(lw, |x.s|) + x.s
  }

  function DecodeNum(w: nat, b: Bytes): (r: Parse<nat>)
    ensures r.Got? <==> |b| >= w
    ensures r.Got? ==> r.value < Pow256(w)
  {
    if |b| < w then Fail
    else
      NumFits(b[..w]);
      Got(NumOf(b[..w]), b[w..])
  }

  function DecodeText(n: nat, b: Bytes): (r: Parse<Bytes>)
    ensures r.Got? ==> |r.value| == n
  {
    if |b| < n then Fail else Got(b[..n], b[n..])
  }

  function DecodeItem(k: Kind, b: Bytes): (r: Parse<Item>)
    ensures r.Got? ==> Fits(k, r.value)
  {
    match k
    case Int(w) =>
      var n := DecodeNum(w, b);
      if n.Fail? then Fail else Got(Num(n.value), n.rest)
    case Text(lw) =>
      var n := DecodeNum(lw, b);
      if n.Fail? then Fail
      else
        var s := DecodeText(n.value, n.rest);
        if s.Fail? then Fail else Got(Txt(s.value), s.rest)
  }

  lemma NumReadsBack(w: nat, n: nat, rest: Bytes)
    requires n < Pow256(w)
    ensures DecodeNum(w, EncodeNum(w, n) + rest) == Got(n, rest)
  {
    hide EncodeNum, Pow256;
    NumRoundTrip(w, n);
    DivModUnique(n, 0, n, Pow256(w));
    var b := EncodeNum(w, n) + rest;
    assert b[..w] == EncodeNum(w, n) && b[w..] == rest;
  }

  lemma ItemRoundTrip(k: Kind, x: Item, rest: Bytes)
    requires Fits(k, x)
    ensures DecodeItem(k, EncodeItem(k, x) + rest) == Got(x, rest)
  {
    hide EncodeNum, DecodeNum, Pow256;
    match k
    case Int(w) =>
      NumReadsBack(w, x.n, rest);
    case Text(lw) =>
      NumReadsBack(lw, |x.s|, x.s + rest);
      assert EncodeItem(k, x) + rest == EncodeNum(lw, |x.s|) + (x.s + rest);
      assert (x.s + rest)[..|x.s|] == x.s && (x.s + rest)[|x.s|..] == rest;
  }

  /** What follows an item does not change how it reads. */
  lemma ItemExtends(k: Kind, b: Bytes, more: Bytes)
    requires DecodeItem(k, b).Got?
    ensures DecodeItem(k, b + more) == Got(DecodeItem(k, b).value, DecodeItem(k, b).rest + more)
  {
    match k
    case Int(w) =>
      assert (b + more)[..w] == b[..w] && (b + more)[w..] == b[w..] + more;
    case Text(lw) =>
      assert (b + more)[..lw] == b[..lw] && (b + more)[lw..] == b[lw..] + more;
      var n := NumOf(b[..lw]);
      var r := b[lw..];
      assert (r + more)[..n] == r[..n] && (r + more)[n..] == r[n..] + more;
  }

  // ---------------------------------------------------------------- rows

  predicate RowFits(ks: seq<Kind>, row: seq<Item>) {
    |row| == |ks| && forall i | 0 <= i < |ks| :: Fits(ks[i], row[i])
  }

  function EncodeRow(ks: seq<Kind>, row: seq<Item>): Bytes
    requires RowFits(ks, row)
  {
    if ks == [] then [] else EncodeItem(ks[0], row[0]) + EncodeRow(ks[1..], row[1..])
  }

  function DecodeRow(ks: seq<Kind>, b: Bytes): (r: Parse<seq<Item>>)
    ensures r.Got? ==> RowFits(ks, r.value)
  {
    if ks == [] then Got([], b)
    else
      var x := DecodeItem(ks[0], b);
      if x.Fail? then Fail
      else
        var xs := DecodeRow(ks[1..], x.rest);
        if xs.Fail? then Fail else Got([x.value] + xs.value, xs.rest)
  }

  lemma {:induction false} RowRoundTrip(ks: seq<Kind>, row: seq<Item>, rest: Bytes)
    requires RowFits(ks, row)
    ensures DecodeRow(ks, EncodeRow(ks, row) + rest) == Got(row, rest)
  {
    hide EncodeItem, DecodeItem, Fits;
    if ks != [] {
      var tail := EncodeRow(ks[1..], row[1..]) + rest;
      assert EncodeRow(ks, row) + rest == EncodeItem(ks[0], row[0]) + tail;
      ItemRoundTrip(ks[0], row[0], tail);
      RowRoundTrip(ks[1..], row[1..], rest);
      assert row == [row[0]] + row[1..];
    } else {
      assert EncodeRow(ks, row) + rest == rest;
    }
  }

  lemma {:induction false} RowExtends(ks: seq<Kind>, b: Bytes, more: Bytes)
    requires DecodeRow(ks, b).Got?
    ensures DecodeRow(ks, b + more) == Got(DecodeRow(ks, b).value, DecodeRow(ks, b).rest + more)
  {
    if ks != [] {
      ItemExtends(ks[0], b, more);
      RowExtends(ks[1..], DecodeItem(ks[0], b).rest, more);
    }
  }

  /** A number of a row; zero where there is none. */
  function NumAt(row: seq<Item>, i: nat): nat {
    if i < |row| && row[i].Num? then row[i].n else 0
  }

  function TextAt(row: seq<Item>, i: nat): Bytes {
    if i < |row| && row[i].Txt? then row[i].s else []
  }

  /** Two's complement in 32 bits. */
  function ToU32(x: int): nat
    requires -0x8000_0000 <= x < 0x8000_0000
  {
    if x < 0 then x + 0x1_0000_0000 else x
  }

  function FromU32(x: nat): int {
    if x >= 0x8000_0000 then x - 0x1_0000_0000 else x
  }

  // ---------------------------------------------------------------- tables

  predicate RowsFit(ks: seq<Kind>, rows: seq<seq<Item>>) {
    forall i | 0 <= i < |rows| :: RowFits(ks, rows[i])
  }

  function EncodeRows(ks: seq<Kind>, rows: seq<seq<Item>>): Bytes
    requires RowsFit(ks, rows)
  {
    if rows == [] then [] else EncodeRow(ks, rows[0]) + EncodeRows(ks, rows[1..])
  }

  function DecodeRows(ks: seq<Kind>, n: nat, b: Bytes): (r: Parse<seq<seq<Item>>>)
    ensures r.Got? ==> |r.value| == n && RowsFit(ks, r.value)
  {
    if n == 0 then Got([], b)
    else
      var x := DecodeRow(ks, b);
      if x.Fail? then Fail
      else
        var xs := DecodeRows(ks, n - 1, x.rest);
        if xs.Fail? then Fail else Got([x.value] + xs.value, xs.rest)
  }

  lemma {:induction false} RowsRoundTrip(ks: seq<Kind>, rows: seq<seq<Item>>, rest: Bytes)
    requires RowsFit(ks, rows)
    ensures DecodeRows(ks, |rows|, EncodeRows(ks, rows) + rest) == Got(rows, rest)
  {
    if rows != [] {
      var tail := EncodeRows(ks, rows[1..]) + rest;
      assert EncodeRows(ks, rows) + rest == EncodeRow(ks, rows[0]) + tail;
      RowRoundTrip(ks, rows[0], tail);
      RowsRoundTrip(ks, rows[1..], rest);
      assert rows == [rows[0]] + rows[1..];
    } else {
      assert EncodeRows(ks, rows) + rest == rest;
    }
  }

  lemma {:induction false} RowsExtend(ks: seq<Kind>, n: nat, b: Bytes, more: Bytes)
    requires DecodeRows(ks, n, b).Got?
    ensures DecodeRows(ks, n, b + more) == Got(DecodeRows(ks, n, b).value, DecodeRows(ks, n, b).rest + more)
  {
    if n > 0 {
      RowExtends(ks, b, more);
      RowsExtend(ks, n - 1, DecodeRow(ks, b).rest, more);
    }
  }

  // ---------------------------------------------------------------- the writer

  class ByteWriter {
    var buf: Bytes

    constructor ()
      ensures buf == []
    {
      buf := [];
    }

    method Num(w: nat, n: nat)
      modifies this
      ensures buf == old(buf) + EncodeNum(w, n)
    {
      var m := n;
      for i := 0 to w
        invariant buf + EncodeNum(w - i, m) == old(buf) + EncodeNum(w, n)
      {
        buf := buf + [(m % 256) as char];
        m := m / 256;
      }
    }

    method Raw(s: Bytes)
      modifies this
      ensures buf == old(buf) + s
    {
      buf := buf + s;
    }

    method WriteItem(k: Kind, x: Item)
      requires Fits(k, x)
      modifies this
      ensures buf == old(buf) + EncodeItem(k, x)
    {
      match k {
        case Int(w) =>
          Num(w, x.n);
        case Text(lw) =>
          Num(lw, |x.s|);
          Raw(x.s);
      }
    }

    method WriteRow(ks: seq<Kind>, row: seq<Item>)
      requires RowFits(ks, row)
      modifies this
      ensures buf == old(buf) + EncodeRow(ks, row)
    {
      hide EncodeItem, Fits;
      assert ks[0..] == ks && row[0..] == row;
      for i := 0 to |ks|
        invariant buf + EncodeRow(ks[i..], row[i..]) == old(buf) + EncodeRow(ks, row)
      {
        assert ks[i..][1..] == ks[i + 1..] && row[i..][1..] == row[i + 1..];
        WriteItem(ks[i], row[i]);
      }
    }

    method WriteRows(ks: seq<Kind>, rows: seq<seq<Item>>)
      requires RowsFit(ks, rows)
      modifies this
      ensures buf == old(buf) + EncodeRows(ks, rows)
    {
      hide EncodeRow, RowFits;
      assert rows[0..] == rows;
      for i := 0 to |rows|
        invariant buf + EncodeRows(ks, rows[i..]) == old(buf) + EncodeRows(ks, rows)
      {
        assert rows[i..][1..] == rows[i + 1..];
        WriteRow(ks, rows[i]);
      }
    }
  }

  // ---------------------------------------------------------------- the reader

  /** Consumes a buffer; the first short read sticks, and later reads yield zeros. */
  class ByteReader {
    var buf: Bytes
    var err: bool

    constructor (data: Bytes)
      ensures buf == data && !err
    {
      buf, err := data, false;
    }

    method Take(n: nat) returns (b: Bytes)
      modifies this
      ensures old(err) ==> err && buf == old(buf) && b == []
      ensures !old(err) ==>
        match DecodeText(n, old(buf))
        case Fail => err && b == []
        case Got(s, rest) => !err && b == s && buf == rest
    {
      if err {
        return [];
      }
      if |buf| < n {
        err := true;
        return [];
      }
      b := buf[..n];
      buf := buf[n..];
    }

    method Num(w: nat) returns (n: nat)
      modifies this
      ensures old(err) ==> err && buf == old(buf) && n == 0
      ensures !old(err) ==>
        match DecodeNum(w, old(buf))
        case Fail => err && n == 0
        case Got(v, rest) => !err && n == v && buf == rest
    {
      var b := Take(w);
      n := 0;
      if |b| < w {
        return;
      }
      var i := w;
      while i > 0
        invariant 0 <= i <= w && |b| == w
        invariant n == NumOf(b[i..])
        decreases i
      {
        i := i - 1;
        assert b[i..][1..] == b[i + 1..];
        n := (b[i] as int) + 256 * n;
      }
      assert b[0..] == b;
    }

    method ReadItem(k: Kind) returns (x: Item)
      modifies this
      ensures k.Int? <==> x.Num?
      ensures old(err) ==> err
      ensures !old(err) ==>
        match DecodeItem(k, old(buf))
        case Fail => err
        case Got(v, rest) => !err && x == v && buf == rest
    {
      match k {
        case Int(w) =>
          var n := Num(w);
          x := Item.Num(n);
        case Text(lw) =>
          var n := Num(lw);
          var s := Take(n);
          x := Txt(s);
      }
    }

    /** Reads a row, zeros and all: its items mean something only when no read was short. */
    method ReadRow(ks: seq<Kind>) returns (row: seq<Item>)
      modifies this
      ensures |row| == |ks| && forall i | 0 <= i < |ks| :: ks[i].Int? <==> row[i].Num?
      ensures old(err) ==> err
      ensures !old(err) ==>
        match DecodeRow(ks, old(buf))
        case Fail => err
        case Got(v, rest) => !err && row == v && buf == rest
    {
      hide DecodeItem, Fits, Pow256, RowFits;
      row := [];
      assert ks[0..] == ks;
      FollowNone(DecodeRow(ks, buf));
      ghost var whole := DecodeRow(ks, buf);
      for i := 0 to |ks|
        invariant |row| == i && forall j | 0 <= j < i :: ks[j].Int? <==> row[j].Num?
        invariant old(err) ==> err
        invariant !old(err) && err ==> whole.Fail?
        invariant !old(err) && !err ==> whole == Follow(row, DecodeRow(ks[i..], buf))
      {
        assert ks[i..][1..] == ks[i + 1..];
        var x := ReadItem(ks[i]);
        FollowOne(row, x, DecodeRow(ks[i + 1..], buf));
        row := row + [x];
      }
    }
  }

  function Follow(xs: seq<Item>, r: Parse<seq<Item>>): Parse<seq<Item>> {
    if r.Fail? then Fail else Got(xs + r.value, r.rest)
  }

  lemma FollowNone(r: Parse<seq<Item>>)
    ensures Follow([], r) == r
  {
    if r.Got? {
      assert [] + r.value == r.value;
    }
  }

  lemma FollowOne(xs: seq<Item>, x: Item, r: Parse<seq<Item>>)
    ensures Follow(xs + [x], r) == Follow(xs, Follow([x], r))
  {
    if r.Got? {
      assert (xs + [x]) + r.value == xs + ([x] + r.value);
    }
  }
}
