/** The bytes of a keyframe: its sections in order, and every row field by field. */
module KeyframeFormat {
  import opened Wire
  import opened WireFormats
  import opened Keyframe
  import SC = SignalControl
  import SD = SignalDisplay

  // ---------------------------------------------------------------- the version

  /** A float other than the two zeros. */
  predicate NotZero(bits: nat) {
    bits != 0 && bits != 0x8000_0000_0000_0000
  }

  /** The version a state needs: 7 for commanded signals, else 6 for adaptive routing, else 5
      for a running timer, else 4 for a routed or mid-lane directive, else 3 for any, else 2. */
  lemma VersionByContent(spec: Spec, st: State)
    ensures var ver := Version(spec, st);
      && (ver == 7 <==> st.overrides != map[])
      && (ver == 6 <==> st.overrides == map[] && spec.adaptive)
      && (ver >= 5 <==> ver >= 6 || (exists i | 0 <= i < |st.vehicles| :: st.vehicles[i].stuckTicks > 0 || st.vehicles[i].stopDone))
      && (ver >= 4 <==> ver >= 5 || (exists i | 0 <= i < |st.queue| :: st.queue[i].destination != [] || NotZero(st.queue[i].offset)))
      && (ver >= 3 <==> ver >= 4 || |st.queue| > 0)
      && 2 <= ver <= 7
  {
    if exists i | 0 <= i < |st.vehicles| :: Delayed(st.vehicles[i]) {
      var i :| 0 <= i < |st.vehicles| && Delayed(st.vehicles[i]);
      assert st.vehicles[i].stuckTicks > 0 || st.vehicles[i].stopDone;
    } else {
      assert forall i | 0 <= i < |st.vehicles| :: !Delayed(st.vehicles[i]);
    }
    if exists i | 0 <= i < |st.queue| :: Routed(st.queue[i]) {
      var i :| 0 <= i < |st.queue| && Routed(st.queue[i]);
      assert st.queue[i].destination != [] || NotZero(st.queue[i].offset);
    } else {
      assert forall i | 0 <= i < |st.queue| :: !Routed(st.queue[i]);
    }
  }

  /** Dwell clocks and lane times travel with adaptive routing, whatever the version. */
  lemma ClocksAreAdaptive(spec: Spec, st: State)
    ensures HeaderOf(spec, st).HasClocks() <==> spec.adaptive
  {
    hide Delayed, Routed;
  }

  // ---------------------------------------------------------------- rows

  lemma {:induction false} RowsAre(ks: seq<Kind>, rows: seq<seq<Item>>, parts: seq<Bytes>)
    requires RowsFit(ks, rows) && |parts| == |rows|
    requires forall i | 0 <= i < |rows| :: RowFits(ks, rows[i]) && parts[i] == Joined(RowBytes(ks, rows[i]))
    ensures EncodeRows(ks, rows) == Joined(parts)
  {
    hide RowFits, RowBytes;
    if rows != [] {
      assert rows[0] in rows;
      assert RowFits(ks, rows[0]);
      RowIs(ks, rows[0]);
      RowsAre(ks, rows[1..], parts[1..]);
    }
  }

  function Yes(b: bool): nat {
    if b then 1 else 0
  }

  lemma RowBytesAppend(ks: seq<Kind>, row: seq<Item>, ks': seq<Kind>, row': seq<Item>)
    requires |ks| == |row| && |ks'| == |row'|
    ensures RowBytes(ks + ks', row + row') == RowBytes(ks, row) + RowBytes(ks', row')
  {
  }

  /** Identity, place and speed, the generator, and the held axes. */
  function VehicleBaseParts(v: Vehicle): seq<Bytes>
    requires -0x8000_0000 <= v.heldTurn < 0x8000_0000
  {
    [LE(8, v.id), LE(4, v.lane), LE(4, v.typ), LE(8, v.s), LE(8, v.v), LE(8, v.f), LE(8, v.cooldown)]
    + [LE(8, v.draws), LE(1, |v.rng|) + v.rng]
    + [LE(8, v.cruise), LE(1, Yes(v.cruiseOK)), LE(4, Signed(v.heldTurn)), LE(4, v.signals), LE(2, |v.route|) + v.route]
  }

  lemma VehicleBaseIs(v: Vehicle)
    requires -0x8000_0000 <= v.heldTurn < 0x8000_0000
    ensures |VehicleBase(v)| == |VEHICLE| && RowBytes(VEHICLE, VehicleBase(v)) == VehicleBaseParts(v)
  {
    hide LE, Signed, ToU32;
    SameSign(v.heldTurn);
  }

  /** From version 5 on the timers follow; with adaptive routing, the dwell clock. */
  function VehicleParts(v: Vehicle, timers: bool, clocks: bool): seq<Bytes>
    requires -0x8000_0000 <= v.heldTurn < 0x8000_0000
  {
    VehicleBaseParts(v) + (if timers then [LE(8, v.stuckTicks), LE(1, Yes(v.stopDone))] else [])
    + if clocks then [LE(8, v.laneEntryTick)] else []
  }

  lemma VehicleRowIs(ver: nat, clocks: bool, v: Vehicle)
    requires -0x8000_0000 <= v.heldTurn < 0x8000_0000
    ensures |VehicleLayout(ver, clocks)| == |VehicleRow(ver, clocks, v)|
    ensures RowBytes(VehicleLayout(ver, clocks), VehicleRow(ver, clocks, v)) == VehicleParts(v, ver >= 5, clocks)
  {
    hide LE, VehicleBase, VehicleBaseParts;
    VehicleBaseIs(v);
    var ks := if ver >= 5 then [Int(8), Int(1)] else [];
    var row := if ver >= 5 then [Num(v.stuckTicks), Flag(v.stopDone)] else [];
    RowBytesAppend(VEHICLE, VehicleBase(v), ks, row);
    RowBytesAppend(VEHICLE + ks, VehicleBase(v) + row, if clocks then [Int(8)] else [], if clocks then [Num(v.laneEntryTick)] else []);
  }

  /** Tick, lane, type, earliest tick and request; from version 4 on the destination and offset. */
  function DirectiveParts(d: Directive, routes: bool): seq<Bytes> {
    [LE(8, d.tick), LE(4, d.lane), LE(4, d.typ), LE(8, d.earliestTick), LE(2, |d.requestId|) + d.requestId]
    + if routes then [LE(2, |d.destination|) + d.destination, LE(8, d.offset)] else []
  }

  lemma DirectiveRowIs(ver: nat, d: Directive)
    ensures |DirectiveLayout(ver)| == |DirectiveRow(ver, d)|
    ensures RowBytes(DirectiveLayout(ver), DirectiveRow(ver, d)) == DirectiveParts(d, ver >= 4)
  {
    hide LE;
  }

  function PendingParts(p: Pending): seq<Bytes> {
    [LE(4, p.lane), LE(8, p.rate), LE(8, p.tick), LE(8, p.id), LE(8, p.draws), LE(1, |p.rng|) + p.rng]
  }

  lemma PendingRowIs(p: Pending)
    ensures |PendingRow(p)| == |ORIGIN| && RowBytes(ORIGIN, PendingRow(p)) == PendingParts(p)
  {
    hide LE;
  }

  function HeldParts(h: Held): seq<Bytes>
    requires IsText(h.ov.requestId)
  {
    [LE(4, h.signalIdx), LE(4, h.ov.phase), LE(8, h.ov.since), LE(8, h.ov.until), LE(8, h.ov.chainStart)]
    + [LE(2, |h.ov.requestId|) + AsBytes(h.ov.requestId)]
  }

  lemma HeldRowIs(h: Held)
    requires IsText(h.ov.requestId)
    ensures |HeldRow(h)| == |OVERRIDE| && RowBytes(OVERRIDE, HeldRow(h)) == HeldParts(h)
  {
    hide LE, IsText;
  }

  /** Holds are listed by program, in network order, each program's in the order they began. */
  lemma {:induction false} HoldsInOrder(programs: seq<SP.Program>, ov: SC.Table, n: nat, i: nat, j: nat)
    requires n <= |programs| && i < j < |Flat(programs, ov, n)|
    ensures var hs := Flat(programs, ov, n);
      hs[i].signalIdx < hs[j].signalIdx
      || (hs[i].signalIdx == hs[j].signalIdx < n
          && exists a, b | 0 <= a < b < |SC.Hist(ov, programs[hs[i].signalIdx].id)| ::
               SC.Hist(ov, programs[hs[i].signalIdx].id)[a] == hs[i].ov && SC.Hist(ov, programs[hs[i].signalIdx].id)[b] == hs[j].ov)
  {
    var m := |Flat(programs, ov, n - 1)|;
    FlatInRange(programs, ov, n - 1);
    if j < m {
      HoldsInOrder(programs, ov, n - 1, i, j);
    }
  }

  // ---------------------------------------------------------------- the payload

  function HeaderParts(spec: Spec, st: State): seq<Bytes> {
    [['T', 'S', 'K', 'F'], LE(2, Version(spec, st)), LE(2, Yes(Version(spec, st) == 7 && spec.adaptive))]
    + [LE(8, st.tick), LE(8, st.crc), LE(8, st.nextId), LE(4, |st.vehicles|), LE(4, |st.origins|)]
    + [LE(4, if spec.hasSpawner then st.schedNext else 0), LE(4, 0)]
  }

  lemma HeaderIs(spec: Spec, st: State)
    requires Sound(spec, st)
    ensures MarshalHeader(spec, st) == Joined(HeaderParts(spec, st))
  {
    hide LE, Sound, Version, Joined;
    HeaderFits(spec, st);
    RowIs(HEADER, HeaderRow(HeaderOf(spec, st)));
    Letters(0x464b5354, 'T', 'S', 'K', 'F');
    assert RowBytes(HEADER, HeaderRow(HeaderOf(spec, st))) == HeaderParts(spec, st);
  }

  lemma CountIs(n: nat)
    requires RowFits(COUNT, [Num(n)])
    ensures EncodeRow(COUNT, [Num(n)]) == LE(4, n)
  {
    hide LE;
    RowIs(COUNT, [Num(n)]);
    assert RowBytes(COUNT, [Num(n)]) == [LE(4, n)];
    assert [LE(4, n)][1..] == [];
  }

  function VehicleSection(spec: Spec, st: State): (r: seq<Bytes>)
    requires forall i | 0 <= i < |st.vehicles| :: -0x8000_0000 <= st.vehicles[i].heldTurn < 0x8000_0000
    ensures |r| == |st.vehicles| && forall i | 0 <= i < |r| :: r[i] == Joined(VehicleParts(st.vehicles[i], Version(spec, st) >= 5, spec.adaptive))
  {
    seq(|st.vehicles|, i requires 0 <= i < |st.vehicles| => Joined(VehicleParts(st.vehicles[i], Version(spec, st) >= 5, spec.adaptive)))
  }

  lemma VehiclesAre(spec: Spec, st: State)
    requires Sound(spec, st)
    ensures forall i | 0 <= i < |st.vehicles| :: -0x8000_0000 <= st.vehicles[i].heldTurn < 0x8000_0000
    ensures MarshalVehicles(spec, st) == Joined(VehicleSection(spec, st))
  {
    hide LE, Sound, Version, Joined, VehicleLayout, VehicleRow, VehicleParts, RowFits;
    var h := HeaderOf(spec, st);
    ClocksAreAdaptive(spec, st);
    VehicleRowsFit(spec, st, h.ver, h.HasClocks());
    var rows := VehicleRows(h.ver, h.HasClocks(), st.vehicles);
    forall i | 0 <= i < |rows|
      ensures RowFits(VehicleLayout(h.ver, h.HasClocks()), rows[i])
      ensures |VehicleLayout(h.ver, h.HasClocks())| == |rows[i]|
      ensures VehicleSection(spec, st)[i] == Joined(RowBytes(VehicleLayout(h.ver, h.HasClocks()), rows[i]))
    {
      VehicleRowIs(h.ver, h.HasClocks(), st.vehicles[i]);
    }
    RowsAre(VehicleLayout(h.ver, h.HasClocks()), rows, VehicleSection(spec, st));
  }

  function OriginSection(st: State): (r: seq<Bytes>)
    ensures |r| == |st.origins| && forall i | 0 <= i < |r| :: r[i] == Joined(PendingParts(st.origins[i]))
  {
    seq(|st.origins|, i requires 0 <= i < |st.origins| => Joined(PendingParts(st.origins[i])))
  }

  lemma OriginsAre(spec: Spec, st: State)
    requires Sound(spec, st)
    ensures MarshalOrigins(spec, st) == Joined(OriginSection(st))
  {
    hide LE, Sound, Joined, PendingRow, PendingParts, RowFits;
    PendingRowsFit(spec, st);
    var rows := PendingRows(st.origins);
    forall i | 0 <= i < |rows|
      ensures RowFits(ORIGIN, rows[i]) && |ORIGIN| == |rows[i]| && OriginSection(st)[i] == Joined(RowBytes(ORIGIN, rows[i]))
    {
      PendingRowIs(st.origins[i]);
    }
    RowsAre(ORIGIN, rows, OriginSection(st));
  }

  function LaneSection(st: State): (r: seq<Bytes>)
    ensures |r| == |st.lanes| && forall i | 0 <= i < |r| :: r[i] == LE(8, st.lanes[i].ema) + LE(8, st.lanes[i].snap)
  {
    seq(|st.lanes|, i requires 0 <= i < |st.lanes| => LE(8, st.lanes[i].ema) + LE(8, st.lanes[i].snap))
  }

  lemma LaneRowIs(l: LaneTimes)
    ensures |LaneRow(l)| == |LANE_TIMES| && Joined(RowBytes(LANE_TIMES, LaneRow(l))) == LE(8, l.ema) + LE(8, l.snap)
  {
    hide LE;
    var parts := RowBytes(LANE_TIMES, LaneRow(l));
    assert parts[1..][0] == LE(8, l.snap) && |parts| == 2;
    assert Joined(parts[1..]) == LE(8, l.snap) + Joined([]);
    assert Joined(parts) == LE(8, l.ema) + Joined(parts[1..]);
    assert LE(8, l.snap) + [] == LE(8, l.snap);
  }

  lemma LanesAre(spec: Spec, st: State)
    requires Sound(spec, st)
    ensures MarshalLanes(spec, st) == if spec.adaptive then LE(4, |st.lanes|) + Joined(LaneSection(st)) else []
  {
    hide LE, Sound, Joined, LaneRow, RowFits, Version;
    ClocksAreAdaptive(spec, st);
    LaneRowsFit(spec, st);
    CountIs(|st.lanes|);
    var rows := LaneRows(st.lanes);
    forall i | 0 <= i < |rows|
      ensures RowFits(LANE_TIMES, rows[i]) && |LANE_TIMES| == |rows[i]| && LaneSection(st)[i] == Joined(RowBytes(LANE_TIMES, rows[i]))
    {
      LaneRowIs(st.lanes[i]);
    }
    RowsAre(LANE_TIMES, rows, LaneSection(st));
  }

  function QueueSection(st: State, routes: bool): (r: seq<Bytes>)
    ensures |r| == |st.queue| && forall i | 0 <= i < |r| :: r[i] == Joined(DirectiveParts(st.queue[i], routes))
  {
    seq(|st.queue|, i requires 0 <= i < |st.queue| => Joined(DirectiveParts(st.queue[i], routes)))
  }

  lemma QueueIs(spec: Spec, st: State)
    requires Sound(spec, st)
    ensures var ver := Version(spec, st);
      MarshalQueue(spec, st) == if ver >= 3 then LE(4, |st.queue|) + Joined(QueueSection(st, ver >= 4)) else []
  {
    hide LE, Sound, Joined, DirectiveRow, DirectiveLayout, DirectiveParts, RowFits, Version;
    var ver := Version(spec, st);
    DirectiveRowsFit(spec, st, ver);
    CountIs(|st.queue|);
    var rows := DirectiveRows(ver, st.queue);
    forall i | 0 <= i < |rows|
      ensures RowFits(DirectiveLayout(ver), rows[i]) && |DirectiveLayout(ver)| == |rows[i]|
      ensures QueueSection(st, ver >= 4)[i] == Joined(RowBytes(DirectiveLayout(ver), rows[i]))
    {
      DirectiveRowIs(ver, st.queue[i]);
    }
    RowsAre(DirectiveLayout(ver), rows, QueueSection(st, ver >= 4));
  }

  function HeldSection(hs: seq<Held>): (r: seq<Bytes>)
    requires forall i | 0 <= i < |hs| :: IsText(hs[i].ov.requestId)
    ensures |r| == |hs| && forall i | 0 <= i < |r| :: r[i] == Joined(HeldParts(hs[i]))
  {
    seq(|hs|, i requires 0 <= i < |hs| => Joined(HeldParts(hs[i])))
  }

  lemma OverridesAre(spec: Spec, st: State)
    requires Sound(spec, st)
    ensures var hs := Flat(spec.programs, st.overrides, |spec.programs|);
      && (forall i | 0 <= i < |hs| :: IsText(hs[i].ov.requestId))
      && MarshalOverrides(spec, st) == if Version(spec, st) == 7 then LE(4, |hs|) + Joined(HeldSection(hs)) else []
  {
    hide LE, Sound, Joined, HeldRow, HeldParts, RowFits, Version, IsText, Flat;
    var hs := Flat(spec.programs, st.overrides, |spec.programs|);
    HeldRowsFit(spec, st);
    CountIs(|hs|);
    var rows := HeldRows(hs);
    forall i | 0 <= i < |rows|
      ensures RowFits(OVERRIDE, rows[i]) && |OVERRIDE| == |rows[i]| && HeldSection(hs)[i] == Joined(RowBytes(OVERRIDE, rows[i]))
    {
      HeldRowIs(hs[i]);
    }
    RowsAre(OVERRIDE, rows, HeldSection(hs));
  }

  /** The payload of a keyframe: header, vehicles in spawn order, spawner origins; with adaptive
      routing the counted lane times; from version 3 on the counted director queue; at version
      7 the counted holds. */
  lemma KeyframeBytes(spec: Spec, st: State)
    requires Sound(spec, st)
    ensures forall i | 0 <= i < |st.vehicles| :: -0x8000_0000 <= st.vehicles[i].heldTurn < 0x8000_0000
    ensures forall i | 0 <= i < |Flat(spec.programs, st.overrides, |spec.programs|)| ::
      IsText(Flat(spec.programs, st.overrides, |spec.programs|)[i].ov.requestId)
    ensures var ver, hs := Version(spec, st), Flat(spec.programs, st.overrides, |spec.programs|);
      Marshal(spec, st)
      == Joined(HeaderParts(spec, st)) + (Joined(VehicleSection(spec, st)) + (Joined(OriginSection(st))
         + ((if spec.adaptive then LE(4, |st.lanes|) + Joined(LaneSection(st)) else [])
            + ((if ver >= 3 then LE(4, |st.queue|) + Joined(QueueSection(st, ver >= 4)) else [])
               + if ver == 7 then LE(4, |hs|) + Joined(HeldSection(hs)) else []))))
  {
    hide Sound, Joined, LE, Version, Flat, IsText, HeaderParts, VehicleSection, OriginSection, LaneSection, QueueSection, HeldSection,
         MarshalHeader, MarshalVehicles, MarshalOrigins, MarshalLanes, MarshalQueue, MarshalOverrides;
    HeaderIs(spec, st);
    VehiclesAre(spec, st);
    OriginsAre(spec, st);
    LanesAre(spec, st);
    QueueIs(spec, st);
    OverridesAre(spec, st);
  }

  // ---------------------------------------------------------------- what a restore has checked

  /** No hold of a program it does not have, none empty, and none older than its chain. */
  ghost predicate HistoryChecked(p: SP.Program, h: SD.History) {
    h != [] && forall k | 0 <= k < |h| :: h[k].phase < |p.phaseTicks| && h[k].chainStart <= h[k].since < h[k].until
  }

  ghost predicate HoldsChecked(programs: seq<SP.Program>, ov: SC.Table) {
    forall id | id in ov :: exists i | 0 <= i < |programs| :: programs[i].id == id && HistoryChecked(programs[i], ov[id])
  }

  lemma {:induction false} GatheredChecked(programs: seq<SP.Program>, hs: seq<Held>)
    requires forall i, j | 0 <= i < j < |programs| :: programs[i].id != programs[j].id
    requires forall i | 0 <= i < |hs| :: HeldOK(programs, hs[i])
    ensures forall i | 0 <= i < |hs| :: hs[i].signalIdx < |programs|
    ensures HoldsChecked(programs, Gather(programs, hs))
  {
    if hs != [] {
      var n := |hs| - 1;
      GatheredChecked(programs, hs[..n]);
      var ov, r := Gather(programs, hs[..n]), Gather(programs, hs);
      assert HeldOK(programs, hs[n]);
      var i := hs[n].signalIdx;
      var id := programs[i].id;
      assert HistoryChecked(programs[i], r[id]);
      forall x | x in r ensures exists j | 0 <= j < |programs| :: programs[j].id == x && HistoryChecked(programs[j], r[x]) {
        if x != id {
          assert x in ov && r[x] == ov[x];
        }
      }
    }
  }

  /** The first four bytes of a row that starts with a four-byte number, and the number. */
  lemma FirstNumber(ks: seq<Kind>, b: Bytes)
    requires ks != [] && ks[0] == Int(4) && DecodeRow(ks, b).Got?
    ensures |b| >= 4 && NumAt(DecodeRow(ks, b).value, 0) == NumOf(b[..4])
  {
  }

  lemma HeaderChecked(spec: Spec, data: Bytes)
    requires ParseHeader(spec, data).Got?
    ensures |data| >= 4 && data[..4] == ['T', 'S', 'K', 'F']
    ensures var h := ParseHeader(spec, data).value; 2 <= h.ver <= 7 && (h.HasClocks() ==> spec.adaptive) && h.nOrigins == |spec.originLanes|
  {
    FirstNumber(HEADER, data);
    LettersRead(data[..4], 0x464b5354, 'T', 'S', 'K', 'F');
  }

  ghost predicate VehicleChecked(spec: Spec, v: Vehicle) {
    v.lane < |spec.laneIds| && v.typ < |spec.typeNames| && |v.rng| == 20 && v.rng[..4] == ['p', 'c', 'g', ':']
  }

  lemma VehiclesChecked(spec: Spec, h: Header, b: Bytes)
    requires ParseVehicles(spec, h, b).Got?
    ensures var vs := ParseVehicles(spec, h, b).value; |vs| == h.nVehicles && forall i | 0 <= i < |vs| :: VehicleChecked(spec, vs[i])
  {
    hide DecodeRows, VehicleLayout;
    var vs := ParseVehicles(spec, h, b).value;
    forall i | 0 <= i < |vs| ensures VehicleChecked(spec, vs[i]) {
      assert VehicleOK(spec, vs[i]);
    }
  }

  lemma OriginsChecked(spec: Spec, h: Header, b: Bytes)
    requires HeaderOK(spec, h) && ParseOrigins(spec, h, b).Got?
    ensures var ps := ParseOrigins(spec, h, b).value;
      |ps| == |spec.originLanes| && forall i | 0 <= i < |ps| :: ps[i].lane == spec.originLanes[i] && |ps[i].rng| == 20
  {
    hide DecodeRows;
    var ps := ParseOrigins(spec, h, b).value;
    forall i | 0 <= i < |ps| ensures ps[i].lane == spec.originLanes[i] && |ps[i].rng| == 20 {
      assert PendingOK(spec, i, ps[i]);
    }
  }

  ghost predicate DirectiveChecked(spec: Spec, d: Directive) {
    d.lane < |spec.laneIds| && d.typ < |spec.typeNames| && d.origin == spec.laneIds[d.lane] && d.typeName == spec.typeNames[d.typ]
  }

  lemma QueueChecked(spec: Spec, h: Header, b: Bytes)
    requires ParseQueue(spec, h, b).Got?
    ensures var ds := ParseQueue(spec, h, b).value; forall i | 0 <= i < |ds| :: DirectiveChecked(spec, ds[i])
  {
    hide ParseCounted, DirectiveLayout;
    if h.ver >= 3 {
      var rows := ParseCounted(DirectiveLayout(h.ver), b).value;
      var ds := ParseQueue(spec, h, b).value;
      forall i | 0 <= i < |ds| ensures DirectiveChecked(spec, ds[i]) {
        assert DirectiveResolves(spec, rows[i]);
      }
    }
  }

  lemma OverridesChecked(spec: Spec, h: Header, b: Bytes)
    requires spec.Valid() && ParseOverrides(spec, h, b).Got?
    ensures HoldsChecked(spec.programs, ParseOverrides(spec, h, b).value)
    ensures h.ver < 7 ==> ParseOverrides(spec, h, b).value == map[]
  {
    hide ParseCounted, Gather;
    if h.ver >= 7 {
      var hs := HeldsOf(ParseCounted(OVERRIDE, b).value);
      GatheredChecked(spec.programs, hs);
    }
  }

  lemma LanesChecked(spec: Spec, h: Header, b: Bytes)
    requires spec.Valid() && ParseLanes(spec, h, b).Got?
    ensures |ParseLanes(spec, h, b).value| == |spec.laneIds|
  {
    hide ParseCounted;
  }

  /** Whatever the bytes, a restore that succeeds has found the letters, the origins and lanes
      of the spec, and on vehicles, directives and holds only indices that resolve, generators
      in their own format, and holds that are neither empty nor older than their chain. */
  lemma RestoredIsChecked(spec: Spec, data: Bytes)
    requires spec.Valid() && Restore(spec, data).Restored?
    ensures |data| >= 4 && data[..4] == ['T', 'S', 'K', 'F']
    ensures var st := Restore(spec, data).st;
      && (forall i | 0 <= i < |st.vehicles| :: VehicleChecked(spec, st.vehicles[i]))
      && |st.origins| == |spec.originLanes|
      && (forall i | 0 <= i < |st.origins| :: st.origins[i].lane == spec.originLanes[i] && |st.origins[i].rng| == 20)
      && |st.lanes| == |spec.laneIds|
      && (forall i | 0 <= i < |st.queue| :: DirectiveChecked(spec, st.queue[i]))
      && HoldsChecked(spec.programs, st.overrides)
  {
    hide ParseHeader, ParseVehicles, ParseOrigins, ParseLanes, ParseQueue, ParseOverrides, HoldsChecked, VehicleChecked, DirectiveChecked, HeaderOK;
    HeaderChecked(spec, data);
    var head := ParseHeader(spec, data);
    var h := head.value;
    var vs := ParseVehicles(spec, h, head.rest);
    VehiclesChecked(spec, h, head.rest);
    var ps := ParseOrigins(spec, h, vs.rest);
    OriginsChecked(spec, h, vs.rest);
    var ls := ParseLanes(spec, h, ps.rest);
    LanesChecked(spec, h, ps.rest);
    var ds := ParseQueue(spec, h, ls.rest);
    QueueChecked(spec, h, ls.rest);
    OverridesChecked(spec, h, ds.rest);
  }
}
