/** The keyframe codec: the complete dynamic state as bytes, in the lowest format version
    that can carry it, and back. Floating-point values travel as their 64-bit patterns. */
module Keyframe {
  import opened Wire
  import opened SignalDisplay
  import opened SignalControl
  import SP = SignalProgram

  const MAGIC := 0x464b5354
  const MIN_VERSION := 2
  const QUEUE_VERSION := 3
  const DEST_VERSION := 4
  const STUCK_VERSION := 5
  const ADAPTIVE_VERSION := 6
  const SIGNAL_VERSION := 7
  const FLAG_ADAPTIVE := 1

  datatype Vehicle = Vehicle(
    id: nat, lane: nat, typ: nat, s: nat, v: nat, f: nat, cooldown: nat, draws: nat, rng: Bytes,
    cruise: nat, cruiseOK: bool, heldTurn: int, signals: nat, route: Bytes,
    stuckTicks: nat, stopDone: bool, laneEntryTick: nat)

  /** The pending vehicle of one spawner origin. */
  datatype Pending = Pending(lane: nat, rate: nat, tick: nat, id: nat, draws: nat, rng: Bytes)

  datatype LaneTimes = LaneTimes(ema: nat, snap: nat)

  datatype Directive = Directive(
    tick: nat, lane: nat, typ: nat, earliestTick: nat, requestId: Bytes, destination: Bytes, offset: nat,
    origin: string, typeName: string)

  datatype State = State(
    tick: nat, crc: nat, nextId: nat, vehicles: seq<Vehicle>, schedNext: nat, origins: seq<Pending>,
    lanes: seq<LaneTimes>, queue: seq<Directive>, overrides: Table)

  /** What the run spec builds and a keyframe does not repeat. */
  datatype Spec = Spec(
    laneIds: seq<string>, typeNames: seq<string>, hasSpawner: bool, originLanes: seq<nat>,
    programs: seq<SP.Program>, adaptive: bool, freshLanes: seq<LaneTimes>)
  {
    ghost predicate Valid() {
      && (!hasSpawner ==> originLanes == [])
      && |freshLanes| == |laneIds|
      && (forall i | 0 <= i < |originLanes| :: originLanes[i] < |laneIds|)
      && (forall i, j | 0 <= i < j < |programs| :: programs[i].id != programs[j].id)
    }
  }

  // ---------------------------------------------------------------- which version

  /** Zero as a float: both signed zeros. */
  predicate IsZero(bits: nat) {
    bits == 0 || bits == 0x8000_0000_0000_0000
  }

  predicate Routed(d: Directive) {
    d.destination != [] || !IsZero(d.offset)
  }

  predicate Delayed(v: Vehicle) {
    v.stuckTicks > 0 || v.stopDone
  }

  function Version(spec: Spec, st: State): (ver: nat)
    ensures MIN_VERSION <= ver <= SIGNAL_VERSION
  {
    if st.overrides != map[] then SIGNAL_VERSION
    else if spec.adaptive then ADAPTIVE_VERSION
    else if exists i | 0 <= i < |st.vehicles| :: Delayed(st.vehicles[i]) then STUCK_VERSION
    else if exists i | 0 <= i < |st.queue| :: Routed(st.queue[i]) then DEST_VERSION
    else if st.queue != [] then QUEUE_VERSION
    else MIN_VERSION
  }

  // ---------------------------------------------------------------- layouts

  const COUNT := [Int(4)]
  const HEADER := [Int(4), Int(2), Int(2), Int(8), Int(8), Int(8), Int(4), Int(4), Int(4), Int(4)]
  const ORIGIN := [Int(4), Int(8), Int(8), Int(8), Int(8), Text(1)]
  const LANE_TIMES := [Int(8), Int(8)]
  const OVERRIDE := [Int(4), Int(4), Int(8), Int(8), Int(8), Text(2)]
  const VEHICLE := [
    Int(8), Int(4), Int(4), Int(8), Int(8), Int(8), Int(8), Int(8), Text(1), Int(8), Int(1), Int(4), Int(4), Text(2)]

  function VehicleLayout(ver: nat, clocks: bool): seq<Kind> {
    VEHICLE + (if ver >= STUCK_VERSION then [Int(8), Int(1)] else []) + if clocks then [Int(8)] else []
  }

  function DirectiveLayout(ver: nat): seq<Kind> {
    [Int(8), Int(4), Int(4), Int(8), Text(2)] + if ver >= DEST_VERSION then [Text(2), Int(8)] else []
  }

  datatype Header = Header(
    ver: nat, flags: nat, tick: nat, crc: nat, nextId: nat, nVehicles: nat, nOrigins: nat, schedNext: nat)
  {
    /** The adaptive-routing state rides the version through 6, the flags word from 7. */
    predicate HasClocks() {
      ver == ADAPTIVE_VERSION || (ver >= SIGNAL_VERSION && flags % 2 == 1)
    }
  }

  function HeaderOf(spec: Spec, st: State): Header {
    var ver := Version(spec, st);
    Header(
      ver, if ver >= SIGNAL_VERSION && spec.adaptive then FLAG_ADAPTIVE else 0,
      st.tick, st.crc, st.nextId, |st.vehicles|, |st.origins|, if spec.hasSpawner then st.schedNext else 0)
  }

  // ---------------------------------------------------------------- rows

  function Flag(b: bool): Item {
    Num(if b then 1 else 0)
  }

  function HeaderRow(h: Header): seq<Item> {
    [Num(MAGIC), Num(h.ver), Num(h.flags), Num(h.tick), Num(h.crc), Num(h.nextId),
     Num(h.nVehicles), Num(h.nOrigins), Num(h.schedNext), Num(0)]
  }

  function VehicleBase(v: Vehicle): seq<Item>
    requires -0x8000_0000 <= v.heldTurn < 0x8000_0000
  {
    [Num(v.id), Num(v.lane), Num(v.typ), Num(v.s), Num(v.v), Num(v.f), Num(v.cooldown), Num(v.draws), Txt(v.rng),
     Num(v.cruise), Flag(v.cruiseOK), Num(ToU32(v.heldTurn)), Num(v.signals), Txt(v.route)]
  }

  function VehicleRow(ver: nat, clocks: bool, v: Vehicle): seq<Item>
    requires -0x8000_0000 <= v.heldTurn < 0x8000_0000
  {
    VehicleBase(v)
    + (if ver >= STUCK_VERSION then [Num(v.stuckTicks), Flag(v.stopDone)] else [])
    + if clocks then [Num(v.laneEntryTick)] else []
  }

  /** A vehicle without a dwell clock in the payload starts its clock at the restore tick. */
  function VehicleOf(ver: nat, clocks: bool, tick: nat, row: seq<Item>): Vehicle
  {
    Vehicle(
      NumAt(row, 0), NumAt(row, 1), NumAt(row, 2), NumAt(row, 3), NumAt(row, 4), NumAt(row, 5), NumAt(row, 6), NumAt(row, 7), TextAt(row, 8),
      NumAt(row, 9), NumAt(row, 10) != 0, FromU32(NumAt(row, 11)), NumAt(row, 12), TextAt(row, 13),
      if ver >= STUCK_VERSION then NumAt(row, 14) else 0,
      if ver >= STUCK_VERSION then NumAt(row, 15) != 0 else false,
      if clocks then NumAt(row, 16) else tick)
  }

  function PendingRow(p: Pending): seq<Item> {
    [Num(p.lane), Num(p.rate), Num(p.tick), Num(p.id), Num(p.draws), Txt(p.rng)]
  }

  function PendingOf(row: seq<Item>): Pending
  {
    Pending(NumAt(row, 0), NumAt(row, 1), NumAt(row, 2), NumAt(row, 3), NumAt(row, 4), TextAt(row, 5))
  }

  function LaneRow(l: LaneTimes): seq<Item> {
    [Num(l.ema), Num(l.snap)]
  }

  function LaneOf(row: seq<Item>): LaneTimes
  {
    LaneTimes(NumAt(row, 0), NumAt(row, 1))
  }

  function DirectiveRow(ver: nat, d: Directive): seq<Item> {
    [Num(d.tick), Num(d.lane), Num(d.typ), Num(d.earliestTick), Txt(d.requestId)]
    + if ver >= DEST_VERSION then [Txt(d.destination), Num(d.offset)] else []
  }

  predicate DirectiveResolves(spec: Spec, row: seq<Item>) {
    NumAt(row, 1) < |spec.laneIds| && NumAt(row, 2) < |spec.typeNames|
  }

  /** Origin and type names are looked up, not stored. */
  function DirectiveOf(spec: Spec, ver: nat, row: seq<Item>): Directive
    requires DirectiveResolves(spec, row)
  {
    Directive(
      NumAt(row, 0), NumAt(row, 1), NumAt(row, 2), NumAt(row, 3), TextAt(row, 4),
      if ver >= DEST_VERSION then TextAt(row, 5) else [],
      if ver >= DEST_VERSION then NumAt(row, 6) else 0,
      spec.laneIds[NumAt(row, 1)], spec.typeNames[NumAt(row, 2)])
  }

  /** One hold, under the index of its program. */
  datatype Held = Held(signalIdx: nat, ov: Override)

  ghost predicate IsText(s: string) {
    forall i | 0 <= i < |s| :: (s[i] as int) < 256
  }

  function AsBytes(s: string): (b: Bytes)
    requires IsText(s)
    ensures b == s
  {
    s
  }

  function HeldRow(h: Held): seq<Item>
    requires IsText(h.ov.requestId)
  {
    [Num(h.signalIdx), Num(h.ov.phase), Num(h.ov.since), Num(h.ov.until), Num(h.ov.chainStart), Txt(AsBytes(h.ov.requestId))]
  }

  function HeldOf(row: seq<Item>): Held
  {
    Held(NumAt(row, 0), Override(NumAt(row, 1), NumAt(row, 2), NumAt(row, 3), NumAt(row, 4), TextAt(row, 5)))
  }

  // ---------------------------------------------------------------- the override table, flat

  function Tagged(h: History, i: nat): (r: seq<Held>)
    ensures |r| == |h| && forall k | 0 <= k < |h| :: r[k] == Held(i, h[k])
  {
    seq(|h|, k requires 0 <= k < |h| => Held(i, h[k]))
  }

  /** The histories of the first k programs, in network order. */
  function Flat(programs: seq<SP.Program>, ov: Table, k: nat): seq<Held>
    requires k <= |programs|
  {
    if k == 0 then [] else Flat(programs, ov, k - 1) + Tagged(Hist(ov, programs[k - 1].id), k - 1)
  }

  predicate HeldOK(programs: seq<SP.Program>, h: Held) {
    && h.signalIdx < |programs|
    && h.ov.phase < |programs[h.signalIdx].phaseTicks|
    && h.ov.until > h.ov.since
    && h.ov.chainStart <= h.ov.since
  }

  /** The table the holds build, each appended to its program's history. */
  function Gather(programs: seq<SP.Program>, hs: seq<Held>): Table
    requires forall i | 0 <= i < |hs| :: hs[i].signalIdx < |programs|
  {
    if hs == [] then map[]
    else
      var n := |hs| - 1;
      var ov := Gather(programs, hs[..n]);
      var id := programs[hs[n].signalIdx].id;
      ov[id := Hist(ov, id) + [hs[n].ov]]
  }

  // ---------------------------------------------------------------- writing

  function VehicleRows(ver: nat, clocks: bool, vs: seq<Vehicle>): (rows: seq<seq<Item>>)
    requires forall i | 0 <= i < |vs| :: -0x8000_0000 <= vs[i].heldTurn < 0x8000_0000
    ensures |rows| == |vs| && forall i | 0 <= i < |vs| :: rows[i] == VehicleRow(ver, clocks, vs[i])
  {
    seq(|vs|, i requires 0 <= i < |vs| => VehicleRow(ver, clocks, vs[i]))
  }

  function PendingRows(ps: seq<Pending>): (rows: seq<seq<Item>>)
    ensures |rows| == |ps| && forall i | 0 <= i < |ps| :: rows[i] == PendingRow(ps[i])
  {
    seq(|ps|, i requires 0 <= i < |ps| => PendingRow(ps[i]))
  }

  function LaneRows(ls: seq<LaneTimes>): (rows: seq<seq<Item>>)
    ensures |rows| == |ls| && forall i | 0 <= i < |ls| :: rows[i] == LaneRow(ls[i])
  {
    seq(|ls|, i requires 0 <= i < |ls| => LaneRow(ls[i]))
  }

  function DirectiveRows(ver: nat, ds: seq<Directive>): (rows: seq<seq<Item>>)
    ensures |rows| == |ds| && forall i | 0 <= i < |ds| :: rows[i] == DirectiveRow(ver, ds[i])
  {
    seq(|ds|, i requires 0 <= i < |ds| => DirectiveRow(ver, ds[i]))
  }

  function HeldRows(hs: seq<Held>): (rows: seq<seq<Item>>)
    requires forall i | 0 <= i < |hs| :: IsText(hs[i].ov.requestId)
    ensures |rows| == |hs| && forall i | 0 <= i < |hs| :: rows[i] == HeldRow(hs[i])
  {
    seq(|hs|, i requires 0 <= i < |hs| => HeldRow(hs[i]))
  }

  /** The binary form of a generator's state. */
  predicate AcceptsRng(b: Bytes) {
    |b| == 20 && b[0] == 'p' && b[1] == 'c' && b[2] == 'g' && b[3] == ':'
  }

  /** Values within the widths of the engine's own fields, and indices that resolve. */
  ghost predicate VehicleSound(spec: Spec, v: Vehicle) {
    && v.id < Pow256(8) && v.lane < |spec.laneIds| && v.typ < |spec.typeNames|
    && v.s < Pow256(8) && v.v < Pow256(8) && v.f < Pow256(8) && v.cooldown < Pow256(8) && v.draws < Pow256(8)
    && AcceptsRng(v.rng)
    && v.cruise < Pow256(8) && -0x8000_0000 <= v.heldTurn < 0x8000_0000 && v.signals < Pow256(4) && |v.route| < Pow256(2)
    && v.stuckTicks < Pow256(8) && v.laneEntryTick < Pow256(8)
  }

  ghost predicate PendingSound(spec: Spec, i: nat, p: Pending) {
    && i < |spec.originLanes| && p.lane == spec.originLanes[i]
    && p.rate < Pow256(8) && p.tick < Pow256(8) && p.id < Pow256(8) && p.draws < Pow256(8) && AcceptsRng(p.rng)
  }

  ghost predicate DirectiveSound(spec: Spec, d: Directive) {
    && d.tick < Pow256(8) && d.lane < |spec.laneIds| && d.typ < |spec.typeNames| && d.earliestTick < Pow256(8)
    && |d.requestId| < Pow256(2) && |d.destination| < Pow256(2) && d.offset < Pow256(8)
    && d.origin == spec.laneIds[d.lane] && d.typeName == spec.typeNames[d.typ]
  }

  ghost predicate OverrideSound(o: Override) {
    && o.phase < Pow256(4) && o.since < Pow256(8) && o.until < Pow256(8) && o.chainStart < Pow256(8)
    && IsText(o.requestId) && |o.requestId| < Pow256(2)
  }

  /** The override table as the engine keeps it: non-empty histories of known programs. */
  ghost predicate TableSound(programs: seq<SP.Program>, ov: Table) {
    && (forall id | id in ov :: ov[id] != [] && exists i | 0 <= i < |programs| :: programs[i].id == id)
    && forall k | 0 <= k < |Flat(programs, ov, |programs|)| ::
         HeldOK(programs, Flat(programs, ov, |programs|)[k]) && OverrideSound(Flat(programs, ov, |programs|)[k].ov)
  }

  ghost predicate Sound(spec: Spec, st: State) {
    && spec.Valid()
    && st.tick < Pow256(8) && st.crc < Pow256(8) && st.nextId < Pow256(8) && st.schedNext < Pow256(4)
    && (!spec.hasSpawner ==> st.schedNext == 0)
    && |st.vehicles| < Pow256(4) && (forall i | 0 <= i < |st.vehicles| :: VehicleSound(spec, st.vehicles[i]))
    && |st.origins| == |spec.originLanes| < Pow256(4) && (forall i | 0 <= i < |st.origins| :: PendingSound(spec, i, st.origins[i]))
    && |st.lanes| == |spec.laneIds| < Pow256(4) && (forall i | 0 <= i < |st.lanes| :: st.lanes[i].ema < Pow256(8) && st.lanes[i].snap < Pow256(8))
    && |st.queue| < Pow256(4) && (forall i | 0 <= i < |st.queue| :: DirectiveSound(spec, st.queue[i]))
    && |spec.typeNames| < Pow256(4) && |spec.programs| < Pow256(4)
    && TableSound(spec.programs, st.overrides) && |Flat(spec.programs, st.overrides, |spec.programs|)| < Pow256(4)
  }

  // ---------------------------------------------------------------- rows fit and read back

  lemma FitsAppend(ks: seq<Kind>, row: seq<Item>, ks': seq<Kind>, row': seq<Item>)
    requires RowFits(ks, row) && RowFits(ks', row')
    ensures RowFits(ks + ks', row + row')
  {
  }

  lemma Widths()
    ensures Pow256(1) == 0x100 && Pow256(2) == 0x1_0000 && Pow256(4) == 0x1_0000_0000
    ensures Pow256(8) == 0x1_0000_0000_0000_0000
  {
    assert Pow256(0) == 1 && Pow256(1) == 256 && Pow256(2) == 65536 && Pow256(3) == 0x100_0000 && Pow256(4) == 0x1_0000_0000;
    assert Pow256(5) == 0x100_0000_0000 && Pow256(6) == 0x1_0000_0000_0000 && Pow256(7) == 0x100_0000_0000_0000;
  }

  lemma VehicleBaseFits(spec: Spec, v: Vehicle)
    requires VehicleSound(spec, v) && |spec.laneIds| < Pow256(4) && |spec.typeNames| < Pow256(4)
    ensures RowFits(VEHICLE, VehicleBase(v))
  {
    Widths();
  }

  lemma VehicleRowFits(spec: Spec, ver: nat, clocks: bool, v: Vehicle)
    requires VehicleSound(spec, v) && |spec.laneIds| < Pow256(4) && |spec.typeNames| < Pow256(4)
    ensures RowFits(VehicleLayout(ver, clocks), VehicleRow(ver, clocks, v))
  {
    Widths();
    VehicleBaseFits(spec, v);
    var ks := if ver >= STUCK_VERSION then [Int(8), Int(1)] else [];
    var row := if ver >= STUCK_VERSION then [Num(v.stuckTicks), Flag(v.stopDone)] else [];
    FitsAppend(VEHICLE, VehicleBase(v), ks, row);
    FitsAppend(VEHICLE + ks, VehicleBase(v) + row, if clocks then [Int(8)] else [], if clocks then [Num(v.laneEntryTick)] else []);
  }

  /** What a restored vehicle is: itself, but for a dwell clock that the payload lacks. */
  function Clocked(v: Vehicle, clocks: bool, tick: nat): Vehicle {
    if clocks then v else v.(laneEntryTick := tick)
  }

  lemma VehicleBaseReads(ver: nat, clocks: bool, tick: nat, v: Vehicle, row: seq<Item>)
    requires -0x8000_0000 <= v.heldTurn < 0x8000_0000 && |row| >= 14 && row[..14] == VehicleBase(v)
    ensures var r := VehicleOf(ver, clocks, tick, row);
      r == v.(stuckTicks := r.stuckTicks, stopDone := r.stopDone, laneEntryTick := r.laneEntryTick)
  {
    assert forall i | 0 <= i < 14 :: row[i] == VehicleBase(v)[i];
  }

  lemma VehicleReadsBack(ver: nat, clocks: bool, tick: nat, v: Vehicle)
    requires -0x8000_0000 <= v.heldTurn < 0x8000_0000 && (clocks ==> ver >= STUCK_VERSION)
    requires ver >= STUCK_VERSION || !Delayed(v)
    ensures VehicleOf(ver, clocks, tick, VehicleRow(ver, clocks, v)) == Clocked(v, clocks, tick)
  {
    hide FromU32, ToU32;
    var row := VehicleRow(ver, clocks, v);
    assert row[..14] == VehicleBase(v);
    VehicleBaseReads(ver, clocks, tick, v, row);
    if ver >= STUCK_VERSION {
      assert row[14] == Num(v.stuckTicks) && row[15] == Flag(v.stopDone);
    }
  }

  lemma DirectiveRowFits(spec: Spec, ver: nat, d: Directive)
    requires DirectiveSound(spec, d) && |spec.laneIds| < Pow256(4) && |spec.typeNames| < Pow256(4)
    ensures RowFits(DirectiveLayout(ver), DirectiveRow(ver, d))
  {
    Widths();
  }

  /** What a restored directive is: before version 4 a negative zero offset reads as zero. */
  function Offset(d: Directive, ver: nat): Directive {
    if ver >= DEST_VERSION then d else d.(offset := 0)
  }

  lemma DirectiveReadsBack(spec: Spec, ver: nat, d: Directive)
    requires DirectiveSound(spec, d) && (ver >= DEST_VERSION || !Routed(d))
    ensures var row := DirectiveRow(ver, d);
      DirectiveResolves(spec, row) && DirectiveOf(spec, ver, row) == Offset(d, ver)
  {
  }

  lemma {:induction false} FlatInRange(programs: seq<SP.Program>, ov: Table, k: nat)
    requires k <= |programs|
    ensures forall i | 0 <= i < |Flat(programs, ov, k)| :: Flat(programs, ov, k)[i].signalIdx < k
  {
    if k > 0 {
      FlatInRange(programs, ov, k - 1);
    }
  }

  /** Appending one program's holds builds that program's history and touches no other. */
  lemma GatherOne(programs: seq<SP.Program>, hs: seq<Held>, x: Held)
    requires forall k | 0 <= k < |hs| :: hs[k].signalIdx < |programs|
    requires x.signalIdx < |programs|
    ensures var ov, id := Gather(programs, hs), programs[x.signalIdx].id;
      Gather(programs, hs + [x]) == ov[id := Hist(ov, id) + [x.ov]]
  {
    assert (hs + [x])[..|hs|] == hs;
  }

  lemma {:induction false} GatherTagged(programs: seq<SP.Program>, hs: seq<Held>, h: History, i: nat)
    requires i < |programs| && forall k | 0 <= k < |hs| :: hs[k].signalIdx < |programs|
    ensures var ov, r := Gather(programs, hs), Gather(programs, hs + Tagged(h, i));
      r == if h == [] then ov else ov[programs[i].id := Hist(ov, programs[i].id) + h]
  {
    hide Gather;
    if h == [] {
      assert hs + Tagged(h, i) == hs;
    } else {
      var n := |h| - 1;
      GatherTagged(programs, hs, h[..n], i);
      assert hs + Tagged(h, i) == (hs + Tagged(h[..n], i)) + [Held(i, h[n])];
      GatherOne(programs, hs + Tagged(h[..n], i), Held(i, h[n]));
      var ov, id := Gather(programs, hs), programs[i].id;
      assert (Hist(ov, id) + h[..n]) + [h[n]] == Hist(ov, id) + h;
      if n == 0 {
        assert Hist(ov, id) + h[..n] == Hist(ov, id);
      }
    }
  }

  /** The table with the histories of the first k programs only. */
  ghost predicate UpToProgram(programs: seq<SP.Program>, ov: Table, r: Table, k: nat) {
    && (forall id | id in r :: id in ov && r[id] == ov[id])
    && (forall i | 0 <= i < |programs| && programs[i].id in ov :: i < k <==> programs[i].id in r)
  }

  lemma NextProgram(programs: seq<SP.Program>, ov: Table, before: Table, k: nat)
    requires k < |programs| && forall i, j | 0 <= i < j < |programs| :: programs[i].id != programs[j].id
    requires UpToProgram(programs, ov, before, k)
    requires forall id | id in ov :: ov[id] != []
    ensures var id, h := programs[k].id, Hist(ov, programs[k].id);
      UpToProgram(programs, ov, if h == [] then before else before[id := Hist(before, id) + h], k + 1)
  {
    var id, h := programs[k].id, Hist(ov, programs[k].id);
    assert id !in before;
    assert Hist(before, id) + h == h;
  }

  lemma {:induction false} GatherFlat(programs: seq<SP.Program>, ov: Table, k: nat)
    requires k <= |programs| && forall i, j | 0 <= i < j < |programs| :: programs[i].id != programs[j].id
    requires forall id | id in ov :: ov[id] != []
    ensures forall i | 0 <= i < |Flat(programs, ov, k)| :: Flat(programs, ov, k)[i].signalIdx < |programs|
    ensures UpToProgram(programs, ov, Gather(programs, Flat(programs, ov, k)), k)
  {
    hide UpToProgram, Gather;
    FlatInRange(programs, ov, k);
    if k == 0 {
      NoneGathered(programs, ov);
    } else {
      GatherFlat(programs, ov, k - 1);
      GatherTagged(programs, Flat(programs, ov, k - 1), Hist(ov, programs[k - 1].id), k - 1);
      NextProgram(programs, ov, Gather(programs, Flat(programs, ov, k - 1)), k - 1);
    }
  }

  lemma NoneGathered(programs: seq<SP.Program>, ov: Table)
    ensures UpToProgram(programs, ov, Gather(programs, []), 0)
  {
  }

  /** Flattening the table and gathering it again gives the table. */
  lemma TableReadsBack(programs: seq<SP.Program>, ov: Table)
    requires forall i, j | 0 <= i < j < |programs| :: programs[i].id != programs[j].id
    requires TableSound(programs, ov)
    ensures forall i | 0 <= i < |Flat(programs, ov, |programs|)| :: Flat(programs, ov, |programs|)[i].signalIdx < |programs|
    ensures Gather(programs, Flat(programs, ov, |programs|)) == ov
  {
    GatherFlat(programs, ov, |programs|);
    var r := Gather(programs, Flat(programs, ov, |programs|));
    forall id | id in ov ensures id in r {
      var i :| 0 <= i < |programs| && programs[i].id == id;
    }
  }

  /** Any table a run can reach passes every check a restore makes on it. */
  lemma {:induction false} BoundedRestores(net: Network, ov: Table, now: nat, k: nat)
    requires net.Valid() && TableBounded(net, ov, now) && k <= |net.programs|
    ensures forall i | 0 <= i < |Flat(net.programs, ov, k)| :: HeldOK(net.programs, Flat(net.programs, ov, k)[i])
  {
    if k > 0 {
      BoundedRestores(net, ov, now, k - 1);
      var h := Hist(ov, net.programs[k - 1].id);
      var tagged := Tagged(h, k - 1);
      forall j | 0 <= j < |tagged| ensures HeldOK(net.programs, tagged[j]) {
        assert h[j].chainStart <= h[j].since < h[j].until;
      }
    }
  }

  // ---------------------------------------------------------------- reading

  function VehiclesOf(h: Header, rows: seq<seq<Item>>): (vs: seq<Vehicle>)
    ensures |vs| == |rows| && forall i | 0 <= i < |rows| :: vs[i] == VehicleOf(h.ver, h.HasClocks(), h.tick, rows[i])
  {
    seq(|rows|, i requires 0 <= i < |rows| => VehicleOf(h.ver, h.HasClocks(), h.tick, rows[i]))
  }

  function PendingsOf(rows: seq<seq<Item>>): (ps: seq<Pending>)
    ensures |ps| == |rows| && forall i | 0 <= i < |rows| :: ps[i] == PendingOf(rows[i])
  {
    seq(|rows|, i requires 0 <= i < |rows| => PendingOf(rows[i]))
  }

  function LanesOf(rows: seq<seq<Item>>): (ls: seq<LaneTimes>)
    ensures |ls| == |rows| && forall i | 0 <= i < |rows| :: ls[i] == LaneOf(rows[i])
  {
    seq(|rows|, i requires 0 <= i < |rows| => LaneOf(rows[i]))
  }

  function DirectivesOf(spec: Spec, ver: nat, rows: seq<seq<Item>>): (ds: seq<Directive>)
    requires forall i | 0 <= i < |rows| :: DirectiveResolves(spec, rows[i])
    ensures |ds| == |rows| && forall i | 0 <= i < |rows| :: ds[i] == DirectiveOf(spec, ver, rows[i])
  {
    seq(|rows|, i requires 0 <= i < |rows| => DirectiveOf(spec, ver, rows[i]))
  }

  function HeldsOf(rows: seq<seq<Item>>): (hs: seq<Held>)
    ensures |hs| == |rows| && forall i | 0 <= i < |rows| :: hs[i] == HeldOf(rows[i])
  {
    seq(|rows|, i requires 0 <= i < |rows| => HeldOf(rows[i]))
  }

  predicate VehicleOK(spec: Spec, v: Vehicle) {
    v.lane < |spec.laneIds| && v.typ < |spec.typeNames| && AcceptsRng(v.rng)
  }

  predicate PendingOK(spec: Spec, i: nat, p: Pending)
    requires i < |spec.originLanes|
  {
    p.lane == spec.originLanes[i] && AcceptsRng(p.rng)
  }

  function HeaderFrom(row: seq<Item>): Header {
    Header(NumAt(row, 1), NumAt(row, 2), NumAt(row, 3), NumAt(row, 4), NumAt(row, 5), NumAt(row, 6), NumAt(row, 7), NumAt(row, 8))
  }

  predicate HeaderOK(spec: Spec, h: Header) {
    && MIN_VERSION <= h.ver <= SIGNAL_VERSION
    && (h.HasClocks() ==> spec.adaptive)
    && h.nOrigins == |spec.originLanes|
  }

  function ParseHeader(spec: Spec, b: Bytes): (r: Parse<Header>)
    ensures r.Got? ==> HeaderOK(spec, r.value)
  {
    var row := DecodeRow(HEADER, b);
    if row.Fail? || NumAt(row.value, 0) != MAGIC || !HeaderOK(spec, HeaderFrom(row.value)) then Fail
    else Got(HeaderFrom(row.value), row.rest)
  }

  function ParseVehicles(spec: Spec, h: Header, b: Bytes): Parse<seq<Vehicle>> {
    var rows := DecodeRows(VehicleLayout(h.ver, h.HasClocks()), h.nVehicles, b);
    if rows.Fail? then Fail
    else
      var vs := VehiclesOf(h, rows.value);
      if exists i | 0 <= i < |vs| :: !VehicleOK(spec, vs[i]) then Fail else Got(vs, rows.rest)
  }

  function ParseOrigins(spec: Spec, h: Header, b: Bytes): Parse<seq<Pending>>
    requires HeaderOK(spec, h)
  {
    var rows := DecodeRows(ORIGIN, h.nOrigins, b);
    if rows.Fail? then Fail
    else
      var ps := PendingsOf(rows.value);
      if exists i | 0 <= i < |ps| :: !PendingOK(spec, i, ps[i]) then Fail else Got(ps, rows.rest)
  }

  /** A section with its count in front. */
  function ParseCounted(ks: seq<Kind>, b: Bytes): Parse<seq<seq<Item>>> {
    var n := DecodeRow(COUNT, b);
    if n.Fail? then Fail else DecodeRows(ks, NumAt(n.value, 0), n.rest)
  }

  function ParseLanes(spec: Spec, h: Header, b: Bytes): Parse<seq<LaneTimes>> {
    if !h.HasClocks() then Got(spec.freshLanes, b)
    else
      var rows := ParseCounted(LANE_TIMES, b);
      if rows.Fail? || |rows.value| != |spec.laneIds| then Fail else Got(LanesOf(rows.value), rows.rest)
  }

  function ParseQueue(spec: Spec, h: Header, b: Bytes): Parse<seq<Directive>> {
    if h.ver < QUEUE_VERSION then Got([], b)
    else
      var rows := ParseCounted(DirectiveLayout(h.ver), b);
      if rows.Fail? || exists i | 0 <= i < |rows.value| :: !DirectiveResolves(spec, rows.value[i]) then Fail
      else Got(DirectivesOf(spec, h.ver, rows.value), rows.rest)
  }

  function ParseOverrides(spec: Spec, h: Header, b: Bytes): Parse<Table> {
    if h.ver < SIGNAL_VERSION then Got(map[], b)
    else
      var rows := ParseCounted(OVERRIDE, b);
      if rows.Fail? then Fail
      else
        var hs := HeldsOf(rows.value);
        if exists i | 0 <= i < |hs| :: !HeldOK(spec.programs, hs[i]) then Fail else Got(Gather(spec.programs, hs), rows.rest)
  }

  /** The sections after the header, in order. */
  function ParseBody(spec: Spec, h: Header, b: Bytes): Parse<State>
    requires HeaderOK(spec, h)
  {
    var vs := ParseVehicles(spec, h, b);
    if vs.Fail? then Fail else
    var ps := ParseOrigins(spec, h, vs.rest);
    if ps.Fail? then Fail else
    var ls := ParseLanes(spec, h, ps.rest);
    if ls.Fail? then Fail else
    var ds := ParseQueue(spec, h, ls.rest);
    if ds.Fail? then Fail else
    var ov := ParseOverrides(spec, h, ds.rest);
    if ov.Fail? then Fail
    else
      Got(State(h.tick, h.crc, h.nextId, vs.value, if spec.hasSpawner then h.schedNext else 0, ps.value, ls.value, ds.value, ov.value), ov.rest)
  }

  function ParseState(spec: Spec, b: Bytes): Parse<State> {
    var h := ParseHeader(spec, b);
    if h.Fail? then Fail else ParseBody(spec, h.value, h.rest)
  }

  datatype Restored = Refused | Restored(st: State)

  /** Trailing bytes are refused. */
  function Restore(spec: Spec, data: Bytes): Restored {
    var r := ParseState(spec, data);
    if r.Got? && r.rest == [] then Restored(r.value) else Refused
  }

  // ---------------------------------------------------------------- no prefix, no extension

  lemma HeaderExtends(spec: Spec, b: Bytes, more: Bytes)
    requires ParseHeader(spec, b).Got?
    ensures ParseHeader(spec, b + more) == Got(ParseHeader(spec, b).value, ParseHeader(spec, b).rest + more)
  {
    hide HeaderOK, DecodeRow;
    RowExtends(HEADER, b, more);
  }

  lemma CountedExtends(ks: seq<Kind>, b: Bytes, more: Bytes)
    requires ParseCounted(ks, b).Got?
    ensures ParseCounted(ks, b + more) == Got(ParseCounted(ks, b).value, ParseCounted(ks, b).rest + more)
  {
    hide DecodeRow, DecodeRows;
    RowExtends(COUNT, b, more);
    RowsExtend(ks, NumAt(DecodeRow(COUNT, b).value, 0), DecodeRow(COUNT, b).rest, more);
  }

  lemma VehiclesExtend(spec: Spec, h: Header, b: Bytes, more: Bytes)
    requires ParseVehicles(spec, h, b).Got?
    ensures ParseVehicles(spec, h, b + more) == Got(ParseVehicles(spec, h, b).value, ParseVehicles(spec, h, b).rest + more)
  {
    hide DecodeRows, VehicleOf, VehicleOK, VehicleLayout;
    RowsExtend(VehicleLayout(h.ver, h.HasClocks()), h.nVehicles, b, more);
  }

  lemma OriginsExtend(spec: Spec, h: Header, b: Bytes, more: Bytes)
    requires HeaderOK(spec, h) && ParseOrigins(spec, h, b).Got?
    ensures ParseOrigins(spec, h, b + more) == Got(ParseOrigins(spec, h, b).value, ParseOrigins(spec, h, b).rest + more)
  {
    hide DecodeRows, PendingOf, PendingOK;
    RowsExtend(ORIGIN, h.nOrigins, b, more);
  }

  lemma LanesExtend(spec: Spec, h: Header, b: Bytes, more: Bytes)
    requires ParseLanes(spec, h, b).Got?
    ensures ParseLanes(spec, h, b + more) == Got(ParseLanes(spec, h, b).value, ParseLanes(spec, h, b).rest + more)
  {
    hide ParseCounted, LaneOf;
    if h.HasClocks() {
      CountedExtends(LANE_TIMES, b, more);
    }
  }

  lemma QueueExtends(spec: Spec, h: Header, b: Bytes, more: Bytes)
    requires ParseQueue(spec, h, b).Got?
    ensures ParseQueue(spec, h, b + more) == Got(ParseQueue(spec, h, b).value, ParseQueue(spec, h, b).rest + more)
  {
    hide ParseCounted, DirectiveOf, DirectiveResolves, DirectiveLayout;
    if h.ver >= QUEUE_VERSION {
      CountedExtends(DirectiveLayout(h.ver), b, more);
    }
  }

  lemma OverridesExtend(spec: Spec, h: Header, b: Bytes, more: Bytes)
    requires ParseOverrides(spec, h, b).Got?
    ensures ParseOverrides(spec, h, b + more) == Got(ParseOverrides(spec, h, b).value, ParseOverrides(spec, h, b).rest + more)
  {
    hide ParseCounted, HeldOf, HeldOK, Gather;
    if h.ver >= SIGNAL_VERSION {
      CountedExtends(OVERRIDE, b, more);
    }
  }

  lemma StateExtends(spec: Spec, b: Bytes, more: Bytes)
    requires ParseState(spec, b).Got?
    ensures ParseState(spec, b + more) == Got(ParseState(spec, b).value, ParseState(spec, b).rest + more)
  {
    hide ParseHeader, ParseVehicles, ParseOrigins, ParseLanes, ParseQueue, ParseOverrides, HeaderOK;
    HeaderExtends(spec, b, more);
    var h := ParseHeader(spec, b);
    var vs := ParseVehicles(spec, h.value, h.rest);
    VehiclesExtend(spec, h.value, h.rest, more);
    var ps := ParseOrigins(spec, h.value, vs.rest);
    OriginsExtend(spec, h.value, vs.rest, more);
    var ls := ParseLanes(spec, h.value, ps.rest);
    LanesExtend(spec, h.value, ps.rest, more);
    var ds := ParseQueue(spec, h.value, ls.rest);
    QueueExtends(spec, h.value, ls.rest, more);
    OverridesExtend(spec, h.value, ds.rest, more);
  }

  /** A payload that restores does so as a whole: no proper extension of it restores, and so
      no strict prefix of it does. */
  lemma OnlyWholePayloads(spec: Spec, data: Bytes, more: Bytes)
    requires more != []
    ensures !(Restore(spec, data).Restored? && Restore(spec, data + more).Restored?)
  {
    hide ParseState;
    if ParseState(spec, data).Got? {
      StateExtends(spec, data, more);
    }
  }

  // ---------------------------------------------------------------- the payload

  lemma HeaderFits(spec: Spec, st: State)
    requires Sound(spec, st)
    ensures RowFits(HEADER, HeaderRow(HeaderOf(spec, st)))
  {
    hide Version, TableSound, VehicleSound, PendingSound, DirectiveSound;
    Widths();
  }

  lemma VehicleRowsFit(spec: Spec, st: State, ver: nat, clocks: bool)
    requires Sound(spec, st)
    ensures forall i | 0 <= i < |st.vehicles| :: -0x8000_0000 <= st.vehicles[i].heldTurn < 0x8000_0000
    ensures RowsFit(VehicleLayout(ver, clocks), VehicleRows(ver, clocks, st.vehicles))
  {
    hide RowFits, VehicleLayout, VehicleRow, TableSound, PendingSound, DirectiveSound;
    forall i | 0 <= i < |st.vehicles| ensures RowFits(VehicleLayout(ver, clocks), VehicleRow(ver, clocks, st.vehicles[i])) {
      VehicleRowFits(spec, ver, clocks, st.vehicles[i]);
    }
  }

  lemma PendingRowsFit(spec: Spec, st: State)
    requires Sound(spec, st)
    ensures RowsFit(ORIGIN, PendingRows(st.origins))
  {
    hide TableSound, VehicleSound, DirectiveSound;
    Widths();
    forall i | 0 <= i < |st.origins| ensures RowFits(ORIGIN, PendingRow(st.origins[i])) {
      assert PendingSound(spec, i, st.origins[i]);
    }
  }

  lemma LaneRowsFit(spec: Spec, st: State)
    requires Sound(spec, st)
    ensures RowFits(COUNT, [Num(|st.lanes|)]) && RowsFit(LANE_TIMES, LaneRows(st.lanes))
  {
    hide TableSound, VehicleSound, PendingSound, DirectiveSound;
  }

  lemma DirectiveRowsFit(spec: Spec, st: State, ver: nat)
    requires Sound(spec, st)
    ensures RowFits(COUNT, [Num(|st.queue|)]) && RowsFit(DirectiveLayout(ver), DirectiveRows(ver, st.queue))
  {
    hide DirectiveLayout, DirectiveRow, TableSound, VehicleSound, PendingSound;
    forall i | 0 <= i < |st.queue| ensures RowFits(DirectiveLayout(ver), DirectiveRow(ver, st.queue[i])) {
      DirectiveRowFits(spec, ver, st.queue[i]);
    }
  }

  lemma HeldRowsFit(spec: Spec, st: State)
    requires Sound(spec, st)
    ensures var hs := Flat(spec.programs, st.overrides, |spec.programs|);
      && (forall i | 0 <= i < |hs| :: IsText(hs[i].ov.requestId))
      && RowFits(COUNT, [Num(|hs|)]) && RowsFit(OVERRIDE, HeldRows(hs))
  {
    hide VehicleSound, PendingSound, DirectiveSound, IsText;
    var hs := Flat(spec.programs, st.overrides, |spec.programs|);
    Widths();
    forall i | 0 <= i < |hs| ensures IsText(hs[i].ov.requestId) && RowFits(OVERRIDE, HeldRow(hs[i])) {
      assert HeldOK(spec.programs, hs[i]) && OverrideSound(hs[i].ov);
    }
  }

  function MarshalHeader(spec: Spec, st: State): Bytes
    requires Sound(spec, st)
  {
    HeaderFits(spec, st);
    EncodeRow(HEADER, HeaderRow(HeaderOf(spec, st)))
  }

  function MarshalVehicles(spec: Spec, st: State): Bytes
    requires Sound(spec, st)
  {
    var h := HeaderOf(spec, st);
    VehicleRowsFit(spec, st, h.ver, h.HasClocks());
    EncodeRows(VehicleLayout(h.ver, h.HasClocks()), VehicleRows(h.ver, h.HasClocks(), st.vehicles))
  }

  function MarshalOrigins(spec: Spec, st: State): Bytes
    requires Sound(spec, st)
  {
    PendingRowsFit(spec, st);
    EncodeRows(ORIGIN, PendingRows(st.origins))
  }

  function MarshalLanes(spec: Spec, st: State): Bytes
    requires Sound(spec, st)
  {
    LaneRowsFit(spec, st);
    if HeaderOf(spec, st).HasClocks() then EncodeRow(COUNT, [Num(|st.lanes|)]) + EncodeRows(LANE_TIMES, LaneRows(st.lanes))
    else []
  }

  function MarshalQueue(spec: Spec, st: State): Bytes
    requires Sound(spec, st)
  {
    var ver := Version(spec, st);
    DirectiveRowsFit(spec, st, ver);
    if ver >= QUEUE_VERSION then EncodeRow(COUNT, [Num(|st.queue|)]) + EncodeRows(DirectiveLayout(ver), DirectiveRows(ver, st.queue))
    else []
  }

  function MarshalOverrides(spec: Spec, st: State): Bytes
    requires Sound(spec, st)
  {
    var hs := Flat(spec.programs, st.overrides, |spec.programs|);
    HeldRowsFit(spec, st);
    if Version(spec, st) >= SIGNAL_VERSION then EncodeRow(COUNT, [Num(|hs|)]) + EncodeRows(OVERRIDE, HeldRows(hs)) else []
  }

  function Marshal(spec: Spec, st: State): Bytes
    requires Sound(spec, st)
  {
    MarshalHeader(spec, st) + (MarshalVehicles(spec, st) + (MarshalOrigins(spec, st)
    + (MarshalLanes(spec, st) + (MarshalQueue(spec, st) + MarshalOverrides(spec, st)))))
  }

  // ---------------------------------------------------------------- round trip

  function ClockedAll(vs: seq<Vehicle>, clocks: bool, tick: nat): (r: seq<Vehicle>)
    ensures |r| == |vs| && forall i | 0 <= i < |vs| :: r[i] == Clocked(vs[i], clocks, tick)
  {
    seq(|vs|, i requires 0 <= i < |vs| => Clocked(vs[i], clocks, tick))
  }

  function OffsetAll(ds: seq<Directive>, ver: nat): (r: seq<Directive>)
    ensures |r| == |ds| && forall i | 0 <= i < |ds| :: r[i] == Offset(ds[i], ver)
  {
    seq(|ds|, i requires 0 <= i < |ds| => Offset(ds[i], ver))
  }

  /** The state a restore gives back: without adaptive routing the dwell clocks restart and
      the lane times are a fresh engine's; all else is the state itself. */
  function Normal(spec: Spec, st: State): State {
    st.(vehicles := ClockedAll(st.vehicles, spec.adaptive, st.tick),
        lanes := if spec.adaptive then st.lanes else spec.freshLanes,
        queue := OffsetAll(st.queue, Version(spec, st)))
  }

  lemma ClocksIffAdaptive(spec: Spec, st: State)
    ensures HeaderOf(spec, st).HasClocks() == spec.adaptive
  {
  }

  lemma HeaderReadsBack(spec: Spec, st: State, rest: Bytes)
    requires Sound(spec, st)
    ensures ParseHeader(spec, MarshalHeader(spec, st) + rest) == Got(HeaderOf(spec, st), rest)
  {
    hide Version, TableSound, VehicleSound, PendingSound, DirectiveSound, EncodeRow, DecodeRow, Header.HasClocks;
    HeaderFits(spec, st);
    ClocksIffAdaptive(spec, st);
    RowRoundTrip(HEADER, HeaderRow(HeaderOf(spec, st)), rest);
  }

  lemma VehiclesReadBack(spec: Spec, st: State, rest: Bytes)
    requires Sound(spec, st)
    ensures ParseVehicles(spec, HeaderOf(spec, st), MarshalVehicles(spec, st) + rest)
      == Got(ClockedAll(st.vehicles, spec.adaptive, st.tick), rest)
  {
    hide EncodeRows, DecodeRows, VehicleLayout, VehicleRow, VehicleOf, TableSound, PendingSound, DirectiveSound;
    var h := HeaderOf(spec, st);
    var rows := VehicleRows(h.ver, h.HasClocks(), st.vehicles);
    VehicleRowsFit(spec, st, h.ver, h.HasClocks());
    RowsRoundTrip(VehicleLayout(h.ver, h.HasClocks()), rows, rest);
    ClocksIffAdaptive(spec, st);
    var vs := VehiclesOf(h, rows);
    forall i | 0 <= i < |vs| ensures vs[i] == Clocked(st.vehicles[i], spec.adaptive, st.tick) && VehicleOK(spec, vs[i]) {
      assert VehicleSound(spec, st.vehicles[i]);
      VehicleReadsBack(h.ver, h.HasClocks(), h.tick, st.vehicles[i]);
    }
    assert vs == ClockedAll(st.vehicles, spec.adaptive, st.tick);
  }

  lemma OriginsReadBack(spec: Spec, st: State, rest: Bytes)
    requires Sound(spec, st)
    ensures HeaderOK(spec, HeaderOf(spec, st))
    ensures ParseOrigins(spec, HeaderOf(spec, st), MarshalOrigins(spec, st) + rest) == Got(st.origins, rest)
  {
    hide EncodeRows, DecodeRows, TableSound, VehicleSound, DirectiveSound, Version;
    ClocksIffAdaptive(spec, st);
    PendingRowsFit(spec, st);
    RowsRoundTrip(ORIGIN, PendingRows(st.origins), rest);
    var ps := PendingsOf(PendingRows(st.origins));
    forall i | 0 <= i < |ps| ensures ps[i] == st.origins[i] && PendingOK(spec, i, ps[i]) {
      assert PendingSound(spec, i, st.origins[i]);
    }
    assert ps == st.origins;
  }

  lemma CountedReadsBack(ks: seq<Kind>, rows: seq<seq<Item>>, rest: Bytes)
    requires RowFits(COUNT, [Num(|rows|)]) && RowsFit(ks, rows)
    ensures ParseCounted(ks, (EncodeRow(COUNT, [Num(|rows|)]) + EncodeRows(ks, rows)) + rest) == Got(rows, rest)
  {
    hide EncodeRow, EncodeRows, DecodeRow, DecodeRows;
    var n, body := EncodeRow(COUNT, [Num(|rows|)]), EncodeRows(ks, rows);
    assert (n + body) + rest == n + (body + rest);
    RowRoundTrip(COUNT, [Num(|rows|)], body + rest);
    RowsRoundTrip(ks, rows, rest);
  }

  lemma LanesReadBack(spec: Spec, st: State, rest: Bytes)
    requires Sound(spec, st)
    ensures ParseLanes(spec, HeaderOf(spec, st), MarshalLanes(spec, st) + rest) == Got(Normal(spec, st).lanes, rest)
  {
    hide EncodeRow, EncodeRows, ParseCounted, TableSound, VehicleSound, PendingSound, DirectiveSound, Version, Header.HasClocks;
    ClocksIffAdaptive(spec, st);
    LaneRowsFit(spec, st);
    if spec.adaptive {
      CountedReadsBack(LANE_TIMES, LaneRows(st.lanes), rest);
      assert LanesOf(LaneRows(st.lanes)) == st.lanes;
    } else {
      assert MarshalLanes(spec, st) + rest == rest;
    }
  }

  lemma QueueReadsBack(spec: Spec, st: State, rest: Bytes)
    requires Sound(spec, st)
    ensures ParseQueue(spec, HeaderOf(spec, st), MarshalQueue(spec, st) + rest) == Got(Normal(spec, st).queue, rest)
  {
    hide EncodeRow, EncodeRows, ParseCounted, TableSound, VehicleSound, PendingSound, DirectiveLayout, DirectiveRow, DirectiveOf, DirectiveResolves;
    var ver := Version(spec, st);
    DirectiveRowsFit(spec, st, ver);
    if ver >= QUEUE_VERSION {
      var rows := DirectiveRows(ver, st.queue);
      CountedReadsBack(DirectiveLayout(ver), rows, rest);
      forall i | 0 <= i < |rows|
        ensures DirectiveResolves(spec, rows[i]) && DirectiveOf(spec, ver, rows[i]) == Offset(st.queue[i], ver)
      {
        assert DirectiveSound(spec, st.queue[i]);
        DirectiveReadsBack(spec, ver, st.queue[i]);
      }
      assert DirectivesOf(spec, ver, rows) == OffsetAll(st.queue, ver);
    } else {
      assert MarshalQueue(spec, st) + rest == rest;
      assert OffsetAll(st.queue, ver) == [];
    }
  }

  lemma OverridesReadBack(spec: Spec, st: State)
    requires Sound(spec, st)
    ensures ParseOverrides(spec, HeaderOf(spec, st), MarshalOverrides(spec, st)) == Got(st.overrides, [])
  {
    hide EncodeRow, EncodeRows, ParseCounted, VehicleSound, PendingSound, DirectiveSound, Gather, Flat, IsText;
    var hs := Flat(spec.programs, st.overrides, |spec.programs|);
    HeldRowsFit(spec, st);
    if st.overrides != map[] {
      var rows := HeldRows(hs);
      CountedReadsBack(OVERRIDE, rows, []);
      assert (EncodeRow(COUNT, [Num(|rows|)]) + EncodeRows(OVERRIDE, rows)) + [] == MarshalOverrides(spec, st);
      assert HeldsOf(rows) == hs;
      TableReadsBack(spec.programs, st.overrides);
    }
  }

  /** Marshalled bytes restore, to the state they were taken from, in every version. */
  lemma RestoreMarshal(spec: Spec, st: State)
    requires Sound(spec, st)
    ensures Restore(spec, Marshal(spec, st)) == Restored(Normal(spec, st))
  {
    hide ParseHeader, ParseVehicles, ParseOrigins, ParseLanes, ParseQueue, ParseOverrides, HeaderOK;
    hide MarshalHeader, MarshalVehicles, MarshalOrigins, MarshalLanes, MarshalQueue, MarshalOverrides;
    hide TableSound, VehicleSound, PendingSound, DirectiveSound, Version;
    var d := MarshalQueue(spec, st) + MarshalOverrides(spec, st);
    var c := MarshalLanes(spec, st) + d;
    var b := MarshalOrigins(spec, st) + c;
    HeaderReadsBack(spec, st, MarshalVehicles(spec, st) + b);
    VehiclesReadBack(spec, st, b);
    OriginsReadBack(spec, st, c);
    LanesReadBack(spec, st, d);
    QueueReadsBack(spec, st, MarshalOverrides(spec, st));
    OverridesReadBack(spec, st);
  }

  ghost predicate FreshSound(spec: Spec) {
    forall i | 0 <= i < |spec.freshLanes| :: spec.freshLanes[i].ema < Pow256(8) && spec.freshLanes[i].snap < Pow256(8)
  }

  lemma NormalSound(spec: Spec, st: State)
    requires Sound(spec, st) && FreshSound(spec)
    ensures Sound(spec, Normal(spec, st))
  {
    hide TableSound, Version, AcceptsRng;
    var n := Normal(spec, st);
    forall i | 0 <= i < |n.vehicles| ensures VehicleSound(spec, n.vehicles[i]) {
      assert VehicleSound(spec, st.vehicles[i]);
    }
    forall i | 0 <= i < |n.origins| ensures PendingSound(spec, i, n.origins[i]) {
      assert PendingSound(spec, i, st.origins[i]);
    }
    forall i | 0 <= i < |n.queue| ensures DirectiveSound(spec, n.queue[i]) {
      assert DirectiveSound(spec, st.queue[i]);
    }
  }

  /** What a restore changes does not show in the choice of version. */
  lemma NormalVersion(spec: Spec, st: State)
    ensures Version(spec, Normal(spec, st)) == Version(spec, st)
  {
    var n := Normal(spec, st);
    assert forall i | 0 <= i < |st.vehicles| :: Delayed(n.vehicles[i]) == Delayed(st.vehicles[i]);
    forall i | 0 <= i < |st.queue| && Version(spec, st) >= DEST_VERSION ensures Routed(n.queue[i]) == Routed(st.queue[i]) {
      assert n.queue[i] == st.queue[i];
    }
    if Version(spec, st) < DEST_VERSION {
      forall i | 0 <= i < |st.queue| ensures !Routed(n.queue[i]) {
        assert !Routed(st.queue[i]);
      }
    }
  }

  lemma NormalVehicleBytes(spec: Spec, st: State)
    requires Sound(spec, st) && Sound(spec, Normal(spec, st))
    ensures MarshalVehicles(spec, Normal(spec, st)) == MarshalVehicles(spec, st)
  {
    hide EncodeRows, Version, TableSound, PendingSound, DirectiveSound;
    NormalVersion(spec, st);
    ClocksIffAdaptive(spec, st);
    ClocksIffAdaptive(spec, Normal(spec, st));
    var h := HeaderOf(spec, st);
    var a, b := VehicleRows(h.ver, h.HasClocks(), Normal(spec, st).vehicles), VehicleRows(h.ver, h.HasClocks(), st.vehicles);
    forall i | 0 <= i < |a| ensures a[i] == b[i] {
      assert VehicleSound(spec, st.vehicles[i]);
    }
    assert a == b;
  }

  lemma NormalQueueBytes(spec: Spec, st: State)
    requires Sound(spec, st) && Sound(spec, Normal(spec, st))
    ensures MarshalQueue(spec, Normal(spec, st)) == MarshalQueue(spec, st)
  {
    hide EncodeRow, EncodeRows, Version, TableSound, PendingSound, VehicleSound, DirectiveSound;
    NormalVersion(spec, st);
    var ver := Version(spec, st);
    assert DirectiveRows(ver, Normal(spec, st).queue) == DirectiveRows(ver, st.queue);
  }

  /** Restoring marshalled bytes yields a state that marshals to the same bytes, whichever
      sections the state selects. */
  lemma RestoreRemarshals(spec: Spec, st: State)
    requires Sound(spec, st) && FreshSound(spec)
    ensures var r := Restore(spec, Marshal(spec, st));
      r.Restored? && Sound(spec, r.st) && Marshal(spec, r.st) == Marshal(spec, st)
  {
    hide Restore, EncodeRow, EncodeRows, MarshalVehicles, MarshalQueue, Sound, Version;
    RestoreMarshal(spec, st);
    NormalSound(spec, st);
    NormalVersion(spec, st);
    NormalVehicleBytes(spec, st);
    NormalQueueBytes(spec, st);
    ClocksIffAdaptive(spec, st);
    ClocksIffAdaptive(spec, Normal(spec, st));
    SameOtherBytes(spec, st, Normal(spec, st));
  }

  lemma SameOtherBytes(spec: Spec, a: State, b: State)
    requires Sound(spec, a) && Sound(spec, b) && Version(spec, a) == Version(spec, b)
    requires b == a.(vehicles := b.vehicles, lanes := b.lanes, queue := b.queue) && |b.vehicles| == |a.vehicles|
    requires spec.adaptive ==> b.lanes == a.lanes
    ensures MarshalHeader(spec, b) == MarshalHeader(spec, a)
    ensures MarshalOrigins(spec, b) == MarshalOrigins(spec, a)
    ensures MarshalLanes(spec, b) == MarshalLanes(spec, a)
    ensures MarshalOverrides(spec, b) == MarshalOverrides(spec, a)
  {
    hide EncodeRow, EncodeRows, Version, Sound, Flat;
    ClocksIffAdaptive(spec, a);
    ClocksIffAdaptive(spec, b);
  }
}
