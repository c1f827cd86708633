/** Writing and reading a keyframe section by section, as the engine does. */
module KeyframeIO {
  import opened Wire
  import opened SignalControl
  import opened Keyframe

  // ---------------------------------------------------------------- writing

  method ComputeVersion(spec: Spec, st: State) returns (ver: nat)
    ensures ver == Version(spec, st)
  {
    ver := MIN_VERSION;
    if |st.queue| > 0 {
      ver := QUEUE_VERSION;
      for i := 0 to |st.queue|
        invariant ver == QUEUE_VERSION && forall k | 0 <= k < i :: !Routed(st.queue[k])
      {
        if st.queue[i].destination != [] || !IsZero(st.queue[i].offset) {
          ver := DEST_VERSION;
          break;
        }
      }
    }
    for i := 0 to |st.vehicles|
      invariant ver < STUCK_VERSION && forall k | 0 <= k < i :: !Delayed(st.vehicles[k])
      invariant ver == if exists k | 0 <= k < |st.queue| :: Routed(st.queue[k]) then DEST_VERSION
                       else if st.queue != [] then QUEUE_VERSION else MIN_VERSION
    {
      if st.vehicles[i].stuckTicks > 0 || st.vehicles[i].stopDone {
        ver := STUCK_VERSION;
        break;
      }
    }
    if spec.adaptive {
      ver := ADAPTIVE_VERSION;
    }
    if st.overrides != map[] {
      ver := SIGNAL_VERSION;
    }
  }

  method MarshalState(spec: Spec, st: State) returns (buf: Bytes)
    requires Sound(spec, st)
    ensures buf == Marshal(spec, st)
  {
    hide Sound, EncodeRow, EncodeRows, Version, RowFits, RowsFit;
    var w := new ByteWriter();
    var ver := ComputeVersion(spec, st);
    var h := HeaderOf(spec, st);
    HeaderFits(spec, st);
    w.WriteRow(HEADER, HeaderRow(h));
    VehicleRowsFit(spec, st, ver, h.HasClocks());
    w.WriteRows(VehicleLayout(ver, h.HasClocks()), VehicleRows(ver, h.HasClocks(), st.vehicles));
    PendingRowsFit(spec, st);
    w.WriteRows(ORIGIN, PendingRows(st.origins));
    WriteLanes(w, spec, st, h);
    WriteQueue(w, spec, st, ver);
    WriteOverrides(w, spec, st, ver);
    buf := w.buf;
    Regroup(MarshalHeader(spec, st), MarshalVehicles(spec, st), MarshalOrigins(spec, st),
            MarshalLanes(spec, st), MarshalQueue(spec, st), MarshalOverrides(spec, st));
  }

  lemma Regroup(a: Bytes, b: Bytes, c: Bytes, d: Bytes, e: Bytes, f: Bytes)
    ensures [] + a + b + c + d + e + f == a + (b + (c + (d + (e + f))))
  {
  }

  method WriteLanes(w: ByteWriter, spec: Spec, st: State, h: Header)
    requires Sound(spec, st) && h == HeaderOf(spec, st)
    modifies w
    ensures w.buf == old(w.buf) + MarshalLanes(spec, st)
  {
    hide Sound, EncodeRow, EncodeRows, Version, RowFits, RowsFit;
    if h.HasClocks() {
      LaneRowsFit(spec, st);
      w.WriteRow(COUNT, [Num(|st.lanes|)]);
      w.WriteRows(LANE_TIMES, LaneRows(st.lanes));
    }
  }

  method WriteQueue(w: ByteWriter, spec: Spec, st: State, ver: nat)
    requires Sound(spec, st) && ver == Version(spec, st)
    modifies w
    ensures w.buf == old(w.buf) + MarshalQueue(spec, st)
  {
    hide Sound, EncodeRow, EncodeRows, Version, RowFits, RowsFit;
    if ver >= QUEUE_VERSION {
      DirectiveRowsFit(spec, st, ver);
      w.WriteRow(COUNT, [Num(|st.queue|)]);
      w.WriteRows(DirectiveLayout(ver), DirectiveRows(ver, st.queue));
    }
  }

  method WriteOverrides(w: ByteWriter, spec: Spec, st: State, ver: nat)
    requires Sound(spec, st) && ver == Version(spec, st)
    modifies w
    ensures w.buf == old(w.buf) + MarshalOverrides(spec, st)
  {
    hide Sound, EncodeRow, EncodeRows, Version, RowFits, RowsFit, Flat, IsText;
    if ver >= SIGNAL_VERSION {
      HeldRowsFit(spec, st);
      var hs := Flatten(spec, st.overrides);
      w.WriteRow(COUNT, [Num(|hs|)]);
      w.WriteRows(OVERRIDE, HeldRows(hs));
    }
  }

  method Flatten(spec: Spec, ov: Table) returns (hs: seq<Held>)
    ensures hs == Flat(spec.programs, ov, |spec.programs|)
  {
    hs := [];
    for i := 0 to |spec.programs|
      invariant hs == Flat(spec.programs, ov, i)
    {
      var h := Hist(ov, spec.programs[i].id);
      for j := 0 to |h|
        invariant hs == Flat(spec.programs, ov, i) + Tagged(h, i)[..j]
      {
        hs := hs + [Held(i, h[j])];
      }
    }
  }

  // ---------------------------------------------------------------- reading

  /** Rows read so far, and what is left to read. */
  ghost predicate Reading(ks: seq<Kind>, n: nat, whole: Parse<seq<seq<Item>>>, rows: seq<seq<Item>>, rest: Bytes) {
    && |rows| <= n
    && var left := DecodeRows(ks, n - |rows|, rest);
    whole == if left.Fail? then Fail else Got(rows + left.value, left.rest)
  }

  lemma StartReading(ks: seq<Kind>, n: nat, b: Bytes)
    ensures Reading(ks, n, DecodeRows(ks, n, b), [], b)
  {
    var r := DecodeRows(ks, n, b);
    if r.Got? {
      assert [] + r.value == r.value;
    }
  }

  lemma KeepReading(ks: seq<Kind>, n: nat, whole: Parse<seq<seq<Item>>>, rows: seq<seq<Item>>, rest: Bytes)
    requires Reading(ks, n, whole, rows, rest) && |rows| < n
    ensures match DecodeRow(ks, rest)
      case Fail => whole.Fail?
      case Got(row, rest') =>
        && Reading(ks, n, whole, rows + [row], rest')
        && (whole.Got? ==> |whole.value| == n && whole.value[|rows|] == row)
  {
    hide DecodeRow;
    var row := DecodeRow(ks, rest);
    if row.Got? {
      var left := DecodeRows(ks, n - |rows| - 1, row.rest);
      if left.Got? {
        assert (rows + [row.value]) + left.value == rows + ([row.value] + left.value);
      }
    }
  }

  lemma DoneReading(ks: seq<Kind>, n: nat, whole: Parse<seq<seq<Item>>>, rows: seq<seq<Item>>, rest: Bytes)
    requires Reading(ks, n, whole, rows, rest) && |rows| == n
    ensures whole == Got(rows, rest)
  {
    assert rows + [] == rows;
  }

  method ReadVehicles(r: ByteReader, spec: Spec, h: Header) returns (ok: bool, vs: seq<Vehicle>)
    requires !r.err
    modifies r
    ensures match ParseVehicles(spec, h, old(r.buf))
      case Fail => !ok
      case Got(v, rest) => ok && !r.err && vs == v && r.buf == rest
  {
    hide DecodeRow, DecodeRows, Reading, VehicleLayout, VehicleOf, VehicleOK;
    var ks := VehicleLayout(h.ver, h.HasClocks());
    ghost var whole := DecodeRows(ks, h.nVehicles, r.buf);
    ghost var rows: seq<seq<Item>> := [];
    StartReading(ks, h.nVehicles, r.buf);
    vs := [];
    for i := 0 to h.nVehicles
      invariant !r.err && |rows| == i && Reading(ks, h.nVehicles, whole, rows, r.buf)
      invariant vs == VehiclesOf(h, rows) && forall k | 0 <= k < i :: VehicleOK(spec, vs[k])
    {
      KeepReading(ks, h.nVehicles, whole, rows, r.buf);
      var row := r.ReadRow(ks);
      if r.err {
        return false, vs;
      }
      var v := VehicleOf(h.ver, h.HasClocks(), h.tick, row);
      if !VehicleOK(spec, v) {
        assert whole.Got? ==> VehiclesOf(h, whole.value)[i] == v;
        return false, vs;
      }
      vs := vs + [v];
      rows := rows + [row];
    }
    DoneReading(ks, h.nVehicles, whole, rows, r.buf);
    ok := true;
  }

  method ReadOrigins(r: ByteReader, spec: Spec, h: Header) returns (ok: bool, ps: seq<Pending>)
    requires !r.err && HeaderOK(spec, h)
    modifies r
    ensures match ParseOrigins(spec, h, old(r.buf))
      case Fail => !ok
      case Got(v, rest) => ok && !r.err && ps == v && r.buf == rest
  {
    hide DecodeRow, DecodeRows, Reading, PendingOf, PendingOK;
    ghost var whole := DecodeRows(ORIGIN, h.nOrigins, r.buf);
    ghost var rows: seq<seq<Item>> := [];
    StartReading(ORIGIN, h.nOrigins, r.buf);
    ps := [];
    for i := 0 to h.nOrigins
      invariant !r.err && |rows| == i && Reading(ORIGIN, h.nOrigins, whole, rows, r.buf)
      invariant ps == PendingsOf(rows) && forall k | 0 <= k < i :: PendingOK(spec, k, ps[k])
    {
      KeepReading(ORIGIN, h.nOrigins, whole, rows, r.buf);
      var row := r.ReadRow(ORIGIN);
      if r.err {
        return false, ps;
      }
      var p := PendingOf(row);
      if !PendingOK(spec, i, p) {
        assert whole.Got? ==> PendingsOf(whole.value)[i] == p;
        return false, ps;
      }
      ps := ps + [p];
      rows := rows + [row];
    }
    DoneReading(ORIGIN, h.nOrigins, whole, rows, r.buf);
    ok := true;
  }

  method ReadLanes(r: ByteReader, spec: Spec, h: Header) returns (ok: bool, ls: seq<LaneTimes>)
    requires !r.err
    modifies r
    ensures match ParseLanes(spec, h, old(r.buf))
      case Fail => !ok
      case Got(v, rest) => ok && !r.err && ls == v && r.buf == rest
  {
    hide DecodeRow, DecodeRows, Reading, LaneOf;
    if !h.HasClocks() {
      return true, spec.freshLanes;
    }
    var count := r.ReadRow(COUNT);
    var n := NumAt(count, 0);
    if r.err || n != |spec.laneIds| {
      return false, [];
    }
    ghost var whole := DecodeRows(LANE_TIMES, n, r.buf);
    ghost var rows: seq<seq<Item>> := [];
    StartReading(LANE_TIMES, n, r.buf);
    ls := [];
    for i := 0 to n
      invariant !r.err && |rows| == i && Reading(LANE_TIMES, n, whole, rows, r.buf) && ls == LanesOf(rows)
    {
      KeepReading(LANE_TIMES, n, whole, rows, r.buf);
      var row := r.ReadRow(LANE_TIMES);
      if r.err {
        return false, ls;
      }
      ls := ls + [LaneOf(row)];
      rows := rows + [row];
    }
    DoneReading(LANE_TIMES, n, whole, rows, r.buf);
    ok := true;
  }

  method ReadQueue(r: ByteReader, spec: Spec, h: Header) returns (ok: bool, ds: seq<Directive>)
    requires !r.err
    modifies r
    ensures match ParseQueue(spec, h, old(r.buf))
      case Fail => !ok
      case Got(v, rest) => ok && !r.err && ds == v && r.buf == rest
  {
    hide DecodeRow, DecodeRows, Reading, DirectiveOf, DirectiveResolves, DirectiveLayout;
    if h.ver < QUEUE_VERSION {
      return true, [];
    }
    var ks := DirectiveLayout(h.ver);
    var count := r.ReadRow(COUNT);
    if r.err {
      return false, [];
    }
    var n := NumAt(count, 0);
    ghost var whole := DecodeRows(ks, n, r.buf);
    ghost var rows: seq<seq<Item>> := [];
    StartReading(ks, n, r.buf);
    ds := [];
    for i := 0 to n
      invariant !r.err && |rows| == i && Reading(ks, n, whole, rows, r.buf)
      invariant forall k | 0 <= k < i :: DirectiveResolves(spec, rows[k])
      invariant ds == DirectivesOf(spec, h.ver, rows)
    {
      KeepReading(ks, n, whole, rows, r.buf);
      var row := r.ReadRow(ks);
      if r.err || !DirectiveResolves(spec, row) {
        return false, ds;
      }
      ds := ds + [DirectiveOf(spec, h.ver, row)];
      rows := rows + [row];
    }
    DoneReading(ks, n, whole, rows, r.buf);
    ok := true;
  }

  method ReadOverrides(r: ByteReader, spec: Spec, h: Header) returns (ok: bool, ov: Table)
    requires !r.err
    modifies r
    ensures match ParseOverrides(spec, h, old(r.buf))
      case Fail => !ok
      case Got(v, rest) => ok && !r.err && ov == v && r.buf == rest
  {
    hide DecodeRow, DecodeRows, Reading, HeldOf, Gather, Hist, Fits;
    GatherNone(spec);
    ov := map[];
    if h.ver < SIGNAL_VERSION {
      return true, ov;
    }
    var count := r.ReadRow(COUNT);
    if r.err {
      return false, ov;
    }
    var n := NumAt(count, 0);
    ghost var whole := DecodeRows(OVERRIDE, n, r.buf);
    ghost var rows: seq<seq<Item>> := [];
    StartReading(OVERRIDE, n, r.buf);
    for i := 0 to n
      invariant !r.err && |rows| == i && Reading(OVERRIDE, n, whole, rows, r.buf)
      invariant HeldAll(spec, rows) && ov == Gather(spec.programs, HeldsOf(rows))
    {
      KeepReading(OVERRIDE, n, whole, rows, r.buf);
      var row := r.ReadRow(OVERRIDE);
      if r.err {
        return false, ov;
      }
      var x := HeldOf(row);
      if !HeldOK(spec.programs, x) {
        assert whole.Got? ==> HeldsOf(whole.value)[i] == x;
        return false, ov;
      }
      HeldAdded(spec, rows, row);
      var id := spec.programs[x.signalIdx].id;
      ov := ov[id := Hist(ov, id) + [x.ov]];
      rows := rows + [row];
    }
    DoneReading(OVERRIDE, n, whole, rows, r.buf);
    ok := true;
  }

  ghost predicate HeldAll(spec: Spec, rows: seq<seq<Item>>) {
    forall k | 0 <= k < |rows| :: HeldOK(spec.programs, HeldOf(rows[k]))
  }

  lemma GatherNone(spec: Spec)
    ensures Gather(spec.programs, []) == map[] && HeldsOf([]) == [] && HeldAll(spec, [])
  {
  }

  lemma HeldAdded(spec: Spec, rows: seq<seq<Item>>, row: seq<Item>)
    requires HeldAll(spec, rows) && HeldOK(spec.programs, HeldOf(row))
    ensures HeldAll(spec, rows + [row])
    ensures var x, ov := HeldOf(row), Gather(spec.programs, HeldsOf(rows));
      var id := spec.programs[x.signalIdx].id;
      Gather(spec.programs, HeldsOf(rows + [row])) == ov[id := Hist(ov, id) + [x.ov]]
  {
    hide HeldOf, Hist;
    GatherOne(spec.programs, HeldsOf(rows), HeldOf(row));
    assert HeldsOf(rows + [row]) == HeldsOf(rows) + [HeldOf(row)];
  }

  /** Rebuilds the state, or refuses: bad magic or version, a truncated section, a mismatch
      with the spec, an unsound record, or trailing bytes. */
  method RestoreState(spec: Spec, data: Bytes) returns (res: Restored)
    ensures res == Restore(spec, data)
  {
    hide DecodeRow, ParseVehicles, ParseOrigins, ParseLanes, ParseQueue, ParseOverrides, HeaderOK;
    var r := new ByteReader(data);
    var row := r.ReadRow(HEADER);
    if r.err || NumAt(row, 0) != MAGIC {
      return Refused;
    }
    var h := HeaderFrom(row);
    if !HeaderOK(spec, h) {
      return Refused;
    }
    var ok, vs := ReadVehicles(r, spec, h);
    if !ok {
      return Refused;
    }
    var ps, ls, ds, ov;
    ok, ps := ReadOrigins(r, spec, h);
    if !ok {
      return Refused;
    }
    ok, ls := ReadLanes(r, spec, h);
    if !ok {
      return Refused;
    }
    ok, ds := ReadQueue(r, spec, h);
    if !ok {
      return Refused;
    }
    ok, ov := ReadOverrides(r, spec, h);
    if !ok || |r.buf| != 0 {
      return Refused;
    }
    res := Restored(State(h.tick, h.crc, h.nextId, vs, if spec.hasSpawner then h.schedNext else 0, ps, ls, ds, ov));
  }
}
