/** Reading a recorded run: the whole-log index, the forward cursor that must agree with it,
    and the bake loop that digests every message once. */
module LogCursor {
  import I = Intents
  import D = Director
  import SE = SignalEngine
  import K = KeyframeLog

  /** A message of the log stream, decoded. `tick` is its header tick. */
  datatype Content =
    | Intent(t: I.TickedIntent)
    | IntentBatch(ts: seq<I.TickedIntent>)
    | SpawnVerb(tick: nat, d: D.SpawnDirective)
    | SignalVerb(tick: nat, v: SE.Directive)
    | Checksum(crc: nat)
    | Keyframe(chunk: K.Chunk)
    | Event
    | Malformed

  datatype Message = Message(seqNo: nat, tick: nat, content: Content)

  datatype Option<+T> = None | Some(value: T)

  // ---------------------------------------------------------------- one tick's records

  /** One tick's replayable content: what to enqueue before the step, and the checksum to
      verify after it. */
  datatype TickRecords = TickRecords(
    intents: seq<I.KeyedIntent>, verbs: seq<D.SpawnDirective>, sverbs: seq<SE.Directive>, crc: Option<nat>)

  const EMPTY := TickRecords([], [], [], None)

  /** All records of a batch are of the tick its header says. */
  predicate Decodes(m: Message) {
    && !m.content.Malformed?
    && (m.content.IntentBatch? ==> forall i | 0 <= i < |m.content.ts| :: m.content.ts[i].tick == m.tick)
  }

  function AddTo(r: TickRecords, m: Message): TickRecords {
    match m.content
    case Intent(t) => r.(intents := r.intents + [t.keyed])
    case IntentBatch(ts) => r.(intents := r.intents + I.Keyed(ts))
    case SpawnVerb(_, d) => r.(verbs := r.verbs + [d])
    case SignalVerb(_, v) => r.(sverbs := r.sverbs + [v])
    case Checksum(crc) => r.(crc := Some(crc))
    case Keyframe(_) => r
    case Event => r
    case Malformed => r
  }

  /** The records of a tick: what its messages add, in stream order. */
  function RecordsAt(log: seq<Message>, tick: nat): TickRecords {
    if log == [] then EMPTY
    else
      var n := |log| - 1;
      var r := RecordsAt(log[..n], tick);
      if log[n].tick == tick then AddTo(r, log[n]) else r
  }

  // ---------------------------------------------------------------- the index

  datatype Index = Index(
    intents: map<nat, seq<I.KeyedIntent>>, verbs: map<nat, seq<D.SpawnDirective>>, sverbs: map<nat, seq<SE.Directive>>,
    crcs: map<nat, nat>, keyframes: seq<nat>, lastTick: nat)

  const NO_INDEX := Index(map[], map[], map[], map[], [], 0)

  function Got<T>(m: map<nat, seq<T>>, k: nat): seq<T> {
    if k in m then m[k] else []
  }

  /** Intents and verbs go under the tick they carry, checksums under that of the header; the
      last chunk of a keyframe stands for it. */
  function IndexIntents(m: map<nat, seq<I.KeyedIntent>>, ts: seq<I.TickedIntent>): map<nat, seq<I.KeyedIntent>> {
    if ts == [] then m
    else
      var n := |ts| - 1;
      var r := IndexIntents(m, ts[..n]);
      r[ts[n].tick := Got(r, ts[n].tick) + [ts[n].keyed]]
  }

  function IndexOne(x: Index, m: Message): Index {
    var y := x.(lastTick := if m.tick > x.lastTick then m.tick else x.lastTick);
    match m.content
    case Intent(t) => y.(intents := IndexIntents(y.intents, [t]))
    case IntentBatch(ts) => y.(intents := IndexIntents(y.intents, ts))
    case SpawnVerb(t, d) => y.(verbs := y.verbs[t := Got(y.verbs, t) + [d]])
    case SignalVerb(t, v) => y.(sverbs := y.sverbs[t := Got(y.sverbs, t) + [v]])
    case Checksum(crc) => y.(crcs := y.crcs[m.tick := crc])
    case Keyframe(c) => if c.Whole? || c.i == c.n then y.(keyframes := y.keyframes + [m.tick]) else y
    case Event => y
    case Malformed => y
  }

  function IndexAll(log: seq<Message>): Index {
    if log == [] then NO_INDEX else IndexOne(IndexAll(log[..|log| - 1]), log[|log| - 1])
  }

  /** What the index asks of a message: that it decodes, and that a chunk header reads. */
  predicate Indexes(m: Message) {
    Decodes(m) && (m.content.Keyframe? ==> K.ChunkOK(m.content.chunk))
  }

  ghost predicate AllIndex(log: seq<Message>) {
    forall i | 0 <= i < |log| :: Indexes(log[i])
  }

  ghost predicate AllDecode(log: seq<Message>) {
    forall i | 0 <= i < |log| :: Decodes(log[i])
  }

  /** Buckets the whole log by tick, or fails on the first message that cannot be read. */
  method IndexLogMsgs(log: seq<Message>) returns (r: Option<Index>)
    ensures r == if AllIndex(log) then Some(IndexAll(log)) else None
  {
    var x := NO_INDEX;
    for i := 0 to |log|
      invariant x == IndexAll(log[..i]) && forall k | 0 <= k < i :: Indexes(log[k])
    {
      assert log[..i + 1][..i] == log[..i];
      if !Indexes(log[i]) {
        return None;
      }
      x := IndexOne(x, log[i]);
    }
    assert log[..|log|] == log;
    r := Some(x);
  }

  /** The keyframe messages of the record plane, in the whole log. */
  function Logged(ms: seq<K.Message>): (r: seq<Message>)
    ensures |r| == |ms|
  {
    seq(|ms|, k requires 0 <= k < |ms| => Message(ms[k].seqNo, ms[k].tick, Keyframe(ms[k].chunk)))
  }

  lemma KeyframeIndexed(x: Index, m: Message)
    requires m.content.Keyframe?
    ensures var c := m.content.chunk;
      IndexOne(x, m).keyframes == x.keyframes + if c.Whole? || c.i == c.n then [m.tick] else []
  {
  }

  lemma IndexNext(log: seq<Message>, m: Message)
    ensures IndexAll(log + [m]) == IndexOne(IndexAll(log), m)
  {
    assert (log + [m])[..|log|] == log;
  }

  lemma {:induction false} PiecesListOnce(log: seq<Message>, kf: K.Keyframe, max: nat, seqNo: nat, k: nat)
    requires max >= 1 && |kf.data| > max && k <= K.Chunks(|kf.data|, max)
    ensures IndexAll(log + Logged(K.Pieces(kf, max, seqNo, k))).keyframes
         == IndexAll(log).keyframes + if k > 0 && k == K.Chunks(|kf.data|, max) then [kf.tick] else []
  {
    hide IndexOne, IndexAll, K.Chunks, K.Piece;
    if k == 0 {
      assert log + Logged(K.Pieces(kf, max, seqNo, 0)) == log;
    } else {
      PiecesListOnce(log, kf, max, seqNo, k - 1);
      var before, m := Logged(K.Pieces(kf, max, seqNo, k - 1)), Message(seqNo + k - 1, kf.tick, Keyframe(K.Part(k, K.Chunks(|kf.data|, max))));
      assert log + Logged(K.Pieces(kf, max, seqNo, k)) == log + before + [m];
      IndexNext(log + before, m);
      KeyframeIndexed(IndexAll(log + before), m);
    }
  }

  /** However many messages it took, a keyframe is listed once, at its tick. */
  lemma KeyframeListedOnce(log: seq<Message>, kf: K.Keyframe, max: nat, seqNo: nat)
    requires max >= 1
    ensures IndexAll(log + Logged(K.Log(kf, max, seqNo))).keyframes == IndexAll(log).keyframes + [kf.tick]
  {
    hide IndexOne, IndexAll, K.Pieces;
    if |kf.data| > max {
      PiecesListOnce(log, kf, max, seqNo, K.Chunks(|kf.data|, max));
    } else {
      var m := Message(seqNo, kf.tick, Keyframe(K.Whole));
      assert Logged(K.Log(kf, max, seqNo)) == [m];
      IndexNext(log, m);
      KeyframeIndexed(IndexAll(log), m);
    }
  }

  function Bucket(x: Index, tick: nat): TickRecords {
    TickRecords(Got(x.intents, tick), Got(x.verbs, tick), Got(x.sverbs, tick), if tick in x.crcs then Some(x.crcs[tick]) else None)
  }

  /** Records carry the tick of their header. */
  predicate Headed(m: Message) {
    && (m.content.Intent? ==> m.content.t.tick == m.tick)
    && (m.content.IntentBatch? ==> forall i | 0 <= i < |m.content.ts| :: m.content.ts[i].tick == m.tick)
    && (m.content.SpawnVerb? || m.content.SignalVerb? ==> m.content.tick == m.tick)
  }

  ghost predicate AllHeaded(log: seq<Message>) {
    forall i | 0 <= i < |log| :: Headed(log[i])
  }

  lemma {:induction false} IndexIntentsOfTick(m: map<nat, seq<I.KeyedIntent>>, ts: seq<I.TickedIntent>, at: nat, tick: nat)
    requires forall i | 0 <= i < |ts| :: ts[i].tick == at
    ensures Got(IndexIntents(m, ts), tick) == Got(m, tick) + if tick == at then I.Keyed(ts) else []
  {
    if ts == [] {
      assert Got(m, tick) + I.Keyed(ts) == Got(m, tick) + [] == Got(m, tick);
    } else {
      var n := |ts| - 1;
      IndexIntentsOfTick(m, ts[..n], at, tick);
      assert I.Keyed(ts) == I.Keyed(ts[..n]) + [ts[n].keyed];
      assert (Got(m, tick) + I.Keyed(ts[..n])) + [ts[n].keyed] == Got(m, tick) + I.Keyed(ts);
    }
  }

  lemma IntentBucket(x: Index, m: Message, tick: nat)
    requires Headed(m) && (m.content.Intent? || m.content.IntentBatch?)
    ensures Bucket(IndexOne(x, m), tick) == if m.tick == tick then AddTo(Bucket(x, tick), m) else Bucket(x, tick)
  {
    hide IndexIntents, I.Keyed;
    var ts := if m.content.Intent? then [m.content.t] else m.content.ts;
    IndexIntentsOfTick(x.intents, ts, m.tick, tick);
    if m.content.Intent? {
      KeyedOne(m.content.t);
    }
    assert Got(x.intents, tick) + [] == Got(x.intents, tick);
  }

  lemma KeyedOne(t: I.TickedIntent)
    ensures I.Keyed([t]) == [t.keyed]
  {
  }

  lemma OtherBucket(x: Index, m: Message, tick: nat)
    requires Headed(m) && !m.content.Intent? && !m.content.IntentBatch?
    ensures Bucket(IndexOne(x, m), tick) == if m.tick == tick then AddTo(Bucket(x, tick), m) else Bucket(x, tick)
  {
    hide IndexIntents, I.Keyed;
  }

  lemma IndexOneBucket(x: Index, m: Message, tick: nat)
    requires Headed(m)
    ensures Bucket(IndexOne(x, m), tick) == if m.tick == tick then AddTo(Bucket(x, tick), m) else Bucket(x, tick)
  {
    hide IndexOne, AddTo, Bucket, Headed;
    if m.content.Intent? || m.content.IntentBatch? {
      IntentBucket(x, m, tick);
    } else {
      OtherBucket(x, m, tick);
    }
  }

  /** The index bucket of a tick is what the tick's messages add, in stream order. */
  lemma {:induction false} BucketIsRecords(log: seq<Message>, tick: nat)
    requires AllHeaded(log)
    ensures Bucket(IndexAll(log), tick) == RecordsAt(log, tick)
  {
    hide IndexOne, AddTo, Bucket;
    if log == [] {
      EmptyBucket(tick);
    } else {
      var n := |log| - 1;
      BucketIsRecords(log[..n], tick);
      IndexOneBucket(IndexAll(log[..n]), log[n], tick);
    }
  }

  lemma EmptyBucket(tick: nat)
    ensures Bucket(NO_INDEX, tick) == EMPTY
  {
  }

  // ---------------------------------------------------------------- the log as a stream

  /** Sequence numbers are those of the stream, and ticks never decrease. */
  ghost predicate IsStream(log: seq<Message>) {
    && (forall i | 0 <= i < |log| :: log[i].seqNo == i + 1)
    && (forall i, j | 0 <= i < j < |log| :: log[i].tick <= log[j].tick)
  }

  /** Everything before position p is due by a tick before `tick`. */
  ghost predicate Behind(log: seq<Message>, p: nat, tick: nat) {
    p <= |log| && forall i | 0 <= i < p :: log[i].tick < tick
  }

  lemma {:induction false} NothingBehind(log: seq<Message>, p: nat, tick: nat)
    requires Behind(log, p, tick)
    ensures RecordsAt(log[..p], tick) == EMPTY
  {
    if p > 0 {
      NothingBehind(log, p - 1, tick);
      assert log[..p][..p - 1] == log[..p - 1];
    }
  }

  lemma {:induction false} NothingAhead(log: seq<Message>, p: nat, tick: nat)
    requires IsStream(log) && p <= |log| && (p < |log| ==> log[p].tick > tick)
    ensures RecordsAt(log, tick) == RecordsAt(log[..p], tick)
    decreases |log|
  {
    if p < |log| {
      var n := |log| - 1;
      assert log[..n][..p] == log[..p];
      NothingAhead(log[..n], p, tick);
    } else {
      assert log[..p] == log;
    }
  }

  lemma LaterMessages(log: seq<Message>, p: nat, tick: nat)
    requires IsStream(log) && p < |log| && log[p].tick > tick
    ensures forall i | p <= i < |log| :: log[i].tick > tick
  {
  }

  lemma NextMessage(log: seq<Message>, p: nat, tick: nat)
    requires p < |log|
    ensures RecordsAt(log[..p + 1], tick) == if log[p].tick == tick then AddTo(RecordsAt(log[..p], tick), log[p]) else RecordsAt(log[..p], tick)
  {
    assert log[..p + 1][..p] == log[..p];
  }

  // ---------------------------------------------------------------- the cursor

  /** A forward reader: fetches batches of whatever size the broker returns, and keeps
      for later the message that showed a tick to be over. */
  class Cursor {
    const log: seq<Message>
    var buf: seq<Message>
    var bufI: nat
    var pending: Option<Message>
    var curSeq: nat

    /** The position of the next message to hand out. */
    ghost function Position(): int
      reads this
    {
      curSeq - (|buf| - bufI) - (if pending.Some? then 1 else 0)
    }

    ghost predicate Valid()
      reads this
    {
      && IsStream(log) && curSeq <= |log| && bufI <= |buf| <= curSeq
      && buf == log[curSeq - |buf|..curSeq]
      && Position() >= 0
      && (pending.Some? ==> Position() < |log| && pending.value == log[Position()])
    }

    constructor (log: seq<Message>)
      requires IsStream(log)
      ensures Valid() && this.log == log && Position() == 0 && pending.None?
    {
      this.log := log;
      buf, bufI, pending, curSeq := [], 0, None, 0;
    }

    /** The broker: at least one of the messages asked for, in stream order. */
    method Fetch(want: nat) returns (msgs: seq<Message>)
      requires 1 <= want <= |log| - curSeq
      ensures 1 <= |msgs| <= want && msgs == log[curSeq..curSeq + |msgs|]
    {
      var n: nat :| 1 <= n <= want;
      msgs := log[curSeq..curSeq + n];
    }

    /** The next message in stream order; none once the record is exhausted. */
    method NextMsg() returns (m: Option<Message>)
      requires Valid() && pending.None?
      modifies this
      ensures Valid() && pending.None?
      ensures if old(Position()) < |log| then m == Some(log[old(Position())]) && Position() == old(Position()) + 1
              else m.None? && Position() == old(Position())
    {
      if bufI >= |buf| {
        if curSeq >= |log| {
          return None;
        }
        var msgs := Fetch(|log| - curSeq);
        curSeq := msgs[|msgs| - 1].seqNo;
        buf, bufI := msgs, 0;
      }
      m := Some(buf[bufI]);
      bufI := bufI + 1;
    }

    /** The message held back, or the next one. */
    method Take() returns (m: Option<Message>)
      requires Valid()
      modifies this
      ensures Valid() && pending.None?
      ensures if old(Position()) < |log| then m == Some(log[old(Position())]) && Position() == old(Position()) + 1
              else m.None? && Position() == old(Position())
    {
      m := pending;
      pending := None;
      if m.None? {
        m := NextMsg();
      }
    }

    /** Reads one tick's records; messages of earlier ticks are dropped. None when a message
        of the tick does not decode. */
    method Records(tick: nat) returns (r: Option<TickRecords>)
      requires Valid() && Behind(log, Position(), tick)
      modifies this
      ensures Valid()
      ensures r == if forall i | 0 <= i < |log| && log[i].tick == tick :: Decodes(log[i]) then Some(RecordsAt(log, tick)) else None
      ensures r.Some? ==> Behind(log, Position(), tick + 1)
    {
      hide AddTo, RecordsAt, Decodes, IsStream;
      var rec := EMPTY;
      NothingBehind(log, Position(), tick);
      while true
        invariant Valid() && Behind(log, Position(), tick + 1)
        invariant rec == RecordsAt(log[..Position()], tick)
        invariant forall i | 0 <= i < Position() && log[i].tick == tick :: Decodes(log[i])
        decreases |log| - Position()
      {
        ghost var p: nat := Position();
        var m := Take();
        if m.None? {
          assert log[..p] == log;
          return Some(rec);
        }
        var x := m.value;
        NextMessage(log, p, tick);
        if x.tick > tick {
          pending := Some(x);
          NothingAhead(log, p, tick);
          LaterMessages(log, p, tick);
          return Some(rec);
        }
        if x.tick == tick {
          if !Decodes(x) {
            return None;
          }
          rec := AddTo(rec, x);
        }
      }
    }
  }

  /** Reading tick after tick gives, for each, exactly the bucket of the whole-log index -
      for any fetch batching. */
  method ReadRun(log: seq<Message>, ticks: nat) returns (rs: seq<TickRecords>)
    requires IsStream(log) && AllHeaded(log) && AllDecode(log)
    ensures |rs| == ticks && forall t | 0 <= t < ticks :: rs[t] == Bucket(IndexAll(log), t + 1)
  {
    hide Bucket, RecordsAt, IsStream, AllHeaded, Decodes;
    var c := new Cursor(log);
    rs := [];
    for t := 0 to ticks
      invariant fresh(c) && c.Valid() && c.log == log && |rs| == t
      invariant Behind(log, c.Position(), t + 1)
      invariant forall k | 0 <= k < t :: rs[k] == Bucket(IndexAll(log), k + 1)
    {
      var r := c.Records(t + 1);
      BucketIsRecords(log, t + 1);
      rs := rs + [r.value];
    }
  }
}
