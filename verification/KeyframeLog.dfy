/** Keyframes on the record plane: one message, or consecutive chunk messages when the
    payload outgrows the limit; and the scan that finds the keyframe to seek to. */
module KeyframeLog {
  import opened Wire

  /** The chunk header "i/n"; a whole keyframe carries none. */
  datatype Chunk = Whole | Part(i: nat, n: nat)

  /** A message of the keyframe subject. `seqNo` is its sequence in the whole log stream. */
  datatype Message = Message(seqNo: nat, tick: nat, chunk: Chunk, data: Bytes)

  datatype Keyframe = Keyframe(tick: nat, data: Bytes)

  datatype Found = NoKeyframe | Corrupt | At(tick: nat, seqNo: nat, payload: Bytes)

  // ---------------------------------------------------------------- writing

  function Chunks(size: nat, max: nat): (n: nat)
    requires max >= 1
    ensures size > 0 ==> n >= 1 && (n - 1) * max < size <= n * max
  {
    var n := (size + max - 1) / max;
    assert size + max - 1 == n * max + (size + max - 1) % max;
    n
  }

  function Piece(data: Bytes, max: nat, i: nat): Bytes
    requires max >= 1 && i < Chunks(|data|, max)
  {
    PieceBounds(|data|, max, i);
    data[i * max..if (i + 1) * max > |data| then |data| else (i + 1) * max]
  }

  lemma PieceBounds(size: nat, max: nat, i: nat)
    requires max >= 1 && i < Chunks(size, max)
    ensures i * max < size && i * max <= (i + 1) * max
  {
    var n := Chunks(size, max);
    assert size > 0 by {
      if size == 0 {
        assert (max - 1) / max == 0 by {
          Arith0(max);
        }
        assert false;
      }
    }
    MulMonotone(i, n - 1, max);
    MulMonotone(i, i + 1, max);
  }

  lemma Arith0(max: nat)
    requires max >= 1
    ensures (max - 1) / max == 0
  {
  }

  lemma MulMonotone(a: nat, b: nat, m: nat)
    requires a <= b
    ensures a * m <= b * m
  {
  }

  /** The first k messages of one keyframe, the first at sequence `seqNo`. */
  function Pieces(kf: Keyframe, max: nat, seqNo: nat, k: nat): (ms: seq<Message>)
    requires max >= 1 && k <= Chunks(|kf.data|, max)
    ensures |ms| == k
  {
    if k == 0 then []
    else
      var n := Chunks(|kf.data|, max);
      Pieces(kf, max, seqNo, k - 1) + [Message(seqNo + k - 1, kf.tick, Part(k, n), Piece(kf.data, max, k - 1))]
  }

  function Log(kf: Keyframe, max: nat, seqNo: nat): seq<Message>
    requires max >= 1
  {
    if |kf.data| <= max then [Message(seqNo, kf.tick, Whole, kf.data)]
    else Pieces(kf, max, seqNo, Chunks(|kf.data|, max))
  }

  /** Every chunk is full but the last, which has the rest; they follow each other in the
      stream, numbered from 1 and telling how many there are. */
  lemma {:induction false} PieceIs(kf: Keyframe, max: nat, seqNo: nat, k: nat, j: nat)
    requires max >= 1 && j < k <= Chunks(|kf.data|, max)
    ensures var n, m := Chunks(|kf.data|, max), Pieces(kf, max, seqNo, k)[j];
      && m.seqNo == seqNo + j && m.tick == kf.tick && m.chunk == Part(j + 1, n)
      && j * max < |kf.data| && (j + 1 < n ==> (j + 1) * max <= |kf.data|)
      && m.data == if j + 1 < n then kf.data[j * max..(j + 1) * max] else kf.data[j * max..]
  {
    if j < k - 1 {
      PieceIs(kf, max, seqNo, k - 1, j);
    } else {
      var n := Chunks(|kf.data|, max);
      PieceBounds(|kf.data|, max, j);
      MulMonotone(j + 1, if j + 1 < n then n - 1 else n, max);
      if j + 1 == n {
        assert n * max >= |kf.data|;
      }
    }
  }

  /** Publishes one keyframe at the next sequences of the stream. */
  method LogKeyframe(kf: Keyframe, max: nat, seqNo: nat) returns (ms: seq<Message>)
    requires max >= 1
    ensures ms == Log(kf, max, seqNo)
  {
    if |kf.data| <= max {
      return [Message(seqNo, kf.tick, Whole, kf.data)];
    }
    var n := (|kf.data| + max - 1) / max;
    ms := [];
    for i := 0 to n
      invariant ms == Pieces(kf, max, seqNo, i)
    {
      PieceBounds(|kf.data|, max, i);
      var end := (i + 1) * max;
      if end > |kf.data| {
        end := |kf.data|;
      }
      ms := ms + [Message(seqNo + i, kf.tick, Part(i + 1, n), kf.data[i * max..end])];
    }
  }

  // ---------------------------------------------------------------- the scan

  /** An open chunk assembly: none while `want` is 0. */
  datatype Scan = Broken | Scan(best: Found, asm: Bytes, asmTick: nat, asmSeq: nat, want: nat, got: nat)

  const START := Scan(NoKeyframe, [], 0, 0, 0, 0)

  function Better(best: Found, target: nat, tick: nat, seqNo: nat, payload: Bytes): Found {
    if tick <= target && (best == NoKeyframe || (best.At? && tick > best.tick)) then At(tick, seqNo, payload) else best
  }

  predicate ChunkOK(c: Chunk) {
    c.Part? ==> 1 <= c.i <= c.n
  }

  function ScanOne(s: Scan, m: Message, target: nat): Scan {
    if s.Broken? || !ChunkOK(m.chunk) then Broken
    else
      match m.chunk
      case Whole =>
        if s.want > 0 then Broken else s.(best := Better(s.best, target, m.tick, m.seqNo, m.data))
      case Part(i, n) =>
        if i == 1 then
          if s.want > 0 then Broken
          else Closed(s.(asm := m.data, asmTick := m.tick, asmSeq := m.seqNo, want := n, got := 1), target)
        else if s.want == 0 || m.tick != s.asmTick || i != s.got + 1 || n != s.want || m.seqNo != s.asmSeq + 1 then Broken
        else Closed(s.(asm := s.asm + m.data, asmSeq := m.seqNo, got := s.got + 1), target)
  }

  /** A complete assembly is a keyframe, at the sequence of its last chunk. */
  function Closed(s: Scan, target: nat): Scan
    requires s.Scan?
  {
    if s.got == s.want then s.(best := Better(s.best, target, s.asmTick, s.asmSeq, s.asm), asm := [], want := 0, got := 0) else s
  }

  function ScanAll(s: Scan, ms: seq<Message>, target: nat): Scan {
    if ms == [] then s else ScanOne(ScanAll(s, ms[..|ms| - 1], target), ms[|ms| - 1], target)
  }

  function Outcome(s: Scan): Found {
    if s.Broken? || s.want > 0 then Corrupt else s.best
  }

  /** Looks for the keyframe to seek to, the last one that is not past the target. */
  method FindKeyframe(ms: seq<Message>, target: nat) returns (r: Found)
    ensures r == Outcome(ScanAll(START, ms, target))
  {
    var best: Found := NoKeyframe;
    var asm: Bytes, asmTick, asmSeq := [], 0, 0;
    var want, got: nat := 0, 0;
    for k := 0 to |ms|
      invariant ScanAll(START, ms[..k], target) == Scan(best, asm, asmTick, asmSeq, want, got)
    {
      var m := ms[k];
      assert ms[..k + 1][..k] == ms[..k];
      ghost var after := ScanOne(Scan(best, asm, asmTick, asmSeq, want, got), m, target);
      if !ChunkOK(m.chunk) {
        StaysBroken(ms, target, k + 1);
        return Corrupt;
      }
      match m.chunk {
        case Whole =>
          if want > 0 {
            StaysBroken(ms, target, k + 1);
            return Corrupt;
          }
          best := Better(best, target, m.tick, m.seqNo, m.data);
          assert Scan(best, asm, asmTick, asmSeq, want, got) == after;
        case Part(i, n) =>
          if i == 1 {
            if want > 0 {
              StaysBroken(ms, target, k + 1);
              return Corrupt;
            }
            asm, asmTick, asmSeq, want, got := m.data, m.tick, m.seqNo, n, 1;
          } else if want == 0 || m.tick != asmTick || i != got + 1 || n != want || m.seqNo != asmSeq + 1 {
            StaysBroken(ms, target, k + 1);
            return Corrupt;
          } else {
            asm, asmSeq, got := asm + m.data, m.seqNo, got + 1;
          }
          if got == want {
            best := Better(best, target, asmTick, m.seqNo, asm);
            asm, want, got := [], 0, 0;
          }
          assert Scan(best, asm, asmTick, asmSeq, want, got) == after;
      }
    }
    assert ms[..|ms|] == ms;
    if want > 0 {
      return Corrupt;
    }
    r := best;
  }

  lemma {:induction false} StaysBroken(ms: seq<Message>, target: nat, k: nat)
    requires k <= |ms| && ScanAll(START, ms[..k], target).Broken?
    ensures ScanAll(START, ms, target).Broken?
    decreases |ms|
  {
    if k < |ms| {
      assert ms[..|ms| - 1][..k] == ms[..k];
      StaysBroken(ms[..|ms| - 1], target, k);
    } else {
      assert ms[..k] == ms;
    }
  }

  // ---------------------------------------------------------------- a log of keyframes

  /** A keyframe, and where the stream stood when it was written: other messages lie
      between keyframes, none within one. */
  datatype Entry = Entry(kf: Keyframe, seqNo: nat)

  function Span(e: Entry, max: nat): (n: nat)
    requires max >= 1
    ensures n == |Log(e.kf, max, e.seqNo)|
  {
    if |e.kf.data| <= max then 1 else Chunks(|e.kf.data|, max)
  }

  function LogAll(es: seq<Entry>, max: nat): seq<Message>
    requires max >= 1
  {
    if es == [] then [] else LogAll(es[..|es| - 1], max) + Log(es[|es| - 1].kf, max, es[|es| - 1].seqNo)
  }

  /** The latest keyframe at or before the target, as the log's last message of it has it. */
  function Latest(es: seq<Entry>, max: nat, target: nat): Found
    requires max >= 1
  {
    if es == [] then NoKeyframe
    else
      var e := es[|es| - 1];
      Better(Latest(es[..|es| - 1], max, target), target, e.kf.tick, e.seqNo + Span(e, max) - 1, e.kf.data)
  }

  ghost predicate TicksRise(es: seq<Entry>) {
    forall i, j | 0 <= i < j < |es| :: es[i].kf.tick < es[j].kf.tick
  }

  /** Keyframe i is at or before the target, and no later one is. */
  ghost predicate Nearest(es: seq<Entry>, target: nat, i: nat) {
    i < |es| && es[i].kf.tick <= target && forall j | i < j < |es| :: es[j].kf.tick > target
  }

  /** `Latest` is what its name says: the bytes and last sequence of the nearest keyframe, and
      none exactly when every keyframe is past the target. */
  lemma {:induction false} LatestIsNearest(es: seq<Entry>, max: nat, target: nat) returns (i: nat)
    requires max >= 1 && TicksRise(es)
    ensures var r := Latest(es, max, target);
      if forall k | 0 <= k < |es| :: es[k].kf.tick > target then r == NoKeyframe
      else Nearest(es, target, i) && r == At(es[i].kf.tick, es[i].seqNo + Span(es[i], max) - 1, es[i].kf.data)
  {
    hide Span;
    i := 0;
    if es != [] {
      var n := |es| - 1;
      var p := LatestIsNearest(es[..n], max, target);
      if es[n].kf.tick <= target {
        i := n;
      } else {
        i := p;
      }
    }
  }

  lemma {:induction false} ScanJoins(s: Scan, a: seq<Message>, b: seq<Message>, target: nat)
    ensures ScanAll(s, a + b, target) == ScanAll(ScanAll(s, a, target), b, target)
  {
    if b == [] {
      assert a + b == a;
    } else {
      var n := |b| - 1;
      ScanJoins(s, a, b[..n], target);
      assert (a + b)[..|a + b| - 1] == a + b[..n];
    }
  }

  /** Between keyframes no assembly is open. */
  ghost predicate Idle(s: Scan, best: Found) {
    s.Scan? && s.best == best && s.want == 0 && s.got == 0
  }

  lemma PieceJoins(data: Bytes, max: nat, k: nat)
    requires max >= 1 && 1 <= k < Chunks(|data|, max)
    ensures (k - 1) * max <= k * max <= |data|
    ensures data[..(k - 1) * max] + Piece(data, max, k - 1) == data[..k * max]
  {
    PieceBounds(|data|, max, k);
    PieceBounds(|data|, max, k - 1);
  }

  lemma {:induction false} ScanPieces(s: Scan, best: Found, kf: Keyframe, max: nat, seqNo: nat, k: nat, target: nat)
    requires max >= 1 && |kf.data| > max && Idle(s, best) && 1 <= k < Chunks(|kf.data|, max)
    ensures k * max <= |kf.data|
    ensures ScanAll(s, Pieces(kf, max, seqNo, k), target)
      == Scan(best, kf.data[..k * max], kf.tick, seqNo + k - 1, Chunks(|kf.data|, max), k)
  {
    hide Piece, Better;
    PieceJoins(kf.data, max, k);
    var ms := Pieces(kf, max, seqNo, k);
    assert ms[..k - 1] == Pieces(kf, max, seqNo, k - 1);
    if k > 1 {
      ScanPieces(s, best, kf, max, seqNo, k - 1, target);
    } else {
      assert kf.data[..0] + Piece(kf.data, max, 0) == Piece(kf.data, max, 0);
      assert ms[..0] == [];
    }
  }

  lemma ManyChunks(size: nat, max: nat)
    requires max >= 1 && size > max
    ensures Chunks(size, max) > 1
  {
    var n := Chunks(size, max);
    if n <= 1 {
      MulMonotone(n, 1, max);
    }
  }

  lemma LastPiece(data: Bytes, max: nat)
    requires max >= 1 && |data| > max
    ensures var n := Chunks(|data|, max);
      n > 1 && (n - 1) * max <= |data| && data[..(n - 1) * max] + Piece(data, max, n - 1) == data
  {
    ManyChunks(|data|, max);
    PieceBounds(|data|, max, Chunks(|data|, max) - 1);
  }

  lemma ScanChunked(s: Scan, best: Found, kf: Keyframe, max: nat, seqNo: nat, target: nat)
    requires max >= 1 && Idle(s, best) && |kf.data| > max
    ensures var n := Chunks(|kf.data|, max);
      Idle(ScanAll(s, Pieces(kf, max, seqNo, n), target), Better(best, target, kf.tick, seqNo + n - 1, kf.data))
  {
    hide Piece, Better, Chunks;
    var n := Chunks(|kf.data|, max);
    LastPiece(kf.data, max);
    ScanPieces(s, best, kf, max, seqNo, n - 1, target);
    var ms := Pieces(kf, max, seqNo, n);
    assert ms[..n - 1] == Pieces(kf, max, seqNo, n - 1);
  }

  /** One keyframe, whole or chunked, is scanned as one keyframe: the very bytes written. */
  lemma ScanKeyframe(s: Scan, best: Found, e: Entry, max: nat, target: nat)
    requires max >= 1 && Idle(s, best)
    ensures Idle(ScanAll(s, Log(e.kf, max, e.seqNo), target),
                 Better(best, target, e.kf.tick, e.seqNo + Span(e, max) - 1, e.kf.data))
  {
    hide Better, Chunks, Pieces;
    if |e.kf.data| > max {
      ScanChunked(s, best, e.kf, max, e.seqNo, target);
    } else {
      var ms := Log(e.kf, max, e.seqNo);
      assert ms[..0] == [];
    }
  }

  /** For any chunk size, the scan of what was logged gives the exact bytes of the latest
      keyframe at or before the target, at the sequence of its last message. */
  lemma {:induction false} FindsLatest(es: seq<Entry>, max: nat, target: nat)
    requires max >= 1
    ensures Idle(ScanAll(START, LogAll(es, max), target), Latest(es, max, target))
    ensures Outcome(ScanAll(START, LogAll(es, max), target)) == Latest(es, max, target)
  {
    if es != [] {
      var n := |es| - 1;
      FindsLatest(es[..n], max, target);
      var before := LogAll(es[..n], max);
      ScanJoins(START, before, Log(es[n].kf, max, es[n].seqNo), target);
      ScanKeyframe(ScanAll(START, before, target), Latest(es[..n], max, target), es[n], max, target);
    }
  }
}
