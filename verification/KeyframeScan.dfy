/** What the keyframe scan makes of any messages, well logged or not: exactly the sequences made
    up of complete keyframes are sound, and what it finds is one of those keyframes. */
module KeyframeScan {
  import opened Wire
  import opened KeyframeLog

  // ---------------------------------------------------------------- complete keyframes

  function Data(g: seq<Message>): Bytes {
    if g == [] then [] else Data(g[..|g| - 1]) + g[|g| - 1].data
  }

  /** The first chunks of n, of one tick, with nothing between them in the stream. */
  ghost predicate Chunked(g: seq<Message>, n: nat) {
    && |g| <= n
    && forall k | 0 <= k < |g| :: g[k].chunk == Part(k + 1, n) && g[k].tick == g[0].tick && g[k].seqNo == g[0].seqNo + k
  }

  /** One whole message, or all chunks in order. */
  ghost predicate Complete(g: seq<Message>) {
    g != [] && ((|g| == 1 && g[0].chunk.Whole?) || Chunked(g, |g|))
  }

  /** Nothing but complete keyframes, one after the other. */
  ghost predicate Sound(ms: seq<Message>)
    decreases |ms|
  {
    ms == [] || exists a | 0 <= a < |ms| :: Sound(ms[..a]) && Complete(ms[a..])
  }

  /** Messages a to b are a complete keyframe, which this is. */
  ghost predicate Stored(ms: seq<Message>, a: nat, b: nat, f: Found) {
    a < b <= |ms| && Complete(ms[a..b]) && f == At(ms[a].tick, ms[b - 1].seqNo, Data(ms[a..b]))
  }

  // ---------------------------------------------------------------- what the scan holds

  /** Complete keyframes, then the chunks being assembled. */
  ghost predicate Assembling(s: Scan, ms: seq<Message>)
    requires s.Scan?
  {
    && s.got <= |ms| && Sound(ms[..|ms| - s.got])
    && if s.want == 0 then s.got == 0
       else
         var g := ms[|ms| - s.got..];
         1 <= s.got < s.want && Chunked(g, s.want) && s.asm == Data(g) && s.asmTick == g[0].tick && s.asmSeq == g[s.got - 1].seqNo
  }

  /** The best so far is stored; it is not past the target, and no complete keyframe has a
      later tick that is not. */
  ghost predicate BestOf(best: Found, ms: seq<Message>, target: nat) {
    match best
    case Corrupt => false
    case NoKeyframe => forall k | 0 <= k < |ms| :: ms[k].tick > target
    case At(tick, seqNo, payload) =>
      && tick <= target
      && (exists a: nat, b: nat :: Stored(ms, a, b, best))
      && forall k | 0 <= k < |ms| :: ms[k].tick <= target ==> ms[k].tick <= tick
  }

  lemma {:induction false} DataAppends(g: seq<Message>, m: Message)
    ensures Data(g + [m]) == Data(g) + m.data
  {
    assert (g + [m])[..|g|] == g;
  }

  lemma DataOfOne(m: Message)
    ensures Data([m]) == m.data
  {
    DataAppends([], m);
    assert [] + [m] == [m];
  }

  lemma SoundAppends(ms: seq<Message>, g: seq<Message>)
    requires Sound(ms) && Complete(g)
    ensures Sound(ms + g)
  {
    assert (ms + g)[..|ms|] == ms && (ms + g)[|ms|..] == g;
  }

  lemma StoredLater(ms: seq<Message>, more: seq<Message>, a: nat, b: nat, f: Found)
    requires Stored(ms, a, b, f)
    ensures Stored(ms + more, a, b, f)
  {
    assert (ms + more)[a..b] == ms[a..b];
  }

  lemma OneTick(g: seq<Message>)
    requires Complete(g)
    ensures g != [] && forall k | 0 <= k < |g| :: g[k].tick == g[0].tick
  {
  }

  lemma SliceStored(all: seq<Message>, a: nat, g: seq<Message>)
    requires g != [] && Complete(g) && a + |g| == |all| && all[a..] == g
    ensures Stored(all, a, |all|, At(g[0].tick, g[|g| - 1].seqNo, Data(g)))
  {
    hide Complete, Data;
    assert all[a..|all|] == g && all[a] == g[0] && all[|all| - 1] == g[|g| - 1];
  }

  lemma NewlyStored(ms: seq<Message>, g: seq<Message>)
    requires Complete(g)
    ensures g != [] && Stored(ms + g, |ms|, |ms + g|, At(g[0].tick, g[|g| - 1].seqNo, Data(g)))
  {
    hide Complete, Data, Stored;
    OneTick(g);
    assert (ms + g)[|ms|..] == g;
    SliceStored(ms + g, |ms|, g);
  }

  /** A complete keyframe at the end either becomes the best or is not nearer. */
  lemma BestAfter(best: Found, ms: seq<Message>, g: seq<Message>, target: nat)
    requires BestOf(best, ms, target) && Complete(g)
    ensures BestOf(Better(best, target, g[0].tick, g[|g| - 1].seqNo, Data(g)), ms + g, target)
  {
    hide Complete, Data, Stored;
    var all := ms + g;
    OneTick(g);
    NewlyStored(ms, g);
    if best.At? {
      var a: nat, b: nat :| Stored(ms, a, b, best);
      StoredLater(ms, g, a, b, best);
    }
    forall k | 0 <= k < |all| ensures all[k].tick == if k < |ms| then ms[k].tick else g[0].tick {
    }
  }

  // ---------------------------------------------------------------- one message more

  ghost predicate Holds(s: Scan, ms: seq<Message>, target: nat) {
    s.Scan? ==> Assembling(s, ms) && BestOf(s.best, ms[..|ms| - s.got], target)
  }

  lemma ChunkAppends(g: seq<Message>, m: Message, n: nat)
    requires g != [] && Chunked(g, n) && |g| < n
    requires m.chunk == Part(|g| + 1, n) && m.tick == g[0].tick && m.seqNo == g[|g| - 1].seqNo + 1
    ensures Chunked(g + [m], n) && Data(g + [m]) == Data(g) + m.data
  {
    DataAppends(g, m);
  }

  lemma WholeHolds(s: Scan, ms: seq<Message>, m: Message, target: nat)
    requires s.Scan? && Holds(s, ms, target) && m.chunk.Whole? && s.want == 0
    ensures Holds(ScanOne(s, m, target), ms + [m], target)
  {
    hide Sound, BestOf, Better;
    assert ms[..|ms| - s.got] == ms;
    assert Complete([m]);
    SoundAppends(ms, [m]);
    BestAfter(s.best, ms, [m], target);
    DataOfOne(m);
    assert (ms + [m])[..|ms + [m]|] == ms + [m];
  }

  /** The chunks so far, with this one, are complete or go on. */
  lemma PartHolds(s: Scan, ms: seq<Message>, base: seq<Message>, g: seq<Message>, best: Found, n: nat, target: nat)
    requires ms == base + g && g != [] && Chunked(g, n) && Sound(base) && BestOf(best, base, target)
    requires s == Scan(best, Data(g), g[0].tick, g[|g| - 1].seqNo, n, |g|)
    ensures Holds(Closed(s, target), ms, target)
  {
    hide Sound, BestOf, Better, Data;
    if |g| == n {
      assert Complete(g);
      SoundAppends(base, g);
      BestAfter(best, base, g, target);
      assert ms[..|ms|] == ms;
    } else {
      assert ms[..|ms| - |g|] == base && ms[|ms| - |g|..] == g;
    }
  }

  lemma OneHolds(s: Scan, ms: seq<Message>, m: Message, target: nat)
    requires s.Scan? && Holds(s, ms, target)
    ensures Holds(ScanOne(s, m, target), ms + [m], target)
  {
    hide Sound, BestOf, Better, Data, Closed;
    if ChunkOK(m.chunk) {
      match m.chunk
      case Whole =>
        if s.want == 0 {
          WholeHolds(s, ms, m, target);
        }
      case Part(i, n) =>
        if i == 1 && s.want == 0 {
          assert ms[..|ms| - s.got] == ms;
          DataOfOne(m);
          PartHolds(s.(asm := m.data, asmTick := m.tick, asmSeq := m.seqNo, want := n, got := 1), ms + [m], ms, [m], s.best, n, target);
        } else if i != 1 && ScanOne(s, m, target).Scan? {
          var base, g := ms[..|ms| - s.got], ms[|ms| - s.got..];
          ChunkAppends(g, m, n);
          assert ms + [m] == base + (g + [m]);
          PartHolds(s.(asm := s.asm + m.data, asmSeq := m.seqNo, got := s.got + 1), ms + [m], base, g + [m], s.best, n, target);
        }
    }
  }

  lemma {:induction false} ScanHolds(ms: seq<Message>, target: nat)
    ensures Holds(ScanAll(START, ms, target), ms, target)
  {
    hide Holds, ScanOne;
    if ms == [] {
      NothingHeld(target);
    } else {
      var n := |ms| - 1;
      ScanHolds(ms[..n], target);
      assert ms == ms[..n] + [ms[n]];
      if ScanAll(START, ms[..n], target).Scan? {
        OneHolds(ScanAll(START, ms[..n], target), ms[..n], ms[n], target);
      } else {
        BrokenHolds(ScanAll(START, ms[..n], target), ms, target);
      }
    }
  }

  lemma NothingHeld(target: nat)
    ensures Holds(START, [], target)
  {
  }

  lemma BrokenHolds(s: Scan, ms: seq<Message>, target: nat)
    requires s.Broken? && ms != []
    ensures Holds(ScanOne(s, ms[|ms| - 1], target), ms, target)
  {
  }

  // ---------------------------------------------------------------- sound messages pass

  lemma {:induction false} ChunksPass(s: Scan, g: seq<Message>, n: nat, target: nat)
    requires s.Scan? && s.want == 0 && s.got == 0 && g != [] && Chunked(g, n)
    ensures var r := ScanAll(s, g, target);
      r.Scan? && if |g| == n then r.want == 0 && r.got == 0
                 else r.want == n && r.got == |g| && r.asmTick == g[0].tick && r.asmSeq == g[|g| - 1].seqNo
    decreases |g|
  {
    hide Better;
    var k := |g| - 1;
    if k > 0 {
      ChunksPass(s, g[..k], n, target);
    } else {
      assert ScanAll(s, g[..0], target) == s;
    }
  }

  lemma GroupPasses(s: Scan, g: seq<Message>, target: nat)
    requires s.Scan? && s.want == 0 && s.got == 0 && Complete(g)
    ensures var r := ScanAll(s, g, target); r.Scan? && r.want == 0 && r.got == 0
  {
    hide Better, Chunked;
    if |g| == 1 && g[0].chunk.Whole? {
      assert ScanAll(s, g[..0], target) == s;
    } else {
      ChunksPass(s, g, |g|, target);
    }
  }

  lemma {:induction false} SoundPasses(ms: seq<Message>, target: nat)
    requires Sound(ms)
    ensures var r := ScanAll(START, ms, target); r.Scan? && r.want == 0 && r.got == 0
    decreases |ms|
  {
    hide ScanOne, Complete;
    if ms != [] {
      var a :| 0 <= a < |ms| && Sound(ms[..a]) && Complete(ms[a..]);
      SoundPasses(ms[..a], target);
      assert ms == ms[..a] + ms[a..];
      ScanJoins(START, ms[..a], ms[a..], target);
      GroupPasses(ScanAll(START, ms[..a], target), ms[a..], target);
    }
  }

  /** The scan reports corruption if and only if the messages are anything but complete
      keyframes one after the other; otherwise it finds a stored keyframe at or before the
      target with no later one before the target, or none because all are past it. */
  lemma ScanIsExact(ms: seq<Message>, target: nat)
    ensures var r := Outcome(ScanAll(START, ms, target));
      && (r == Corrupt <==> !Sound(ms))
      && (r != Corrupt ==> BestOf(r, ms, target))
  {
    hide ScanAll, Sound, BestOf;
    ScanHolds(ms, target);
    var s := ScanAll(START, ms, target);
    assert ms[..|ms|] == ms;
    if Sound(ms) {
      SoundPasses(ms, target);
    }
    if s.Scan? && s.want == 0 {
      BestIsFound(s.best, ms, target);
    }
  }

  lemma BestIsFound(best: Found, ms: seq<Message>, target: nat)
    requires BestOf(best, ms, target)
    ensures best != Corrupt
  {
  }
}
