/** What sending, routing and dropping off guarantee across operations and across nodes. */
module NodeProofs {
  import opened Bytes
  import opened OutboxSpec
  import opened Envelope
  import opened Chunking
  import opened NodeSpec

  // Size bound through chunking

  /** The cipher adds at most extra bytes. */
  ghost predicate Overhead(cfg: Config, extra: nat) {
    forall key: bytes, x: bytes, n: nat ::
      cfg.encrypt(key, x, n).Some? ==> |cfg.encrypt(key, x, n).value| <= |x| + extra
  }

  ghost predicate UsableLimits(limits: seq<int64>) {
    forall i | 0 <= i < |limits| :: 0 <= limits[i] && Low32(limits[i]) > OVERHEAD + CHUNK_HEADER
  }

  ghost predicate FitsAll(m: OutboxMsg, limits: seq<int64>) {
    forall i | 0 <= i < |limits| :: |m.msg| <= limits[i]
  }

  lemma UsableChunkSize(limits: seq<int64>)
    requires UsableLimits(limits)
    ensures ChunkSizeOf(limits) == MinLimit(limits) - OVERHEAD > CHUNK_HEADER
    ensures forall i | 0 <= i < |limits| :: MinLimit(limits) <= limits[i]
  {}

  /** st' is st with n more queued messages, every one of which fits every transport. */
  ghost predicate QueuedFitting(cfg: Config, st: State, st': State, n: nat) {
    && |st'.outbox| == |st.outbox| + n && st.outbox <= st'.outbox
    && st'.window == st.window && st'.rx == st.rx
    && forall i | |st.outbox| <= i < |st'.outbox| :: FitsAll(st'.outbox[i], cfg.limits)
  }

  /** Cipher and header together stay within the allowance; a private message's name is not in its header. */
  ghost predicate SmallHeader(m: Msg, extra: nat) {
    extra + HeaderSize(m) <= OVERHEAD
  }

  function HeaderSize(m: Msg): nat {
    if m.isChan then 3 + |m.name| else 1
  }

  lemma WholeFits(cfg: Config, st: State, m: Msg, key: bytes, extra: nat)
    requires Overhead(cfg, extra) && UsableLimits(cfg.limits) && SmallHeader(m, extra)
    requires |m.content| < TWO_32 && !Oversize(cfg, m)
    ensures var (st', r) := SendWhole(cfg, st, m, key);
      if r.Sent? then QueuedFitting(cfg, st, st', 1) else r.CryptoFailed? && st' == st
  {
    UsableChunkSize(cfg.limits);
    hide MinLimit, ChunkSizeOf;
    var (st', r) := SendWhole(cfg, st, m, key);
    if r.Sent? {
      var cipher := cfg.encrypt(key, m.content, st.ticks).value;
      assert |Seal(Encrypted(m, cipher))| == HeaderSize(m) + |cipher|;
      assert |cipher| <= |m.content| + extra && |m.content| <= ChunkSizeOf(cfg.limits);
    }
  }

  lemma {:induction false} FragmentsAreSent(cfg: Config, st: State, ms: seq<Msg>, key: bytes, extra: nat)
    requires Overhead(cfg, extra) && UsableLimits(cfg.limits)
    requires forall i | 0 <= i < |ms| :: SmallHeader(ms[i], extra) && |ms[i].content| <= ChunkSizeOf(cfg.limits)
    ensures var (st', r) := SendFragments(cfg, st, ms, key);
      && (r.Sent? || r.CryptoFailed?)
      && exists n: nat :: n <= |ms| && (r.Sent? ==> n == |ms|) && QueuedFitting(cfg, st, st', n)
    decreases |ms|
  {
    hide SendWhole, ChunkSizeOf, Overhead, SmallHeader, FitsAll;
    if ms == [] {
      assert QueuedFitting(cfg, st, st, 0);
    } else {
      SizeNotOversize(cfg, ms[0]);
      WholeFits(cfg, st, ms[0], key, extra);
      var (st1, r1) := SendWhole(cfg, st, ms[0], key);
      if r1.Sent? {
        FragmentsAreSent(cfg, st1, ms[1..], key, extra);
        var (st2, r2) := SendFragments(cfg, st1, ms[1..], key);
        var n: nat :| n <= |ms| - 1 && (r2.Sent? ==> n == |ms| - 1) && QueuedFitting(cfg, st1, st2, n);
        QueuedTogether(cfg, st, st1, st2, 1, n);
      } else {
        assert QueuedFitting(cfg, st, st, 0);
      }
    }
  }

  lemma SizeNotOversize(cfg: Config, m: Msg)
    requires |m.content| <= ChunkSizeOf(cfg.limits)
    ensures !Oversize(cfg, m)
  {}

  lemma QueuedTogether(cfg: Config, a: State, b: State, c: State, m: nat, n: nat)
    requires QueuedFitting(cfg, a, b, m) && QueuedFitting(cfg, b, c, n)
    ensures QueuedFitting(cfg, a, c, m + n)
  {
    hide FitsAll;
    forall i | |a.outbox| <= i < |c.outbox| ensures FitsAll(c.outbox[i], cfg.limits) {
      if i < |b.outbox| { assert c.outbox[i] == b.outbox[i]; }
    }
  }

  /** How many records a message becomes. */
  function RecordCount(cfg: Config, m: Msg): nat
    requires ChunkSizeOf(cfg.limits) > CHUNK_HEADER
  {
    if Oversize(cfg, m) then 1 + PieceCount(|m.content|, ChunkSizeOf(cfg.limits) - CHUNK_HEADER) else 1
  }

  /**
   * SendMsg of a local message never needs to chunk a chunk and never divides by zero; everything it queues fits
   * every transport; and unless the cipher or the random source fails it queues a header and as many chunks as
   * the length asks for, or the one message.
   */
  lemma SendMsgFits(cfg: Config, st: State, m: Msg, key: bytes, extra: nat)
    requires Overhead(cfg, extra) && UsableLimits(cfg.limits) && SmallHeader(m, extra)
    requires |m.content| < TWO_32 && !m.chunked
    ensures ChunkSizeOf(cfg.limits) > CHUNK_HEADER
    ensures var (st', r) := SendMsg(cfg, st, m, key);
      && (r.Sent? || r.CryptoFailed? || r.RandomFailed?)
      && exists n: nat :: (r.Sent? ==> n == RecordCount(cfg, m)) && QueuedFitting(cfg, st, st', n)
  {
    UsableChunkSize(cfg.limits);
    hide SendWhole, SendChunked, ChunkSizeOf, MinLimit, Overhead, FitsAll, SmallHeader, UsableLimits;
    if Oversize(cfg, m) {
      ChunkedFits(cfg, st, m, key, extra);
    } else {
      WholeFits(cfg, st, m, key, extra);
      assert QueuedFitting(cfg, st, st, 0);
    }
  }

  lemma ChunkedFits(cfg: Config, st: State, m: Msg, key: bytes, extra: nat)
    requires Overhead(cfg, extra) && UsableLimits(cfg.limits) && SmallHeader(m, extra)
    requires 0 < |m.content| < TWO_32 && ChunkSizeOf(cfg.limits) > CHUNK_HEADER
    ensures var (st', r) := SendChunked(cfg, st, ChunkSizeOf(cfg.limits), m, key);
      && (r.Sent? || r.CryptoFailed? || r.RandomFailed?)
      && exists n: nat :: QueuedFitting(cfg, st, st', n)
           && (r.Sent? ==> n == 1 + PieceCount(|m.content|, ChunkSizeOf(cfg.limits) - CHUNK_HEADER))
  {
    hide ChunkSizeOf, Overhead, UsableLimits, SmallHeader, SendFragments, Fragments, PieceCount, FitsAll;
    var chunkSize := ChunkSizeOf(cfg.limits);
    var id := cfg.random(st.ticks);
    if id.None? {
      assert QueuedFitting(cfg, st, st, 0);
    } else {
      var ms, ticked := Fragments(m, id.value, chunkSize - CHUNK_HEADER), st.(ticks := st.ticks + 1);
      SmallFragments(m, id.value, chunkSize, extra);
      FragmentsCount(m, id.value, chunkSize - CHUNK_HEADER);
      FragmentsAreSent(cfg, ticked, ms, key, extra);
      SendChunkedIsFragments(cfg, st, chunkSize, m, key);
      var (st', r) := SendFragments(cfg, ticked, ms, key);
      var n: nat :| n <= |ms| && (r.Sent? ==> n == |ms|) && QueuedFitting(cfg, ticked, st', n);
      assert QueuedFitting(cfg, st, st', n);
    }
  }

  lemma SmallFragments(m: Msg, id: StreamId, chunkSize: nat, extra: nat)
    requires chunkSize > CHUNK_HEADER && SmallHeader(m, extra)
    ensures var ms := Fragments(m, id, chunkSize - CHUNK_HEADER);
      forall i | 0 <= i < |ms| :: SmallHeader(ms[i], extra) && |ms[i].content| <= chunkSize
  {
    hide Fragments;
    FragmentsFit(m, id, chunkSize);
    var ms := Fragments(m, id, chunkSize - CHUNK_HEADER);
    forall i | 0 <= i < |ms| ensures SmallHeader(ms[i], extra) && |ms[i].content| <= chunkSize {
      assert ms[i] in ms;
    }
  }

  lemma SendChunkedIsFragments(cfg: Config, st: State, chunkSize: uint32, m: Msg, key: bytes)
    requires chunkSize > CHUNK_HEADER && m.content != [] && cfg.random(st.ticks).Some?
    ensures SendChunked(cfg, st, chunkSize, m, key)
            == SendFragments(cfg, st.(ticks := st.ticks + 1),
                             Fragments(m, cfg.random(st.ticks).value, chunkSize - CHUNK_HEADER), key)
  {
    hide SendFragments, Fragments;
  }

  /** So as long as a node only queues what it sends, no page is ever blocked by a message too big for it. */
  lemma SendKeepsFetchable(cfg: Config, st: State, m: Msg, key: bytes, extra: nat, i: nat)
    requires Overhead(cfg, extra) && UsableLimits(cfg.limits) && SmallHeader(m, extra)
    requires |m.content| < TWO_32 && !m.chunked && i < |cfg.limits|
    requires forall q | q in st.outbox :: Fits(q, cfg.limits[i])
    ensures forall q | q in SendMsg(cfg, st, m, key).0.outbox :: Fits(q, cfg.limits[i])
  {
    SendMsgFits(cfg, st, m, key, extra);
    hide SendMsg, Overhead, UsableLimits, SmallHeader;
    var st' := SendMsg(cfg, st, m, key).0;
    var n: nat :| QueuedFitting(cfg, st, st', n);
    forall q | q in st'.outbox ensures Fits(q, cfg.limits[i]) {
      var j :| 0 <= j < |st'.outbox| && st'.outbox[j] == q;
      if j < |st.outbox| { assert st'.outbox[j] == st.outbox[j]; } else { assert FitsAll(q, cfg.limits); }
    }
  }
}
