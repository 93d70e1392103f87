/** From one node's queue to another node's router, and from a chunked message to its delivery. */
module Delivery {
  import opened Bytes
  import opened OutboxSpec
  import opened Envelope
  import opened Chunking
  import opened Reassembly
  import opened NodeSpec
  import Codec
  import CodecProofs
  import Varint
  import opened RouteProofs
  import Remote

  // Pickup, then Dropoff

  /** What one side encrypts for the other side's key the other side decrypts. */
  ghost predicate CipherPair(from: Config, pub: bytes, to: Config, priv: bytes) {
    forall x: bytes, n: nat :: from.encrypt(pub, x, n).Some? ==>
      var cipher := from.encrypt(pub, x, n).value;
      cipher != [] && to.decrypt(priv, cipher) == Decryption(true, x, false)
  }

  /** Dropping off a picked-up bundle hands the router its messages of 16 bytes or more, in order. */
  lemma PickupThenDropoff(remote: Config, rst: State, local: Config, st: State,
                           rpub: bytes, since: int, limit: int, names: seq<bytes>)
    requires CipherPair(remote, rpub, local, local.routingKey)
    requires Pickup(remote, rst, rpub, since, limit, names).Some?
    requires |Codec.Encode(Codec.Blobs(Payloads(PageOf(rst.outbox, since, limit, names))))| < TWO_63
    ensures var page, bundle := PageOf(rst.outbox, since, limit, names),
                                Pickup(remote, rst, rpub, since, limit, names).value;
      && bundle.time == PageTime(page, since)
      && (page == [] <==> bundle.data == [])
      && (page != [] ==> Dropoff(local, st, bundle) == RouteAll(local, st, Routable(Payloads(page))))
  {
    hide PageOf, RouteAll, Codec.Encode, Remote.BytesBytesFromBytes, Remote.BytesBytesToBytes;
    var page := PageOf(rst.outbox, since, limit, names);
    if page != [] {
      Remote.BytesBytesRoundTrip(Payloads(page));
    }
  }

  /** Routing each message with the errors ignored. */
  function RouteEach(cfg: Config, st: State, msgs: seq<bytes>): State {
    if msgs == [] then st else Route(cfg, RouteEach(cfg, st, msgs[..|msgs| - 1]), msgs[|msgs| - 1]).0
  }

  /** The window after all messages have arrived. */
  function WindowAfter(crc: bytes -> uint32, w: seq<uint32>, msgs: seq<bytes>): seq<uint32> {
    if msgs == [] then w else Arrived(crc, WindowAfter(crc, w, msgs[..|msgs| - 1]), msgs[|msgs| - 1])
  }

  lemma {:induction false} WindowAfterFirst(crc: bytes -> uint32, w: seq<uint32>, m: bytes, ms: seq<bytes>)
    ensures WindowAfter(crc, w, [m] + ms) == WindowAfter(crc, Arrived(crc, w, m), ms)
  {
    hide Arrived;
    var all := [m] + ms;
    if ms == [] {
      assert all == [m] && [m][..0] == [];
      assert WindowAfter(crc, w, [m][..0]) == w;
    } else {
      assert all[..|all| - 1] == [m] + ms[..|ms| - 1];
      WindowAfterFirst(crc, w, m, ms[..|ms| - 1]);
    }
  }

  lemma {:induction false} RouteEachFirst(cfg: Config, st: State, m: bytes, ms: seq<bytes>)
    ensures RouteEach(cfg, st, [m] + ms) == RouteEach(cfg, Route(cfg, st, m).0, ms)
  {
    hide Route;
    var all := [m] + ms;
    if ms == [] {
      assert all == [m] && [m][..0] == [];
      assert RouteEach(cfg, st, [m][..0]) == st;
    } else {
      assert all[..|all| - 1] == [m] + ms[..|ms| - 1];
      RouteEachFirst(cfg, st, m, ms[..|ms| - 1]);
    }
  }

  /** The message number i would make the node panic, given the hashes that arrive before it. */
  ghost predicate PanicsAt(cfg: Config, w: seq<uint32>, msgs: seq<bytes>, i: nat)
    requires i < |msgs|
  {
    Panics(cfg, WindowAfter(cfg.crc, w, msgs[..i]), msgs[i])
  }

  /** No message would make the node panic at its turn. */
  ghost predicate NonePanics(cfg: Config, w: seq<uint32>, msgs: seq<bytes>) {
    forall i | 0 <= i < |msgs| :: !PanicsAt(cfg, w, msgs, i)
  }

  lemma PanicsAtFirst(cfg: Config, w: seq<uint32>, m: bytes, ms: seq<bytes>)
    ensures (forall i | 0 <= i < |[m] + ms| :: !PanicsAt(cfg, w, [m] + ms, i)) <==>
            !Panics(cfg, w, m) && forall i | 0 <= i < |ms| :: !PanicsAt(cfg, Arrived(cfg.crc, w, m), ms, i)
  {
    hide Panics, Arrived;
    var msgs, w' := [m] + ms, Arrived(cfg.crc, w, m);
    assert PanicsAt(cfg, w, msgs, 0) == Panics(cfg, w, m) by { assert msgs[..0] == []; }
    forall i | 0 <= i < |ms| ensures PanicsAt(cfg, w, msgs, i + 1) == PanicsAt(cfg, w', ms, i) {
      assert msgs[..i + 1] == [m] + ms[..i];
      WindowAfterFirst(cfg.crc, w, m, ms[..i]);
    }
    assert forall i | 0 < i < |msgs| :: PanicsAt(cfg, w, msgs, i) == PanicsAt(cfg, w', ms, i - 1) by {
      forall i | 0 < i < |msgs| ensures PanicsAt(cfg, w, msgs, i) == PanicsAt(cfg, w', ms, i - 1) {
        assert PanicsAt(cfg, w, msgs, (i - 1) + 1) == PanicsAt(cfg, w', ms, i - 1);
      }
    }
  }

  /**
   * Every message is routed whatever errors the others meet, exactly if none of them makes the node panic: by
   * its length, or as a new fragment whose clear text is too short. A message that does ends the loop.
   */
  lemma {:induction false} RouteAllIff(cfg: Config, st: State, msgs: seq<bytes>)
    ensures RouteAll(cfg, st, msgs).1.Dropped? <==> NonePanics(cfg, st.window, msgs)
    ensures RouteAll(cfg, st, msgs).1.Dropped? ==> RouteAll(cfg, st, msgs).0 == RouteEach(cfg, st, msgs)
    decreases |msgs|
  {
    hide Route, Panics, Arrived;
    if msgs == [] {
    } else {
      var m, ms := msgs[0], msgs[1..];
      var st' := Route(cfg, st, m).0;
      assert msgs == [m] + ms;
      RouteOutcomeIff(cfg, st, m);
      RouteAllIff(cfg, st', ms);
      RouteEachFirst(cfg, st, m, ms);
      PanicsAtFirst(cfg, st.window, m, ms);
    }
  }

  lemma {:induction false} RouteAllNeverFails(cfg: Config, st: State, msgs: seq<bytes>)
    ensures !RouteAll(cfg, st, msgs).1.DropoffFailed?
    decreases |msgs|
  {
    hide Route;
    if msgs == [] {
    } else {
      RouteAllNeverFails(cfg, Route(cfg, st, msgs[0]).0, msgs[1..]);
    }
  }

  /** A panic ends the loop: what stands before the message that panics is routed, and that one as far as it got. */
  lemma {:induction false} RouteAllCrash(cfg: Config, st: State, msgs: seq<bytes>, i: nat)
    requires i < |msgs| && PanicsAt(cfg, st.window, msgs, i)
    requires forall j | 0 <= j < i :: !PanicsAt(cfg, st.window, msgs, j)
    ensures RouteAll(cfg, st, msgs) == (RouteEach(cfg, st, msgs[..i + 1]), DropoffCrashed)
    decreases |msgs|
  {
    hide Route, Panics, Arrived, Errs;
    var m, ms := msgs[0], msgs[1..];
    var st' := Route(cfg, st, m).0;
    assert msgs == [m] + ms && msgs[..i + 1] == [m] + ms[..i];
    RouteOutcomeIff(cfg, st, m);
    RouteEachFirst(cfg, st, m, ms[..i]);
    assert msgs[..0] == [];
    if i == 0 {
      assert ms[..0] == [];
    } else {
      assert !PanicsAt(cfg, st.window, msgs, 0);
      forall j | 0 <= j < |ms| ensures PanicsAt(cfg, st'.window, ms, j) == PanicsAt(cfg, st.window, msgs, j + 1) {
        assert msgs[..j + 1] == [m] + ms[..j];
        WindowAfterFirst(cfg.crc, st.window, m, ms[..j]);
      }
      RouteAllCrash(cfg, st', ms, i - 1);
    }
  }

  // Dropoff of any bundle

  lemma {:induction false} RoutableOfConcat(x: seq<bytes>, y: seq<bytes>)
    ensures Routable(x + y) == Routable(x) + Routable(y)
  {
    if x == [] {
      assert x + y == y;
    } else {
      assert (x + y)[1..] == x[1..] + y;
      RoutableOfConcat(x[1..], y);
    }
  }

  /** Messages of 16 bytes or more are routed, in order, shorter ones are not. */
  lemma RoutableParts(x: seq<bytes>, m: bytes, y: seq<bytes>)
    ensures Routable(x + [m] + y) == Routable(x) + (if |m| >= 16 then [m] else []) + Routable(y)
  {
    assert [m][1..] == [];
    assert Routable([m]) == if |m| >= 16 then [m] else [];
    RoutableOfConcat(x, [m]);
    RoutableOfConcat(x + [m], y);
  }

  /** The node has the key for the bundle. */
  predicate Opens(cfg: Config, bundle: Bundle) {
    var d := cfg.decrypt(cfg.routingKey, bundle.data);
    bundle.data != [] && !d.failed && d.tagOK
  }

  /** What the bundle's clear text decodes to, if the node has the key. */
  function Batch(cfg: Config, bundle: Bundle): Varint.Parsed<Codec.Value> {
    Codec.Decode(cfg.decrypt(cfg.routingKey, bundle.data).clear)
  }

  predicate HoldsBatch(cfg: Config, bundle: Bundle) {
    Batch(cfg, bundle).Parsed? && Batch(cfg, bundle).value.Blobs?
  }

  /**
   * A bundle is acknowledged exactly if the node has its key, it decodes to a batch, and no message of 16 bytes or more
   * in it panics at its turn; it is refused exactly if the key is not the node's or the clear text is no value, and
   * then changes nothing; anything else - a value of another type, or a message that panics - ends in a panic.
   */
  lemma DropoffIff(cfg: Config, st: State, bundle: Bundle)
    ensures var (st', r) := Dropoff(cfg, st, bundle);
      && (r.Dropped? <==>
            && Opens(cfg, bundle) && HoldsBatch(cfg, bundle)
            && NonePanics(cfg, st.window, Routable(Batch(cfg, bundle).value.blobs)))
      && (r.DropoffFailed? <==> !Opens(cfg, bundle) || Batch(cfg, bundle).Failed?)
      && (r.Dropped? ==> st' == RouteEach(cfg, st, Routable(Batch(cfg, bundle).value.blobs)))
      && (!Opens(cfg, bundle) || !HoldsBatch(cfg, bundle) ==> st' == st)
  {
    hide Codec.Decode, RouteAll, Routable, PanicsAt, RouteEach;
    CodecProofs.DecodeErrors(cfg.decrypt(cfg.routingKey, bundle.data).clear);
    if Opens(cfg, bundle) && HoldsBatch(cfg, bundle) {
      var ms := Routable(Batch(cfg, bundle).value.blobs);
      assert Dropoff(cfg, st, bundle) == RouteAll(cfg, st, ms);
      RouteAllIff(cfg, st, ms);
      RouteAllNeverFails(cfg, st, ms);
    }
  }

  // A chunked message, fragment by fragment

  /** The node holds the key the fragment was encrypted for and its router tries it. */
  ghost predicate Readable(cfg: Config, f: Msg, cipher: bytes) {
    && |cipher| >= NONCE_SIZE && f.chunked && |f.content| >= 8
    && (f.isChan ==> 0 < |f.name| <= MAX_NAME)
    && TriedKey(cfg, f).Some? && cfg.decrypt(TriedKey(cfg, f).value, cipher) == Decryption(true, f.content, false)
  }

  /** HandleChunked looks at no more than the content, the header flag and the channel. */
  predicate SameFragment(a: Msg, b: Msg) {
    && a.content == b.content && a.streamHeader == b.streamHeader
    && (if a.isChan then a.name else []) == (if b.isChan then b.name else [])
  }

  lemma SameHandling(rx: Rx, a: Msg, b: Msg)
    requires SameFragment(a, b)
    ensures HandleChunked(rx, a) == HandleChunked(rx, b)
  {
    hide Word;
  }

  /** The node stores s as a fragment, if its nonce is new. */
  predicate Stores(cfg: Config, s: bytes) {
    Open(s).Opened? && Open(s).msg.chunked && ReadHere(cfg, Open(s).msg)
  }

  /** The stream and the place in it under which the node stores s. */
  function StreamIn(cfg: Config, s: bytes): uint32
    requires Stores(cfg, s)
  {
    Word(Cleared(cfg, Open(s).msg).content[..4])
  }

  function NumberIn(cfg: Config, s: bytes): nat
    requires Stores(cfg, s)
  {
    var clear := Cleared(cfg, Open(s).msg);
    if clear.streamHeader then 0 else Word(clear.content[4..8]) + 1
  }

  lemma ReadableStores(cfg: Config, f: Msg, cipher: bytes)
    requires Readable(cfg, f, cipher)
    ensures var s := Seal(Encrypted(f, cipher));
      && |s| >= 16 && HashOf(cfg.crc, s) == Some(cfg.crc(cipher[..NONCE_SIZE]))
      && Stores(cfg, s) && SameFragment(Cleared(cfg, Open(s).msg), f)
  {
    hide Open, Seal, SomeEnabled;
    OpenSeal(Encrypted(f, cipher));
    SealedParts(Encrypted(f, cipher));
  }

  /** Routing a message that the node stores as a fragment. */
  lemma StoredWhenFresh(cfg: Config, st: State, s: bytes)
    requires Stores(cfg, s)
    ensures HandleChunked(st.rx, Cleared(cfg, Open(s).msg)).Some?
    ensures Route(cfg, st, s).0.rx
            == if Fresh(cfg.crc, st.window, s) then HandleChunked(st.rx, Cleared(cfg, Open(s).msg)).value else st.rx
  {
    hide Open, Route, Word, SomeEnabled;
    RouteKeeps(cfg, st, s);
  }

  /** A fragment's record is stored when its nonce is new, and does not touch what is stored when it is not. */
  lemma FragmentRouted(cfg: Config, st: State, f: Msg, cipher: bytes)
    requires Readable(cfg, f, cipher)
    ensures HandleChunked(st.rx, f).Some?
    ensures var st' := Route(cfg, st, Seal(Encrypted(f, cipher))).0;
      st'.rx == if cfg.crc(cipher[..NONCE_SIZE]) in st.window then st.rx else HandleChunked(st.rx, f).value
  {
    hide HandleChunked, Route, Seal, Open, Cleared, Readable;
    var s := Seal(Encrypted(f, cipher));
    ReadableStores(cfg, f, cipher);
    StoredWhenFresh(cfg, st, s);
    SameHandling(st.rx, Cleared(cfg, Open(s).msg), f);
  }

  lemma IdBytesOfWord(id: StreamId)
    ensures IdBytes(Word(id)) == id
  {
    LittleEndianInverse(id);
  }

  /** The stream a sent message becomes, as its receiver knows it. */
  function SourceOf(m: Msg, c: nat): Source {
    Source(m.content, c, if m.isChan then m.name else [])
  }

  /** What SendMsg's fragment number k does to its receiver is the arrival of fragment k of that stream. */
  lemma SentFragmentArrives(cfg: Config, st: State, m: Msg, id: StreamId, c: nat, k: nat, cipher: bytes)
    requires c > 0 && 0 < |m.content| < TWO_32 && (m.isChan ==> m.name != [])
    requires k < |Fragments(m, id, c)|
    requires Readable(cfg, Fragments(m, id, c)[k], cipher)
    ensures ProperSource(SourceOf(m, c)) && k <= |SourcePieces(SourceOf(m, c))|
    ensures HandleChunked(st.rx, Fragment(SourceOf(m, c), Word(id), k)).Some?
    ensures var st' := Route(cfg, st, Seal(Encrypted(Fragments(m, id, c)[k], cipher))).0;
      st'.rx == if cfg.crc(cipher[..NONCE_SIZE]) in st.window then st.rx
                else HandleChunked(st.rx, Fragment(SourceOf(m, c), Word(id), k)).value
  {
    hide HandleChunked, Route, Fragments, Readable;
    var f, src := Fragments(m, id, c)[k], SourceOf(m, c);
    FragmentRouted(cfg, st, f, cipher);
    PlaceOfFragment(m, id, c, k);
    SameHandling(st.rx, f, Fragment(src, Word(id), k));
  }

  // What SendMsg queues

  /** r is f encrypted for key and sealed, queued on its channel, at tick n. */
  ghost predicate RecordAt(cfg: Config, key: bytes, f: Msg, r: OutboxMsg, n: nat) {
    && cfg.encrypt(key, f.content, n).Some?
    && r == OutboxMsg(if f.isChan then f.name else [], Seal(Encrypted(f, cfg.encrypt(key, f.content, n).value)),
                      cfg.clock(n))
  }

  /** st' has queued, behind what st had, one record for each of ms, in order and tick by tick from the given one. */
  ghost predicate Queued(cfg: Config, key: bytes, ms: seq<Msg>, st: State, st': State, tick: nat) {
    && |st'.outbox| == |st.outbox| + |ms| && st.outbox <= st'.outbox
    && forall k | 0 <= k < |ms| :: RecordAt(cfg, key, ms[k], st'.outbox[|st.outbox| + k], tick + k)
  }

  lemma SendWholeQueues(cfg: Config, st: State, m: Msg, key: bytes)
    requires SendWhole(cfg, st, m, key).1.Sent?
    ensures Queued(cfg, key, [m], st, SendWhole(cfg, st, m, key).0, st.ticks)
    ensures SendWhole(cfg, st, m, key).0.ticks == st.ticks + 1
  {
    hide Seal;
  }

  lemma {:induction false} SendFragmentsQueue(cfg: Config, st: State, ms: seq<Msg>, key: bytes)
    requires SendFragments(cfg, st, ms, key).1.Sent?
    ensures Queued(cfg, key, ms, st, SendFragments(cfg, st, ms, key).0, st.ticks)
    decreases |ms|
  {
    hide SendWhole, Oversize, RecordAt;
    if ms == [] {
    } else {
      var st1 := SendWhole(cfg, st, ms[0], key).0;
      SendWholeQueues(cfg, st, ms[0], key);
      SendFragmentsQueue(cfg, st1, ms[1..], key);
      var st2 := SendFragments(cfg, st1, ms[1..], key).0;
      forall k | 0 <= k < |ms| ensures RecordAt(cfg, key, ms[k], st2.outbox[|st.outbox| + k], st.ticks + k) {
        if k == 0 {
          assert st2.outbox[|st.outbox|] == st1.outbox[|st.outbox|] && [ms[0]][0] == ms[0];
          assert RecordAt(cfg, key, [ms[0]][0], st1.outbox[|st.outbox| + 0], st.ticks + 0);
        } else {
          assert ms[k] == ms[1..][k - 1];
          assert RecordAt(cfg, key, ms[1..][k - 1], st2.outbox[|st1.outbox| + (k - 1)], st1.ticks + (k - 1));
        }
      }
    }
  }

  /**
   * A message that is sent is queued as itself, or as the fragments of one stream under a random id, each properly
   * encrypted and stamped with the clock of its own tick.
   */
  lemma SendMsgQueues(cfg: Config, st: State, m: Msg, key: bytes)
    requires SendMsg(cfg, st, m, key).1.Sent? && (Oversize(cfg, m) ==> ChunkSizeOf(cfg.limits) > CHUNK_HEADER)
    ensures Oversize(cfg, m) ==> cfg.random(st.ticks).Some?
    ensures var st' := SendMsg(cfg, st, m, key).0;
      if Oversize(cfg, m) then
        var ms := Fragments(m, cfg.random(st.ticks).value, ChunkSizeOf(cfg.limits) - CHUNK_HEADER);
        Queued(cfg, key, ms, st, st', st.ticks + 1)
      else Queued(cfg, key, [m], st, st', st.ticks)
  {
    if Oversize(cfg, m) {
      hide ChunkSizeOf, SendFragments, Fragments, Queued;
      var ticked := st.(ticks := st.ticks + 1);
      var ms := Fragments(m, cfg.random(st.ticks).value, ChunkSizeOf(cfg.limits) - CHUNK_HEADER);
      SendFragmentsQueue(cfg, ticked, ms, key);
      QueuedFromTicked(cfg, key, ms, st, ticked, SendFragments(cfg, ticked, ms, key).0);
    } else {
      hide Queued, SendWhole;
      SendWholeQueues(cfg, st, m, key);
    }
  }

  /** The cipher works for each of ms, tick by tick. */
  ghost predicate AllEncrypt(cfg: Config, ms: seq<Msg>, key: bytes, tick: nat) {
    forall i | 0 <= i < |ms| :: cfg.encrypt(key, ms[i].content, tick + i).Some?
  }

  /** Fragments are sent up to the first that the cipher fails on. */
  lemma {:induction false} SendFragmentsOutcome(cfg: Config, st: State, ms: seq<Msg>, key: bytes)
    requires forall i | 0 <= i < |ms| :: !Oversize(cfg, ms[i])
    ensures var (st', r) := SendFragments(cfg, st, ms, key);
      && (r.Sent? <==> AllEncrypt(cfg, ms, key, st.ticks))
      && (!r.Sent? ==>
            && r.CryptoFailed? && |st.outbox| <= |st'.outbox| < |st.outbox| + |ms|
            && cfg.encrypt(key, ms[|st'.outbox| - |st.outbox|].content,
                           st.ticks + (|st'.outbox| - |st.outbox|)).None?)
    decreases |ms|
  {
    hide Seal, Oversize, AllEncrypt, SendWhole;
    if ms == [] {
      NoneToEncrypt(cfg, key, st.ticks);
    } else {
      var st1 := SendWhole(cfg, st, ms[0], key).0;
      WholeOutcome(cfg, st, ms[0], key);
      FailsLater(cfg, ms, key, st.ticks);
      if cfg.encrypt(key, ms[0].content, st.ticks).Some? {
        assert forall i | 0 < i < |ms| :: ms[i] == ms[1..][i - 1];
        SendFragmentsOutcome(cfg, st1, ms[1..], key);
      }
    }
  }

  lemma NoneToEncrypt(cfg: Config, key: bytes, tick: nat)
    ensures AllEncrypt(cfg, [], key, tick)
  {}

  lemma WholeOutcome(cfg: Config, st: State, m: Msg, key: bytes)
    ensures var (st', r) := SendWhole(cfg, st, m, key);
      if cfg.encrypt(key, m.content, st.ticks).Some? then
        r == Sent && |st'.outbox| == |st.outbox| + 1 && st'.ticks == st.ticks + 1
      else r == CryptoFailed && st' == st
  {
    hide Seal;
  }

  lemma FailsLater(cfg: Config, ms: seq<Msg>, key: bytes, tick: nat)
    requires ms != []
    ensures AllEncrypt(cfg, ms, key, tick) <==>
            cfg.encrypt(key, ms[0].content, tick).Some? && AllEncrypt(cfg, ms[1..], key, tick + 1)
  {
    if AllEncrypt(cfg, ms, key, tick) {
      assert cfg.encrypt(key, ms[0].content, tick + 0).Some?;
      forall i | 0 <= i < |ms[1..]| ensures cfg.encrypt(key, ms[1..][i].content, tick + 1 + i).Some? {
        assert cfg.encrypt(key, ms[i + 1].content, tick + (i + 1)).Some?;
      }
    }
    if cfg.encrypt(key, ms[0].content, tick).Some? && AllEncrypt(cfg, ms[1..], key, tick + 1) {
      forall i | 0 <= i < |ms| ensures cfg.encrypt(key, ms[i].content, tick + i).Some? {
        if i > 0 { assert cfg.encrypt(key, ms[1..][i - 1].content, tick + 1 + (i - 1)).Some?; }
      }
    }
  }

  /** The message does not fit: its length, as uint32, is more than the chunk size. */
  predicate TooLong(cfg: Config, m: Msg) {
    |m.content| > 0 && |m.content| % 0x1_0000_0000 > ChunkSizeOf(cfg.limits)
  }

  /**
   * How sending ends, for any message, limits and failures. A message that is not too long is sent as it is. One that
   * is too long is refused if it is a chunk; else it is cut up, unless the chunk size leaves no byte for data, which
   * divides by zero, or leaves no room for a header, or there is no random id.
   */
  lemma SendMsgOutcome(cfg: Config, st: State, m: Msg, key: bytes)
    ensures var (st', r) := SendMsg(cfg, st, m, key);
      var size, id := ChunkSizeOf(cfg.limits), cfg.random(st.ticks);
      if !TooLong(cfg, m) then
        if cfg.encrypt(key, m.content, st.ticks).Some? then r == Sent && |st'.outbox| == |st.outbox| + 1
        else r == CryptoFailed && st' == st
      else if m.chunked then r == AlreadyChunked && st' == st
      else if size == 8 then r == DivideByZero && st' == st
      else if id.None? then r == RandomFailed && st' == st
      else if size < 8 then r == AlreadyChunked && st'.outbox == st.outbox
      else
        var ms := Fragments(m, id.value, size - 8);
        if AllEncrypt(cfg, ms, key, st.ticks + 1) then r == Sent
        else r == CryptoFailed && |st'.outbox| < |st.outbox| + |ms|
  {
    var size, id := ChunkSizeOf(cfg.limits), cfg.random(st.ticks);
    hide ChunkSizeOf, SendFragments, Fragments, Seal;
    if TooLong(cfg, m) && !m.chunked && size != 8 && id.Some? {
      var ticked := st.(ticks := st.ticks + 1);
      if size < 8 {
        HeaderTooLong(cfg, ticked, m, id.value, Low32(size - CHUNK_HEADER), key);
      } else {
        FragmentsAreShort(cfg, m, id.value, size);
        SendFragmentsOutcome(cfg, ticked, Fragments(m, id.value, size - 8), key);
      }
    }
  }

  lemma HeaderTooLong(cfg: Config, st: State, m: Msg, id: StreamId, c: nat, key: bytes)
    requires c > 0 && m.content != [] && ChunkSizeOf(cfg.limits) < 8
    ensures SendFragments(cfg, st, Fragments(m, id, c), key) == (st, AlreadyChunked)
  {
    hide Pieces, ChunkSizeOf;
    assert |Fragments(m, id, c)[0].content| == 8;
  }

  lemma FragmentsAreShort(cfg: Config, m: Msg, id: StreamId, chunkSize: nat)
    requires chunkSize == ChunkSizeOf(cfg.limits) > CHUNK_HEADER
    ensures var ms := Fragments(m, id, chunkSize - CHUNK_HEADER);
      forall i | 0 <= i < |ms| :: !Oversize(cfg, ms[i])
  {
    hide Fragments, ChunkSizeOf;
    var ms := Fragments(m, id, chunkSize - CHUNK_HEADER);
    FragmentsFit(m, id, chunkSize);
    forall i | 0 <= i < |ms| ensures !Oversize(cfg, ms[i]) {
      assert ms[i] in ms;
    }
  }

  lemma QueuedFromTicked(cfg: Config, key: bytes, ms: seq<Msg>, st: State, ticked: State, st': State)
    requires Queued(cfg, key, ms, ticked, st', ticked.ticks) && ticked.outbox == st.outbox
    ensures Queued(cfg, key, ms, st, st', ticked.ticks)
  {}

  /** The receiver tries a key for messages such as m that decrypts them, and cipher texts hold a nonce. */
  ghost predicate Reads(from: Config, key: bytes, to: Config, m: Msg) {
    && (forall x: bytes, n: nat :: from.encrypt(key, x, n).Some? ==> |from.encrypt(key, x, n).value| >= NONCE_SIZE)
    && (m.isChan ==> 0 < |m.name| <= MAX_NAME)
    && TriedKey(to, m).Some? && CipherPair(from, key, to, TriedKey(to, m).value)
  }

  /** s is a record whose routing is the arrival of fragment k, or nothing if its nonce was seen recently. */
  ghost predicate Carries(cfg: Config, ss: Sources, s: bytes, id: uint32, k: nat) {
    && Stores(cfg, s) && id in ss && k <= |SourcePieces(ss[id])|
    && SameFragment(Cleared(cfg, Open(s).msg), Fragment(ss[id], id, k))
  }

  /** If the node stores s at all, s is a fragment of an honest stream. */
  ghost predicate Tame(cfg: Config, ss: Sources, s: bytes) {
    Stores(cfg, s) ==> Carries(cfg, ss, s, StreamIn(cfg, s), NumberIn(cfg, s))
  }

  /** The place under which a fragment is stored is its own. */
  lemma CarriesItsPlace(cfg: Config, ss: Sources, s: bytes, id: uint32, k: nat)
    requires Carries(cfg, ss, s, id, k)
    ensures StreamIn(cfg, s) == id && NumberIn(cfg, s) == k && Tame(cfg, ss, s)
  {
    hide Open, Cleared, SourcePieces, Word;
    FragmentPlace(ss[id], id, k);
  }

  lemma FragmentPlace(src: Source, id: uint32, k: nat)
    requires ProperSource(src) && k <= |SourcePieces(src)|
    ensures var f := Fragment(src, id, k);
      && |f.content| >= 8 && Word(f.content[..4]) == id && f.streamHeader == (k == 0)
      && (k > 0 ==> Word(f.content[4..8]) == k - 1)
  {
    hide Pieces, Word;
    var m, c := Clear(src), Fragment(src, id, k).content;
    WordRoundTrip(id);
    if k == 0 {
      assert c == HeaderOf(m, IdBytes(id), |SourcePieces(src)|).content;
      assert c[..4] == IdBytes(id);
    } else {
      var piece := SourcePieces(src)[k - 1];
      WordRoundTrip(k - 1);
      assert c == ChunkOf(m, IdBytes(id), k - 1, piece).content;
      assert c[..4] == IdBytes(id) && c[4..8] == LittleEndian(k - 1, 4);
    }
  }

  /** Every record of a chunked message carries its fragment to the receiver. */
  lemma SentRecordCarries(from: Config, key: bytes, to: Config, ss: Sources, m: Msg, id: StreamId, c: nat, k: nat,
                          r: OutboxMsg, n: nat)
    requires c > 0 && 0 < |m.content| < TWO_32 && Reads(from, key, to, m)
    requires Word(id) in ss && ss[Word(id)] == SourceOf(m, c)
    requires k < |Fragments(m, id, c)| && RecordAt(from, key, Fragments(m, id, c)[k], r, n)
    ensures Carries(to, ss, r.msg, Word(id), k)
  {
    var f, src := Fragments(m, id, c)[k], SourceOf(m, c);
    FragmentShape(m, id, c, k);
    hide Fragments, Pieces, Seal, Open, Cleared, SomeEnabled, ReadHere;
    var cipher := from.encrypt(key, f.content, n).value;
    assert Readable(to, f, cipher);
    ReadableStores(to, f, cipher);
    PlaceOfFragment(m, id, c, k);
    assert r.msg == Seal(Encrypted(f, cipher));
  }

  lemma FragmentShape(m: Msg, id: StreamId, c: nat, k: nat)
    requires c > 0 && k < |Fragments(m, id, c)|
    ensures var f := Fragments(m, id, c)[k];
      f.chunked && |f.content| >= 8 && f.name == m.name && f.isChan == m.isChan
  {
    hide Pieces;
  }

  lemma PlaceOfFragment(m: Msg, id: StreamId, c: nat, k: nat)
    requires c > 0 && 0 < |m.content| < TWO_32 && (m.isChan ==> m.name != []) && k < |Fragments(m, id, c)|
    ensures ProperSource(SourceOf(m, c)) && k <= |SourcePieces(SourceOf(m, c))|
    ensures SameFragment(Fragments(m, id, c)[k], Fragment(SourceOf(m, c), Word(id), k))
  {
    hide Pieces;
    IdBytesOfWord(id);
  }

  /** Routing a record that carries a fragment never panics, and is the fragment's arrival if its nonce is new. */
  lemma CarriedRouted(cfg: Config, ss: Sources, st: State, s: bytes, id: uint32, k: nat)
    requires Carries(cfg, ss, s, id, k)
    ensures HashOf(cfg.crc, s).Some? && !Panics(cfg, st.window, s)
    ensures HandleChunked(st.rx, Fragment(ss[id], id, k)).Some?
    ensures Route(cfg, st, s).0.rx
            == if Fresh(cfg.crc, st.window, s) then HandleChunked(st.rx, Fragment(ss[id], id, k)).value else st.rx
  {
    hide HandleChunked, Fragment, SourcePieces, Route, Open, OpenPanics, Cleared, SomeEnabled;
    StoredWhenFresh(cfg, st, s);
    SameHandling(st.rx, Cleared(cfg, Open(s).msg), Fragment(ss[id], id, k));
    OpenCrashIff(s);
  }
}
