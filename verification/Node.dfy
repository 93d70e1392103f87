/** The RAM node object: its maps, queue and cache, updated in place by the operations NodeSpec describes. */
module Node {
  import opened Bytes
  import opened OutboxSpec
  import opened Envelope
  import opened Chunking
  import opened Reassembly
  import opened NodeSpec
  import Outbox
  import RecentBuffer
  import Remote
  import CodecProofs

  class Node {
    const cfg: Config
    const recent: RecentBuffer.RecentBuffer
    const outbox: Outbox.OutboxQueue
    var streams: map<uint32, Option<Stream>>
    var chunks: map<uint32, map<uint32, bytes>>
    var out: seq<Msg>
    var ticks: nat

    ghost predicate Valid()
      reads this, recent, outbox
    {
      recent.Valid() && outbox.Valid() && recent.crc == cfg.crc
    }

    ghost function State(): (s: State)
      requires Valid()
      reads this, recent, outbox, outbox.outbox
    {
      NodeSpec.State(recent.window, outbox.Contents(), Rx(streams, chunks, out), ticks)
    }

    constructor (cfg: Config)
      ensures Valid() && this.cfg == cfg && recent.counter == 0
      ensures State() == NodeSpec.State([], [], EMPTY.rx, 0)
    {
      this.cfg := cfg;
      recent := new RecentBuffer.RecentBuffer(cfg.crc);
      outbox := new Outbox.OutboxQueue();
      streams, chunks, out, ticks := map[], map[], [], 0;
    }

    /** Queues an encrypted message behind a new header. */
    method Forward(msg: Msg)
      requires Valid()
      modifies this`ticks, outbox, outbox.outbox
      ensures Valid() && (outbox.outbox == old(outbox.outbox) || fresh(outbox.outbox))
      ensures State() == Enqueue(cfg, old(State()), msg)
    {
      var rxsum := [Flags(msg)];
      var channel := [];
      if msg.isChan {
        var t := |msg.name| % TWO_16;
        rxsum := rxsum + [(t / 256) as byte, (t % 256) as byte];
        rxsum := rxsum + msg.name;
        channel := msg.name;
      }
      var message := rxsum + msg.content;
      assert message == Seal(msg);
      outbox.Append(OutboxMsg(channel, message, cfg.clock(ticks)));
      ticks := ticks + 1;
    }

    method AddStream(id: uint32, total: uint32, channel: bytes)
      modifies this`streams
      ensures Rx(streams, chunks, out) == Reassembly.AddStream(old(Rx(streams, chunks, out)), id, total, channel)
    {
      streams := streams[id := Some(Stream(total, channel))];
    }

    method AddChunk(id: uint32, num: uint32, data: bytes)
      modifies this`chunks
      ensures Rx(streams, chunks, out) == Reassembly.AddChunk(old(Rx(streams, chunks, out)), id, num, data)
    {
      if id !in chunks {
        chunks := chunks[id := map[]];
      }
      var stored: map<uint32, bytes> := chunks[id];
      stored := stored[num := data];
      chunks := chunks[id := stored];
    }

    /** Stores a decrypted fragment; false stands for the panic on a fragment of fewer than 8 bytes. */
    method HandleChunked(m: Msg) returns (ok: bool)
      modifies this`streams, this`chunks
      ensures var r := Reassembly.HandleChunked(old(Rx(streams, chunks, out)), m);
        ok == r.Some? && Rx(streams, chunks, out) == if ok then r.value else old(Rx(streams, chunks, out))
    {
      if |m.content| < 8 {
        return false;
      }
      var id, num := Word(m.content[..4]), Word(m.content[4..8]);
      if !m.streamHeader {
        AddChunk(id, num, m.content[8..]);
      } else {
        AddStream(id, num, if m.isChan then m.name else []);
      }
      ok := true;
    }

    method Handle(msg: Msg) returns (r: HandleResult)
      requires Valid()
      modifies this`streams, this`chunks, this`out
      ensures Valid()
      ensures (State(), r) == NodeSpec.Handle(cfg, old(State()), msg)
    {
      hide Reassembly.HandleChunked;
      var d;
      if msg.isChan {
        if msg.name !in cfg.channels {
          return HandleFailed;
        }
        d := cfg.decrypt(cfg.channels[msg.name], msg.content);
      } else {
        d := cfg.decrypt(cfg.contentKey, msg.content);
      }
      if !d.tagOK || d.failed {
        return if d.failed then HandleFailed else Took(false);
      }
      var clearMsg := ClearMsg(msg, d.clear);
      if msg.chunked {
        var ok := HandleChunked(clearMsg);
        return if ok then Took(true) else HandleCrashed;
      }
      if |out| < OUT_BUFFER_SIZE {
        out := out + [clearMsg];
      }
      return Took(true);
    }

    /** The router's forward: the first patch that matches decides, else the message goes out as it is. */
    method ForwardPatched(msg: Msg)
      requires Valid()
      modifies this`ticks, outbox, outbox.outbox
      ensures Valid() && (outbox.outbox == old(outbox.outbox) || fresh(outbox.outbox))
      ensures State() == EnqueueAll(cfg, old(State()), Redirect(cfg.patches, msg))
    {
      hide Enqueue;
      var patches := cfg.patches;
      assert patches[0..] == patches;
      for i := 0 to |patches|
        invariant Valid() && State() == old(State()) && outbox.outbox == old(outbox.outbox)
        invariant Redirect(patches, msg) == Redirect(patches[i..], msg)
      {
        assert patches[i..][0] == patches[i] && patches[i..][1..] == patches[i + 1..];
        if msg.name == patches[i].from {
          var to := patches[i].to;
          ghost var ms := Redirect(patches, msg);
          assert ms[0..] == ms;
          for j := 0 to |to|
            invariant Valid() && (outbox.outbox == old(outbox.outbox) || fresh(outbox.outbox))
            invariant EnqueueAll(cfg, old(State()), ms) == EnqueueAll(cfg, State(), ms[j..])
          {
            assert ms[j..][0] == ms[j] && ms[j..][1..] == ms[j + 1..];
            Forward(msg.(name := to[j], isChan := to[j] != []));
          }
          return;
        }
      }
      assert Redirect(patches, msg) == [msg] && [msg][1..] == [];
      Forward(msg);
    }

    method RouteChannel(m: Msg) returns (r: RouteResult)
      requires Valid() && m.isChan
      modifies this`streams, this`chunks, this`out, this`ticks, outbox, outbox.outbox
      ensures Valid() && (outbox.outbox == old(outbox.outbox) || fresh(outbox.outbox))
      ensures (State(), r) == NodeSpec.RouteChannel(cfg, old(State()), m)
    {
      hide NodeSpec.Handle, EnqueueAll, Redirect;
      var consumed := false;
      if cfg.settings.checkChannels && m.name in cfg.channels {
        var h := Handle(m);
        if !h.Took? {
          return Stopped(h);
        }
        consumed := h.consumed;
      }
      if (!consumed && cfg.settings.forwardUnknownChannels) || (consumed && cfg.settings.forwardConsumedChannels) {
        ForwardPatched(m);
      }
      r := Routed;
    }

    /** The loop over profiles; msg is the message as the loop left it. */
    method TryProfiles(m: Msg) returns (r: HandleResult, msg: Msg)
      requires Valid()
      modifies this`streams, this`chunks, this`out
      ensures Valid()
      ensures (State(), r, msg) == NodeSpec.TryProfiles(cfg, old(State()), cfg.profiles, m)
    {
      hide NodeSpec.Handle;
      var profiles := cfg.profiles;
      msg := m;
      assert profiles[0..] == profiles;
      for i := 0 to |profiles|
        invariant Valid()
        invariant NodeSpec.TryProfiles(cfg, old(State()), profiles, m)
                  == NodeSpec.TryProfiles(cfg, State(), profiles[i..], msg)
      {
        assert profiles[i..][0] == profiles[i] && profiles[i..][1..] == profiles[i + 1..];
        if !profiles[i].enabled {
          continue;
        }
        msg := msg.(name := profiles[i].name);
        r := Handle(msg);
        if r != Took(false) {
          return;
        }
      }
      r := Took(false);
    }

    method RoutePrivate(m: Msg) returns (r: RouteResult)
      requires Valid()
      modifies this`streams, this`chunks, this`out, this`ticks, outbox, outbox.outbox
      ensures Valid() && (outbox.outbox == old(outbox.outbox) || fresh(outbox.outbox))
      ensures (State(), r) == NodeSpec.RoutePrivate(cfg, old(State()), m)
    {
      hide NodeSpec.Handle, NodeSpec.TryProfiles, EnqueueAll, Redirect;
      var consumedContent, consumedProfile, msg := false, false, m;
      if cfg.settings.checkContent {
        var h := Handle(msg);
        if !h.Took? {
          return Stopped(h);
        }
        consumedContent := h.consumed;
      }
      if cfg.settings.checkProfiles {
        var h;
        h, msg := TryProfiles(msg);
        if !h.Took? {
          return Stopped(h);
        }
        consumedProfile := h.consumed;
      }
      if ForwardPrivate(cfg.settings, consumedContent, consumedProfile) {
        ForwardPatched(msg);
      }
      r := Routed;
    }

    method Route(s: bytes) returns (r: RouteResult)
      requires Valid() && recent.counter < RecentBuffer.MAX_INT32
      modifies this`streams, this`chunks, this`out, this`ticks, recent, outbox, outbox.outbox
      ensures Valid() && (outbox.outbox == old(outbox.outbox) || fresh(outbox.outbox))
      ensures (State(), r) == NodeSpec.Route(cfg, old(State()), s)
      ensures old(recent.counter) <= recent.counter <= old(recent.counter) + 1
    {
      hide Open, NodeSpec.RouteChannel, NodeSpec.RoutePrivate, RecentBuffer.Windowed;
      match Open(s) {
        case Malformed => r := RouteFailed;
        case Crash => r := RouteCrashed;
        case Opened(m, nonce) =>
          var seen := recent.SeenRecently(nonce);
          if seen {
            return Routed;
          }
          if m.isChan {
            r := RouteChannel(m);
          } else {
            r := RoutePrivate(m);
          }
      }
    }

    method SendWhole(m: Msg, key: bytes) returns (r: SendResult)
      requires Valid()
      modifies this`ticks, outbox, outbox.outbox
      ensures Valid() && (outbox.outbox == old(outbox.outbox) || fresh(outbox.outbox))
      ensures (State(), r) == NodeSpec.SendWhole(cfg, old(State()), m, key)
    {
      hide Enqueue;
      var data := cfg.encrypt(key, m.content, ticks);
      if data.None? {
        return CryptoFailed;
      }
      Forward(Encrypted(m, data.value));
      r := Sent;
    }

    /** Chunks an oversize message; a chunk that is still too large is refused, so the recursion ends. */
    method SendMsg(m: Msg, key: bytes) returns (r: SendResult)
      requires Valid() && (!m.chunked ==> |m.content| < TWO_32)
      modifies this`ticks, outbox, outbox.outbox
      ensures Valid() && (outbox.outbox == old(outbox.outbox) || fresh(outbox.outbox))
      ensures (State(), r) == NodeSpec.SendMsg(cfg, old(State()), m, key)
      decreases if m.chunked then 0 else 3
    {
      hide NodeSpec.SendWhole, NodeSpec.SendChunked, ChunkSizeOf;
      var chunkSize := ChunkSize(cfg.limits);
      if |m.content| > 0 && Low32(|m.content|) > chunkSize {
        if m.chunked {
          return AlreadyChunked;
        }
        r := SendChunked(chunkSize, m, key);
        return;
      }
      r := SendWhole(m, key);
    }

    method SendChunked(chunkSize: uint32, m: Msg, key: bytes) returns (r: SendResult)
      requires Valid() && !m.chunked && |m.content| < TWO_32
      modifies this`ticks, outbox, outbox.outbox
      ensures Valid() && (outbox.outbox == old(outbox.outbox) || fresh(outbox.outbox))
      ensures (State(), r) == NodeSpec.SendChunked(cfg, old(State()), chunkSize, m, key)
      decreases 2
    {
      hide NodeSpec.SendFragment, NodeSpec.SendMsg, SendFragments, Pieces, ChunksFrom, Whole, Remainder;
      var buf := m.content;
      var c := Low32(chunkSize - CHUNK_HEADER);
      if c == 0 {
        return DivideByZero;
      }
      var wholeLoops, remainder := Whole(|buf|, c), Remainder(|buf|, c);
      var totalChunks := wholeLoops;
      if remainder != 0 {
        totalChunks := totalChunks + 1;
      }
      PiecesCount(buf, c);
      if wholeLoops + remainder == 0 {
        NothingToSend(|buf|, c);
        return Sent;
      }
      SomethingToSend(|buf|, c);
      var id := cfg.random(ticks);
      if id.None? {
        return RandomFailed;
      }
      ticks := ticks + 1;
      var header := HeaderOf(m, id.value, totalChunks);
      ghost var start, chunks := State(), ChunksFrom(m, id.value, 0, Pieces(buf, c));
      FragmentIsSent(cfg, start, header, key);
      SendFragmentsUnfold(cfg, start, header, chunks, key);
      r := SendMsg(header, key);
      if !r.Sent? {
        return;
      }
      r := SendChunks(m, id.value, c, wholeLoops, remainder, key);
    }

    /** The loop over the whole chunks, and the shorter last one. */
    method SendChunks(m: Msg, id: StreamId, c: nat, wholeLoops: nat, remainder: nat, key: bytes)
      returns (r: SendResult)
      requires Valid() && |m.content| < TWO_32 && c > 0
      requires wholeLoops == Whole(|m.content|, c) && remainder == Remainder(|m.content|, c)
      modifies this`ticks, outbox, outbox.outbox
      ensures Valid() && (outbox.outbox == old(outbox.outbox) || fresh(outbox.outbox))
      ensures (State(), r)
              == SendFragments(cfg, old(State()), ChunksFrom(m, id, 0, Pieces(m.content, c)), key)
      decreases 1
    {
      hide NodeSpec.SendFragment, NodeSpec.SendMsg, SendFragments, Pieces, SliceStart, SliceEnd, Whole, Remainder;
      var buf := m.content;
      ghost var ps, start := Pieces(buf, c), State();
      PiecesCount(buf, c);
      ghost var ms := ChunksFrom(m, id, 0, ps);
      assert ms[0..] == ms;
      r := Sent;
      for i := 0 to wholeLoops
        invariant Valid() && (outbox.outbox == old(outbox.outbox) || fresh(outbox.outbox)) && r == Sent
        invariant SendFragments(cfg, start, ms, key) == SendFragments(cfg, State(), ms[i..], key)
      {
        WholeSlice(buf, c, i);
        var chunk := ChunkOf(m, id, i, buf[SliceStart(c, i)..SliceEnd(c, i)]);
        assert ms[i..] == [chunk] + ms[i + 1..];
        FragmentIsSent(cfg, State(), chunk, key);
        SendFragmentsUnfold(cfg, State(), chunk, ms[i + 1..], key);
        r := SendMsg(chunk, key);
        if !r.Sent? {
          return;
        }
      }
      if remainder > 0 {
        LastSlice(buf, c);
        var chunk := ChunkOf(m, id, wholeLoops, buf[SliceStart(c, wholeLoops)..]);
        assert ms[wholeLoops..] == [chunk] + [];
        FragmentIsSent(cfg, State(), chunk, key);
        SendFragmentsUnfold(cfg, State(), chunk, [], key);
        r := SendMsg(chunk, key);
      }
      SendNoFragments(cfg, State(), key);
      assert remainder == 0 ==> ms[wholeLoops..] == [];
    }

    method Pickup(rpub: bytes, since: int, limit: int, names: seq<bytes>) returns (r: Option<Bundle>)
      requires Valid()
      ensures r == NodeSpec.Pickup(cfg, State(), rpub, since, limit, names)
    {
      hide PageOf;
      var msgs, time, _ := outbox.MsgsSince(since, limit, names);
      if |msgs| > 0 {
        var cipher := cfg.encrypt(rpub, Remote.BytesBytesToBytes(msgs), ticks);
        if cipher.None? {
          return None;
        }
        return Some(Bundle(cipher.value, time));
      }
      r := Some(Bundle([], time));
    }

    /** The cache's counter must have room for as many hashes as the clear text has bytes. */
    method Dropoff(bundle: Bundle) returns (r: DropoffResult)
      requires Valid()
      requires recent.counter + |cfg.decrypt(cfg.routingKey, bundle.data).clear| < RecentBuffer.MAX_INT32
      modifies this`streams, this`chunks, this`out, this`ticks, recent, outbox, outbox.outbox
      ensures Valid() && (outbox.outbox == old(outbox.outbox) || fresh(outbox.outbox))
      ensures (State(), r) == NodeSpec.Dropoff(cfg, old(State()), bundle)
    {
      hide NodeSpec.Route, Remote.BytesBytesFromBytes, RecentBuffer.Windowed;
      if |bundle.data| < 1 {
        return DropoffFailed;
      }
      var d := cfg.decrypt(cfg.routingKey, bundle.data);
      if d.failed || !d.tagOK {
        return DropoffFailed;
      }
      var decoded := Remote.BytesBytesFromBytes(d.clear);
      if decoded.Failure? {
        return if decoded.error.WrongType? then DropoffCrashed else DropoffFailed;
      }
      var msgs := decoded.value;
      BlobCount(d.clear);
      assert msgs[0..] == msgs;
      for i := 0 to |msgs|
        invariant Valid() && (outbox.outbox == old(outbox.outbox) || fresh(outbox.outbox))
        invariant recent.counter <= old(recent.counter) + i
        invariant RouteAll(cfg, old(State()), Routable(msgs)) == RouteAll(cfg, State(), Routable(msgs[i..]))
      {
        assert msgs[i..][0] == msgs[i] && msgs[i..][1..] == msgs[i + 1..];
        if |msgs[i]| < 16 {
          continue;
        }
        RouteAllUnfold(cfg, State(), msgs[i], Routable(msgs[i + 1..]));
        var e := Route(msgs[i]);
        if e.RouteCrashed? {
          return DropoffCrashed;
        }
      }
      assert msgs[|msgs|..] == [];
      r := Dropped;
    }

    /** The reassembly pass, over the streams in the order the map yields; false stands for a nil dereference. */
    method ReassembleAll(order: seq<uint32>) returns (ok: bool)
      requires forall id :: id in order <==> id in streams
      modifies this`streams, this`chunks, this`out
      ensures var p := Pass(old(Rx(streams, chunks, out)), order);
        ok == p.Passed? && (ok ==> Rx(streams, chunks, out) == p.rx)
    {
      hide Visit, Complete;
      ghost var start := Rx(streams, chunks, out);
      for i := 0 to |order|
        invariant Pass(start, order[..i]).Passed? && Rx(streams, chunks, out) == Pass(start, order[..i]).rx
      {
        assert order[..i + 1][..i] == order[..i];
        ok := ReassembleOne(order[i]);
        if !ok {
          PassStaysBroken(start, order, i + 1);
          return;
        }
      }
      assert order[..|order|] == order;
      ok := true;
    }

    method ReassembleOne(id: uint32) returns (ok: bool)
      modifies this`streams, this`chunks, this`out
      ensures var v := Visit(old(Rx(streams, chunks, out)), id);
        ok == v.Visited? && (ok ==> Rx(streams, chunks, out) == v.rx)
    {
      ok := true;
      if id !in streams || streams[id].None? {
        return;
      }
      var stream := streams[id].value;
      var count := 0;
      if id in chunks {
        count := |chunks[id]|;
      }
      if Low32(count) == stream.numChunks {
        var cs := if id in chunks then chunks[id] else map[];
        var buf := [];
        for i := 0 to stream.numChunks
          invariant Assemble(cs, i) == Some(buf)
        {
          if i !in cs {
            MissingChunk(cs, i, stream.numChunks);
            return false;
          }
          buf := buf + cs[i];
        }
        if |out| < OUT_BUFFER_SIZE {
          out := out + [Output(stream, buf)];
          streams := streams[id := None];
          chunks := chunks[id := map[]];
        }
      }
    }
  }

  lemma {:induction false} MissingChunk(cs: map<uint32, bytes>, i: uint32, n: nat)
    requires i < n < TWO_32 && i !in cs
    ensures Assemble(cs, n) == None
    decreases n
  {
    if n - 1 <= i {
    } else {
      MissingChunk(cs, i, n - 1);
    }
  }

  lemma {:induction false} PassStaysBroken(rx: Rx, order: seq<uint32>, n: nat)
    requires n <= |order| && Pass(rx, order[..n]).PassBroken?
    ensures Pass(rx, order).PassBroken?
    decreases |order|
  {
    if n < |order| {
      assert order[..|order| - 1][..n] == order[..n];
      PassStaysBroken(rx, order[..|order| - 1], n);
    } else {
      assert order[..n] == order;
    }
  }

  lemma SendFragmentsUnfold(cfg: Config, st: State, m: Msg, ms: seq<Msg>, key: bytes)
    ensures var (st', r) := SendFragment(cfg, st, m, key);
      SendFragments(cfg, st, [m] + ms, key) == if r.Sent? then SendFragments(cfg, st', ms, key) else (st', r)
  {
    hide SendFragment;
    assert ([m] + ms)[1..] == ms;
  }

  lemma SendNoFragments(cfg: Config, st: State, key: bytes)
    ensures SendFragments(cfg, st, [], key) == (st, Sent)
  {}

  lemma NothingToSend(len: nat, c: nat)
    requires c > 0 && Whole(len, c) == 0 && Remainder(len, c) == 0
    ensures len == 0
  {
    assert len == c * (len / c) + len % c;
  }

  lemma SomethingToSend(len: nat, c: nat)
    requires c > 0 && Whole(len, c) + Remainder(len, c) != 0
    ensures len != 0
  {
    if len == 0 { DivideSmall(0, c); }
  }

  /** Sending a message marked as chunked is sending a fragment. */
  lemma FragmentIsSent(cfg: Config, st: State, m: Msg, key: bytes)
    requires m.chunked
    ensures SendMsg(cfg, st, m, key) == SendFragment(cfg, st, m, key)
  {}

  /** The slice bounds of a whole chunk, in uint32 arithmetic. */
  function SliceStart(c: nat, i: nat): uint32 { Low32(i * c) }

  function SliceEnd(c: nat, i: nat): uint32 { Low32(SliceStart(c, i) + c) }

  /** The bounds do not wrap around and cut out the piece. */
  lemma WholeSlice(buf: bytes, c: nat, i: nat)
    requires c > 0 && i < Whole(|buf|, c) && |buf| < TWO_32
    ensures SliceStart(c, i) <= SliceEnd(c, i) <= |buf|
    ensures i < |Pieces(buf, c)| && Pieces(buf, c)[i] == buf[SliceStart(c, i)..SliceEnd(c, i)]
  {
    OffsetBound(|buf|, c, i);
    OffsetBound(|buf|, c, i + 1);
    assert (i + 1) * c == i * c + c;
    PieceAt(buf, c, i, i * c);
  }

  lemma PieceAt(buf: bytes, c: nat, i: nat, offset: nat)
    requires c > 0 && i < |buf| / c && offset == i * c && offset + c <= |buf|
    ensures i < |Pieces(buf, c)| && Pieces(buf, c)[i] == buf[offset..offset + c]
  {
    hide Pieces;
    PiecesFrom(buf, c, i);
    var rest := buf[offset..];
    PiecesUnfold(rest, c);
    assert Pieces(buf, c)[i..] == Pieces(rest, c) && Pieces(rest, c)[0] == rest[..c];
  }

  lemma LastSlice(buf: bytes, c: nat)
    requires c > 0 && Remainder(|buf|, c) != 0 && |buf| < TWO_32
    ensures var q := Whole(|buf|, c);
      && SliceStart(c, q) <= |buf|
      && q < |Pieces(buf, c)| && Pieces(buf, c)[q..] == [buf[SliceStart(c, q)..]]
  {
    hide Pieces;
    var q, r := |buf| / c, |buf| % c;
    OffsetBound(|buf|, c, q);
    LastPiece(buf, c, q, r, q * c);
  }

  lemma LastPiece(buf: bytes, c: nat, q: nat, r: nat, offset: nat)
    requires 0 < r < c && q <= |buf| / c && offset == q * c && |buf| == offset + r
    ensures q < |Pieces(buf, c)| && Pieces(buf, c)[q..] == [buf[offset..]]
  {
    hide Pieces;
    PiecesFrom(buf, c, q);
    PiecesUnfold(buf[offset..], c);
  }

  lemma RouteAllUnfold(cfg: Config, st: State, m: bytes, ms: seq<bytes>)
    ensures var (st', r) := NodeSpec.Route(cfg, st, m);
      RouteAll(cfg, st, [m] + ms) == if r.RouteCrashed? then (st', DropoffCrashed) else RouteAll(cfg, st', ms)
  {
    assert ([m] + ms)[1..] == ms;
  }

  lemma BlobCount(s: bytes)
    ensures var r := Remote.BytesBytesFromBytes(s); r.Success? ==> |r.value| <= |s|
  {
    CodecProofs.DecodeWork(s);
  }
}
