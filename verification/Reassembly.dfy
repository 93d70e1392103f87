/** The receiving side of chunking: stored headers and chunks, and the pass that puts messages together. */
module Reassembly {
  import opened Bytes
  import opened Envelope
  import opened Chunking

  const OUT_BUFFER_SIZE := 128

  datatype Stream = Stream(numChunks: uint32, channel: bytes)

  /** A stream that was delivered leaves its key behind with no header. */
  datatype Rx = Rx(
    streams: map<uint32, Option<Stream>>,
    chunks: map<uint32, map<uint32, bytes>>,
    out: seq<Msg>)

  function AddStream(rx: Rx, id: uint32, total: uint32, channel: bytes): Rx {
    rx.(streams := rx.streams[id := Some(Stream(total, channel))])
  }

  function ChunksOf(rx: Rx, id: uint32): map<uint32, bytes> {
    if id in rx.chunks then rx.chunks[id] else map[]
  }

  function AddChunk(rx: Rx, id: uint32, num: uint32, data: bytes): Rx {
    rx.(chunks := rx.chunks[id := ChunksOf(rx, id)[num := data]])
  }

  /** A header or chunk replaces what is stored in its place, and nothing else. */
  lemma StoredInPlace(rx: Rx, id: uint32, n: uint32, channel: bytes, data: bytes)
    ensures var r := AddStream(rx, id, n, channel);
      && r.streams == rx.streams[id := Some(Stream(n, channel))] && r.chunks == rx.chunks && r.out == rx.out
    ensures var r := AddChunk(rx, id, n, data);
      && n in ChunksOf(r, id) && ChunksOf(r, id)[n] == data
      && (forall i | i != n :: i in ChunksOf(r, id) <==> i in ChunksOf(rx, id))
      && (forall i | i != n && i in ChunksOf(rx, id) :: ChunksOf(r, id)[i] == ChunksOf(rx, id)[i])
      && (forall other | other != id :: ChunksOf(r, other) == ChunksOf(rx, other))
      && r.streams == rx.streams && r.out == rx.out
  {}

  function Word(s: bytes): (w: uint32)
    requires |s| == 4
  {
    FromLittleEndianBound(s);
    Widths();
    FromLittleEndian(s)
  }

  /** HandleChunked on a decrypted message; None is the slice bound that panics for fewer than 8 bytes. */
  function HandleChunked(rx: Rx, m: Msg): Option<Rx> {
    if |m.content| < 8 then None
    else
      var id, num := Word(m.content[..4]), Word(m.content[4..8]);
      if m.streamHeader then Some(AddStream(rx, id, num, if m.isChan then m.name else []))
      else Some(AddChunk(rx, id, num, m.content[8..]))
  }

  /** The data of chunks 0 to n - 1 in order, if none is missing. */
  function Assemble(cs: map<uint32, bytes>, n: nat): Option<bytes>
    requires n < TWO_32
  {
    if n == 0 then Some([])
    else
      var front := Assemble(cs, n - 1);
      if front.None? || (n - 1) !in cs then None else Some(front.value + cs[n - 1])
  }

  /** The chunk count, as uint32, equals what the header promised. */
  predicate Complete(rx: Rx, id: uint32) {
    id in rx.streams && rx.streams[id].Some? && Low32(|ChunksOf(rx, id)|) == rx.streams[id].value.numChunks
  }

  function Output(stream: Stream, content: bytes): Msg {
    Msg(stream.channel, content, stream.channel != [], false, false)
  }

  datatype Visited =
    | Visited(rx: Rx, delivered: Option<Msg>)
    | Broken  // a chunk is missing although the count is right: a nil dereference

  /** One turn of the loop over the streams. */
  function Visit(rx: Rx, id: uint32): Visited {
    if !Complete(rx, id) then Visited(rx, None)
    else
      var s := rx.streams[id].value;
      var content := Assemble(ChunksOf(rx, id), s.numChunks);
      if content.None? then Broken
      else if |rx.out| >= OUT_BUFFER_SIZE then Visited(rx, None)
      else
        var m := Output(s, content.value);
        Visited(Rx(rx.streams[id := None], rx.chunks[id := map[]], rx.out + [m]), Some(m))
  }

  datatype Passed =
    | Passed(rx: Rx, done: seq<(uint32, Msg)>)
    | PassBroken

  /** The loop over the streams in the order in which the map yields them, and what it delivered. */
  function Pass(rx: Rx, order: seq<uint32>): Passed {
    if order == [] then Passed(rx, [])
    else
      var front := Pass(rx, order[..|order| - 1]);
      if front.PassBroken? then PassBroken else PassOn(front, order[|order| - 1])
  }

  function PassOn(front: Passed, id: uint32): Passed
    requires front.Passed?
  {
    match Visit(front.rx, id)
    case Broken => PassBroken
    case Visited(rx', None) => Passed(rx', front.done)
    case Visited(rx', Some(m)) => Passed(rx', front.done + [(id, m)])
  }

  // Honest traffic: streams of distinct ids, each cut from one content.

  datatype Source = Source(content: bytes, size: nat, channel: bytes)

  predicate ProperSource(s: Source) {
    s.size > 0 && 0 < |s.content| < TWO_32
  }

  function SourcePieces(s: Source): (ps: seq<bytes>)
    requires ProperSource(s)
    ensures |ps| < TWO_32
  {
    Pieces(s.content, s.size)
  }

  /** How a fragment looks once the receiver has decrypted it: the channel is kept, a private name is not. */
  function Clear(s: Source): Msg {
    Msg(s.channel, s.content, s.channel != [], true, false)
  }

  function IdBytes(id: uint32): bytes {
    LittleEndian(id, 4)
  }

  /** Fragment 0 of a stream is its header, fragment k + 1 its chunk k. */
  function Fragment(s: Source, id: uint32, k: nat): Msg
    requires ProperSource(s) && k <= |SourcePieces(s)|
  {
    Fragments(Clear(s), IdBytes(id), s.size)[k]
  }

  lemma WordRoundTrip(w: uint32)
    ensures Word(LittleEndian(w, 4)) == w
  {
    Widths();
    LittleEndianRoundTrip(w, 4);
  }

  lemma HandleHeader(rx: Rx, m: Msg, id: uint32, count: uint32)
    ensures HandleChunked(rx, HeaderOf(m, IdBytes(id), count))
            == Some(AddStream(rx, id, count, if m.isChan then m.name else []))
  {
    var c := HeaderOf(m, IdBytes(id), count).content;
    assert c[..4] == IdBytes(id) && c[4..8] == LittleEndian(count, 4);
    WordRoundTrip(id);
    WordRoundTrip(count);
  }

  lemma HandleChunk(rx: Rx, m: Msg, id: uint32, num: uint32, piece: bytes)
    ensures HandleChunked(rx, ChunkOf(m, IdBytes(id), num, piece)) == Some(AddChunk(rx, id, num, piece))
  {
    var c := ChunkOf(m, IdBytes(id), num, piece).content;
    assert c[..4] == IdBytes(id) && c[4..8] == LittleEndian(num, 4) && c[8..] == piece;
    WordRoundTrip(id);
    WordRoundTrip(num);
  }

  /** A fragment made by SendChunked is taken apart into just what it was made from. */
  lemma FragmentHandled(rx: Rx, s: Source, id: uint32, k: nat)
    requires ProperSource(s) && k <= |SourcePieces(s)|
    ensures HandleChunked(rx, Fragment(s, id, k))
            == Some(if k == 0 then AddStream(rx, id, |SourcePieces(s)|, s.channel)
                    else AddChunk(rx, id, k - 1, SourcePieces(s)[k - 1]))
  {
    hide HandleChunked, Pieces;
    var m := Clear(s);
    if k == 0 {
      HandleHeader(rx, m, id, |SourcePieces(s)|);
    } else {
      HandleChunk(rx, m, id, k - 1, SourcePieces(s)[k - 1]);
      assert Fragment(s, id, k) == ChunkOf(m, IdBytes(id), k - 1, SourcePieces(s)[k - 1]);
    }
  }

  // Runs

  datatype Event =
    | Arrive(id: uint32, k: nat)    // a fragment reaches HandleChunked, perhaps again
    | Reassemble(order: seq<uint32>)
    | Take(n: nat)                  // the application reads from Out
    | Offer(ms: seq<Msg>)           // messages that came whole are put on Out

  /** log lists the streams delivered, with what was delivered, oldest first. */
  datatype Sys = Sys(rx: Rx, log: seq<(uint32, Msg)>)

  const EMPTY := Sys(Rx(map[], map[], []), [])

  type Sources = ss: map<uint32, Source> | forall id | id in ss :: ProperSource(ss[id]) witness map[]

  ghost predicate Enabled(ss: Sources, sys: Sys, e: Event) {
    match e
    case Arrive(id, k) => id in ss && k <= |SourcePieces(ss[id])|
    case Reassemble(order) => forall id :: id in order <==> id in sys.rx.streams
    case Take(n) => n <= |sys.rx.out|
    case Offer(ms) => |sys.rx.out| + |ms| <= OUT_BUFFER_SIZE
  }

  /** None only if the receiver panics. */
  ghost function Step(ss: Sources, sys: Sys, e: Event): Option<Sys>
    requires Enabled(ss, sys, e)
  {
    match e
    case Arrive(id, k) =>
      var rx := HandleChunked(sys.rx, Fragment(ss[id], id, k));
      if rx.None? then None else Some(sys.(rx := rx.value))
    case Reassemble(order) =>
      var p := Pass(sys.rx, order);
      if p.PassBroken? then None else Some(Sys(p.rx, sys.log + p.done))
    case Take(n) => Some(sys.(rx := sys.rx.(out := sys.rx.out[n..])))
    case Offer(ms) => Some(sys.(rx := sys.rx.(out := sys.rx.out + ms)))
  }

  datatype Outcome = Ran(sys: Sys) | Disabled | Panicked

  ghost function Run(ss: Sources, sys: Sys, es: seq<Event>): Outcome {
    if es == [] then Ran(sys)
    else
      var before := Run(ss, sys, es[..|es| - 1]);
      var e := es[|es| - 1];
      if !before.Ran? then before
      else if !Enabled(ss, before.sys, e) then Disabled
      else
        var after := Step(ss, before.sys, e);
        if after.None? then Panicked else Ran(after.value)
  }
}
