/** Splitting a message into a header and numbered chunks, and the chunk size that transports allow. */
module Chunking {
  import opened Bytes
  import opened Envelope

  const MAX_CHUNK := 65536
  const OVERHEAD := 132
  const CHUNK_HEADER := 8

  /** The smallest transport limit, each truncated to uint32, and never more than 64 KiB. */
  function MinLimit(limits: seq<int64>): (m: uint32)
    ensures m <= MAX_CHUNK && forall i | 0 <= i < |limits| :: m <= Low32(limits[i])
    ensures m == MAX_CHUNK || exists i :: 0 <= i < |limits| && m == Low32(limits[i])
  {
    if limits == [] then MAX_CHUNK
    else
      var n := |limits| - 1;
      var m := MinLimit(limits[..n]);
      assert forall i | 0 <= i < n :: limits[..n][i] == limits[i];
      if Low32(limits[n]) < m then Low32(limits[n]) else m
  }

  /** uint32 arithmetic: limits below the overhead wrap around. */
  function ChunkSizeOf(limits: seq<int64>): uint32 {
    Low32(MinLimit(limits) - OVERHEAD)
  }

  method ChunkSize(limits: seq<int64>) returns (size: uint32)
    ensures size == ChunkSizeOf(limits)
  {
    var chunksize: uint32 := MAX_CHUNK;
    for i := 0 to |limits|
      invariant chunksize == MinLimit(limits[..i])
    {
      assert limits[..i + 1][..i] == limits[..i];
      hide Low32;
      var limit := Low32(limits[i]);
      if limit < chunksize {
        chunksize := limit;
      }
    }
    assert limits[..|limits|] == limits;
    size := Low32(chunksize - OVERHEAD);
  }

  /** buf cut into runs of c bytes, the last one possibly shorter. */
  function Pieces(buf: bytes, c: nat): (ps: seq<bytes>)
    requires c > 0
    ensures |ps| <= |buf|
  {
    if buf == [] then []
    else if |buf| <= c then [buf]
    else [buf[..c]] + Pieces(buf[c..], c)
  }

  lemma {:induction false} PieceSizes(buf: bytes, c: nat)
    requires c > 0
    ensures forall i | 0 <= i < |Pieces(buf, c)| :: 0 < |Pieces(buf, c)[i]| <= c
    decreases |buf|
  {
    if |buf| <= c {
    } else {
      PieceSizes(buf[c..], c);
      assert Pieces(buf, c) == [buf[..c]] + Pieces(buf[c..], c);
    }
  }

  function Join(ps: seq<bytes>): bytes {
    if ps == [] then [] else ps[0] + Join(ps[1..])
  }

  lemma JoinFirst(p: bytes, ps: seq<bytes>)
    ensures Join([p] + ps) == p + Join(ps)
  {
    assert ([p] + ps)[1..] == ps;
  }

  lemma JoinNone()
    ensures Join([]) == []
  {}

  lemma JoinOne(p: bytes)
    ensures Join([p]) == p
  {
    JoinFirst(p, []);
    assert [p] + [] == [p] && p + [] == p;
  }

  lemma PiecesUnfold(buf: bytes, c: nat)
    requires c > 0
    ensures buf == [] ==> Pieces(buf, c) == []
    ensures 0 < |buf| <= c ==> Pieces(buf, c) == [buf]
    ensures |buf| > c ==> Pieces(buf, c) == [buf[..c]] + Pieces(buf[c..], c)
  {}

  lemma {:induction false} PiecesPartition(buf: bytes, c: nat)
    requires c > 0
    ensures Join(Pieces(buf, c)) == buf
    decreases |buf|
  {
    hide Join, Pieces;
    PiecesUnfold(buf, c);
    if buf == [] {
      JoinNone();
    } else if |buf| <= c {
      JoinOne(buf);
    } else {
      var first, rest := buf[..c], buf[c..];
      PiecesPartition(rest, c);
      JoinFirst(first, Pieces(rest, c));
      assert first + rest == buf;
    }
  }

  function Whole(len: nat, c: nat): nat
    requires c > 0
  {
    len / c
  }

  function Remainder(len: nat, c: nat): nat
    requires c > 0
  {
    len % c
  }

  function PieceCount(len: nat, c: nat): nat
    requires c > 0
  {
    Whole(len, c) + if Remainder(len, c) != 0 then 1 else 0
  }

  lemma DivideLess(n: nat, c: nat)
    requires 0 < c <= n
    ensures (n - c) / c == n / c - 1 && (n - c) % c == n % c
  {
    var q, r := n / c, n % c;
    assert c * (q - 1) == c * q - c;
    DivideUnique(n - c, c, q - 1, r);
  }

  lemma DivideSmall(n: nat, c: nat)
    requires n < c
    ensures n / c == 0 && n % c == n
  {
    DivideUnique(n, c, 0, n);
  }

  /** The number of pieces is the length over c, rounded up. */
  lemma {:induction false} PiecesCount(buf: bytes, c: nat)
    requires c > 0
    ensures |Pieces(buf, c)| == PieceCount(|buf|, c)
    decreases |buf|
  {
    if |buf| >= c {
      DivideLess(|buf|, c);
      if |buf| > c {
        PiecesCount(buf[c..], c);
      } else {
        DivideSmall(0, c);
      }
    } else {
      DivideSmall(|buf|, c);
    }
  }

  /** Offsets of whole chunks stay inside the buffer, so they do not overflow either. */
  lemma OffsetBound(len: nat, c: nat, i: nat)
    requires c > 0 && i <= len / c
    ensures i * c <= len
  {
    assert c * (len / c) <= len;
    assert c * (len / c - i) >= 0;
  }

  /** i * c, by adding up. */
  ghost function Offset(i: nat, c: nat): nat {
    if i == 0 then 0 else Offset(i - 1, c) + c
  }

  lemma {:induction false} OffsetIsProduct(i: nat, c: nat)
    ensures Offset(i, c) == i * c
  {
    if i == 0 {
    } else {
      OffsetIsProduct(i - 1, c);
      assert i * c == (i - 1) * c + c;
    }
  }

  lemma {:induction false} PiecesFromOffset(buf: bytes, c: nat, i: nat)
    requires c > 0 && Offset(i, c) <= |buf|
    ensures i <= |Pieces(buf, c)|
    ensures Pieces(buf, c)[i..] == Pieces(buf[Offset(i, c)..], c)
    decreases i
  {
    hide Pieces;
    if i == 0 {
      assert buf[0..] == buf;
    } else {
      var rest, before := buf[c..], Offset(i - 1, c);
      PiecesFromOffset(rest, c, i - 1);
      assert rest[before..] == buf[before + c..];
      PiecesUnfold(buf, c);
      PiecesUnfold(rest, c);
      if |buf| > c {
        assert ([buf[..c]] + Pieces(rest, c))[i..] == Pieces(rest, c)[i - 1..];
      }
    }
  }

  /** The pieces from number i on are those of what is left at the offset i * c of the sending loop. */
  lemma PiecesFrom(buf: bytes, c: nat, i: nat)
    requires c > 0 && i * c <= |buf|
    ensures i <= |Pieces(buf, c)|
    ensures Pieces(buf, c)[i..] == Pieces(buf[i * c..], c)
  {
    OffsetIsProduct(i, c);
    PiecesFromOffset(buf, c, i);
  }

  function HeaderOf(m: Msg, id: bytes, count: nat): Msg {
    m.(content := id + LittleEndian(count, 4), chunked := true, streamHeader := true)
  }

  function ChunkOf(m: Msg, id: bytes, num: nat, piece: bytes): Msg {
    m.(content := id + LittleEndian(num, 4) + piece, chunked := true, streamHeader := false)
  }

  function ChunksFrom(m: Msg, id: bytes, num: nat, ps: seq<bytes>): (r: seq<Msg>)
    ensures |r| == |ps| && forall i | 0 <= i < |ps| :: r[i] == ChunkOf(m, id, num + i, ps[i])
  {
    seq(|ps|, i requires 0 <= i < |ps| => ChunkOf(m, id, num + i, ps[i]))
  }

  /** What SendChunked sends for a message: nothing if it is empty, else a stream header and its chunks. */
  function Fragments(m: Msg, id: bytes, c: nat): seq<Msg>
    requires c > 0
  {
    if m.content == [] then []
    else
      var ps := Pieces(m.content, c);
      [HeaderOf(m, id, |ps|)] + ChunksFrom(m, id, 0, ps)
  }

  lemma FragmentsCount(m: Msg, id: bytes, c: nat)
    requires c > 0 && m.content != []
    ensures |Fragments(m, id, c)| == 1 + PieceCount(|m.content|, c)
  {
    PiecesCount(m.content, c);
  }

  /** No fragment is larger than the chunk size it was cut for. */
  lemma FragmentsFit(m: Msg, id: bytes, chunkSize: nat)
    requires chunkSize > CHUNK_HEADER && |id| == 4
    ensures forall f | f in Fragments(m, id, chunkSize - CHUNK_HEADER) ::
              f.chunked && 0 < |f.content| <= chunkSize && f.name == m.name && f.isChan == m.isChan
  {
    PieceSizes(m.content, chunkSize - CHUNK_HEADER);
    hide Pieces;
    var c := chunkSize - CHUNK_HEADER;
    var ps := Pieces(m.content, c);
    var fs := ChunksFrom(m, id, 0, ps);
    forall i | 0 <= i < |fs| ensures 0 < |fs[i].content| <= chunkSize {
      assert fs[i] == ChunkOf(m, id, i, ps[i]);
    }
  }

  lemma {:induction false} FullPieces(buf: bytes, c: nat, i: nat)
    requires c > 0 && i < |Pieces(buf, c)|
    ensures i < |Pieces(buf, c)| - 1 ==> |Pieces(buf, c)[i]| == c
    decreases i
  {
    if |buf| <= c || i == 0 {
    } else {
      assert Pieces(buf, c)[i] == Pieces(buf[c..], c)[i - 1];
      FullPieces(buf[c..], c, i - 1);
    }
  }

  /** A header is eight bytes, and every chunk but the last is filled up to the chunk size, eight bytes of it taken. */
  lemma FragmentsFill(m: Msg, id: bytes, chunkSize: nat, k: nat)
    requires chunkSize > CHUNK_HEADER && |id| == 4 && k < |Fragments(m, id, chunkSize - CHUNK_HEADER)|
    ensures var fs := Fragments(m, id, chunkSize - CHUNK_HEADER);
      && |fs[0].content| == 8
      && (0 < k < |fs| - 1 ==> |fs[k].content| == chunkSize)
      && (k > 0 ==> |fs[k].content| == 8 + |Pieces(m.content, chunkSize - 8)[k - 1]|)
  {
    var c := chunkSize - CHUNK_HEADER;
    if k > 0 { FullPieces(m.content, c, k - 1); }
    hide Pieces;
  }

  /** The allowed size is the least of 64 KiB and the transports' limits, less 132 bytes, in uint32 arithmetic. */
  lemma ChunkSizeIs(limits: seq<int64>)
    ensures limits == [] ==> MinLimit(limits) == 65536
    ensures MinLimit(limits) <= 65536
    ensures ChunkSizeOf(limits)
            == if MinLimit(limits) >= 132 then MinLimit(limits) - 132 else MinLimit(limits) + 4294967164
  {
    var m := MinLimit(limits);
    hide MinLimit;
    Wraps(m);
  }

  lemma Wraps(m: nat)
    requires m <= 65536
    ensures Low32(m - 132) == if m >= 132 then m - 132 else m + 4294967164
  {}
}
