/** Round trip with remainder, injectivity and the decoder's work bound. */
module CodecProofs {
  import opened Bytes
  import opened Varint
  import opened Codec

  /** The encoding fits in a Go slice, whose length is a signed 64-bit number. */
  ghost predicate Sendable(v: Value) {
    Proper(v) && |Encode(v)| < TWO_63
  }

  lemma Regroup(a: bytes, b: bytes, c: bytes)
    ensures (a + b) + c == a + (b + c)
  {}

  /** Length-prefixed values written one after the other are read back one by one, each taking its own bytes. */
  lemma {:induction false} LVsRoundTrip(vs: seq<bytes>, s: bytes)
    requires forall v | v in vs :: |v| < TWO_64
    ensures ReadLVs(|vs|, EncodeLVs(vs) + s) == Parsed(vs, s)
  {
    hide EncodeLV, ReadLV;
    if vs == [] {
      assert EncodeLVs(vs) + s == s;
    } else {
      var first, others := EncodeLV(vs[0]), EncodeLVs(vs[1..]);
      assert EncodeLVs(vs) == first + others;
      LVRoundTrip(vs[0], others + s);
      LVsRoundTrip(vs[1..], s);
      Regroup(first, others, s);
      assert [vs[0]] + vs[1..] == vs;
    }
  }

  lemma {:induction false} LVsLength(vs: seq<bytes>)
    ensures forall v | v in vs :: |v| <= |EncodeLVs(vs)|
  {
    if vs == [] {
    } else {
      LVsLength(vs[1..]);
      assert |EncodeLVs(vs)| == |EncodeLV(vs[0])| + |EncodeLVs(vs[1..])|;
      assert forall v | v in vs :: v == vs[0] || v in vs[1..];
    }
  }

  lemma RecordRoundTrip(r: Record, s: bytes)
    requires ProperRecord(r, r.kind) && |EncodeRecord(r)| < TWO_63
    ensures ReadRecord(r.kind, EncodeRecord(r) + s) == Parsed(r, s)
  {
    hide EncodeLVs, ReadLVs;
    var flag: bytes := if Flagged(r.kind) then [if r.enabled then 1 else 0] else [];
    LVsLength(r.fields);
    LVsRoundTrip(r.fields, flag + s);
    Regroup(EncodeLVs(r.fields), flag, s);
  }

  lemma {:induction false} RecordsRoundTrip(k: Kind, rs: seq<Record>, s: bytes)
    requires (forall r | r in rs :: ProperRecord(r, k)) && |EncodeRecords(rs)| < TWO_63
    ensures ReadRecords(k, |rs|, EncodeRecords(rs) + s) == Parsed(rs, s)
  {
    hide EncodeRecord, ReadRecord;
    if rs == [] {
      assert EncodeRecords(rs) + s == s;
    } else {
      assert rs[0] in rs && ProperRecord(rs[0], k);
      var first, others := EncodeRecord(rs[0]), EncodeRecords(rs[1..]);
      assert EncodeRecords(rs) == first + others;
      RecordRoundTrip(rs[0], others + s);
      RecordsRoundTrip(k, rs[1..], s);
      Regroup(first, others, s);
      assert [rs[0]] + rs[1..] == rs;
    }
  }

  lemma {:induction false} RecordsLength(rs: seq<Record>)
    requires forall r | r in rs :: ProperRecord(r, r.kind)
    ensures |rs| <= |EncodeRecords(rs)|
  {
    if rs == [] {
    } else {
      RecordsLength(rs[1..]);
      assert ProperRecord(rs[0], rs[0].kind);
      assert 1 <= |EncodeLVs(rs[0].fields)|;
    }
  }

  lemma Uint64RoundTrip(u: uint64, s: bytes)
    ensures ReadUint64(BigEndian(u, 8) + s) == Parsed(u, s)
  {
    Widths();
    BigEndianRoundTrip(u, 8);
    assert (BigEndian(u, 8) + s)[..8] == BigEndian(u, 8);
    assert (BigEndian(u, 8) + s)[8..] == s;
  }

  /** A counted body: the count, then what encode wrote for that many elements. */
  lemma CountRoundTrip(n: nat, body: bytes)
    requires n <= |body| < TWO_63
    ensures Uvarint(EncodeUvarint(n) + body) == Parsed(n, body)
  {
    UvarintRoundTrip(n, body);
  }

  lemma TLVRoundTrip(t: byte, body: bytes, v: Value, s: bytes)
    requires t !in {TYPE_NIL, TYPE_INT64, TYPE_UINT64} && |body| < TWO_63
    requires DecodeBody(t, body).Parsed? && DecodeBody(t, body).value == v
    ensures Decode(EncodeTLV(t, body) + s) == Parsed(v, s)
  {
    hide ReadLV, EncodeLV, DecodeBody, ReadInt64, ReadUint64;
    var w := EncodeTLV(t, body) + s;
    LVRoundTrip(body, s);
    assert w[1..] == EncodeLV(body) + s;
  }

  /** For every supported value, nested arrays included, and every suffix. */
  lemma {:induction false} RoundTrip(v: Value, s: bytes)
    requires Sendable(v)
    ensures Decode(Encode(v) + s) == Parsed(v, s)
    decreases v, 1
  {
    match v {
      case Nil => FixedRoundTrip(v, s);
      case Int64(_) => FixedRoundTrip(v, s);
      case Uint64(_) => FixedRoundTrip(v, s);
      case Str(t) => TLVRoundTrip(TYPE_STRING, t, v, s);
      case Blob(b) => TLVRoundTrip(TYPE_BYTES, b, v, s);
      case EccKey(k) => TLVRoundTrip(TYPE_PUBKEY_ECC, k, v, s);
      case RsaKey(k) => TLVRoundTrip(TYPE_PUBKEY_RSA, k, v, s);
      case One(r) => OneRoundTrip(r, s);
      case Many(k, rs) => ManyRoundTrip(k, rs, s);
      case Blobs(bs) => BlobsRoundTrip(bs, s);
      case Bundle(d, t) => BundleRoundTrip(d, t, s);
      case Array(vs) =>
        CountRoundTrip(|vs|, EncodeAll(vs));
        ManyValuesRoundTrip(vs, []);
        ArrayRoundTrip(vs, s);
    }
  }

  lemma FixedRoundTrip(v: Value, s: bytes)
    requires v.Nil? || v.Int64? || v.Uint64?
    ensures Decode(Encode(v) + s) == Parsed(v, s)
  {
    var payload := Encode(v)[1..];
    assert (Encode(v) + s)[1..] == payload + s;
    if !v.Nil? {
      Uint64RoundTrip(if v.Int64? then AsUnsigned(v.i) else v.u, s);
    }
  }

  lemma BlobsRoundTrip(bs: seq<bytes>, s: bytes)
    requires Sendable(Blobs(bs))
    ensures Decode(Encode(Blobs(bs)) + s) == Parsed(Blobs(bs), s)
  {
    hide DecodeBody, EncodeLVs, ReadLVs;
    CountRoundTrip(|bs|, EncodeLVs(bs));
    LVsLength(bs);
    LVsRoundTrip(bs, []);
    assert EncodeLVs(bs) + [] == EncodeLVs(bs);
    var body := EncodeUvarint(|bs|) + EncodeLVs(bs);
    BlobsBody(body, |bs|, EncodeLVs(bs), bs);
    TLVRoundTrip(TYPE_BYTES_BYTES, body, Blobs(bs), s);
  }

  lemma BlobsBody(body: bytes, n: nat, b: bytes, bs: seq<bytes>)
    requires Uvarint(body) == Parsed(n, b) && ReadLVs(n, b) == Parsed(bs, [])
    ensures DecodeBody(TYPE_BYTES_BYTES, body) == Parsed(Blobs(bs), [])
  {
    hide ReadRecords, ReadRecord, ReadLVs, ReadLV, ReadInt64, DecodeMany, Uvarint;
  }

  lemma ArrayRoundTrip(vs: seq<Value>, s: bytes)
    requires Sendable(Array(vs))
    requires Uvarint(EncodeUvarint(|vs|) + EncodeAll(vs)) == Parsed(|vs|, EncodeAll(vs))
    requires DecodeMany(|vs|, EncodeAll(vs) + []) == Parsed(vs, [])
    ensures Decode(Encode(Array(vs)) + s) == Parsed(Array(vs), s)
  {
    assert EncodeAll(vs) + [] == EncodeAll(vs);
    TLVRoundTrip(TYPE_INTERFACE_ARRAY, EncodeUvarint(|vs|) + EncodeAll(vs), Array(vs), s);
  }

  lemma BundleRoundTrip(d: bytes, t: int64, s: bytes)
    requires Sendable(Bundle(d, t))
    ensures Decode(Encode(Bundle(d, t)) + s) == Parsed(Bundle(d, t), s)
  {
    var time := BigEndian(AsUnsigned(t), 8);
    LVRoundTrip(d, time);
    Uint64RoundTrip(AsUnsigned(t), []);
    assert time + [] == time;
    BundleBody(EncodeLV(d) + time, d, time, t);
    hide DecodeBody;
    TLVRoundTrip(TYPE_BUNDLE, EncodeLV(d) + time, Bundle(d, t), s);
  }

  lemma ManyBody(k: Kind, body: bytes, n: nat, b: bytes, rs: seq<Record>)
    requires Uvarint(body) == Parsed(n, b) && ReadRecords(k, n, b) == Parsed(rs, [])
    ensures DecodeBody(ManyType(k), body) == Parsed(Many(k, rs), [])
  {
    hide ReadRecords, ReadRecord, ReadLVs, ReadLV, ReadInt64, DecodeMany, Uvarint;
    assert ManyKind(ManyType(k)) == Some(k) && OneKind(ManyType(k)).None?;
  }

  lemma BundleBody(body: bytes, d: bytes, b: bytes, t: int64)
    requires ReadLV(body) == Parsed(d, b) && ReadInt64(b) == Parsed(t, [])
    ensures DecodeBody(TYPE_BUNDLE, body) == Parsed(Bundle(d, t), [])
  {
    hide ReadRecords, ReadRecord, ReadLVs, ReadLV, ReadInt64, DecodeMany, Uvarint;
  }

  lemma OneRoundTrip(r: Record, s: bytes)
    requires Sendable(One(r))
    ensures Decode(Encode(One(r)) + s) == Parsed(One(r), s)
  {
    RecordRoundTrip(r, []);
    assert EncodeRecord(r) + [] == EncodeRecord(r);
    assert OneKind(OneType(r.kind)) == Some(r.kind);
    TLVRoundTrip(OneType(r.kind), EncodeRecord(r), One(r), s);
  }

  lemma ManyRoundTrip(k: Kind, rs: seq<Record>, s: bytes)
    requires Sendable(Many(k, rs))
    ensures Decode(Encode(Many(k, rs)) + s) == Parsed(Many(k, rs), s)
  {
    RecordsLength(rs);
    CountRoundTrip(|rs|, EncodeRecords(rs));
    RecordsRoundTrip(k, rs, []);
    assert EncodeRecords(rs) + [] == EncodeRecords(rs);
    var body := EncodeUvarint(|rs|) + EncodeRecords(rs);
    ManyBody(k, body, |rs|, EncodeRecords(rs), rs);
    TLVRoundTrip(ManyType(k), body, Many(k, rs), s);
  }

  lemma {:induction false} ManyValuesRoundTrip(vs: seq<Value>, s: bytes)
    requires (forall w | w in vs :: Proper(w)) && |EncodeAll(vs)| < TWO_63
    ensures DecodeMany(|vs|, EncodeAll(vs) + s) == Parsed(vs, s)
    decreases vs, 0
  {
    if vs == [] {
      assert EncodeAll(vs) + s == s;
    } else {
      var first, others := Encode(vs[0]), EncodeAll(vs[1..]);
      assert EncodeAll(vs) == first + others;
      RoundTrip(vs[0], others + s);
      ManyValuesRoundTrip(vs[1..], s);
      Regroup(first, others, s);
      assert [vs[0]] + vs[1..] == vs;
    }
  }

  /** Two streams that start with an encoding and agree start with the same value and go on alike. */
  lemma PrefixFree(v: Value, w: Value, s: bytes, t: bytes)
    requires Sendable(v) && Sendable(w)
    requires Encode(v) + s == Encode(w) + t
    ensures v == w && s == t
  {
    RoundTrip(v, s);
    RoundTrip(w, t);
  }

  // Work bound

  function Nodes(v: Value): (n: nat)
    ensures n >= 1
    decreases v, 1
  {
    match v
    case Blobs(bs) => 1 + |bs|
    case Many(_, rs) => 1 + |rs|
    case Array(vs) => 1 + NodesOfAll(vs)
    case _ => 1
  }

  function NodesOfAll(vs: seq<Value>): nat
    decreases vs, 0
  {
    if vs == [] then 0 else Nodes(vs[0]) + NodesOfAll(vs[1..])
  }

  /** Whatever counts the input claims, a decoded value has no more nodes than the bytes taken for it. */
  lemma {:induction false} DecodeWork(s: bytes)
    ensures var r := Decode(s);
      r.Parsed? ==> Proper(r.value) && Nodes(r.value) <= |s| - |r.rest|
    decreases |s|, 0
  {
    hide DecodeBody, ReadInt64, ReadUint64, ReadLV;
    if Decode(s).Failed? || s[0] in {TYPE_NIL, TYPE_INT64, TYPE_UINT64} {
    } else {
      BodyShorter(s[1..]);
      DecodeBodyWork(s[0], ReadLV(s[1..]).value);
    }
  }

  lemma {:induction false} DecodeBodyWork(t: byte, body: bytes)
    ensures var r := DecodeBody(t, body);
      r.Parsed? ==> Proper(r.value) && Nodes(r.value) <= |body| + 1
    decreases |body| + 1, 0
  {
    hide ReadRecords, ReadRecord, ReadLV, ReadInt64, Uvarint;
    if t == TYPE_INTERFACE_ARRAY {
      var count := Uvarint(body);
      if count.Parsed? {
        DecodeManyWork(count.value, count.rest);
      }
    } else if OneKind(t).None? && ManyKind(t).Some? {
      var count := Uvarint(body);
      if count.Parsed? {
        ReadRecordsProper(ManyKind(t).value, count.value, count.rest);
      }
    }
  }

  lemma {:induction false} DecodeManyWork(n: nat, s: bytes)
    ensures var r := DecodeMany(n, s);
      r.Parsed? ==> (forall w | w in r.value :: Proper(w)) && NodesOfAll(r.value) <= |s| - |r.rest|
    decreases |s|, 1, n
  {
    hide Decode;
    if n == 0 || !Decode(s).Parsed? {
    } else {
      var first := Decode(s);
      DecodeWork(s);
      DecodeManyWork(n - 1, first.rest);
      var others := DecodeMany(n - 1, first.rest);
      if others.Parsed? {
        assert ([first.value] + others.value)[1..] == others.value;
      }
    }
  }

  lemma {:induction false} ReadRecordsProper(k: Kind, n: nat, s: bytes)
    ensures var r := ReadRecords(k, n, s);
      r.Parsed? ==> forall q | q in r.value :: ProperRecord(q, k)
    decreases n
  {
    hide ReadRecord;
    if n == 0 || !ReadRecord(k, s).Parsed? {
    } else {
      ReadRecordsProper(k, n - 1, ReadRecord(k, s).rest);
    }
  }

  // What is on the wire

  /** The byte that stands for each kind of value. */
  lemma TypeBytes(v: Value)
    ensures Encode(v)[0] ==
      match v
      case Nil => 0x01
      case Int64(_) => 0x02
      case Uint64(_) => 0x03
      case Str(_) => 0x04
      case Blob(_) => 0x05
      case Blobs(_) => 0x06
      case Array(_) => 0x07
      case EccKey(_) => 0x10
      case RsaKey(_) => 0x11
      case Many(k, _) => if k.Contact? then 0x20 else if k.Channel? then 0x21 else if k.Profile? then 0x22 else 0x23
      case One(r) =>
        if r.kind.Contact? then 0x30 else if r.kind.Channel? then 0x31 else if r.kind.Profile? then 0x32 else 0x33
      case Bundle(_, _) => 0x40
  {
    hide EncodeLV, EncodeAll, EncodeLVs, EncodeRecord, EncodeRecords, BigEndian;
  }

  /** Integers stand in eight bytes, most significant first, negative ones in two's complement. */
  lemma IntegerBytes(u: uint64, j: int64, i: nat)
    requires i < 8
    ensures |Encode(Uint64(u))| == 9 && Encode(Uint64(u))[8 - i] as nat == Above(u, i) % 256
    ensures |Encode(Int64(j))| == 9
    ensures Encode(Int64(j))[8 - i] as nat == Above(if j < 0 then 0x1_0000_0000_0000_0000 + j else j, i) % 256
  {
    hide BigEndian, Above;
    BigEndianBytes(u, 8, i);
    BigEndianBytes(AsUnsigned(j), 8, i);
  }

  /** A value with any other type byte is refused. */
  lemma UnknownTypeRefused(s: bytes)
    requires s != []
    requires s[0] !in {0x01, 0x02, 0x03, 0x04, 0x05, 0x06, 0x07, 0x10, 0x11, 0x20, 0x21, 0x22, 0x23, 0x30, 0x31, 0x32,
                       0x33, 0x40}
    ensures Decode(s) == Failed(if ReadLV(s[1..]).Parsed? then UnknownType else ReadLV(s[1..]).error)
  {
    hide ReadLV;
  }

  /** A value cut off anywhere is refused, never read as a smaller one. */
  lemma CutRefused(v: Value, k: nat)
    requires Sendable(v) && k < |Encode(v)|
    ensures Decode(Encode(v)[..k]) == Failed(EndOfInput)
  {
    hide EncodeAll, EncodeLVs, EncodeRecord, EncodeRecords, DecodeBody, EncodeLV, ReadLV, Proper;
    var s := Encode(v);
    if k > 0 {
      assert s[..k][0] == s[0] && s[..k][1..] == s[1..][..k - 1];
      if v.Nil? || v.Int64? || v.Uint64? {
      } else {
        var body := BodyOf(v);
        CutTLV(s[0], body, k);
      }
    }
  }

  /** What stands behind the type byte and the length. */
  function BodyOf(v: Value): (body: bytes)
    requires !v.Nil? && !v.Int64? && !v.Uint64?
    ensures Encode(v) == [Encode(v)[0]] + EncodeLV(body)
    ensures Encode(v)[0] !in {TYPE_NIL, TYPE_INT64, TYPE_UINT64}
  {
    match v
    case Str(t) => t
    case Blob(b) => b
    case Blobs(bs) => EncodeUvarint(|bs|) + EncodeLVs(bs)
    case Array(vs) => EncodeUvarint(|vs|) + EncodeAll(vs)
    case EccKey(k) => k
    case RsaKey(k) => k
    case One(r) => EncodeRecord(r)
    case Many(k, rs) => EncodeUvarint(|rs|) + EncodeRecords(rs)
    case Bundle(d, t) => EncodeLV(d) + BigEndian(AsUnsigned(t), 8)
  }

  lemma CutTLV(t: byte, body: bytes, k: nat)
    requires t !in {TYPE_NIL, TYPE_INT64, TYPE_UINT64} && |[t] + EncodeLV(body)| < TWO_63
    requires 0 < k < |[t] + EncodeLV(body)|
    ensures Decode(([t] + EncodeLV(body))[..k]) == Failed(EndOfInput)
  {
    var s := ([t] + EncodeLV(body))[..k];
    assert |body| < TWO_64;
    assert s[0] == t && s[1..] == EncodeLV(body)[..k - 1];
    hide EncodeLV, ReadLV, DecodeBody;
    LVCut(body, k - 1);
  }

  /** An Enabled byte other than 1 reads as false. */
  lemma EnabledByte(k: Kind, fields: seq<bytes>, b: byte, s: bytes)
    requires Flagged(k) && |fields| == Arity(k) && forall f | f in fields :: |f| < TWO_64
    ensures ReadRecord(k, EncodeLVs(fields) + [b] + s) == Parsed(Record(k, fields, b == 1), s)
  {
    hide EncodeLVs, ReadLVs;
    LVsRoundTrip(fields, [b] + s);
    Regroup(EncodeLVs(fields), [b], s);
  }

  // Which errors

  lemma {:induction false} ReadLVsErrors(n: nat, s: bytes)
    ensures ReadLVs(n, s).Failed? ==> ReadLVs(n, s).error in {EndOfInput, VarintOverflow}
  {
    hide ReadLV;
    if n == 0 {
    } else {
      ReadLVErrors(s);
      if ReadLV(s).Parsed? { ReadLVsErrors(n - 1, ReadLV(s).rest); }
    }
  }

  lemma {:induction false} ReadUvarintErrors(s: bytes, i: nat)
    requires i <= MAX_VARINT_LEN
    ensures ReadUvarintFrom(s, i).Failed? ==> ReadUvarintFrom(s, i).error in {EndOfInput, VarintOverflow}
    decreases MAX_VARINT_LEN - i
  {
    if i == MAX_VARINT_LEN || s == [] || s[0] < 128 {
    } else {
      ReadUvarintErrors(s[1..], i + 1);
    }
  }

  lemma ReadLVErrors(s: bytes)
    ensures ReadLV(s).Failed? ==> ReadLV(s).error in {EndOfInput, VarintOverflow}
  {
    ReadUvarintErrors(s, 0);
  }

  lemma {:induction false} ReadRecordsErrors(k: Kind, n: nat, s: bytes)
    ensures ReadRecords(k, n, s).Failed? ==> !ReadRecords(k, n, s).error.WrongType?
  {
    hide ReadLVs;
    if n == 0 {
    } else {
      ReadLVsErrors(Arity(k), s);
      if ReadRecord(k, s).Parsed? { ReadRecordsErrors(k, n - 1, ReadRecord(k, s).rest); }
    }
  }

  /** Decoding never answers with the type assertion that its callers make on the value. */
  lemma {:induction false} DecodeErrors(s: bytes)
    ensures Decode(s).Failed? ==> !Decode(s).error.WrongType?
    decreases |s|, 0
  {
    if s == [] || s[0] in {TYPE_NIL, TYPE_INT64, TYPE_UINT64} {
    } else {
      ReadLVErrors(s[1..]);
      BodyShorter(s[1..]);
      hide ReadLV, DecodeBody;
      if ReadLV(s[1..]).Parsed? { DecodeBodyErrors(s[0], ReadLV(s[1..]).value); }
    }
  }

  lemma DecodeBodyErrors(t: byte, body: bytes)
    ensures DecodeBody(t, body).Failed? ==> !DecodeBody(t, body).error.WrongType?
    decreases |body| + 1, 0
  {
    var u := Uvarint(body);
    UvarintErrorIff(body);
    hide Uvarint, ReadUvarint, ReadLVs, ReadRecords, DecodeMany, ReadLV;
    if t == TYPE_BYTES_BYTES && u.Parsed? {
      ReadLVsErrors(u.value, u.rest);
    } else if t == TYPE_INTERFACE_ARRAY && u.Parsed? {
      DecodeManyErrors(u.value, u.rest);
    } else if OneKind(t).Some? {
      ReadLVsErrors(Arity(OneKind(t).value), body);
    } else if ManyKind(t).Some? && u.Parsed? {
      ReadRecordsErrors(ManyKind(t).value, u.value, u.rest);
    } else if t == TYPE_BUNDLE {
      ReadLVErrors(body);
    }
  }

  lemma DecodeManyErrors(n: nat, s: bytes)
    ensures DecodeMany(n, s).Failed? ==> !DecodeMany(n, s).error.WrongType?
    decreases |s|, 1, n
  {
    if n == 0 {
    } else {
      hide Decode;
      DecodeErrors(s);
      if Decode(s).Parsed? { DecodeManyErrors(n - 1, Decode(s).rest); }
    }
  }
}
