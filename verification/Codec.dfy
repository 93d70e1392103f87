/** The type/length/value wire format: what is written for a value and what is read back from bytes. */
module Codec {
  import opened Bytes
  import opened Varint

  const TYPE_NIL: byte := 0x01
  const TYPE_INT64: byte := 0x02
  const TYPE_UINT64: byte := 0x03
  const TYPE_STRING: byte := 0x04
  const TYPE_BYTES: byte := 0x05
  const TYPE_BYTES_BYTES: byte := 0x06
  const TYPE_INTERFACE_ARRAY: byte := 0x07
  const TYPE_PUBKEY_ECC: byte := 0x10
  const TYPE_PUBKEY_RSA: byte := 0x11
  const TYPE_CONTACT_ARRAY: byte := 0x20
  const TYPE_CHANNEL_ARRAY: byte := 0x21
  const TYPE_PROFILE_ARRAY: byte := 0x22
  const TYPE_PEER_ARRAY: byte := 0x23
  const TYPE_CONTACT: byte := 0x30
  const TYPE_CHANNEL: byte := 0x31
  const TYPE_PROFILE: byte := 0x32
  const TYPE_PEER: byte := 0x33
  const TYPE_BUNDLE: byte := 0x40

  datatype Kind = Contact | Channel | Profile | Peer

  /**
   * A Contact, Channel, Profile or Peer. Its text fields stand in wire order: name and public key for the
   * first three kinds, name, group and URI for a peer. Only profiles and peers have an Enabled flag.
   */
  datatype Record = Record(kind: Kind, fields: seq<bytes>, enabled: bool)

  function Arity(k: Kind): nat { if k.Peer? then 3 else 2 }

  predicate Flagged(k: Kind) { k.Profile? || k.Peer? }

  predicate ProperRecord(r: Record, k: Kind) {
    r.kind == k && |r.fields| == Arity(k) && (!Flagged(k) ==> !r.enabled)
  }

  /** The values serialize has a case for. */
  datatype Value =
    | Nil
    | Int64(i: int64)
    | Uint64(u: uint64)
    | Str(text: bytes)
    | Blob(blob: bytes)
    | Blobs(blobs: seq<bytes>)
    | Array(elements: seq<Value>)
    | EccKey(key: bytes)
    | RsaKey(key: bytes)
    | One(record: Record)
    | Many(kind: Kind, records: seq<Record>)
    | Bundle(data: bytes, time: int64)

  predicate Proper(v: Value) {
    match v
    case One(r) => ProperRecord(r, r.kind)
    case Many(k, rs) => forall r | r in rs :: ProperRecord(r, k)
    case Array(vs) => forall w | w in vs :: Proper(w)
    case _ => true
  }

  function OneType(k: Kind): byte {
    match k
    case Contact => TYPE_CONTACT
    case Channel => TYPE_CHANNEL
    case Profile => TYPE_PROFILE
    case Peer => TYPE_PEER
  }

  function ManyType(k: Kind): byte {
    match k
    case Contact => TYPE_CONTACT_ARRAY
    case Channel => TYPE_CHANNEL_ARRAY
    case Profile => TYPE_PROFILE_ARRAY
    case Peer => TYPE_PEER_ARRAY
  }

  // Writing

  function EncodeTLV(t: byte, body: bytes): bytes {
    [t] + EncodeLV(body)
  }

  function EncodeLVs(vs: seq<bytes>): (s: bytes)
    ensures |vs| <= |s|
  {
    if vs == [] then [] else EncodeLV(vs[0]) + EncodeLVs(vs[1..])
  }

  function EncodeRecord(r: Record): bytes {
    EncodeLVs(r.fields) + if Flagged(r.kind) then [if r.enabled then 1 else 0] else []
  }

  function EncodeRecords(rs: seq<Record>): bytes {
    if rs == [] then [] else EncodeRecord(rs[0]) + EncodeRecords(rs[1..])
  }

  function Encode(v: Value): (s: bytes)
    ensures 1 <= |s|
    decreases v, 1
  {
    match v
    case Nil => [TYPE_NIL]
    case Int64(i) => [TYPE_INT64] + BigEndian(AsUnsigned(i), 8)
    case Uint64(u) => [TYPE_UINT64] + BigEndian(u, 8)
    case Str(t) => EncodeTLV(TYPE_STRING, t)
    case Blob(b) => EncodeTLV(TYPE_BYTES, b)
    case Blobs(bs) => EncodeTLV(TYPE_BYTES_BYTES, EncodeUvarint(|bs|) + EncodeLVs(bs))
    case Array(vs) => EncodeTLV(TYPE_INTERFACE_ARRAY, EncodeUvarint(|vs|) + EncodeAll(vs))
    case EccKey(k) => EncodeTLV(TYPE_PUBKEY_ECC, k)
    case RsaKey(k) => EncodeTLV(TYPE_PUBKEY_RSA, k)
    case One(r) => EncodeTLV(OneType(r.kind), EncodeRecord(r))
    case Many(k, rs) => EncodeTLV(ManyType(k), EncodeUvarint(|rs|) + EncodeRecords(rs))
    case Bundle(d, t) => EncodeTLV(TYPE_BUNDLE, EncodeLV(d) + BigEndian(AsUnsigned(t), 8))
  }

  function EncodeAll(vs: seq<Value>): (s: bytes)
    ensures |vs| <= |s|
    decreases vs, 0
  {
    if vs == [] then [] else Encode(vs[0]) + EncodeAll(vs[1..])
  }

  // Reading

  function ReadUint64(s: bytes): (r: Parsed<uint64>)
    ensures Takes(r, s, 8)
  {
    if |s| < 8 then Failed(EndOfInput)
    else
      Widths();
      BigEndianInverse(s[..8]);
      Parsed(FromBigEndian(s[..8]), s[8..])
  }

  function ReadInt64(s: bytes): (r: Parsed<int64>)
    ensures Takes(r, s, 8)
  {
    var (u, rest) :- ReadUint64(s);
    Parsed(AsSigned(u), rest)
  }

  function ReadLVs(n: nat, s: bytes): (r: Parsed<seq<bytes>>)
    ensures Takes(r, s, n)
    ensures r.Parsed? ==> |r.value| == n
  {
    if n == 0 then Parsed([], s)
    else
      var (v, rest) :- ReadLV(s);
      var (vs, rest') :- ReadLVs(n - 1, rest);
      Parsed([v] + vs, rest')
  }

  function ReadRecord(k: Kind, s: bytes): (r: Parsed<Record>)
    ensures Takes(r, s, 2)
    ensures r.Parsed? ==> ProperRecord(r.value, k)
  {
    var (fields, rest) :- ReadLVs(Arity(k), s);
    if !Flagged(k) then Parsed(Record(k, fields, false), rest)
    else if rest == [] then Failed(EndOfInput)
    else Parsed(Record(k, fields, rest[0] == 1), rest[1..])
  }

  function ReadRecords(k: Kind, n: nat, s: bytes): (r: Parsed<seq<Record>>)
    ensures Takes(r, s, n)
    ensures r.Parsed? ==> |r.value| == n
    decreases n
  {
    if n == 0 then Parsed([], s)
    else
      var (v, rest) :- ReadRecord(k, s);
      var (vs, rest') :- ReadRecords(k, n - 1, rest);
      Parsed([v] + vs, rest')
  }

  function OneKind(t: byte): Option<Kind> {
    if t == TYPE_CONTACT then Some(Contact)
    else if t == TYPE_CHANNEL then Some(Channel)
    else if t == TYPE_PROFILE then Some(Profile)
    else if t == TYPE_PEER then Some(Peer)
    else None
  }

  function ManyKind(t: byte): Option<Kind> {
    if t == TYPE_CONTACT_ARRAY then Some(Contact)
    else if t == TYPE_CHANNEL_ARRAY then Some(Channel)
    else if t == TYPE_PROFILE_ARRAY then Some(Profile)
    else if t == TYPE_PEER_ARRAY then Some(Peer)
    else None
  }

  /** One value from the front of s. */
  function Decode(s: bytes): (r: Parsed<Value>)
    ensures Takes(r, s, 1)
    decreases |s|, 0
  {
    if s == [] then Failed(EndOfInput)
    else if s[0] == TYPE_NIL then Parsed(Nil, s[1..])
    else if s[0] == TYPE_INT64 then
      var (i, rest) :- ReadInt64(s[1..]);
      Parsed(Int64(i), rest)
    else if s[0] == TYPE_UINT64 then
      var (u, rest) :- ReadUint64(s[1..]);
      Parsed(Uint64(u), rest)
    else
      var (body, rest) :- ReadLV(s[1..]);
      assert |body| + 2 <= |s| by { BodyShorter(s[1..]); }
      var (v, _) :- DecodeBody(s[0], body);
      Parsed(v, rest)
  }

  lemma BodyShorter(s: bytes)
    ensures var r := ReadLV(s); r.Parsed? ==> |r.value| + |r.rest| + 1 <= |s|
  {}

  /** A value with a length, from its type byte and its body; bytes of the body left over are ignored. */
  function DecodeBody(t: byte, body: bytes): Parsed<Value>
    decreases |body| + 1, 0
  {
    if t == TYPE_STRING then Parsed(Str(body), [])
    else if t == TYPE_BYTES then Parsed(Blob(body), [])
    else if t == TYPE_BYTES_BYTES then
      var (n, b) :- Uvarint(body);
      var (bs, rest) :- ReadLVs(n, b);
      Parsed(Blobs(bs), rest)
    else if t == TYPE_INTERFACE_ARRAY then
      var (n, b) :- Uvarint(body);
      var (vs, rest) :- DecodeMany(n, b);
      Parsed(Array(vs), rest)
    else if t == TYPE_PUBKEY_ECC then Parsed(EccKey(body), [])
    else if t == TYPE_PUBKEY_RSA then Parsed(RsaKey(body), [])
    else if OneKind(t).Some? then
      var (r, rest) :- ReadRecord(OneKind(t).value, body);
      Parsed(One(r), rest)
    else if ManyKind(t).Some? then
      var k := ManyKind(t).value;
      var (n, b) :- Uvarint(body);
      var (rs, rest) :- ReadRecords(k, n, b);
      Parsed(Many(k, rs), rest)
    else if t == TYPE_BUNDLE then
      var (d, b) :- ReadLV(body);
      var (time, rest) :- ReadInt64(b);
      Parsed(Bundle(d, time), rest)
    else Failed(UnknownType)
  }

  /** n values in a row. */
  function DecodeMany(n: nat, s: bytes): (r: Parsed<seq<Value>>)
    ensures Takes(r, s, n)
    ensures r.Parsed? ==> |r.value| == n
    decreases |s|, 1, n
  {
    if n == 0 then Parsed([], s)
    else
      var (v, rest) :- Decode(s);
      var (vs, rest') :- DecodeMany(n - 1, rest);
      Parsed([v] + vs, rest')
  }
}
