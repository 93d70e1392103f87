/** The serializer, the parser and the framing as they run: over a growing buffer and an advancing reader. */
module Wire {
  import opened Bytes
  import opened Varint
  import opened Codec

  datatype Result<+T> = Success(value: T) | Failure(error: DecodeError) {
    predicate IsFailure() { Failure? }

    function PropagateFailure<U>(): Result<U>
      requires Failure?
    {
      Failure(error)
    }

    function Extract(): T
      requires Success?
    {
      value
    }
  }

  /** A method's result and what its reader has left, against the parser that specifies it. */
  ghost predicate Agrees<T>(r: Result<T>, p: Parsed<T>, unread: bytes) {
    match r
    case Success(v) => p == Parsed(v, unread)
    case Failure(e) => p == Failed(e)
  }

  /** What is parsed in all when xs came first and p parses the others. */
  ghost function Prepend<T>(xs: seq<T>, p: Parsed<seq<T>>): Parsed<seq<T>> {
    if p.Failed? then p else Parsed(xs + p.value, p.rest)
  }

  lemma PrependNothing<T>(p: Parsed<seq<T>>)
    ensures Prepend([], p) == p
  {
    if p.Parsed? { assert [] + p.value == p.value; }
  }

  lemma PrependOne<T>(xs: seq<T>, x: T, p: Parsed<seq<T>>)
    ensures Prepend(xs, Prepend([x], p)) == Prepend(xs + [x], p)
  {
    if p.Parsed? { assert xs + ([x] + p.value) == xs + [x] + p.value; }
  }

  lemma PrependAll<T>(xs: seq<T>, rest: bytes)
    ensures Prepend(xs, Parsed([], rest)) == Parsed(xs, rest)
  {
    assert xs + [] == xs;
  }

  /** The write side of a bytes.Buffer. */
  class ByteBuffer {
    var data: bytes

    constructor (initial: bytes)
      ensures data == initial
    {
      data := initial;
    }

    method Write(s: bytes)
      modifies this
      ensures data == old(data) + s
    {
      data := data + s;
    }
  }

  lemma {:induction false} UvarintLeavesSuffix(s: bytes, i: nat)
    requires i <= MAX_VARINT_LEN
    ensures var r := ReadUvarintFrom(s, i); r.Parsed? ==> r.rest == s[|s| - |r.rest|..]
    decreases MAX_VARINT_LEN - i
  {
    if i == MAX_VARINT_LEN || s == [] || s[0] < 128 {
    } else {
      UvarintLeavesSuffix(s[1..], i + 1);
    }
  }

  /** A bytes.Reader: a fixed input and a read position that never passes its end. */
  class ByteReader {
    const input: bytes
    var pos: nat

    ghost predicate Valid()
      reads this
    {
      pos <= |input|
    }

    ghost function Unread(): (s: bytes)
      requires Valid()
      reads this
    {
      input[pos..]
    }

    constructor (input: bytes)
      ensures Valid() && this.input == input && Unread() == input
    {
      this.input := input;
      pos := 0;
    }

    method ReadByte() returns (r: Result<byte>)
      requires Valid()
      modifies this
      ensures Valid()
      ensures r == if old(Unread()) == [] then Failure(EndOfInput) else Success(old(Unread())[0])
      ensures r.Success? ==> Unread() == old(Unread())[1..]
    {
      if pos == |input| {
        assert Unread() == [];
        return Failure(EndOfInput);
      }
      r := Success(input[pos]);
      pos := pos + 1;
    }

    /** io.ReadFull for n bytes. */
    method ReadFull(n: nat) returns (r: Result<bytes>)
      requires Valid()
      modifies this
      ensures Valid()
      ensures r == if n > |old(Unread())| then Failure(EndOfInput) else Success(old(Unread())[..n])
      ensures r.Success? ==> Unread() == old(Unread())[n..]
    {
      if n > |input| - pos {
        pos := |input|;
        return Failure(EndOfInput);
      }
      assert input[pos..][..n] == input[pos..pos + n] && input[pos..][n..] == input[pos + n..];
      r := Success(input[pos..pos + n]);
      pos := pos + n;
    }

    /** binary.ReadUvarint. */
    method ReadNumber() returns (r: Result<nat>)
      requires Valid()
      modifies this
      ensures Valid() && Agrees(r, ReadUvarint(old(Unread())), Unread())
    {
      var p := ReadUvarint(input[pos..]);
      UvarintLeavesSuffix(input[pos..], 0);
      if p.Failed? {
        return Failure(p.error);
      }
      r := Success(p.value);
      pos := |input| - |p.rest|;
    }
  }

  method WriteLV(w: ByteBuffer, value: bytes)
    modifies w
    ensures w.data == old(w.data) + EncodeLV(value)
  {
    w.Write(EncodeUvarint(|value|));
    w.Write(value);
  }

  method WriteTLV(w: ByteBuffer, t: byte, value: bytes)
    requires t != TYPE_NIL
    modifies w
    ensures w.data == old(w.data) + EncodeTLV(t, value)
  {
    w.Write([t]);
    WriteLV(w, value);
  }

  lemma Append(a: bytes, b: bytes, c: bytes)
    ensures (a + b) + c == a + (b + c) && a + [] == a
  {}

  method WriteLVs(w: ByteBuffer, vs: seq<bytes>)
    modifies w
    ensures w.data == old(w.data) + EncodeLVs(vs)
  {
    hide EncodeLV;
    for i := 0 to |vs|
      invariant w.data + EncodeLVs(vs[i..]) == old(w.data) + EncodeLVs(vs)
    {
      Append(w.data, EncodeLV(vs[i]), EncodeLVs(vs[i + 1..]));
      assert vs[i..][1..] == vs[i + 1..];
      WriteLV(w, vs[i]);
    }
    Append(w.data, [], []);
  }

  method WriteRecord(w: ByteBuffer, r: Record)
    modifies w
    ensures w.data == old(w.data) + EncodeRecord(r)
  {
    hide EncodeLVs;
    WriteLVs(w, r.fields);
    if Flagged(r.kind) {
      w.Write([if r.enabled then 1 else 0]);
    }
  }

  method WriteRecords(w: ByteBuffer, rs: seq<Record>)
    modifies w
    ensures w.data == old(w.data) + EncodeRecords(rs)
  {
    hide EncodeRecord;
    for i := 0 to |rs|
      invariant w.data + EncodeRecords(rs[i..]) == old(w.data) + EncodeRecords(rs)
    {
      Append(w.data, EncodeRecord(rs[i]), EncodeRecords(rs[i + 1..]));
      assert rs[i..][1..] == rs[i + 1..];
      WriteRecord(w, rs[i]);
    }
    Append(w.data, [], []);
  }

  method SerializeAll(w: ByteBuffer, vs: seq<Value>)
    modifies w
    ensures w.data == old(w.data) + EncodeAll(vs)
    decreases vs, 0
  {
    hide Encode;
    for i := 0 to |vs|
      invariant w.data + EncodeAll(vs[i..]) == old(w.data) + EncodeAll(vs)
    {
      Append(w.data, Encode(vs[i]), EncodeAll(vs[i + 1..]));
      assert vs[i..][1..] == vs[i + 1..];
      Serialize(w, vs[i]);
    }
    Append(w.data, [], []);
  }

  /** Appends the encoding of v to w; counted bodies and records go through a buffer of their own. */
  method Serialize(w: ByteBuffer, v: Value)
    modifies w
    ensures w.data == old(w.data) + Encode(v)
    decreases v, 1
  {
    hide EncodeTLV, EncodeLV, EncodeLVs, EncodeRecord, EncodeRecords, EncodeAll;
    match v {
      case Nil => w.Write([TYPE_NIL]);
      case Int64(i) => w.Write([TYPE_INT64] + BigEndian(AsUnsigned(i), 8));
      case Uint64(u) => w.Write([TYPE_UINT64] + BigEndian(u, 8));
      case Str(t) => WriteTLV(w, TYPE_STRING, t);
      case Blob(s) => WriteTLV(w, TYPE_BYTES, s);
      case EccKey(k) => WriteTLV(w, TYPE_PUBKEY_ECC, k);
      case RsaKey(k) => WriteTLV(w, TYPE_PUBKEY_RSA, k);
      case Blobs(bs) =>
        var b := new ByteBuffer(EncodeUvarint(|bs|));
        WriteLVs(b, bs);
        WriteTLV(w, TYPE_BYTES_BYTES, b.data);
      case Array(vs) =>
        var b := new ByteBuffer(EncodeUvarint(|vs|));
        SerializeAll(b, vs);
        WriteTLV(w, TYPE_INTERFACE_ARRAY, b.data);
      case One(r) =>
        var b := new ByteBuffer([]);
        WriteRecord(b, r);
        assert b.data == EncodeRecord(r);
        WriteTLV(w, OneType(r.kind), b.data);
      case Many(k, rs) =>
        var b := new ByteBuffer(EncodeUvarint(|rs|));
        WriteRecords(b, rs);
        WriteTLV(w, ManyType(k), b.data);
      case Bundle(d, t) =>
        var b := new ByteBuffer([]);
        WriteLV(b, d);
        b.Write(BigEndian(AsUnsigned(t), 8));
        assert b.data == EncodeLV(d) + BigEndian(AsUnsigned(t), 8);
        WriteTLV(w, TYPE_BUNDLE, b.data);
    }
  }

  method ReadValue(r: ByteReader) returns (res: Result<bytes>)
    requires r.Valid()
    modifies r
    ensures r.Valid() && Agrees(res, ReadLV(old(r.Unread())), r.Unread())
  {
    var n :- r.ReadNumber();
    if n == 0 {
      return Success([]);
    }
    res := r.ReadFull(n);
  }

  method ReadEight(r: ByteReader) returns (res: Result<uint64>)
    requires r.Valid()
    modifies r
    ensures r.Valid() && Agrees(res, ReadUint64(old(r.Unread())), r.Unread())
  {
    var s :- r.ReadFull(8);
    Widths();
    BigEndianInverse(s);
    res := Success(FromBigEndian(s));
  }

  method ReadBlobs(n: nat, r: ByteReader) returns (res: Result<seq<bytes>>)
    requires r.Valid()
    modifies r
    ensures r.Valid() && Agrees(res, ReadLVs(n, old(r.Unread())), r.Unread())
  {
    hide ReadLV;
    var bs := [];
    PrependNothing(ReadLVs(n, r.Unread()));
    for i := 0 to n
      invariant r.Valid()
      invariant ReadLVs(n, old(r.Unread())) == Prepend(bs, ReadLVs(n - i, r.Unread()))
    {
      var b :- ReadValue(r);
      PrependOne(bs, b, ReadLVs(n - i - 1, r.Unread()));
      bs := bs + [b];
    }
    PrependAll(bs, r.Unread());
    return Success(bs);
  }

  method ReadOneRecord(k: Kind, r: ByteReader) returns (res: Result<Record>)
    requires r.Valid()
    modifies r
    ensures r.Valid() && Agrees(res, ReadRecord(k, old(r.Unread())), r.Unread())
  {
    hide ReadLVs;
    var fields :- ReadBlobs(Arity(k), r);
    if !Flagged(k) {
      return Success(Record(k, fields, false));
    }
    var b :- r.ReadByte();
    return Success(Record(k, fields, b == 1));
  }

  method ReadManyRecords(k: Kind, n: nat, r: ByteReader) returns (res: Result<seq<Record>>)
    requires r.Valid()
    modifies r
    ensures r.Valid() && Agrees(res, ReadRecords(k, n, old(r.Unread())), r.Unread())
  {
    hide ReadRecord;
    var rs := [];
    PrependNothing(ReadRecords(k, n, r.Unread()));
    for i := 0 to n
      invariant r.Valid()
      invariant ReadRecords(k, n, old(r.Unread())) == Prepend(rs, ReadRecords(k, n - i, r.Unread()))
    {
      var q :- ReadOneRecord(k, r);
      PrependOne(rs, q, ReadRecords(k, n - i - 1, r.Unread()));
      rs := rs + [q];
    }
    PrependAll(rs, r.Unread());
    return Success(rs);
  }

  method ReadArray(n: nat, r: ByteReader) returns (res: Result<seq<Value>>)
    requires r.Valid()
    modifies r
    ensures r.Valid() && Agrees(res, DecodeMany(n, old(r.Unread())), r.Unread())
    decreases |r.Unread()|, 1
  {
    hide Decode;
    var vs := [];
    PrependNothing(DecodeMany(n, r.Unread()));
    for i := 0 to n
      invariant r.Valid() && |r.Unread()| <= |old(r.Unread())|
      invariant DecodeMany(n, old(r.Unread())) == Prepend(vs, DecodeMany(n - i, r.Unread()))
    {
      var v :- Deserialize(r);
      PrependOne(vs, v, DecodeMany(n - i - 1, r.Unread()));
      vs := vs + [v];
    }
    PrependAll(vs, r.Unread());
    return Success(vs);
  }

  /** Reads the next value; a nested value is read by a reader of its own. */
  method Deserialize(r: ByteReader) returns (res: Result<Value>)
    requires r.Valid()
    modifies r
    ensures r.Valid() && Agrees(res, Decode(old(r.Unread())), r.Unread())
    decreases |r.Unread()|, 0
  {
    hide ReadLV, ReadUint64, DecodeBody;
    var t :- r.ReadByte();
    if t == TYPE_NIL {
      return Success(Nil);
    } else if t == TYPE_INT64 {
      var u :- ReadEight(r);
      return Success(Int64(AsSigned(u)));
    } else if t == TYPE_UINT64 {
      var u :- ReadEight(r);
      return Success(Uint64(u));
    }
    BodyShorter(r.Unread());
    var body :- ReadValue(r);
    res := DeserializeBody(t, body);
  }

  method Count(body: bytes) returns (res: Result<(nat, ByteReader)>)
    ensures match res
      case Success((n, b)) => b.Valid() && fresh(b) && Uvarint(body) == Parsed(n, b.Unread())
      case Failure(e) => Uvarint(body) == Failed(e)
  {
    var p := Uvarint(body);
    if p.Failed? {
      return Failure(p.error);
    }
    var b := new ByteReader(p.rest);
    return Success((p.value, b));
  }

  method DeserializeBody(t: byte, body: bytes) returns (res: Result<Value>)
    ensures match res
      case Success(v) => DecodeBody(t, body).Parsed? && DecodeBody(t, body).value == v
      case Failure(e) => DecodeBody(t, body) == Failed(e)
    decreases |body| + 1, 0
  {
    if t == TYPE_STRING {
      return Success(Str(body));
    } else if t == TYPE_BYTES {
      return Success(Blob(body));
    } else if t == TYPE_BYTES_BYTES {
      var c :- Count(body);
      var bs :- ReadBlobs(c.0, c.1);
      return Success(Blobs(bs));
    } else if t == TYPE_INTERFACE_ARRAY {
      var c :- Count(body);
      var vs :- ReadArray(c.0, c.1);
      return Success(Array(vs));
    } else if t == TYPE_PUBKEY_ECC {
      return Success(EccKey(body));
    } else if t == TYPE_PUBKEY_RSA {
      return Success(RsaKey(body));
    } else if OneKind(t).Some? {
      var b := new ByteReader(body);
      var q :- ReadOneRecord(OneKind(t).value, b);
      return Success(One(q));
    } else if ManyKind(t).Some? {
      var c :- Count(body);
      var rs :- ReadManyRecords(ManyKind(t).value, c.0, c.1);
      return Success(Many(ManyKind(t).value, rs));
    } else if t == TYPE_BUNDLE {
      var b := new ByteReader(body);
      var d :- ReadValue(b);
      var u :- ReadEight(b);
      return Success(Bundle(d, AsSigned(u)));
    }
    return Failure(UnknownType);
  }

  /** One frame: a length and that many bytes, in a single write. */
  method WriteBuffer(w: ByteBuffer, b: bytes)
    modifies w
    ensures w.data == old(w.data) + EncodeLV(b)
  {
    w.Write(EncodeUvarint(|b|) + b);
  }

  method ReadBuffer(r: ByteReader) returns (res: Result<bytes>)
    requires r.Valid()
    modifies r
    ensures r.Valid() && Agrees(res, ReadLV(old(r.Unread())), r.Unread())
  {
    var n :- r.ReadNumber();
    res := r.ReadFull(n);
  }
}
