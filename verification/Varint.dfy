/** Unsigned LEB128 numbers (section 7.6 of DWARF Version 5), capped at ten bytes, and length-prefixed values. */
module Varint {
  import opened Bytes

  datatype DecodeError =
    | EndOfInput      // a read ran past the input
    | InputTooShort   // ErrInputTooShort
    | LenOverflow     // ErrLenOverflow
    | VarintOverflow  // more than 64 bits in a length read from the stream
    | UnknownType
    | WrongType       // a Go type assertion that panics

  /** What a parser returns: a value and the unread rest of its input, or an error. */
  datatype Parsed<+T> = Parsed(value: T, rest: bytes) | Failed(error: DecodeError) {
    predicate IsFailure() { Failed? }

    function PropagateFailure<U>(): Parsed<U>
      requires Failed?
    {
      Failed(error)
    }

    function Extract(): (T, bytes)
      requires Parsed?
    {
      (value, rest)
    }
  }

  /** r, if it succeeded, took at least least bytes of s. */
  ghost predicate Takes<T>(r: Parsed<T>, s: bytes, least: nat) {
    r.Parsed? ==> |r.rest| + least <= |s|
  }

  const MAX_VARINT_LEN := 10

  function EncodeUvarint(n: nat): (s: bytes)
    ensures 1 <= |s|
  {
    if n < 128 then [n as byte] else [(128 + n % 128) as byte] + EncodeUvarint(n / 128)
  }

  /** Reads the byte number i of a number and everything after it. */
  function ReadUvarintFrom(s: bytes, i: nat): (r: Parsed<nat>)
    requires i <= MAX_VARINT_LEN
    ensures Takes(r, s, 1)
    decreases MAX_VARINT_LEN - i
  {
    if i == MAX_VARINT_LEN then
      Failed(VarintOverflow)
    else if s == [] then
      Failed(EndOfInput)
    else if s[0] < 128 then
      if i == MAX_VARINT_LEN - 1 && s[0] > 1 then Failed(VarintOverflow) else Parsed(s[0] as nat, s[1..])
    else
      var (high, rest) :- ReadUvarintFrom(s[1..], i + 1);
      Parsed((s[0] - 128) as nat + 128 * high, rest)
  }

  function ReadUvarint(s: bytes): (r: Parsed<nat>)
    ensures Takes(r, s, 1)
  {
    ReadUvarintFrom(s, 0)
  }

  /** binary.Uvarint: the same number from a whole slice, with the two error returns of the callers. */
  function Uvarint(s: bytes): (r: Parsed<nat>)
    ensures Takes(r, s, 1)
  {
    var r := ReadUvarint(s);
    if r.Parsed? then r
    else if |s| <= MAX_VARINT_LEN && forall b | b in s :: b >= 128 then Failed(InputTooShort)
    else Failed(LenOverflow)
  }

  function EncodeLV(value: bytes): (s: bytes)
    ensures 1 + |value| <= |s|
  {
    EncodeUvarint(|value|) + value
  }

  function ReadLV(s: bytes): (r: Parsed<bytes>)
    ensures Takes(r, s, 1)
  {
    var (n, rest) :- ReadUvarint(s);
    if n > |rest| then Failed(EndOfInput) else Parsed(rest[..n], rest[n..])
  }

  /** One more than the largest number that still fits when i bytes are already read. */
  ghost function Room(i: nat): nat
    requires i <= 9
    decreases 9 - i
  {
    if i == 9 then 2 else 128 * Room(i + 1)
  }

  lemma RoomForUint64()
    ensures Room(0) == TWO_64
  {
    assert Room(5) == 128 * (128 * (128 * (128 * Room(9))));
    assert Room(1) == 128 * (128 * (128 * (128 * Room(5))));
  }

  lemma {:induction false} UvarintFromRoundTrip(n: nat, s: bytes, i: nat)
    requires i <= 9 && n < Room(i)
    ensures ReadUvarintFrom(EncodeUvarint(n) + s, i) == Parsed(n, s)
    decreases n
  {
    hide ReadUvarintFrom;
    var t := EncodeUvarint(n) + s;
    if n < 128 {
      assert t[1..] == s;
      ReadUvarintLast(t, i);
    } else {
      var q := n / 128;
      EncodeUvarintFirst(n, s);
      hide EncodeUvarint;
      UvarintFromRoundTrip(q, s, i + 1);
      ReadUvarintStep(t, i, q, s);
    }
  }

  lemma EncodeUvarintFirst(n: nat, s: bytes)
    requires n >= 128
    ensures var t := EncodeUvarint(n) + s;
      t[0] as nat == 128 + n % 128 && t[1..] == EncodeUvarint(n / 128) + s
  {
    var first := (128 + n % 128) as byte;
    assert EncodeUvarint(n) == [first] + EncodeUvarint(n / 128);
    hide EncodeUvarint;
    FirstAndRest(first, EncodeUvarint(n / 128), s);
  }

  lemma FirstAndRest(b: byte, e: bytes, s: bytes)
    ensures (([b] + e) + s)[0] == b && (([b] + e) + s)[1..] == e + s
  {}

  lemma ReadUvarintLast(t: bytes, i: nat)
    requires i <= 9 && t != [] && t[0] < 128 && (i == 9 ==> t[0] <= 1)
    ensures ReadUvarintFrom(t, i) == Parsed(t[0] as nat, t[1..])
  {}

  lemma ReadUvarintStep(t: bytes, i: nat, q: nat, s: bytes)
    requires i < 9 && t != [] && t[0] >= 128
    requires ReadUvarintFrom(t[1..], i + 1) == Parsed(q, s)
    ensures ReadUvarintFrom(t, i) == Parsed((t[0] - 128) as nat + 128 * q, s)
  {}

  lemma UvarintRoundTrip(n: nat, s: bytes)
    requires n < TWO_64
    ensures ReadUvarint(EncodeUvarint(n) + s) == Parsed(n, s)
    ensures Uvarint(EncodeUvarint(n) + s) == Parsed(n, s)
  {
    RoomForUint64();
    UvarintFromRoundTrip(n, s, 0);
  }

  /** The cap is exact: a number of 64 bits or more is written but never read back. */
  lemma {:induction false} UvarintTooLarge(n: nat, s: bytes, i: nat)
    requires i <= 9 && n >= Room(i)
    ensures ReadUvarintFrom(EncodeUvarint(n) + s, i) == Failed(VarintOverflow)
    decreases n
  {
    var t := EncodeUvarint(n) + s;
    if n >= 128 {
      assert t[1..] == EncodeUvarint(n / 128) + s;
      if i < 9 {
        UvarintTooLarge(n / 128, s, i + 1);
      }
    } else {
      assert i == 9 by {
        if i < 9 { RoomAtLeast(i); }
      }
    }
  }

  lemma {:induction false} RoomAtLeast(i: nat)
    requires i < 9
    ensures Room(i) >= 256
    decreases 9 - i
  {
    if i >= 8 {
    } else {
      RoomAtLeast(i + 1);
    }
  }

  lemma LVRoundTrip(value: bytes, s: bytes)
    requires |value| < TWO_64
    ensures ReadLV(EncodeLV(value) + s) == Parsed(value, s)
  {
    UvarintRoundTrip(|value|, value + s);
    assert EncodeLV(value) + s == EncodeUvarint(|value|) + (value + s);
  }

  /** A value is read exactly if its length stands in front of all of it. */
  lemma ReadLVIff(s: bytes, v: bytes, r: bytes)
    ensures ReadLV(s) == Parsed(v, r) <==> ReadUvarint(s) == Parsed(|v|, v + r)
  {
    hide ReadUvarint;
    var n := ReadUvarint(s);
    if n.Parsed? && n.value <= |n.rest| { assert n.rest[..n.value] + n.rest[n.value..] == n.rest; }
    assert (v + r)[..|v|] == v && (v + r)[|v|..] == r;
  }

  // What is refused

  lemma {:induction false} UvarintCut(n: nat, i: nat, k: nat)
    requires i <= 9 && n < Room(i) && k < |EncodeUvarint(n)|
    ensures ReadUvarintFrom(EncodeUvarint(n)[..k], i) == Failed(EndOfInput)
    decreases n
  {
    if k == 0 {
    } else {
      assert EncodeUvarint(n)[..k][1..] == EncodeUvarint(n / 128)[..k - 1];
      UvarintCut(n / 128, i + 1, k - 1);
    }
  }

  /** A length-prefixed value cut off anywhere is the end of the input, never a shorter value. */
  lemma LVCut(v: bytes, k: nat)
    requires |v| < TWO_64 && k < |EncodeLV(v)|
    ensures ReadLV(EncodeLV(v)[..k]) == Failed(EndOfInput)
  {
    var prefix := EncodeUvarint(|v|);
    RoomForUint64();
    if k < |prefix| {
      assert EncodeLV(v)[..k] == prefix[..k];
      UvarintCut(|v|, 0, k);
    } else {
      assert EncodeLV(v)[..k] == prefix + v[..k - |prefix|];
      UvarintRoundTrip(|v|, v[..k - |prefix|]);
    }
  }

  lemma {:induction false} UnfinishedFails(s: bytes, i: nat)
    requires i <= MAX_VARINT_LEN && forall b | b in s :: b >= 128
    ensures ReadUvarintFrom(s, i).Failed?
    decreases MAX_VARINT_LEN - i
  {
    if i == MAX_VARINT_LEN || s == [] {
    } else {
      assert s[0] in s && forall b | b in s[1..] :: b in s;
      UnfinishedFails(s[1..], i + 1);
    }
  }

  /** A number in a slice is too short exactly if up to ten bytes all announce another one; else it overflows. */
  lemma UvarintErrorIff(s: bytes)
    ensures Uvarint(s) == Failed(InputTooShort) <==> |s| <= 10 && forall b | b in s :: b >= 128
    ensures Uvarint(s).Failed? ==> Uvarint(s).error in {InputTooShort, LenOverflow}
  {
    if forall b | b in s :: b >= 128 { UnfinishedFails(s, 0); }
    hide ReadUvarintFrom;
  }

  /** The groups of seven bits go out least significant first, each but the last with the high bit set. */
  lemma {:induction false} UvarintBytes(n: nat, i: nat)
    requires i < |EncodeUvarint(n)|
    ensures EncodeUvarint(n)[i] as nat
            == WithoutGroups(n, i) % 128 + if i == |EncodeUvarint(n)| - 1 then 0 else 128
    decreases i
  {
    if i == 0 {
    } else {
      assert EncodeUvarint(n)[i] == EncodeUvarint(n / 128)[i - 1];
      UvarintBytes(n / 128, i - 1);
    }
  }

  /** n without its lowest i groups of seven bits. */
  function WithoutGroups(n: nat, i: nat): nat
    decreases i
  {
    if i == 0 then n else WithoutGroups(n / 128, i - 1)
  }
}
