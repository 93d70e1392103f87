/** Bytes, fixed-width integers and byte orders shared by every other module. */
module Bytes {
  newtype byte = x: int | 0 <= x < 256
  // Go strings and byte slices are both sequences of bytes here; nil and empty coincide.
  type bytes = seq<byte>

  const TWO_16 := 0x1_0000
  const TWO_32 := 0x1_0000_0000
  const TWO_63 := 0x8000_0000_0000_0000
  const TWO_64 := 0x1_0000_0000_0000_0000

  type uint32 = n: nat | n < 0x1_0000_0000
  type uint64 = n: nat | n < 0x1_0000_0000_0000_0000
  type int64 = n: int | -0x8000_0000_0000_0000 <= n < 0x8000_0000_0000_0000

  /** Go's conversion to uint32, which also describes wrapping uint32 arithmetic. */
  function Low32(n: int): (r: uint32)
    ensures 0 <= n < TWO_32 ==> r == n
  {
    n % 0x1_0000_0000
  }

  datatype Option<+T> = None | Some(value: T)

  ghost function Pow256(k: nat): nat {
    if k == 0 then 1 else 256 * Pow256(k - 1)
  }

  /** The low k bytes of n, most significant first. */
  function BigEndian(n: nat, k: nat): (s: bytes)
    ensures |s| == k
  {
    if k == 0 then [] else BigEndian(n / 256, k - 1) + [(n % 256) as byte]
  }

  function FromBigEndian(s: bytes): nat {
    if s == [] then 0 else FromBigEndian(s[..|s| - 1]) * 256 + s[|s| - 1] as nat
  }

  /** The low k bytes of n, least significant first. */
  function LittleEndian(n: nat, k: nat): (s: bytes)
    ensures |s| == k
  {
    if k == 0 then [] else [(n % 256) as byte] + LittleEndian(n / 256, k - 1)
  }

  function FromLittleEndian(s: bytes): nat {
    if s == [] then 0 else s[0] as nat + 256 * FromLittleEndian(s[1..])
  }

  lemma {:induction false} BigEndianRoundTrip(n: nat, k: nat)
    requires n < Pow256(k)
    ensures FromBigEndian(BigEndian(n, k)) == n
  {
    if k == 0 {
    } else {
      BigEndianRoundTrip(n / 256, k - 1);
      var s := BigEndian(n, k);
      assert s[..|s| - 1] == BigEndian(n / 256, k - 1);
    }
  }

  lemma {:induction false} BigEndianInverse(s: bytes)
    ensures FromBigEndian(s) < Pow256(|s|)
    ensures BigEndian(FromBigEndian(s), |s|) == s
  {
    if s == [] {
    } else {
      BigEndianInverse(s[..|s| - 1]);
    }
  }

  lemma {:induction false} LittleEndianRoundTrip(n: nat, k: nat)
    requires n < Pow256(k)
    ensures FromLittleEndian(LittleEndian(n, k)) == n
  {
    if k == 0 {
    } else {
      LittleEndianRoundTrip(n / 256, k - 1);
      assert LittleEndian(n, k)[1..] == LittleEndian(n / 256, k - 1);
    }
  }

  /** n without its lowest i bytes. */
  function Above(n: nat, i: nat): nat
    decreases i
  {
    if i == 0 then n else Above(n / 256, i - 1)
  }

  /** Byte i from the end is the byte number i of the number. */
  lemma {:induction false} BigEndianBytes(n: nat, k: nat, i: nat)
    requires i < k
    ensures BigEndian(n, k)[k - 1 - i] as nat == Above(n, i) % 256
    decreases i
  {
    if i == 0 {
    } else {
      BigEndianBytes(n / 256, k - 1, i - 1);
    }
  }

  /** Byte i from the front is the byte number i of the number. */
  lemma {:induction false} LittleEndianBytes(n: nat, k: nat, i: nat)
    requires i < k
    ensures LittleEndian(n, k)[i] as nat == Above(n, i) % 256
    decreases i
  {
    if i == 0 {
    } else {
      LittleEndianBytes(n / 256, k - 1, i - 1);
    }
  }

  lemma LowAndHigh(low: nat, high: nat)
    requires low < 256
    ensures (low + 256 * high) % 256 == low && (low + 256 * high) / 256 == high
  {}

  lemma {:induction false} LittleEndianInverse(s: bytes)
    ensures LittleEndian(FromLittleEndian(s), |s|) == s
  {
    if s == [] {
    } else {
      var rest := s[1..];
      LittleEndianInverse(rest);
      var high := FromLittleEndian(rest);
      LowAndHigh(s[0] as nat, high);
      hide FromLittleEndian;
      assert LittleEndian(s[0] as nat + 256 * high, |rest| + 1) == [s[0]] + rest;
    }
  }

  lemma {:induction false} FromLittleEndianBound(s: bytes)
    ensures FromLittleEndian(s) < Pow256(|s|)
  {
    if s == [] {
    } else {
      FromLittleEndianBound(s[1..]);
    }
  }

  lemma Widths()
    ensures Pow256(2) == TWO_16 && Pow256(4) == TWO_32 && Pow256(8) == TWO_64
  {
    assert Pow256(4) == 256 * (256 * (256 * (256 * Pow256(0))));
    assert Pow256(8) == 256 * (256 * (256 * (256 * Pow256(4))));
  }

  /** Two's complement image of an int64. */
  function AsUnsigned(i: int64): uint64 {
    if i < 0 then i + 0x1_0000_0000_0000_0000 else i
  }

  function AsSigned(u: uint64): int64 {
    if u < 0x8000_0000_0000_0000 then u else u - 0x1_0000_0000_0000_0000
  }

  lemma ZeroFactor(c: int, d: int)
    requires c > 0 && -c < c * d < c
    ensures d == 0
  {}

  lemma DivideUnique(n: int, c: int, q: int, r: int)
    requires 0 <= r < c && n == c * q + r
    ensures n / c == q && n % c == r
  {
    var q', r' := n / c, n % c;
    assert n == c * q' + r';
    assert c * (q - q') == c * q - c * q';
    ZeroFactor(c, q - q');
  }
}
