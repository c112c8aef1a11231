/**
 * Byte-level helpers used by the item-code codec: the fixed-width integer
 * encodings that `struct.pack`/`struct.unpack_from` produce for the formats
 * ">H", "<H", ">i" and "<i", byte XOR, and ASCII upper-casing.
 */
module Bytes {

  type Byte = x: int | 0 <= x < 256

  const TWO_8: int := 0x100
  const TWO_16: int := 0x1_0000
  const TWO_24: int := 0x100_0000
  const TWO_31: int := 0x8000_0000
  const TWO_32: int := 0x1_0000_0000

  /** An unsigned 32-bit value. */
  type U32 = x: int | 0 <= x < 0x1_0000_0000

  /** A value that fits a signed 32-bit integer (what `struct.pack("<i", v)` accepts). */
  predicate IsI32(v: int) {
    -TWO_31 <= v < TWO_31
  }

  /** Big-endian unsigned 16-bit read at `at` (">H"). */
  function ReadU16Be(b: seq<Byte>, at: nat): (v: nat)
    requires at + 2 <= |b|
    ensures v < TWO_16
  {
    b[at] * TWO_8 + b[at + 1]
  }

  /** Big-endian encoding of an unsigned 16-bit value. */
  function U16Be(v: nat): (r: seq<Byte>)
    requires v < TWO_16
    ensures |r| == 2
    ensures ReadU16Be(r, 0) == v
  {
    [v / TWO_8, v % TWO_8]
  }

  /** Little-endian unsigned 16-bit read at `at` ("<H"). */
  function ReadU16Le(b: seq<Byte>, at: nat): (v: nat)
    requires at + 2 <= |b|
    ensures v < TWO_16
  {
    b[at] + b[at + 1] * TWO_8
  }

  /** Little-endian encoding of an unsigned 16-bit value. */
  function U16Le(v: nat): (r: seq<Byte>)
    requires v < TWO_16
    ensures |r| == 2
    ensures ReadU16Le(r, 0) == v
  {
    [v % TWO_8, v / TWO_8]
  }

  /** Unsigned 32-bit value of four bytes, most significant first. */
  function U32Of(b0: Byte, b1: Byte, b2: Byte, b3: Byte): (u: nat)
    ensures u < TWO_32
  {
    ((b0 * TWO_8 + b1) * TWO_8 + b2) * TWO_8 + b3
  }

  /** Two's-complement reinterpretation of an unsigned 32-bit value. */
  function Signed32(u: nat): (v: int)
    requires u < TWO_32
    ensures IsI32(v)
    ensures v % TWO_32 == u
  {
    if u < TWO_31 then u else u - TWO_32
  }

  /** Big-endian signed 32-bit read at `at` (">i"). */
  function ReadI32Be(b: seq<Byte>, at: nat): (v: int)
    requires at + 4 <= |b|
    ensures IsI32(v)
  {
    Signed32(U32Of(b[at], b[at + 1], b[at + 2], b[at + 3]))
  }

  /** Big-endian two's-complement encoding of a signed 32-bit value (">i"). */
  function I32Be(v: int): (r: seq<Byte>)
    requires IsI32(v)
    ensures |r| == 4
    ensures ReadI32Be(r, 0) == v
  {
    var u := v % TWO_32;
    var r := [u / TWO_24, (u / TWO_16) % TWO_8, (u / TWO_8) % TWO_8, u % TWO_8];
    assert U32Of(r[0], r[1], r[2], r[3]) == u;
    r
  }

  /** Little-endian signed 32-bit read at `at` ("<i"). */
  function ReadI32Le(b: seq<Byte>, at: nat): (v: int)
    requires at + 4 <= |b|
    ensures IsI32(v)
  {
    Signed32(U32Of(b[at + 3], b[at + 2], b[at + 1], b[at]))
  }

  /** Little-endian two's-complement encoding of a signed 32-bit value ("<i"). */
  function I32Le(v: int): (r: seq<Byte>)
    requires IsI32(v)
    ensures |r| == 4
    ensures ReadI32Le(r, 0) == v
  {
    var u := v % TWO_32;
    var r := [u % TWO_8, (u / TWO_8) % TWO_8, (u / TWO_16) % TWO_8, u / TWO_24];
    assert U32Of(r[3], r[2], r[1], r[0]) == u;
    r
  }

  /** Bitwise exclusive or of two naturals, bit by bit from the least significant. */
  function BitXor(a: nat, b: nat): (r: nat)
    decreases a + b
  {
    if a == 0 then b
    else if b == 0 then a
    else 2 * BitXor(a / 2, b / 2) + (if a % 2 == b % 2 then 0 else 1)
  }

  function Pow2(k: nat): (p: nat)
    ensures p >= 1
  {
    if k == 0 then 1 else 2 * Pow2(k - 1)
  }

  /** Powers of two grow with their exponent. */
  lemma {:induction false} Pow2Monotone(a: nat, b: nat)
    requires a < b
    ensures Pow2(a) < Pow2(b)
  {
    if a + 1 < b {
      Pow2Monotone(a, b - 1);
    }
  }

  /** Exclusive or with all `k` low bits set is the complement within `k` bits (`~a & (2^k - 1)`). */
  lemma {:induction false} XorAllOnes(a: nat, k: nat)
    requires a < Pow2(k)
    ensures BitXor(a, Pow2(k) - 1) == Pow2(k) - 1 - a
    decreases k
  {
    if a != 0 {
      assert k > 0;
      XorAllOnes(a / 2, k - 1);
      assert (Pow2(k) - 1) / 2 == Pow2(k - 1) - 1 && (Pow2(k) - 1) % 2 == 1;
    }
  }

  /** Exclusive or keeps values below a power of two below it. */
  lemma {:induction false} BitXorBound(a: nat, b: nat, k: nat)
    requires a < Pow2(k) && b < Pow2(k)
    ensures BitXor(a, b) < Pow2(k)
    decreases a + b
  {
    if a != 0 && b != 0 {
      BitXorBound(a / 2, b / 2, k - 1);
    }
  }

  /** Exclusive or with the same value twice is the identity. */
  lemma {:induction false} BitXorInvolutive(a: nat, b: nat)
    ensures BitXor(BitXor(a, b), b) == a
    decreases a + b
  {
    if a != 0 && b != 0 {
      BitXorInvolutive(a / 2, b / 2);
      var r := BitXor(a, b);
      assert r / 2 == BitXor(a / 2, b / 2) && r % 2 == (if a % 2 == b % 2 then 0 else 1);
      if r == 0 {
        assert BitXor(a / 2, b / 2) == 0;
      }
    } else if a == 0 && b != 0 {
      assert BitXor(b, b) == 0 by { BitXorSelf(b); }
    }
  }

  lemma {:induction false} BitXorSelf(a: nat)
    ensures BitXor(a, a) == 0
    decreases a
  {
    if a != 0 {
      BitXorSelf(a / 2);
    }
  }

  /** Bitwise exclusive or of two bytes. */
  function Xor(a: Byte, b: Byte): (r: Byte)
  {
    assert Pow2(8) == 256;
    BitXorBound(a, b, 8);
    BitXor(a, b)
  }

  /** Bitwise exclusive or of two unsigned 32-bit values. */
  function Xor32(a: U32, b: U32): (r: U32)
  {
    Pow2Values();
    BitXorBound(a, b, 32);
    BitXor(a, b)
  }

  lemma {:induction false} Pow2Values()
    ensures Pow2(8) == TWO_8 && Pow2(16) == TWO_16 && Pow2(32) == TWO_32
  {
    assert Pow2(8) == TWO_8;
    assert Pow2(12) == 0x1000;
    assert Pow2(16) == TWO_16;
    assert Pow2(20) == 0x10_0000;
    assert Pow2(24) == TWO_24;
    assert Pow2(28) == 0x1000_0000;
  }

  lemma {:induction false} XorInvolutive(a: Byte, b: Byte)
    ensures Xor(Xor(a, b), b) == a
  {
    BitXorInvolutive(a, b);
  }

  const NUL: Byte := 0

  /** ASCII upper-casing of one byte; every other byte is unchanged. */
  function UpperByte(c: Byte): (r: Byte)
  {
    if 'a' as int <= c <= 'z' as int then c - 32 else c
  }

  /** ASCII upper-casing of a byte string, byte by byte. */
  function UpperBytes(s: seq<Byte>): (r: seq<Byte>)
    ensures |r| == |s|
    ensures forall i :: 0 <= i < |s| ==> r[i] == UpperByte(s[i])
  {
    seq(|s|, i requires 0 <= i < |s| => UpperByte(s[i]))
  }

  /** True when the byte string contains no NUL byte. */
  predicate NoNul(s: seq<Byte>) {
    forall i :: 0 <= i < |s| ==> s[i] != NUL
  }
}
