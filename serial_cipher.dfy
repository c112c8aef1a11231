/**
 * The stream cipher that protects a serial number (`decode_serial`). Bytes 1-4
 * hold a big-endian signed 32-bit value: its upper 27 bits (an arithmetic shift
 * right by 5) are the key and its low 5 bits a rotation count. A key of 0 means
 * the serial is not encrypted. Otherwise every byte from index 5 on is xor-ed
 * with the low byte of a key that is stepped before each byte, and the xor-ed
 * run is then rotated right by the count modulo its length.
 */
module SerialCipher {
  import opened Bytes

  const KEY_MULTIPLIER: int := 0x10A8_60C1
  const KEY_MODULUS: int := 0xFFFF_FFFB

  /** The signed value stored big-endian at bytes 1-4. */
  function KeyAndSteps(s: seq<Byte>): (v: int)
    requires |s| >= 5
    ensures IsI32(v)
  {
    ReadI32Be(s, 1)
  }

  /** `key_and_steps >> 5`: Python's shift floors, as `/` by a positive divisor does here. */
  function InitialKey(keyAndSteps: int): int
  {
    keyAndSteps / 32
  }

  /** `(key_and_steps & 0b11111) % n`: the mask is the non-negative remainder modulo 32. */
  function Steps(keyAndSteps: int, n: nat): (steps: nat)
    requires n > 0
    ensures steps < n
  {
    (keyAndSteps % 32) % n
  }

  /** One key step; Python's `%` by a positive modulus is never negative, even for a negative key. */
  function NextKey(key: int): (k: nat)
    ensures k < KEY_MODULUS
  {
    (key * KEY_MULTIPLIER) % KEY_MODULUS
  }

  /** The key after `n` steps. */
  function KeyAt(key: int, n: nat): int
  {
    if n == 0 then key else NextKey(KeyAt(key, n - 1))
  }

  /** Byte `i` of `data` xor-ed with the low byte of the key after `i + 1` steps. */
  function KeyStream(data: seq<Byte>, key: int): (r: seq<Byte>)
    ensures |r| == |data|
  {
    seq(|data|, i requires 0 <= i < |data| => Xor(data[i], KeyAt(key, i + 1) % 256))
  }

  /** The last `steps` elements moved to the front (`x[-steps:] + x[:-steps]`, where 0 moves nothing). */
  function RotateRight(x: seq<Byte>, steps: nat): (r: seq<Byte>)
    requires steps <= |x|
    ensures |r| == |x|
  {
    x[|x| - steps..] + x[..|x| - steps]
  }

  /** The first `steps` elements moved to the back. */
  function RotateLeft(x: seq<Byte>, steps: nat): (r: seq<Byte>)
    requires steps <= |x|
    ensures |r| == |x|
  {
    x[steps..] + x[..steps]
  }

  /**
   * What `decode_serial` may be called with: the signed value at bytes 1-4 must
   * exist, and a non-zero key needs at least one byte after it (the rotation
   * count is taken modulo that many bytes).
   */
  predicate CanDecode(s: seq<Byte>) {
    |s| >= 5 && (InitialKey(KeyAndSteps(s)) != 0 ==> |s| > 5)
  }

  /** The decoded serial, as a function of the encoded one. */
  function Decoded(s: seq<Byte>): (r: seq<Byte>)
    requires CanDecode(s)
    ensures |r| == |s| && r[0] == s[0]
    ensures InitialKey(KeyAndSteps(s)) == 0 ==> r == s
  {
    var keyAndSteps := KeyAndSteps(s);
    var key := InitialKey(keyAndSteps);
    if key == 0 then s
    else
      var xored := KeyStream(s[5..], key);
      [s[0], 0, 0, 0, 0] + RotateRight(xored, Steps(keyAndSteps, |xored|))
  }

  /** `decode_serial`: the key is stepped in a loop while the xor-ed bytes are appended. */
  method DecodeSerial(encoded: seq<Byte>) returns (decoded: seq<Byte>)
    requires CanDecode(encoded)
    ensures decoded == Decoded(encoded)
    ensures InitialKey(KeyAndSteps(encoded)) == 0 ==> decoded == encoded
    ensures |decoded| == |encoded| && decoded[0] == encoded[0]
  {
    var keyAndSteps := KeyAndSteps(encoded);
    var key := InitialKey(keyAndSteps);
    if key == 0 {
      return encoded;
    }
    ghost var key0 := key;
    var xored: seq<Byte> := [];
    var i := 5;
    while i < |encoded|
      invariant 5 <= i <= |encoded|
      invariant key == KeyAt(key0, i - 5)
      invariant xored == KeyStream(encoded[5..i], key0)
    {
      key := (key * KEY_MULTIPLIER) % KEY_MODULUS;
      xored := xored + [Xor(encoded[i], key % 256)];
      i := i + 1;
    }
    assert encoded[5..i] == encoded[5..];
    var steps := (keyAndSteps % 32) % |xored|;
    decoded := [encoded[0], 0, 0, 0, 0] + xored[|xored| - steps..] + xored[..|xored| - steps];
  }

  // ---------------------------------------------------------------- properties

  /** A key is zero exactly when the stored value lies in 0..31. */
  lemma {:induction false} ZeroKeyRange(keyAndSteps: int)
    ensures InitialKey(keyAndSteps) == 0 <==> 0 <= keyAndSteps < 32
  {
  }

  /**
   * With a non-zero key the result keeps the length and byte 0, has bytes 1-4
   * zero, and holds stream byte `i` at position `5 + (i + steps) mod n`.
   */
  lemma {:induction false} DecodedShape(s: seq<Byte>, i: nat)
    requires CanDecode(s) && InitialKey(KeyAndSteps(s)) != 0
    requires i < |s| - 5
    ensures var r, n := Decoded(s), |s| - 5;
      && |r| == |s| && r[0] == s[0] && r[1..5] == [0, 0, 0, 0]
      && r[5 + (i + Steps(KeyAndSteps(s), n)) % n] == KeyStream(s[5..], InitialKey(KeyAndSteps(s)))[i]
  {
    var n := |s| - 5;
    var keyAndSteps := KeyAndSteps(s);
    var xored := KeyStream(s[5..], InitialKey(keyAndSteps));
    var steps := Steps(keyAndSteps, n);
    var rotated := RotateRight(xored, steps);
    var r := Decoded(s);
    assert r == [s[0], 0, 0, 0, 0] + rotated;
    var k := (i + steps) % n;
    assert r[5 + k] == rotated[k];
    RotateRightAt(xored, steps, i);
  }

  lemma {:induction false} RotateRightAt(x: seq<Byte>, steps: nat, i: nat)
    requires steps < |x| && i < |x|
    ensures RotateRight(x, steps)[(i + steps) % |x|] == x[i]
  {
    var n := |x|;
    if i + steps < n {
      assert (i + steps) % n == i + steps;
    } else {
      assert (i + steps) % n == i + steps - n;
    }
  }

  /** A rotation count of zero leaves the xor-ed bytes in place. */
  lemma {:induction false} NoRotationWhenZeroSteps(s: seq<Byte>)
    requires CanDecode(s) && InitialKey(KeyAndSteps(s)) != 0
    requires Steps(KeyAndSteps(s), |s| - 5) == 0
    ensures Decoded(s) == [s[0], 0, 0, 0, 0] + KeyStream(s[5..], InitialKey(KeyAndSteps(s)))
  {
    var xored := KeyStream(s[5..], InitialKey(KeyAndSteps(s)));
    assert xored[|xored|..] + xored[..|xored|] == xored;
  }

  /** Xor-ing with the same key stream twice gives the data back. */
  lemma {:induction false} KeyStreamInvolutive(data: seq<Byte>, key: int)
    ensures KeyStream(KeyStream(data, key), key) == data
  {
    forall i | 0 <= i < |data| ensures KeyStream(KeyStream(data, key), key)[i] == data[i] {
      XorInvolutive(data[i], KeyAt(key, i + 1) % 256);
    }
  }

  lemma {:induction false} RotateRightLeft(x: seq<Byte>, steps: nat)
    requires steps <= |x|
    ensures RotateRight(RotateLeft(x, steps), steps) == x
  {
    var y := RotateLeft(x, steps);
    assert y[|y| - steps..] == x[..steps];
    assert y[..|y| - steps] == x[steps..];
  }

  /**
   * The encryption the decoder undoes: rotate the plain bytes left, xor them
   * with the key stream, and store the key and rotation count at bytes 1-4.
   */
  function Encrypted(b0: Byte, keyAndSteps: int, plain: seq<Byte>): (s: seq<Byte>)
    requires IsI32(keyAndSteps) && |plain| > 0
    ensures |s| == |plain| + 5 && s[0] == b0
    ensures s[1..5] == I32Be(keyAndSteps)
  {
    var steps := Steps(keyAndSteps, |plain|);
    [b0] + I32Be(keyAndSteps) + KeyStream(RotateLeft(plain, steps), InitialKey(keyAndSteps))
  }

  /** Decoding an encrypted serial gives its plain bytes behind a zeroed key. */
  lemma {:induction false} DecodeEncrypted(b0: Byte, keyAndSteps: int, plain: seq<Byte>)
    requires IsI32(keyAndSteps) && |plain| > 0
    requires InitialKey(keyAndSteps) != 0
    ensures CanDecode(Encrypted(b0, keyAndSteps, plain))
    ensures Decoded(Encrypted(b0, keyAndSteps, plain)) == [b0, 0, 0, 0, 0] + plain
  {
    var s := Encrypted(b0, keyAndSteps, plain);
    var header := I32Be(keyAndSteps);
    assert s[1..5] == header;
    assert KeyAndSteps(s) == ReadI32Be(header, 0);
    var steps := Steps(keyAndSteps, |plain|);
    var rotated := RotateLeft(plain, steps);
    assert s[5..] == KeyStream(rotated, InitialKey(keyAndSteps));
    KeyStreamInvolutive(rotated, InitialKey(keyAndSteps));
    RotateRightLeft(plain, steps);
  }
}
