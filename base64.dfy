/**
 * Base64 with the standard alphabet of section 4 of RFC 4648, as the item-code
 * codec uses it: `b64encode` always pads with '=', and `b64decode(s, validate=True)`
 * first requires the text to be ASCII (a non-ASCII string raises ValueError, not
 * binascii.Error), then decodes in `a2b_base64`'s strict mode: the text must be
 * alphabet characters followed by exactly the '=' that complete the last quantum
 * (none, one or two), with nothing after them; only the unused low bits of the
 * last character are ignored.
 */
module Base64 {
  import opened Bytes
  import opened Wrappers

  type Sextet = x: int | 0 <= x < 64

  /** Why `b64decode(..., validate=True)` rejects a string. */
  datatype DecodeError =
    | NonAscii          // ValueError raised while converting the str to bytes
    | NonBase64Digit    // a character outside the alphabet and '=', or data after a '='
    | InvalidLength     // the number of alphabet characters is one more than a multiple of 4
    | IncorrectPadding  // not exactly the '=' that complete the last quantum (leading, excess or missing)

  /** The character that encodes sextet `k`. */
  function Alphabet(k: Sextet): (c: char)
  {
    if k < 26 then ('A' as int + k) as char
    else if k < 52 then ('a' as int + (k - 26)) as char
    else if k < 62 then ('0' as int + (k - 52)) as char
    else if k == 62 then '+'
    else '/'
  }

  predicate IsAlphabet(c: char) {
    'A' <= c <= 'Z' || 'a' <= c <= 'z' || '0' <= c <= '9' || c == '+' || c == '/'
  }

  /** The sextet an alphabet character stands for. */
  function SextetOf(c: char): (k: Sextet)
    requires IsAlphabet(c)
    ensures Alphabet(k) == c
  {
    if 'A' <= c <= 'Z' then c as int - 'A' as int
    else if 'a' <= c <= 'z' then c as int - 'a' as int + 26
    else if '0' <= c <= '9' then c as int - '0' as int + 52
    else if c == '+' then 62
    else 63
  }

  lemma {:induction false} AlphabetInverse(k: Sextet)
    ensures IsAlphabet(Alphabet(k)) && SextetOf(Alphabet(k)) == k
  {
  }

  // ---------------------------------------------------------------- encoding

  /** The sextets of a byte string: four per full group of three bytes, then 2 or 3 for a tail. */
  function ToSextets(b: seq<Byte>): (q: seq<Sextet>)
    ensures |q| == 4 * (|b| / 3) + (if |b| % 3 == 0 then 0 else |b| % 3 + 1)
  {
    if |b| >= 3 then
      [b[0] / 4, (b[0] % 4) * 16 + b[1] / 16, (b[1] % 16) * 4 + b[2] / 64, b[2] % 64] + ToSextets(b[3..])
    else if |b| == 2 then
      [b[0] / 4, (b[0] % 4) * 16 + b[1] / 16, (b[1] % 16) * 4]
    else if |b| == 1 then
      [b[0] / 4, (b[0] % 4) * 16]
    else
      []
  }

  function Chars(q: seq<Sextet>): (s: string)
    ensures |s| == |q|
    ensures forall i :: 0 <= i < |q| ==> s[i] == Alphabet(q[i])
  {
    seq(|q|, i requires 0 <= i < |q| => Alphabet(q[i]))
  }

  function Padding(n: nat): (p: string)
  {
    if n % 3 == 1 then "==" else if n % 3 == 2 then "=" else ""
  }

  /** `b64encode`: the padded standard encoding, four characters per started group of three bytes. */
  function Encode(b: seq<Byte>): (s: string)
    ensures |s| == 4 * ((|b| + 2) / 3)
  {
    Chars(ToSextets(b)) + Padding(|b|)
  }

  // ---------------------------------------------------------------- decoding

  /** Length of the longest prefix of alphabet characters. */
  function DataLength(s: string): (n: nat)
    ensures n <= |s|
    ensures forall i :: 0 <= i < n ==> IsAlphabet(s[i])
    ensures n < |s| ==> !IsAlphabet(s[n])
  {
    if s == [] || !IsAlphabet(s[0]) then 0 else 1 + DataLength(s[1..])
  }

  predicate IsAscii(s: string) {
    forall i :: 0 <= i < |s| ==> s[i] as int < 128
  }

  /** The bytes of a run of sextets, as the decoder emits them: one per sextet after the first of a quantum. */
  function FromSextets(q: seq<Sextet>): (b: seq<Byte>)
  {
    if |q| < 2 then []
    else
      var s0, s1 := q[0] as int, q[1] as int;
      if |q| == 2 then [s0 * 4 + s1 / 16]
      else
        var s2 := q[2] as int;
        if |q| == 3 then [s0 * 4 + s1 / 16, (s1 % 16) * 16 + s2 / 4]
        else [s0 * 4 + s1 / 16, (s1 % 16) * 16 + s2 / 4, (s2 % 4) * 64 + q[3]] + FromSextets(q[4..])
  }

  function Sextets(s: string): (q: seq<Sextet>)
    requires forall i :: 0 <= i < |s| ==> IsAlphabet(s[i])
    ensures |q| == |s|
    ensures forall i :: 0 <= i < |s| ==> q[i] == SextetOf(s[i])
  {
    seq(|s|, i requires 0 <= i < |s| => SextetOf(s[i]))
  }

  /** The number of '=' that complete the last quantum after `n` data characters. */
  function PadsNeeded(n: nat): (p: nat)
    ensures p <= 2 && (n % 4 != 1 ==> (n + p) % 4 == 0)
  {
    if n % 4 == 2 then 2 else if n % 4 == 3 then 1 else 0
  }

  /** `b64decode(s, validate=True)`. */
  function Decode(s: string): (r: Result<seq<Byte>, DecodeError>)
    ensures r == Err(NonAscii) <==> !IsAscii(s)
    ensures r.Ok? ==> |r.value| == (6 * DataLength(s)) / 8
  {
    var n := DataLength(s);
    if !IsAscii(s) then Err(NonAscii)
    else if exists i :: n <= i < |s| && s[i] != '=' then Err(NonBase64Digit)
    else if n % 4 == 1 then Err(InvalidLength)
    else if |s| - n != PadsNeeded(n) then Err(IncorrectPadding)
    else
      FromSextetsLength(Sextets(s[..n]));
      Ok(FromSextets(Sextets(s[..n])))
  }

  // ---------------------------------------------------------------- properties

  /** The three bytes of one full group come back from its four sextets. */
  lemma {:induction false} GroupRoundTrip(a: Byte, b: Byte, c: Byte)
    ensures a / 4 * 4 + ((a % 4) * 16 + b / 16) / 16 == a
    ensures (((a % 4) * 16 + b / 16) % 16) * 16 + ((b % 16) * 4 + c / 64) / 4 == b
    ensures (((b % 16) * 4 + c / 64) % 4) * 64 + c % 64 == c
  {
    var s1 := (a % 4) * 16 + b / 16;
    assert s1 / 16 == a % 4 && s1 % 16 == b / 16;
    var s2 := (b % 16) * 4 + c / 64;
    assert s2 / 4 == b % 16 && s2 % 4 == c / 64;
  }

  lemma {:induction false} FromToSextets(b: seq<Byte>)
    ensures FromSextets(ToSextets(b)) == b
  {
    if |b| >= 3 {
      FromToSextets(b[3..]);
      GroupRoundTrip(b[0], b[1], b[2]);
      var q := ToSextets(b);
      assert q[4..] == ToSextets(b[3..]);
      assert b == [b[0], b[1], b[2]] + b[3..];
    } else if |b| == 2 {
      GroupRoundTrip(b[0], b[1], 0);
      assert b == [b[0], b[1]];
    } else if |b| == 1 {
      GroupRoundTrip(b[0], 0, 0);
      assert b == [b[0]];
    }
  }

  lemma {:induction false} SextetsOfChars(q: seq<Sextet>)
    ensures Sextets(Chars(q)) == q
  {
    forall i | 0 <= i < |q| ensures Sextets(Chars(q))[i] == q[i] {
      AlphabetInverse(q[i]);
    }
  }

  lemma {:induction false} DataLengthOfEncoding(d: string, p: string)
    requires forall i :: 0 <= i < |d| ==> IsAlphabet(d[i])
    requires forall i :: 0 <= i < |p| ==> p[i] == '='
    ensures DataLength(d + p) == |d|
  {
    if d != [] {
      assert (d + p)[1..] == d[1..] + p;
      DataLengthOfEncoding(d[1..], p);
    } else if p != [] {
      assert (d + p)[0] == '=';
    }
  }

  /** The encoding is alphabet characters followed by the padding that completes the last quantum. */
  lemma {:induction false} EncodeShape(b: seq<Byte>)
    ensures var s, n := Encode(b), |ToSextets(b)|;
      && DataLength(s) == n
      && IsAscii(s)
      && |s| - n <= 2
      && (forall i :: n <= i < |s| ==> s[i] == '=')
      && n % 4 != 1
      && (n % 4 == 2 ==> |s| - n == 2)
      && (n % 4 == 3 ==> |s| - n == 1)
  {
    var q := ToSextets(b);
    var d := Chars(q);
    var p := Padding(|b|);
    forall i | 0 <= i < |d| ensures IsAlphabet(d[i]) {
      AlphabetInverse(q[i]);
    }
    DataLengthOfEncoding(d, p);
    var s := d + p;
    assert IsAscii(s) by {
      forall i | 0 <= i < |s| ensures s[i] as int < 128 {
        if i < |d| { assert IsAlphabet(d[i]); } else { assert s[i] == p[i - |d|]; }
      }
    }
    var k, r := |b| / 3, |b| % 3;
    var tail := if r == 0 then 0 else r + 1;
    assert |q| == 4 * k + tail;
    assert |q| % 4 == tail;
    assert |p| == (if r == 1 then 2 else if r == 2 then 1 else 0);
  }

  /** Decoding the encoding of any byte string gives the bytes back. */
  lemma {:induction false} DecodeEncode(b: seq<Byte>)
    ensures Decode(Encode(b)) == Ok(b)
  {
    var q := ToSextets(b);
    var s := Encode(b);
    EncodeShape(b);
    assert s[..|q|] == Chars(q);
    SextetsOfChars(q);
    FromToSextets(b);
  }

  /** What the decoder accepts: exactly the texts of alphabet characters, not
    * one more than a multiple of 4, followed by exactly the completing '='. */
  lemma {:induction false} DecodeAccepts(s: string)
    ensures Decode(s).Ok? <==>
      var n := DataLength(s);
      && (forall i :: n <= i < |s| ==> s[i] == '=')
      && n % 4 != 1
      && |s| - n == PadsNeeded(n)
    ensures Decode(s).Ok? ==> |s| % 4 == 0
  {
    var n := DataLength(s);
    if (forall i :: n <= i < |s| ==> s[i] == '=') {
      assert IsAscii(s) by {
        forall i | 0 <= i < |s| ensures s[i] as int < 128 {
          if i < n { assert IsAlphabet(s[i]); } else { assert s[i] == '='; }
        }
      }
    }
  }

  /** A text of `d` data characters then `p` '=' has data length `|d|`. */
  lemma {:induction false} DataThenPads(d: string, p: string, s: string)
    requires s == d + p
    requires forall i :: 0 <= i < |d| ==> IsAlphabet(d[i])
    requires forall i :: 0 <= i < |p| ==> p[i] == '='
    ensures DataLength(s) == |d|
  {
    DataLengthOfEncoding(d, p);
  }

  /**
   * Strict mode refuses what a lenient decoder lets through: '=' after a full
   * quantum, '=' beyond the completing ones, a leading '=' and too few '='.
   */
  lemma {:induction false} StrictRejects()
    ensures Decode("AAAA=").Err? && Decode("AAA==").Err? && Decode("=").Err? && Decode("AA=").Err?
  {
    DataThenPads("AAAA", "=", "AAAA=");
    DataThenPads("AAA", "==", "AAA==");
    DataThenPads("", "=", "=");
    DataThenPads("AA", "=", "AA=");
  }

  /** The unused low bits of the last character are ignored. */
  lemma {:induction false} UnusedBitsIgnored()
    ensures Decode("AAA=") == Ok([0, 0]) && Decode("AB==") == Ok([0])
  {
    DataThenPads("AAA", "=", "AAA=");
    DataThenPads("AB", "==", "AB==");
    assert "AAA="[..3] == "AAA" && "AB=="[..2] == "AB";
    assert Sextets("AAA") == [0, 0, 0];
    assert Sextets("AB") == [0, 1];
  }

  lemma {:induction false} FromSextetsLength(q: seq<Sextet>)
    requires |q| % 4 != 1
    ensures |FromSextets(q)| == (6 * |q|) / 8
  {
    if |q| >= 4 {
      FromSextetsLength(q[4..]);
    }
  }
}
