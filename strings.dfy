/**
 * Text helpers shared by the models: Python's `str.isspace`, `str.strip` and
 * case conversion (over ASCII letters), and substring tests.
 */
module Strings {
  /** `str.isspace`: the characters `str.strip()` removes. */
  predicate IsSpace(c: char)
  {
    || c == ' ' || '\t' <= c <= '\r' || '\U{1C}' <= c <= '\U{1F}' || c == '\U{85}' || c == '\U{A0}'
    || c == '\U{1680}' || '\U{2000}' <= c <= '\U{200A}' || c == '\U{2028}' || c == '\U{2029}'
    || c == '\U{202F}' || c == '\U{205F}' || c == '\U{3000}'
  }

  /** ASCII upper-casing of one character. */
  function UpperChar(c: char): char
  {
    if 'a' <= c <= 'z' then (c as int - 32) as char else c
  }

  predicate EqualIgnoreCase(a: string, b: string)
  {
    |a| == |b| && forall i :: 0 <= i < |a| ==> UpperChar(a[i]) == UpperChar(b[i])
  }

  /** `re.match(p, s, flags=re.I)` for a literal `p`: `s` starts with `p` up to case. */
  predicate StartsWithIgnoreCase(s: string, p: string)
  {
    |p| <= |s| && EqualIgnoreCase(s[..|p|], p)
  }

  function LStrip(s: string): (r: string)
    ensures |r| <= |s| && r == s[|s| - |r|..]
    ensures r != [] ==> !IsSpace(r[0])
    ensures forall i :: 0 <= i < |s| - |r| ==> IsSpace(s[i])
  {
    if s != [] && IsSpace(s[0]) then LStrip(s[1..]) else s
  }

  function RStrip(s: string): (r: string)
    ensures |r| <= |s| && r == s[..|r|]
    ensures r != [] ==> !IsSpace(r[|r| - 1])
    ensures forall i :: |r| <= i < |s| ==> IsSpace(s[i])
  {
    if s != [] && IsSpace(s[|s| - 1]) then RStrip(s[..|s| - 1]) else s
  }

  /** `str.strip()`: whitespace removed from both ends, nothing else. */
  function Strip(s: string): (r: string)
  {
    RStrip(LStrip(s))
  }

  /** `r` is the part of `s` at `k`, and everything around it is whitespace. */
  predicate SurroundedBySpace(s: string, r: string, k: nat)
  {
    && k + |r| <= |s| && r == s[k..k + |r|]
    && (forall i :: 0 <= i < k ==> IsSpace(s[i]))
    && (forall i :: k + |r| <= i < |s| ==> IsSpace(s[i]))
  }

  /** Stripping keeps a contiguous part of the text, with no whitespace at either end and only whitespace removed. */
  lemma {:induction false} StripSpec(s: string)
    ensures exists k :: SurroundedBySpace(s, Strip(s), k)
    ensures Strip(s) != [] ==> !IsSpace(Strip(s)[0]) && !IsSpace(Strip(s)[|Strip(s)| - 1])
  {
    var l := LStrip(s);
    var r := RStrip(l);
    assert Strip(s) == r;
    StripSurrounded(s, l, r);
    assert SurroundedBySpace(s, Strip(s), |s| - |l|);
    if r != [] {
      assert r[0] == l[0];
      assert !IsSpace(r[|r| - 1]);
    }
  }

  /** What `LStrip` and then `RStrip` leave: a slice of `s` with only whitespace around it. */
  lemma {:induction false} StripSurrounded(s: string, l: string, r: string)
    requires |l| <= |s| && l == s[|s| - |l|..] && forall i :: 0 <= i < |s| - |l| ==> IsSpace(s[i])
    requires |r| <= |l| && r == l[..|r|] && forall i :: |r| <= i < |l| ==> IsSpace(l[i])
    ensures SurroundedBySpace(s, r, |s| - |l|)
  {
    var k: nat := |s| - |l|;
    forall j | 0 <= j < |r| ensures r[j] == s[k + j] {
      assert r[j] == l[j];
    }
    assert r == s[k..k + |r|];
    forall i | k + |r| <= i < |s| ensures IsSpace(s[i]) {
      assert s[i] == l[i - k];
    }
  }

  /** Leading whitespace before a non-space character is all `LStrip` removes. */
  lemma {:induction false} LStripSpaces(lead: string, t: string)
    requires forall i :: 0 <= i < |lead| ==> IsSpace(lead[i])
    requires t != [] && !IsSpace(t[0])
    ensures LStrip(lead + t) == t
    decreases |lead|
  {
    if lead == [] {
      assert lead + t == t;
    } else {
      var u := lead + t;
      assert u[0] == lead[0];
      assert u[1..] == lead[1..] + t;
      LStripSpaces(lead[1..], t);
    }
  }

  /** Trailing whitespace after a non-space character is all `RStrip` removes. */
  lemma {:induction false} RStripSpaces(t: string, trail: string)
    requires forall i :: 0 <= i < |trail| ==> IsSpace(trail[i])
    requires t != [] && !IsSpace(t[|t| - 1])
    ensures RStrip(t + trail) == t
    decreases |trail|
  {
    if trail == [] {
      assert t + trail == t;
    } else {
      var u := t + trail;
      assert u[..|u| - 1] == t + trail[..|trail| - 1];
      RStripSpaces(t, trail[..|trail| - 1]);
    }
  }

  /** Stripping whitespace put around text with no whitespace at its ends gives the text back. */
  lemma {:induction false} StripPadded(lead: string, s: string, trail: string)
    requires forall i :: 0 <= i < |lead| ==> IsSpace(lead[i])
    requires forall i :: 0 <= i < |trail| ==> IsSpace(trail[i])
    requires s != [] && !IsSpace(s[0]) && !IsSpace(s[|s| - 1])
    ensures Strip(lead + s + trail) == s
  {
    assert lead + s + trail == lead + (s + trail);
    assert (s + trail)[0] == s[0];
    LStripSpaces(lead, s + trail);
    RStripSpaces(s, trail);
  }

  /** Text with no whitespace at either end is left as it is. */
  lemma {:induction false} StripUnchanged(s: string)
    requires s != [] ==> !IsSpace(s[0]) && !IsSpace(s[|s| - 1])
    ensures Strip(s) == s
  {
  }


  /** `str.upper()`, over ASCII letters. */
  function Upper(s: string): (r: string)
    ensures |r| == |s| && forall i :: 0 <= i < |s| ==> r[i] == UpperChar(s[i])
    ensures forall i :: 0 <= i < |r| ==> !('a' <= r[i] <= 'z')
    ensures forall i :: 0 <= i < |s| ==> LowerChar(r[i]) == LowerChar(s[i])
  {
    seq(|s|, i requires 0 <= i < |s| => UpperChar(s[i]))
  }

  /** ASCII lower-casing of one character: `str.lower` on ASCII text, and C's `tolower` in the "C" locale. */
  function LowerChar(c: char): char
  {
    if 'A' <= c <= 'Z' then (c as int + 32) as char else c
  }

  /** `str.lower()`, over ASCII letters. */
  function Lower(s: string): (r: string)
    ensures |r| == |s| && forall i :: 0 <= i < |s| ==> r[i] == LowerChar(s[i])
    ensures forall i :: 0 <= i < |r| ==> !('A' <= r[i] <= 'Z')
    ensures forall i :: 0 <= i < |s| ==> UpperChar(r[i]) == UpperChar(s[i])
  {
    seq(|s|, i requires 0 <= i < |s| => LowerChar(s[i]))
  }

  /** `s.startswith(p)`. */
  predicate StartsWith(s: string, p: string)
  {
    |p| <= |s| && s[..|p|] == p
  }

  /** `s.endswith(p)`. */
  predicate EndsWith(s: string, p: string)
  {
    |p| <= |s| && s[|s| - |p|..] == p
  }

  /** `x` occurs in `y` at `a`. */
  predicate OccursAt(x: string, y: string, a: nat)
  {
    a + |x| <= |y| && y[a..a + |x|] == x
  }

  /** `x in y` for strings: `x` occurs somewhere in `y`. */
  predicate IsSubstring(x: string, y: string)
  {
    exists a: nat | a <= |y| :: OccursAt(x, y, a)
  }

  /** Every string occurs in itself. */
  lemma {:induction false} SubstringOfSelf(x: string)
    ensures IsSubstring(x, x)
  {
    assert OccursAt(x, x, 0);
  }

  /** A string longer than another does not occur in it. */
  lemma {:induction false} LongerIsNotSubstring(x: string, y: string)
    requires |x| > |y|
    ensures !IsSubstring(x, y)
  {
  }
}
