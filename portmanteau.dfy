/**
 * The last step of the preset-dictionary builder
 * (`zdict_experiments/gen_dict.py`): the ranked substrings chained into one
 * "portmanteau" string, each prepended less its overlap with what is already
 * there, until the dictionary passes 0x8000 characters.
 */
module Portmanteau {
  import opened Strings

  const TARGET_DICT_SIZE: nat := 0x8000

  /** `zdict.startswith(s[-m:])`: the last `m` characters of `s` begin `zdict`. */
  predicate SuffixStarts(zdict: string, s: string, m: nat)
  {
    m <= |s| && StartsWith(zdict, s[|s| - m..])
  }

  /**
   * The longest overlap of at most `k` characters between the end of `s` and
   * the start of `zdict`: the suffixes are tried longest first and the first
   * that `zdict` starts with wins.
   */
  function OverlapAtMost(zdict: string, s: string, k: nat): (r: nat)
    requires k <= |s|
    ensures r <= k
    ensures r > 0 ==> SuffixStarts(zdict, s, r)
    ensures forall m :: r < m <= k ==> !SuffixStarts(zdict, s, m)
  {
    if k == 0 then 0
    else if SuffixStarts(zdict, s, k) then k
    else OverlapAtMost(zdict, s, k - 1)
  }

  /** `range(1 - len(substring), 0)`: overlaps of one character up to all but one. */
  function Overlap(zdict: string, s: string): (r: nat)
    ensures r < |s| || r == 0
  {
    if s == [] then 0 else OverlapAtMost(zdict, s, |s| - 1)
  }

  /** One step: the substring, less its overlap with the current dictionary, put in front of it. */
  function Prepended(zdict: string, s: string): string
  {
    s[..|s| - Overlap(zdict, s)] + zdict
  }

  /**
   * After a step the dictionary starts with the whole, untrimmed substring and
   * ends with the previous dictionary, and no longer proper overlap would do.
   */
  lemma {:induction false} PrependedShape(zdict: string, s: string)
    ensures StartsWith(Prepended(zdict, s), s)
    ensures EndsWith(Prepended(zdict, s), zdict)
    ensures |Prepended(zdict, s)| == |zdict| + |s| - Overlap(zdict, s)
    ensures forall m :: Overlap(zdict, s) < m < |s| ==> !SuffixStarts(zdict, s, m)
  {
    var r := Prepended(zdict, s);
    var o := Overlap(zdict, s);
    var cut := |s| - o;
    assert r[..cut] == s[..cut];
    if o > 0 {
      assert r[cut..|s|] == zdict[..o] == s[cut..];
    }
    assert r[..|s|] == s[..cut] + s[cut..];
    assert r[|r| - |zdict|..] == zdict;
  }

  /** The loop over the ranked substrings: prepend each, and stop after the first step that passes 0x8000 characters. */
  function Built(ranked: seq<string>, zdict: string): string
  {
    if ranked == [] then zdict
    else
      var next := Prepended(zdict, ranked[0]);
      if |next| > TARGET_DICT_SIZE then next else Built(ranked[1..], next)
  }

  /** How many substrings the loop takes before it stops. */
  function Used(ranked: seq<string>, zdict: string): (n: nat)
    ensures n <= |ranked|
  {
    if ranked == [] then 0
    else
      var next := Prepended(zdict, ranked[0]);
      if |next| > TARGET_DICT_SIZE then 1 else 1 + Used(ranked[1..], next)
  }

  /** A substring of a string's start or of its end is a substring of it. */
  lemma {:induction false} SubstringOfStartOrEnd(x: string, part: string, whole: string)
    requires IsSubstring(x, part)
    requires StartsWith(whole, part) || EndsWith(whole, part)
    ensures IsSubstring(x, whole)
  {
    var a: nat :| a <= |part| && OccursAt(x, part, a);
    if StartsWith(whole, part) {
      assert whole[a..a + |x|] == part[a..a + |x|];
      assert OccursAt(x, whole, a);
    } else {
      var b: nat := |whole| - |part| + a;
      assert whole[b..b + |x|] == part[a..a + |x|];
      assert OccursAt(x, whole, b);
    }
  }

  /**
   * The dictionary contains every substring the loop took, ends with the
   * dictionary it started from, and the loop stopped early only once the
   * dictionary had grown past 0x8000 characters.
   */
  lemma {:induction false} BuiltCovers(ranked: seq<string>, zdict: string)
    ensures EndsWith(Built(ranked, zdict), zdict)
    ensures forall k :: 0 <= k < Used(ranked, zdict) ==> IsSubstring(ranked[k], Built(ranked, zdict))
    ensures Used(ranked, zdict) == |ranked| || |Built(ranked, zdict)| > TARGET_DICT_SIZE
  {
    if ranked != [] {
      var next := Prepended(zdict, ranked[0]);
      var r := Built(ranked, zdict);
      PrependedShape(zdict, ranked[0]);
      SubstringOfSelf(ranked[0]);
      SubstringOfStartOrEnd(ranked[0], ranked[0], next);
      if |next| <= TARGET_DICT_SIZE {
        BuiltCovers(ranked[1..], next);
        SubstringOfStartOrEnd(ranked[0], next, r);
        assert r[|r| - |zdict|..] == next[|next| - |zdict|..];
        forall k | 1 <= k < Used(ranked, zdict) ensures IsSubstring(ranked[k], r) {
          assert ranked[k] == ranked[1..][k - 1];
        }
      }
    }
  }

  /** The last loop, with the suffix search of each step written out. */
  method BuildDictionary(ranked: seq<string>) returns (zdict: string)
    ensures zdict == Built(ranked, [])
  {
    zdict := [];
    var i := 0;
    while i < |ranked|
      invariant 0 <= i <= |ranked|
      invariant Built(ranked, []) == Built(ranked[i..], zdict)
    {
      var substring := ranked[i];
      var m: nat := if substring == [] then 0 else |substring| - 1;
      while m >= 1
        invariant m <= |substring| && substring == ranked[i]
        invariant Overlap(zdict, substring) == OverlapAtMost(zdict, substring, m)
      {
        if SuffixStarts(zdict, substring, m) {
          substring := substring[..|substring| - m];
          break;
        }
        m := m - 1;
      }
      assert substring == ranked[i][..|ranked[i]| - Overlap(zdict, ranked[i])];
      assert ranked[i..][1..] == ranked[i + 1..];
      zdict := substring + zdict;
      if |zdict| > TARGET_DICT_SIZE {
        break;
      }
      i := i + 1;
    }
  }

}
