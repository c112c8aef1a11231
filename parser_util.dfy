/**
 * Case-insensitive text and command detection for the mod-file parser
 * (`file_parser/util.cpp`): characters compare by their `tolower` in the "C"
 * locale, and a line is a command when its first word is `say`, `exec` or
 * `set` (or, where allowed, when it starts with `spark`).
 */
module ParserUtil {
  import opened Wrappers
  import opened Strings

  /** `std::isspace` in the "C" locale. */
  predicate IsCSpace(c: char)
  {
    c == ' ' || '\t' <= c <= '\r'
  }

  /** `CaseInsensitiveTraits::eq`. */
  predicate CharEq(a: char, b: char)
  {
    LowerChar(a) == LowerChar(b)
  }

  /** `CaseInsensitiveTraits::lt`. */
  predicate CharLt(a: char, b: char)
  {
    LowerChar(a) < LowerChar(b)
  }

  /** Lexicographic three-way comparison of two texts of one length: -1, 0 or 1. */
  function LexCompare(a: string, b: string): (r: int)
    requires |a| == |b|
    ensures r == -1 || r == 0 || r == 1
    decreases |a|
  {
    if a == [] then 0
    else if a[0] < b[0] then -1
    else if a[0] > b[0] then 1
    else LexCompare(a[1..], b[1..])
  }

  /** Three-way comparison is 0 exactly on equal texts and changes sign when the arguments swap. */
  lemma {:induction false} LexCompareProperties(a: string, b: string)
    requires |a| == |b|
    ensures LexCompare(a, b) == 0 <==> a == b
    ensures LexCompare(b, a) == -LexCompare(a, b)
    decreases |a|
  {
    if a != [] && a[0] == b[0] {
      LexCompareProperties(a[1..], b[1..]);
      assert a == [a[0]] + a[1..] && b == [b[0]] + b[1..];
    }
  }

  /**
   * `CaseInsensitiveTraits::compare(a, b, n)`: walks the first `n`
   * characters and answers -1 or 1 at the first pair whose lower-cased forms
   * differ, 0 when there is none.
   */
  method Compare(a: string, b: string, n: nat) returns (r: int)
    requires n <= |a| && n <= |b|
    ensures r == LexCompare(Lower(a[..n]), Lower(b[..n]))
  {
    ghost var x, y := Lower(a[..n]), Lower(b[..n]);
    var i := 0;
    while i < n
      invariant 0 <= i <= n
      invariant LexCompare(x, y) == LexCompare(x[i..], y[i..])
    {
      assert x[i..][0] == LowerChar(a[i]) && y[i..][0] == LowerChar(b[i]);
      if LowerChar(a[i]) < LowerChar(b[i]) {
        return -1;
      }
      if LowerChar(a[i]) > LowerChar(b[i]) {
        return 1;
      }
      assert x[i..][1..] == x[i + 1..] && y[i..][1..] == y[i + 1..];
      i := i + 1;
    }
    r := 0;
  }

  /** `compare` is 0 exactly when the first `n` characters agree up to case. */
  lemma {:induction false} CompareIsCaseInsensitiveEquality(a: string, b: string, n: nat)
    requires n <= |a| && n <= |b|
    ensures LexCompare(Lower(a[..n]), Lower(b[..n])) == 0 <==> forall i :: 0 <= i < n ==> CharEq(a[i], b[i])
  {
    LexCompareProperties(Lower(a[..n]), Lower(b[..n]));
    if forall i :: 0 <= i < n ==> CharEq(a[i], b[i]) {
      assert Lower(a[..n]) == Lower(b[..n]);
    }
  }

  /** `==` between case-insensitive views: same length and the same characters up to case. */
  predicate CiEquals(a: string, b: string)
  {
    |a| == |b| && Lower(a) == Lower(b)
  }

  /** `starts_with` on a case-insensitive view. */
  predicate CiStartsWith(s: string, p: string)
  {
    |p| <= |s| && CiEquals(s[..|p|], p)
  }

  /** `needle` occurs at `j` of `hay`, up to case. */
  predicate CiMatchAt(hay: string, needle: string, j: nat)
  {
    j + |needle| <= |hay| && CiEquals(hay[j..j + |needle|], needle)
  }

  /** `find(needle, from)` on a case-insensitive view: the first match at or after `from`, `None` for `npos`. */
  function CiFind(hay: string, needle: string, from: nat): (r: Option<nat>)
    ensures r.Some? ==> from <= r.value && CiMatchAt(hay, needle, r.value)
    ensures r.Some? ==> forall j :: from <= j < r.value ==> !CiMatchAt(hay, needle, j)
    ensures r.None? ==> forall j :: from <= j ==> !CiMatchAt(hay, needle, j)
    decreases |hay| - from
  {
    if from + |needle| > |hay| then None
    else if CiMatchAt(hay, needle, from) then Some(from)
    else CiFind(hay, needle, from + 1)
  }

  /** Whether `needle` occurs anywhere in `hay`, up to case. */
  predicate CiContains(hay: string, needle: string)
  {
    CiFind(hay, needle, 0).Some?
  }

  /** `find_if_not(isspace)`: the index of the first non-space character, `|s|` when there is none. */
  function FirstNonSpace(s: string): (i: nat)
    ensures i <= |s|
    ensures forall j :: 0 <= j < i ==> IsCSpace(s[j])
    ensures i < |s| ==> !IsCSpace(s[i])
  {
    if s == [] || !IsCSpace(s[0]) then 0 else 1 + FirstNonSpace(s[1..])
  }

  /** `find_if(isspace)`: the index of the first space character, `|s|` when there is none. */
  function FirstSpace(s: string): (i: nat)
    ensures i <= |s|
    ensures forall j :: 0 <= j < i ==> !IsCSpace(s[j])
    ensures i < |s| ==> IsCSpace(s[i])
  {
    if s == [] || IsCSpace(s[0]) then 0 else 1 + FirstSpace(s[1..])
  }

  /** The words that start a command. */
  predicate IsCommandWord(w: string)
  {
    CiEquals(w, "say") || CiEquals(w, "exec") || CiEquals(w, "set")
  }

  /**
   * `is_command(str, allow_spark)`: false for blank text; after the leading
   * whitespace, true when spark commands are allowed and the text starts with
   * "spark"; otherwise true when the first word is say, exec or set, all up
   * to case. `allow_spark` defaults to false at the call sites that omit it.
   */
  function IsCommand(s: string, allowSpark: bool): (r: bool)
    ensures (forall j :: 0 <= j < |s| ==> IsCSpace(s[j])) ==> !r
  {
    var start := FirstNonSpace(s);
    if start == |s| then false
    else
      var rest := s[start..];
      if allowSpark && CiStartsWith(rest, "spark") then true
      else IsCommandWord(rest[..FirstSpace(rest)])
  }

  /** Leading whitespace does not change whether a line is a command. */
  lemma {:induction false} LeadingSpaceIgnored(c: char, s: string, allowSpark: bool)
    requires IsCSpace(c)
    ensures IsCommand([c] + s, allowSpark) == IsCommand(s, allowSpark)
  {
    assert ([c] + s)[1..] == s;
  }

  /** With spark commands allowed, any text starting with "spark" after its whitespace is a command, word boundary or not. */
  lemma {:induction false} SparkPrefixIsCommand(spaces: string, t: string)
    requires forall j :: 0 <= j < |spaces| ==> IsCSpace(spaces[j])
    requires CiStartsWith(t, "spark")
    ensures IsCommand(spaces + t, true)
  {
    var s := spaces + t;
    assert FirstNonSpace(s) == |spaces| by {
      assert !IsCSpace(t[0]) by { assert LowerChar(t[0]) == 's'; }
      assert s[|spaces|] == t[0];
    }
    assert s[|spaces|..] == t;
  }

  /** Otherwise the first word decides: a word with no space, followed by nothing or by a space. */
  lemma {:induction false} FirstWordDecides(w: string, rest: string, allowSpark: bool)
    requires w != [] && forall j :: 0 <= j < |w| ==> !IsCSpace(w[j])
    requires rest == [] || IsCSpace(rest[0])
    requires !(allowSpark && CiStartsWith(w + rest, "spark"))
    ensures IsCommand(w + rest, allowSpark) <==> IsCommandWord(w)
  {
    var s := w + rest;
    assert s[0] == w[0];
    assert FirstNonSpace(s) == 0;
    assert s[0..] == s;
    if rest != [] {
      assert s[|w|] == rest[0];
    }
    assert FirstSpace(s) == |w|;
    assert s[..|w|] == w;
  }

  /** "settings" is not a command: the first word must match whole. */
  lemma {:induction false} SettingsIsNotCommand(rest: string, allowSpark: bool)
    requires rest == [] || IsCSpace(rest[0])
    ensures !IsCommand("settings" + rest, allowSpark)
  {
    var s := "settings" + rest;
    assert Lower(s[..5])[1] == 'e' && Lower("spark")[1] == 'p';
    FirstWordDecides("settings", rest, allowSpark);
  }
}
