/**
 * The counting steps of the preset-dictionary builder
 * (`zdict_experiments/gen_dict.py`): every substring of at least three
 * characters of every upper-cased part name is counted, and those seen at
 * least seven times are retained.
 */
module SubstringCounts {
  import opened Strings

  const MIN_SUBSTRING_LEN: nat := 3
  const MIN_SUBSTRING_REPEATS: nat := 7

  // ---------------------------------------------------------------- counting

  /** `line[start:end]` for `end` from `start + 1` below `upTo`, kept when at least three characters long. */
  function RowUpTo(line: string, start: nat, upTo: nat): multiset<string>
    requires start < upTo <= |line|
    decreases upTo
  {
    if upTo == start + 1 then multiset{}
    else
      RowUpTo(line, start, upTo - 1)
        + (if upTo - 1 - start >= MIN_SUBSTRING_LEN then multiset{line[start..upTo - 1]} else multiset{})
  }

  /** The substrings of every pair `start < end < len(line)` whose start is below `starts`. */
  function Rows(line: string, starts: nat): multiset<string>
    requires starts <= |line|
  {
    if starts == 0 then multiset{} else Rows(line, starts - 1) + RowUpTo(line, starts - 1, |line|)
  }

  /** The substrings one line contributes: `itertools.combinations(range(len(line)), r=2)`, filtered by length. */
  function LineSubstrings(line: string): multiset<string>
  {
    Rows(line, |line|)
  }

  /** The counter after the given lines, as a multiset. */
  function AllSubstrings(lines: seq<string>): multiset<string>
  {
    if lines == [] then multiset{}
    else AllSubstrings(lines[..|lines| - 1]) + LineSubstrings(Upper(lines[|lines| - 1]))
  }

  /**
   * `s` is `line[a:e]` for a pair `a < e` that the first loop visits: at least
   * three characters long, and `e` below `len(line)`.
   */
  predicate Counted(line: string, s: string, a: nat, e: nat)
  {
    a + MIN_SUBSTRING_LEN <= e < |line| && line[a..e] == s
  }

  /** The first loop: count every substring of every upper-cased line. */
  method CountSubstrings(lines: seq<string>) returns (counts: multiset<string>)
    ensures counts == AllSubstrings(lines)
  {
    counts := multiset{};
    for k := 0 to |lines|
      invariant counts == AllSubstrings(lines[..k])
    {
      assert lines[..k + 1][..k] == lines[..k];
      var line := Upper(lines[k]);
      counts := CountLine(line, counts);
    }
    assert lines[..|lines|] == lines;
  }

  /** The loop over the start indices of one line. */
  method CountLine(line: string, before: multiset<string>) returns (counts: multiset<string>)
    ensures counts == before + LineSubstrings(line)
  {
    counts := before;
    for start := 0 to |line|
      invariant counts == before + Rows(line, start)
    {
      ghost var rows := Rows(line, start);
      ghost var row := RowUpTo(line, start, |line|);
      counts := CountRow(line, start, counts);
      assert counts == (before + rows) + row;
      RowsStep(line, start);
      assert Rows(line, start + 1) == rows + row;
      UnionAssoc(before, rows, row);
    }
  }

  /** One more start index adds its row. */
  lemma {:induction false} RowsStep(line: string, start: nat)
    requires start < |line|
    ensures Rows(line, start + 1) == Rows(line, start) + RowUpTo(line, start, |line|)
  {
  }

  /** Multiset union is associative. */
  lemma {:induction false} UnionAssoc<T>(a: multiset<T>, b: multiset<T>, c: multiset<T>)
    ensures (a + b) + c == a + (b + c)
  {
  }

  /** The loop over the end indices for one start index. */
  method CountRow(line: string, start: nat, before: multiset<string>) returns (counts: multiset<string>)
    requires start < |line|
    ensures counts == before + RowUpTo(line, start, |line|)
  {
    counts := before;
    for end := start + 1 to |line|
      invariant counts == before + RowUpTo(line, start, end)
    {
      ghost var row := RowUpTo(line, start, end);
      ghost var step := RowUpTo(line, start, end + 1);
      if end - start >= MIN_SUBSTRING_LEN {
        counts := counts + multiset{line[start..end]};
        assert step == row + multiset{line[start..end]};
        UnionAssoc(before, row, multiset{line[start..end]});
      } else {
        assert step == row;
      }
    }
  }

  /** A row holds exactly the long-enough substrings at its start that end below `upTo`. */
  lemma {:induction false} RowMembers(line: string, start: nat, upTo: nat, s: string)
    requires start < upTo <= |line|
    ensures s in RowUpTo(line, start, upTo) <==> exists e: nat :: e < upTo && Counted(line, s, start, e)
    decreases upTo
  {
    if upTo > start + 1 {
      RowMembers(line, start, upTo - 1, s);
      var rest := RowUpTo(line, start, upTo - 1);
      var last: multiset<string> :=
        if upTo - 1 - start >= MIN_SUBSTRING_LEN then multiset{line[start..upTo - 1]} else multiset{};
      assert RowUpTo(line, start, upTo) == rest + last;
      if s in last {
        assert Counted(line, s, start, upTo - 1);
      }
      if exists e: nat :: e < upTo && Counted(line, s, start, e) {
        var e: nat :| e < upTo && Counted(line, s, start, e);
        if e == upTo - 1 {
          assert s in last;
        } else {
          assert s in rest;
        }
      }
    }
  }

  /** The rows below `starts` hold exactly the substrings counted at some start below `starts`. */
  lemma {:induction false} RowsMembers(line: string, starts: nat, s: string)
    requires starts <= |line|
    ensures s in Rows(line, starts) <==> exists a: nat, e: nat :: a < starts && Counted(line, s, a, e)
  {
    if starts > 0 {
      var rows, row := Rows(line, starts - 1), RowUpTo(line, starts - 1, |line|);
      assert Rows(line, starts) == rows + row;
      RowsMembers(line, starts - 1, s);
      RowMembers(line, starts - 1, |line|, s);
      if s in row {
        var e: nat :| e < |line| && Counted(line, s, starts - 1, e);
      }
      if exists a: nat, e: nat :: a < starts && Counted(line, s, a, e) {
        var a: nat, e: nat :| a < starts && Counted(line, s, a, e);
        if a == starts - 1 {
          assert s in row;
        } else {
          assert s in rows;
        }
      }
    }
  }

  /**
   * A substring is counted exactly when it is `line[a:e]` of an upper-cased
   * line for a pair the loop visits. The end index ranges over
   * `range(len(line))`, so the last character of a line is never part of a
   * counted substring.
   */
  lemma {:induction false} CountedSubstrings(lines: seq<string>, s: string)
    ensures s in AllSubstrings(lines) <==>
      exists k: nat, a: nat, e: nat :: k < |lines| && Counted(Upper(lines[k]), s, a, e)
  {
    if lines != [] {
      var n := |lines| - 1;
      var front := lines[..n];
      var line := Upper(lines[n]);
      assert AllSubstrings(lines) == AllSubstrings(front) + LineSubstrings(line);
      CountedSubstrings(front, s);
      RowsMembers(line, |line|, s);
      if s in LineSubstrings(line) {
        var a: nat, e: nat :| a < |line| && Counted(line, s, a, e);
      }
      if s in AllSubstrings(front) {
        var k: nat, a: nat, e: nat :| k < n && Counted(Upper(front[k]), s, a, e);
        assert front[k] == lines[k];
      }
      if exists k: nat, a: nat, e: nat :: k < |lines| && Counted(Upper(lines[k]), s, a, e) {
        var k: nat, a: nat, e: nat :| k < |lines| && Counted(Upper(lines[k]), s, a, e);
        if k < n {
          assert front[k] == lines[k];
          assert s in AllSubstrings(front);
        } else {
          assert s in LineSubstrings(line);
        }
      }
    }
  }

  // ---------------------------------------------------------------- filtering and grouping

  /** The second step: the counter restricted to the substrings seen at least seven times. */
  function Frequent(counts: multiset<string>): (r: map<string, nat>)
  {
    map s | s in counts && counts[s] >= MIN_SUBSTRING_REPEATS :: counts[s]
  }

  /** Every retained substring was counted at least seven times, and only those are retained. */
  lemma {:induction false} FrequentMembers(counts: multiset<string>, s: string)
    ensures s in Frequent(counts) <==> counts[s] >= MIN_SUBSTRING_REPEATS
    ensures s in Frequent(counts) ==> Frequent(counts)[s] == counts[s] >= MIN_SUBSTRING_REPEATS
  {
  }

}
