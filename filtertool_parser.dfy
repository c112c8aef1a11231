/**
 * The FilterTool description scanner (`file_parser/filtertool_parser.cpp`):
 * after the root category header, comment lines are collected until a
 * command or a category header; the first header naming a description
 * category instead restarts the collection inside that category.
 */
module FiltertoolParser {
  import opened Wrappers
  import opened ParserUtil

  /** The text without its trailing whitespace (`std::isspace`). */
  function TrimEnd(s: string): (r: string)
    ensures |r| <= |s| && r == s[..|r|]
    ensures r != [] ==> !IsCSpace(r[|r| - 1])
    ensures forall j :: |r| <= j < |s| ==> IsCSpace(s[j])
  {
    if s != [] && IsCSpace(s[|s| - 1]) then TrimEnd(s[..|s| - 1]) else s
  }

  /** The line between its first and last non-space characters. */
  function Trimmed(line: string): (r: string)
    ensures |r| <= |line|
    ensures r != [] ==> !IsCSpace(r[0]) && !IsCSpace(r[|r| - 1])
    ensures r == [] <==> forall j :: 0 <= j < |line| ==> IsCSpace(line[j])
  {
    TrimEnd(line[FirstNonSpace(line)..])
  }

  /** Where `last_non_space.base()` points: one past the last non-space character, the start when there is none. */
  function EndOfNonSpace(s: string): (e: nat)
    ensures e <= |s|
    ensures e > 0 ==> !IsCSpace(s[e - 1])
    ensures forall j :: e <= j < |s| ==> IsCSpace(s[j])
  {
    if s != [] && IsCSpace(s[|s| - 1]) then EndOfNonSpace(s[..|s| - 1]) else |s|
  }

  /**
   * The `string_view` built from the two searches, as written: on a non-empty
   * line of whitespace only, the first search ends at the end and the second
   * at the start, so the range is inverted and the view is undefined
   * behaviour (`None`).
   */
  function TrimmedAsWritten(line: string): Option<string>
  {
    var first := FirstNonSpace(line);
    var last := EndOfNonSpace(line);
    if first <= last then Some(line[first..last]) else None
  }

  /** Two prefixes of `t` that each end in a non-space and leave only spaces after them are equal. */
  lemma {:induction false} TrimmedPrefixUnique(t: string, a: nat, b: nat)
    requires a <= |t| && b <= |t|
    requires a > 0 ==> !IsCSpace(t[a - 1])
    requires b > 0 ==> !IsCSpace(t[b - 1])
    requires forall j :: a <= j < |t| ==> IsCSpace(t[j])
    requires forall j :: b <= j < |t| ==> IsCSpace(t[j])
    ensures a == b
  {
  }

  /**
   * Wherever the as-written view is defined it is the trimmed line, and it is
   * undefined exactly on the non-empty lines of whitespace only, such as " ",
   * which the corrected reading trims to "".
   */
  lemma {:induction false} BlankLineInvertsView(line: string)
    ensures TrimmedAsWritten(line).Some? ==> TrimmedAsWritten(line).value == Trimmed(line)
    ensures TrimmedAsWritten(line).None? <==> line != [] && forall j :: 0 <= j < |line| ==> IsCSpace(line[j])
    ensures TrimmedAsWritten(" ").None? && Trimmed(" ") == ""
  {
    var first := FirstNonSpace(line);
    var last := EndOfNonSpace(line);
    if first <= last {
      var t := line[first..];
      var r := TrimEnd(t);
      TrimmedPrefixUnique(t, |r|, last - first);
      assert line[first..last] == t[..last - first];
    }
    assert FirstNonSpace(" ") == 1 && EndOfNonSpace(" ") == 0;
    assert TrimEnd(" "[1..]) == "";
  }

  /** A category header: starts with "#<" and ends with '>'. */
  predicate IsHeader(t: string)
  {
    |t| >= 2 && t[..2] == "#<" && t[|t| - 1] == '>'
  }

  /** The name between "#<" and '>'. */
  function CategoryName(t: string): string
    requires IsHeader(t)
  {
    t[2..|t| - 1]
  }

  /** A header whose name contains "description", up to case. */
  predicate IsDescriptionHeader(t: string)
  {
    IsHeader(t) && CiContains(CategoryName(t), "description")
  }

  /** A line collected as a comment: neither a header nor a command (spark commands not included). */
  predicate IsCommentLine(line: string)
  {
    !IsHeader(Trimmed(line)) && !IsCommand(Trimmed(line), false)
  }

  /** What one line after the first does to the scan. */
  datatype LineKind = CommentKind | DescriptionStart | EndOfDescription

  /** The kind of a line, given whether the description category has started. */
  function KindOf(line: string, started: bool): (k: LineKind)
    ensures k == CommentKind <==> IsCommentLine(line)
    ensures k == DescriptionStart <==> !started && IsDescriptionHeader(Trimmed(line))
  {
    var trimmed := Trimmed(line);
    if IsHeader(trimmed) then
      if !started && CiContains(CategoryName(trimmed), "description") then DescriptionStart else EndOfDescription
    else if !IsCommand(trimmed, false) then CommentKind
    else EndOfDescription
  }

  lemma {:induction false} SliceExtend(lines: seq<string>, a: nat, b: nat)
    requires a <= b < |lines|
    ensures lines[a..b + 1] == lines[a..b] + [lines[b]]
  {
  }

  /** Every line from the second up to `stop`, except the description header, is a comment line. */
  predicate CommentLinesBefore(lines: seq<string>, stop: nat, header: Option<nat>)
  {
    stop <= |lines| && forall i :: 1 <= i < stop && header != Some(i) ==> IsCommentLine(lines[i])
  }

  /** Where the collected comments start: after the description header, or after the first line. */
  function CollectedFrom(header: Option<nat>): nat
  {
    if header.Some? then header.value + 1 else 1
  }

  lemma {:induction false} CommentLinesStep(lines: seq<string>, stop: nat, before: Option<nat>, after: Option<nat>)
    requires stop < |lines| && CommentLinesBefore(lines, stop, before)
    requires after == before || (before == None && after == Some(stop))
    requires IsCommentLine(lines[stop]) || after == Some(stop)
    ensures CommentLinesBefore(lines, stop + 1, after)
  {
  }

  /**
   * `parse_filtertool_file`: the first line is discarded. Then, from the
   * second line, comment lines are collected untrimmed and in order until a
   * command or a header ends the scan at `stop`, except for the first header
   * naming a description category (at `header`), which discards what was
   * collected and carries on inside that category.
   */
  method ParseFiltertoolFile(lines: seq<string>) returns (comments: seq<string>, stop: nat, ghost header: Option<nat>)
    ensures lines == [] ==> stop == 0 && comments == [] && header == None
    ensures lines != [] ==> 1 <= stop <= |lines|
    ensures CommentLinesBefore(lines, stop, header)
    ensures header.Some? ==> 1 <= header.value < stop && IsDescriptionHeader(Trimmed(lines[header.value]))
    ensures lines != [] ==> CollectedFrom(header) <= stop && comments == lines[CollectedFrom(header)..stop]
    ensures stop < |lines| ==> !IsCommentLine(lines[stop])
    ensures stop < |lines| && header.None? ==> !IsDescriptionHeader(Trimmed(lines[stop]))
  {
    comments := [];
    header := None;
    if lines == [] {
      return [], 0, None;
    }
    var started := false;
    ghost var from: nat := 1;
    stop := 1;
    while stop < |lines|
      invariant 1 <= from <= stop <= |lines|
      invariant started <==> header.Some?
      invariant header.Some? ==> 1 <= header.value
      invariant from == CollectedFrom(header)
      invariant header.Some? ==> IsDescriptionHeader(Trimmed(lines[header.value]))
      invariant CommentLinesBefore(lines, stop, header)
      invariant comments == lines[from..stop]
    {
      var line := lines[stop];
      var kind := KindOf(line, started);
      ghost var before := header;
      if kind == DescriptionStart {
        comments := [];
        started := true;
        header := Some(stop);
        from := stop + 1;
      } else if kind == CommentKind {
        comments := comments + [line];
        SliceExtend(lines, from, stop);
      } else {
        return;
      }
      CommentLinesStep(lines, stop, before, header);
      stop := stop + 1;
    }
  }
}
