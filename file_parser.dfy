/**
 * The entry point of the mod-file parser (`file_parser/main.cpp`): the first
 * line picks the BLCMM, FilterTool or line-by-line scanner, and the rest of
 * the stream is then searched for hotfix commands that name a spark service.
 */
module FileParser {
  import opened Wrappers
  import opened Strings
  import opened ParserUtil
  import opened ParseResults
  import opened LineParser
  import opened FiltertoolParser
  import opened BlcmParser

  datatype Format = Blcmm | Filtertool | LineByLine

  /** The scanner the first line selects; an empty stream reads as an empty first line. */
  function FormatOf(lines: seq<string>): (f: Format)
    ensures lines != [] && StartsWith(lines[0], "<BLCMM") ==> f == Blcmm
    ensures (lines == [] || !StartsWith(lines[0], "<BLCMM")) && lines != [] && StartsWith(lines[0], "#<") ==> f == Filtertool
    ensures lines == [] ==> f == LineByLine
  {
    var first := if lines == [] then "" else lines[0];
    if StartsWith(first, "<BLCMM") then Blcmm
    else if StartsWith(first, "#<") then Filtertool
    else LineByLine
  }

  const SPARK_SET: string := "set"
  const SPARK_TRANSIENT: string := "Transient.SparkServiceConfiguration_"
  const SPARK_KEYS: string := "Keys"
  const SPARK_VALUES: string := "Values"

  /** One more than the largest `size_t`. */
  const SIZE_LIMIT: nat := 0x1_0000_0000_0000_0000

  predicate IsDigit(c: char)
  {
    '0' <= c <= '9'
  }

  /** The number of digits starting at `at`. */
  function DigitRun(s: string, at: nat): (n: nat)
    requires at <= |s|
    ensures at + n <= |s|
    ensures forall j :: at <= j < at + n ==> IsDigit(s[j])
    ensures at + n < |s| ==> !IsDigit(s[at + n])
    decreases |s| - at
  {
    if at < |s| && IsDigit(s[at]) then 1 + DigitRun(s, at + 1) else 0
  }

  /** The value of a run of decimal digits. */
  function DecimalValue(ds: string): nat
  {
    if ds == [] then 0
    else 10 * DecimalValue(ds[..|ds| - 1]) + (if IsDigit(ds[|ds| - 1]) then ds[|ds| - 1] as int - '0' as int else 0)
  }

  /**
   * `std::from_chars` into a `size_t` from `at`: the value of the digits
   * found there; no digit, or a value too large for `size_t`, is a failure.
   */
  function FromChars(s: string, at: nat): (r: Option<nat>)
    requires at <= |s|
    ensures r.Some? ==> at < |s| && IsDigit(s[at]) && r.value < SIZE_LIMIT
    ensures at < |s| && !IsDigit(s[at]) ==> r.None?
  {
    var n := DigitRun(s, at);
    if n == 0 then None
    else
      var v := DecimalValue(s[at..at + n]);
      if v < SIZE_LIMIT then Some(v) else None
  }

  /**
   * Where a line's spark prefix starts, when the line holds "set", then the
   * prefix "Transient.SparkServiceConfiguration_" at least one character
   * after it, then "Keys" or "Values" after the prefix, all up to case.
   */
  function SparkCandidate(line: string): (r: Option<nat>)
    ensures r.Some? ==> CiMatchAt(line, SPARK_TRANSIENT, r.value)
  {
    match CiFind(line, SPARK_SET, 0)
    case None => None
    case Some(setOffset) =>
      match CiFind(line, SPARK_TRANSIENT, setOffset + |SPARK_SET| + 1)
      case None => None
      case Some(t) =>
        var transientEnd := t + |SPARK_TRANSIENT|;
        if CiFind(line, SPARK_KEYS, transientEnd).None? && CiFind(line, SPARK_VALUES, transientEnd).None? then None
        else Some(t)
  }

  /** The index a line names, as written: the number is read from the start of the prefix, not from its end. */
  function SparkIndexAsWritten(line: string): (r: Option<nat>)
    ensures r.Some? ==> SparkCandidate(line).Some? && IsDigit(line[SparkCandidate(line).value])
  {
    match SparkCandidate(line)
    case None => None
    case Some(t) => FromChars(line, t)
  }

  /** The index a line names: the number right after the prefix. */
  function SparkIndex(line: string): (r: Option<nat>)
    ensures r.Some? ==> SparkCandidate(line).Some?
  {
    match SparkCandidate(line)
    case None => None
    case Some(t) => FromChars(line, t + |SPARK_TRANSIENT|)
  }

  /** As written, no line ever yields an index: the number is read where the prefix's 'T' stands. */
  lemma {:induction false} AsWrittenNeverParses(line: string)
    ensures SparkIndexAsWritten(line) == None
  {
    match SparkCandidate(line)
    case None =>
    case Some(t) =>
      assert Lower(line[t..t + |SPARK_TRANSIENT|])[0] == Lower(SPARK_TRANSIENT)[0] == 't';
      assert line[t..t + |SPARK_TRANSIENT|][0] == line[t];
  }

  /**
   * A hotfix on spark service `d` ("set Transient.SparkServiceConfiguration_<d> Keys")
   * names index `d`, which the as-written reading misses.
   */
  lemma {:induction false} SparkServiceExample(d: char)
    requires IsDigit(d)
    ensures SparkIndex(SPARK_SET + " " + SPARK_TRANSIENT + [d] + " " + SPARK_KEYS) == Some(d as int - '0' as int)
    ensures SparkIndexAsWritten(SPARK_SET + " " + SPARK_TRANSIENT + [d] + " " + SPARK_KEYS) == None
  {
    var line := SPARK_SET + " " + SPARK_TRANSIENT + [d] + " " + SPARK_KEYS;
    ExampleCandidate(d);
    assert line[40] == d && line[41] == ' ';
    assert DigitRun(line, 40) == 1;
    assert line[40..41] == [d];
    assert DecimalValue([d]) == d as int - '0' as int by { assert [d][..0] == []; }
    assert FromChars(line, 40) == Some(d as int - '0' as int);
    AsWrittenNeverParses(line);
  }

  lemma {:induction false} ExampleCandidate(d: char)
    ensures SparkCandidate(SPARK_SET + " " + SPARK_TRANSIENT + [d] + " " + SPARK_KEYS) == Some(4)
    ensures |SPARK_SET + " " + SPARK_TRANSIENT + [d] + " " + SPARK_KEYS| == 46
  {
    var line := SPARK_SET + " " + SPARK_TRANSIENT + [d] + " " + SPARK_KEYS;
    assert |SPARK_SET| == 3 && |SPARK_TRANSIENT| == 36 && |SPARK_KEYS| == 4;
    assert line[0..3] == SPARK_SET;
    assert CiFind(line, SPARK_SET, 0) == Some(0);
    assert line[4..40] == SPARK_TRANSIENT;
    assert CiFind(line, SPARK_TRANSIENT, 4) == Some(4);
    assert line[42..46] == SPARK_KEYS;
    assert CiMatchAt(line, SPARK_KEYS, 42);
  }

  /** The index each line names, in order. */
  function SparkIndices(lines: seq<string>): (r: seq<Option<nat>>)
    ensures |r| == |lines| && forall i :: 0 <= i < |lines| ==> r[i] == SparkIndex(lines[i])
  {
    seq(|lines|, i requires 0 <= i < |lines| => SparkIndex(lines[i]))
  }

  /** The index left after a scan from `current` over what each line names: every named index overwrites the one before. */
  function LastNamed(named: seq<Option<nat>>, current: Option<nat>): Option<nat>
    decreases |named|
  {
    if named == [] then current
    else LastNamed(named[1..], if named[0].Some? then named[0] else current)
  }

  /** The index left after scanning `lines` from `current`. */
  function LastSparkIndex(lines: seq<string>, current: Option<nat>): Option<nat>
  {
    LastNamed(SparkIndices(lines), current)
  }

  /** The last index named wins over every earlier one. */
  lemma {:induction false} LastNamedWins(named: seq<Option<nat>>, current: Option<nat>, k: nat)
    requires k < |named| && named[k].Some?
    requires forall j :: k < j < |named| ==> named[j].None?
    ensures LastNamed(named, current) == named[k]
    decreases |named|
  {
    var next := if named[0].Some? then named[0] else current;
    if k == 0 {
      NothingNamedKeeps(named[1..], next);
    } else {
      LastNamedWins(named[1..], next, k - 1);
    }
  }

  /** With no index named, the scan leaves the index as it found it. */
  lemma {:induction false} NothingNamedKeeps(named: seq<Option<nat>>, current: Option<nat>)
    requires forall j :: 0 <= j < |named| ==> named[j].None?
    ensures LastNamed(named, current) == current
    decreases |named|
  {
    if named != [] {
      NothingNamedKeeps(named[1..], current);
    }
  }

  /** A line naming an index wins over every earlier one. */
  lemma {:induction false} LastLineWins(lines: seq<string>, current: Option<nat>, k: nat)
    requires k < |lines| && SparkIndex(lines[k]).Some?
    requires forall j :: k < j < |lines| ==> SparkIndex(lines[j]).None?
    ensures LastSparkIndex(lines, current) == SparkIndex(lines[k])
  {
    LastNamedWins(SparkIndices(lines), current, k);
  }

  /** With no line naming an index, the index is unchanged. */
  lemma {:induction false} NoIndexKeeps(lines: seq<string>, current: Option<nat>)
    requires forall j :: 0 <= j < |lines| ==> SparkIndex(lines[j]).None?
    ensures LastSparkIndex(lines, current) == current
  {
    NothingNamedKeeps(SparkIndices(lines), current);
  }

  lemma {:induction false} NamedStep(named: seq<Option<nat>>, i: nat, current: Option<nat>)
    requires i < |named|
    ensures LastNamed(named[i..], current) == LastNamed(named[i + 1..], if named[i].Some? then named[i] else current)
  {
    assert named[i..][1..] == named[i + 1..];
  }

  /** `look_for_spark_service`: every line naming an index overwrites the one found so far. */
  method LookForSparkService(lines: seq<string>, pr: ParseResult)
    modifies pr
    ensures pr.sparkServiceIdx == LastSparkIndex(lines, old(pr.sparkServiceIdx))
    ensures pr.Contents() == old(pr.Contents()) && pr.game == old(pr.game)
  {
    ghost var named := SparkIndices(lines);
    var i := 0;
    while i < |lines|
      invariant i <= |lines|
      invariant LastNamed(named[i..], pr.sparkServiceIdx) == LastNamed(named, old(pr.sparkServiceIdx))
      invariant pr.Contents() == old(pr.Contents()) && pr.game == old(pr.game)
    {
      NamedStep(named, i, pr.sparkServiceIdx);
      var idx := SparkIndex(lines[i]);
      if idx.Some? {
        pr.sparkServiceIdx := idx;
      }
      i := i + 1;
    }
  }

  /** The index each line names as written. */
  function SparkIndicesAsWritten(lines: seq<string>): (r: seq<Option<nat>>)
    ensures |r| == |lines| && forall i :: 0 <= i < |lines| ==> r[i] == SparkIndexAsWritten(lines[i])
  {
    seq(|lines|, i requires 0 <= i < |lines| => SparkIndexAsWritten(lines[i]))
  }

  /** The index left by the as-written scan, which reads each line's number from the start of the prefix. */
  function LastSparkIndexAsWritten(lines: seq<string>, current: Option<nat>): Option<nat>
  {
    LastNamed(SparkIndicesAsWritten(lines), current)
  }

  /** As written, the scan leaves the index as it found it, whatever the lines. */
  lemma {:induction false} AsWrittenScanKeeps(lines: seq<string>, current: Option<nat>)
    ensures LastSparkIndexAsWritten(lines, current) == current
  {
    var named := SparkIndicesAsWritten(lines);
    forall j | 0 <= j < |named| ensures named[j].None? {
      AsWrittenNeverParses(lines[j]);
    }
    NothingNamedKeeps(named, current);
  }

  /** `look_for_spark_service` as written. */
  method LookForSparkServiceAsWritten(lines: seq<string>, pr: ParseResult)
    modifies pr
    ensures pr.sparkServiceIdx == LastSparkIndexAsWritten(lines, old(pr.sparkServiceIdx))
    ensures pr.Contents() == old(pr.Contents()) && pr.game == old(pr.game)
  {
    ghost var named := SparkIndicesAsWritten(lines);
    var i := 0;
    while i < |lines|
      invariant i <= |lines|
      invariant LastNamed(named[i..], pr.sparkServiceIdx) == LastNamed(named, old(pr.sparkServiceIdx))
      invariant pr.Contents() == old(pr.Contents()) && pr.game == old(pr.game)
    {
      NamedStep(named, i, pr.sparkServiceIdx);
      var idx := SparkIndexAsWritten(lines[i]);
      if idx.Some? {
        pr.sparkServiceIdx := idx;
      }
      i := i + 1;
    }
  }

  /** Adds the FilterTool scanner's comments, in order, as whole lines. */
  method AddLines(comments: seq<string>, pr: ParseResult)
    modifies pr
    ensures pr.Contents() == WithArgs(old(pr.Contents()), StdStrings(comments))
    ensures pr.game == old(pr.game) && pr.sparkServiceIdx == old(pr.sparkServiceIdx)
  {
    var i := 0;
    while i < |comments|
      invariant i <= |comments|
      invariant WithArgs(pr.Contents(), StdStrings(comments[i..])) == WithArgs(old(pr.Contents()), StdStrings(comments))
      invariant pr.game == old(pr.game) && pr.sparkServiceIdx == old(pr.sparkServiceIdx)
    {
      assert StdStrings(comments[i..])[1..] == StdStrings(comments[i + 1..]);
      pr.AddComment(comments[i]);
      i := i + 1;
    }
    assert StdStrings(comments[i..]) == [];
  }

  function StdStrings(lines: seq<string>): (args: seq<CommentArg>)
    ensures |args| == |lines| && forall i :: 0 <= i < |lines| ==> args[i] == StdString(lines[i])
  {
    seq(|lines|, i requires 0 <= i < |lines| => StdString(lines[i]))
  }

  /**
   * What the first-line dispatch of `parse` leaves in a fresh result before
   * the spark scan: for BLCMM, the walked document's comments and its game,
   * or an error; for FilterTool, the comment lines collected up to `stop`
   * (after the description header when there is one); line by line, the
   * lines up to the first command. `stop` is where the scanner left the
   * stream, and `header` the FilterTool description header.
   */
  ghost predicate Scanned(lines: seq<string>, blcmm: Result<BlcmmDoc, string>,
                          r: Result<ParseResult, string>, stop: nat, header: Option<nat>)
    reads if r.Ok? then {r.value} else {}
  {
    && (FormatOf(lines) == Blcmm ==>
          (r.Err? <==> blcmm.Err? || blcmm.value.version != "1" || blcmm.value.root.None?)
          && (r.Ok? ==>
                r.value.Contents() == Walked(NO_COMMENTS, RootWalk(blcmm.value.root.value.children))
                && r.value.game == (if blcmm.value.typeName == "" then None else Some(blcmm.value.typeName))))
    && (FormatOf(lines) != Blcmm ==> r.Ok? && r.value.game == None && stop <= |lines|)
    && (FormatOf(lines) == LineByLine ==>
          NoneEndsDescription(lines[..stop]) && (stop < |lines| ==> EndsDescription(lines[stop]))
          && r.Ok? && r.value.Contents() == WithArgs(NO_COMMENTS, LineArgs(lines[..stop])))
    && (FormatOf(lines) == Filtertool ==>
          1 <= stop <= |lines| && CommentLinesBefore(lines, stop, header)
          && (header.Some? ==> 1 <= header.value < stop && IsDescriptionHeader(Trimmed(lines[header.value])))
          && (stop < |lines| ==> !IsCommentLine(lines[stop]))
          && CollectedFrom(header) <= stop
          && r.Ok? && r.value.Contents() == WithArgs(NO_COMMENTS, StdStrings(lines[CollectedFrom(header)..stop])))
  }

  /** The scanner the first line selects, run over the stream into a fresh result. */
  method ScanDescription(lines: seq<string>, blcmm: Result<BlcmmDoc, string>)
    returns (r: Result<ParseResult, string>, stop: nat, ghost header: Option<nat>)
    ensures Scanned(lines, blcmm, r, stop, header)
    ensures r.Ok? ==> fresh(r.value) && r.value.sparkServiceIdx == None
  {
    var pr := new ParseResult();
    var format := FormatOf(lines);
    stop := 0;
    header := None;
    if format == Blcmm {
      var err := ParseBlcmmFile(blcmm, pr);
      if err.Some? {
        return Err(err.value), stop, header;
      }
    } else if format == Filtertool {
      var comments;
      comments, stop, header := ParseFiltertoolFile(lines);
      AddLines(comments, pr);
    } else {
      stop := ParseFileLineByLine(lines, pr);
    }
    r := Ok(pr);
  }

  /**
   * `parse`, as evidently intended: after rewinding, the scanner the first
   * line selects runs over the stream, the stream goes back to the start of
   * the line that ended the scan, and the spark scan runs over what is left
   * (`rest`), recording the index the last naming line gives. The BLCMM
   * preprocessor and XML reader are not modelled: `blcmm` is the document
   * they produce (or their error) and `blcmmRest` the stream after the
   * closing tag. A `ParserError` is an `Err`.
   */
  method Parse(lines: seq<string>, blcmm: Result<BlcmmDoc, string>, blcmmRest: seq<string>)
    returns (r: Result<ParseResult, string>, rest: seq<string>, stop: nat, ghost header: Option<nat>)
    ensures Scanned(lines, blcmm, r, stop, header)
    ensures r.Ok? ==> fresh(r.value) && r.value.sparkServiceIdx == LastSparkIndex(rest, None)
    ensures FormatOf(lines) == Blcmm ==> rest == blcmmRest
    ensures FormatOf(lines) != Blcmm ==> rest == SeekBack(lines, stop)
  {
    r, stop, header := ScanDescription(lines, blcmm);
    rest := if FormatOf(lines) == Blcmm then blcmmRest else SeekBack(lines, stop);
    if r.Ok? {
      LookForSparkService(rest, r.value);
    }
  }

  /**
   * `parse` as written: the scanners seek back one character short, and the
   * spark scan as written never records an index, so every result is left
   * with no spark service.
   */
  method ParseAsWritten(lines: seq<string>, blcmm: Result<BlcmmDoc, string>, blcmmRest: seq<string>)
    returns (r: Result<ParseResult, string>, rest: seq<string>, stop: nat, ghost header: Option<nat>)
    ensures Scanned(lines, blcmm, r, stop, header)
    ensures r.Ok? ==> fresh(r.value) && r.value.sparkServiceIdx == None
    ensures FormatOf(lines) == Blcmm ==> rest == blcmmRest
    ensures FormatOf(lines) != Blcmm ==> rest == SeekBackAsWritten(lines, stop)
  {
    r, stop, header := ScanDescription(lines, blcmm);
    rest := if FormatOf(lines) == Blcmm then blcmmRest else SeekBackAsWritten(lines, stop);
    if r.Ok? {
      LookForSparkServiceAsWritten(rest, r.value);
      AsWrittenScanKeeps(rest, None);
    }
  }
}
