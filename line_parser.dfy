/**
 * The generic line-by-line description scanner (`file_parser/line_parser.cpp`)
 * and the stream position the scanners leave behind. A stream is its lines,
 * each ended by a newline; `std::getline` hands them out one at a time.
 */
module LineParser {
  import opened Wrappers
  import opened ParserUtil
  import opened ParseResults

  /** `find_first_not_of('#')`: the index of the first character that is not '#', `None` for `npos`. */
  function FirstNotHash(line: string): (r: Option<nat>)
    ensures r.Some? ==> r.value < |line| && line[r.value] != '#'
    ensures r.Some? ==> forall j :: 0 <= j < r.value ==> line[j] == '#'
    ensures r.None? ==> forall j :: 0 <= j < |line| ==> line[j] == '#'
  {
    if line == [] then None
    else if line[0] != '#' then Some(0)
    else match FirstNotHash(line[1..])
      case None => None
      case Some(i) => Some(i + 1)
  }

  /**
   * The comment text of a line starting with '#', as written: the leading
   * '#'s and then at most one space are skipped. A line of nothing but '#'
   * makes `find_first_not_of` answer `npos`, and `line[npos]` reads past the
   * end of the line: `None` stands for that undefined read.
   */
  function HashCommentAsWritten(line: string): (r: Option<string>)
    requires line != [] && line[0] == '#'
  {
    match FirstNotHash(line)
    case None => None
    case Some(k) => if line[k] == ' ' then Some(line[k + 1..]) else Some(line[k..])
  }

  /** The comment text of a line starting with '#': a line of nothing but '#' holds the empty comment. */
  function HashComment(line: string): (r: string)
    requires line != [] && line[0] == '#'
    ensures |r| < |line| && r == line[|line| - |r|..]
    ensures r != [] && r[0] == ' ' ==> line[|line| - |r| - 1] != '#'
  {
    match FirstNotHash(line)
    case None => ""
    case Some(k) => if line[k] == ' ' then line[k + 1..] else line[k..]
  }

  /** Wherever the as-written reading is defined the two agree, and a line of '#'s alone is where it is not. */
  lemma {:induction false} HashOnlyLineReadsPastEnd(line: string)
    requires line != [] && line[0] == '#'
    ensures HashCommentAsWritten(line).Some? ==> HashCommentAsWritten(line).value == HashComment(line)
    ensures HashCommentAsWritten(line).None? <==> forall j :: 0 <= j < |line| ==> line[j] == '#'
    ensures HashCommentAsWritten("#").None? && HashComment("#") == ""
  {
  }

  /** The comment a line before the first command contributes: a '#' line as a buffer, any other line whole. */
  function LineArg(line: string): CommentArg
  {
    if line != [] && line[0] == '#' then Buffer(HashComment(line)) else StdString(line)
  }

  function LineArgs(lines: seq<string>): (args: seq<CommentArg>)
    ensures |args| == |lines| && forall i :: 0 <= i < |lines| ==> args[i] == LineArg(lines[i])
  {
    seq(|lines|, i requires 0 <= i < |lines| => LineArg(lines[i]))
  }

  /** A line that ends the description: not a '#' line, and a command (spark commands included) after its whitespace. */
  predicate EndsDescription(line: string)
  {
    !(line != [] && line[0] == '#') && IsCommand(line[FirstNonSpace(line)..], true)
  }

  /** No line of `lines` ends the description. */
  predicate NoneEndsDescription(lines: seq<string>)
  {
    forall i :: 0 <= i < |lines| ==> !EndsDescription(lines[i])
  }

  lemma {:induction false} NoneEndsStep(lines: seq<string>, k: nat)
    requires k < |lines| && NoneEndsDescription(lines[..k]) && !EndsDescription(lines[k])
    ensures NoneEndsDescription(lines[..k + 1])
  {
    assert forall i :: 0 <= i < k ==> lines[..k + 1][i] == lines[..k][i];
  }

  /**
   * What is left of the stream after a scanner read the line at `stop` and
   * seeks back by that line's length, as written: `getline` also consumed
   * the newline, so the stream lands one character into the line.
   */
  function SeekBackAsWritten(lines: seq<string>, stop: nat): seq<string>
    requires stop <= |lines|
  {
    if stop == |lines| then []
    else if lines[stop] == [] then [""] + lines[stop + 1..]
    else [lines[stop][1..]] + lines[stop + 1..]
  }

  /** What is left of the stream when the scanner goes back to the start of the line at `stop`. */
  function SeekBack(lines: seq<string>, stop: nat): (rest: seq<string>)
    requires stop <= |lines|
    ensures rest == lines[stop..]
  {
    lines[stop..]
  }

  /** Seeking back by the line's length loses the first character of the line that ended the scan. */
  lemma {:induction false} SeekBackLosesFirstCharacter(lines: seq<string>, stop: nat)
    requires stop < |lines| && lines[stop] != []
    ensures SeekBackAsWritten(lines, stop)[0] == lines[stop][1..] != SeekBack(lines, stop)[0]
    ensures SeekBackAsWritten(lines, stop)[1..] == SeekBack(lines, stop)[1..]
  {
    assert |lines[stop][1..]| < |lines[stop]|;
  }

  /**
   * `parse_file_line_by_line`: every line up to the first command is added
   * as a comment, in order, and the scan stops there; `stop` is that line's
   * index (the stream is left on it), `|lines|` when there is no command.
   */
  method ParseFileLineByLine(lines: seq<string>, pr: ParseResult) returns (stop: nat)
    modifies pr
    ensures stop <= |lines|
    ensures NoneEndsDescription(lines[..stop])
    ensures stop < |lines| ==> EndsDescription(lines[stop])
    ensures pr.Contents() == WithArgs(old(pr.Contents()), LineArgs(lines[..stop]))
    ensures pr.game == old(pr.game) && pr.sparkServiceIdx == old(pr.sparkServiceIdx)
  {
    stop := 0;
    while stop < |lines|
      invariant stop <= |lines|
      invariant NoneEndsDescription(lines[..stop])
      invariant pr.Contents() == WithArgs(old(pr.Contents()), LineArgs(lines[..stop]))
      invariant pr.game == old(pr.game) && pr.sparkServiceIdx == old(pr.sparkServiceIdx)
    {
      var line := lines[stop];
      if EndsDescription(line) {
        return;
      }
      AddLineComment(line, pr);
      ArgsStep(old(pr.Contents()), lines, stop);
      NoneEndsStep(lines, stop);
      stop := stop + 1;
    }
  }

  /** Adds the comment of one description line: a '#' line through the buffer overload, any other line whole. */
  method AddLineComment(line: string, pr: ParseResult)
    modifies pr
    ensures pr.Contents() == WithArg(old(pr.Contents()), LineArg(line))
    ensures pr.game == old(pr.game) && pr.sparkServiceIdx == old(pr.sparkServiceIdx)
  {
    if line != [] && line[0] == '#' {
      pr.AddCommentBuffer(HashComment(line));
    } else {
      pr.AddComment(line);
    }
  }

  /** Adding the comment of one more line extends the run by that line. */
  lemma {:induction false} ArgsStep(c: Comments, lines: seq<string>, k: nat)
    requires k < |lines|
    ensures WithArgs(c, LineArgs(lines[..k + 1])) == WithArg(WithArgs(c, LineArgs(lines[..k])), LineArg(lines[k]))
  {
    WithArgsConcat(c, LineArgs(lines[..k]), [LineArg(lines[k])]);
    assert LineArgs(lines[..k + 1]) == LineArgs(lines[..k]) + [LineArg(lines[k])];
    assert WithArgs(WithArg(WithArgs(c, LineArgs(lines[..k])), LineArg(lines[k])), []) == WithArg(WithArgs(c, LineArgs(lines[..k])), LineArg(lines[k]));
  }
}
