/**
 * The `pyb` and `py|` console commands (`command_extensions/builtins/pyb.py`):
 * lines typed after the command are buffered, and the flags print, execute
 * or discard the buffer.
 */
module Pyb {
  import opened Wrappers
  import Strings

  /** A line written to the console log. */
  datatype LogLine = Info(text: string) | Error(text: string)

  /** The parsed command: the `--print`, `--exec` and `--discard` flags and the positional (remainder) arguments. */
  datatype PybArgs = PybArgs(printFlag: bool, execFlag: bool, discardFlag: bool, args: seq<string>)

  /** `"\n".join(lines)`. */
  function JoinLines(lines: seq<string>): (r: string)
    ensures lines != [] ==> Strings.StartsWith(r, lines[0])
    ensures |lines| > 1 ==> |r| > |lines[0]| && r[|lines[0]|] == '\n'
    decreases |lines|
  {
    if |lines| == 0 then ""
    else if |lines| == 1 then lines[0]
    else lines[0] + "\n" + JoinLines(lines[1..])
  }

  /** The position of the first newline. */
  function FirstNewline(s: string): (k: nat)
    requires '\n' in s
    ensures k < |s| && s[k] == '\n' && '\n' !in s[..k]
  {
    if s[0] == '\n' then 0
    else
      var k := 1 + FirstNewline(s[1..]);
      assert s[..k] == [s[0]] + s[1..][..k - 1];
      k
  }

  /** `s.split("\n")`. */
  function SplitLines(s: string): (r: seq<string>)
    ensures r != [] && NoNewlines(r)
    ensures '\n' !in s ==> r == [s]
    decreases |s|
  {
    if '\n' in s then
      var k := FirstNewline(s);
      [s[..k]] + SplitLines(s[k + 1..])
    else [s]
  }

  predicate NoNewlines(lines: seq<string>)
  {
    forall i :: 0 <= i < |lines| ==> '\n' !in lines[i]
  }

  /** The program `--exec` runs splits back into the buffered lines, when none holds a newline. */
  lemma {:induction false} SplitJoin(lines: seq<string>)
    requires |lines| > 0 && NoNewlines(lines)
    ensures SplitLines(JoinLines(lines)) == lines
  {
    if |lines| > 1 {
      var rest := JoinLines(lines[1..]);
      var s := lines[0] + "\n" + rest;
      assert s[|lines[0]|] == '\n';
      var k := FirstNewline(s);
      assert s[..k] == lines[0];
      assert s[k + 1..] == rest;
      SplitJoin(lines[1..]);
    }
  }

  /** What `--print` logs: each buffered line. */
  function InfoLines(lines: seq<string>): (r: seq<LogLine>)
    ensures |r| == |lines| && forall i :: 0 <= i < |r| ==> r[i] == Info(lines[i])
  {
    seq(|lines|, i requires 0 <= i < |lines| => Info(lines[i]))
  }

  /** The separator logged after a failing program of more than one line: 80 `=` signs. */
  const RULE: string := "================================================================================"

  /** What `--exec` logs when the program raises: a header, the program, and a rule for multi-line programs. */
  function ErrorReport(lines: seq<string>): (r: seq<LogLine>)
    ensures |r| == if |lines| > 1 then 3 else 2
    ensures r[..2] == [Error("Error occurred during 'pyb' command:"), Error(JoinLines(lines))]
    ensures |lines| > 1 ==> r[2] == Error(RULE)
  {
    [Error("Error occurred during 'pyb' command:"), Error(JoinLines(lines))]
      + (if |lines| > 1 then [Error(RULE)] else [])
  }

  /**
   * The buffer after a command: emptied by `--exec` or `--discard`, left as it
   * is by `--print` alone, and otherwise extended by the first argument;
   * `None` when there is no argument to take (`IndexError`).
   */
  function NextCache(lines: seq<string>, a: PybArgs): (r: Option<seq<string>>)
    ensures r.None? <==> !a.execFlag && !a.discardFlag && !a.printFlag && a.args == []
    ensures r.Some? ==> r.value == [] || (|lines| <= |r.value| <= |lines| + 1 && r.value[..|lines|] == lines)
  {
    if a.execFlag || a.discardFlag then Some([])
    else if a.printFlag then Some(lines)
    else if a.args == [] then None
    else Some(lines + [a.args[0]])
  }

  /** A flag never buffers anything; without one, exactly the first argument goes at the end. */
  lemma {:induction false} FlagsAppendNothing(lines: seq<string>, a: PybArgs)
    ensures a.printFlag || a.execFlag || a.discardFlag ==>
      NextCache(lines, a).Some? && (NextCache(lines, a).value == [] || NextCache(lines, a).value == lines)
    ensures !(a.printFlag || a.execFlag || a.discardFlag) && a.args != [] ==>
      NextCache(lines, a).Some? && NextCache(lines, a).value[..|lines|] == lines
      && |NextCache(lines, a).value| == |lines| + 1 && NextCache(lines, a).value[|lines|] == a.args[0]
  {
  }

  /** The buffer after a run of plain commands, each buffering its one line. */
  function Buffered(lines: seq<string>, code: seq<string>): seq<string>
    decreases |code|
  {
    if code == [] then lines
    else
      var next := NextCache(lines, PybArgs(false, false, false, [code[0]]));
      Buffered(next.value, code[1..])
  }

  /**
   * Plain commands buffer their lines in order; a following `--exec` runs
   * them joined by newlines, so the program it runs holds exactly those lines,
   * and empties the buffer.
   */
  lemma {:induction false} BufferedThenExecuted(lines: seq<string>, code: seq<string>)
    ensures Buffered(lines, code) == lines + code
    ensures NoNewlines(lines + code) && |lines + code| > 0 ==> SplitLines(JoinLines(Buffered(lines, code))) == lines + code
    ensures NextCache(Buffered(lines, code), PybArgs(false, true, false, [])) == Some([])
    decreases |code|
  {
    if code != [] {
      BufferedThenExecuted(lines + [code[0]], code[1..]);
      assert lines + [code[0]] + code[1..] == lines + code;
    }
    if NoNewlines(lines + code) && |lines + code| > 0 {
      SplitJoin(lines + code);
    }
  }

  /** `\w`, over ASCII. */
  predicate IsWordChar(c: char)
  {
    ('a' <= c <= 'z') || ('A' <= c <= 'Z') || ('0' <= c <= '9') || c == '_'
  }

  /** The number of leading whitespace characters. */
  function SpaceRun(s: string): (k: nat)
    ensures k <= |s|
    ensures forall i :: 0 <= i < k ==> Strings.IsSpace(s[i])
    ensures k < |s| ==> !Strings.IsSpace(s[k])
  {
    if s == [] || !Strings.IsSpace(s[0]) then 0 else 1 + SpaceRun(s[1..])
  }

  /** `RE_OPTIONAL_ARG.match(s)`, for `^\s*--?\w+`: whitespace, one or two dashes, a word character. */
  predicate OptionalArgAt(s: string)
    ensures OptionalArgAt(s) ==> '-' in s && s[SpaceRun(s)] == '-'
  {
    var k := SpaceRun(s);
    k < |s| && s[k] == '-'
    && ((k + 1 < |s| && IsWordChar(s[k + 1])) || (k + 2 < |s| && s[k + 1] == '-' && IsWordChar(s[k + 2])))
  }

  /**
   * `pyb_splitter`: a line starting with an optional argument goes to
   * `shlex.split` (given here as `shlexSplit`); any other is one argument,
   * the line without its first character.
   */
  function PybSplitter(s: string, shlexSplit: string -> seq<string>): (r: seq<string>)
    ensures !OptionalArgAt(s) ==> |r| == 1 && (s != [] ==> |r[0]| == |s| - 1 && r[0] == s[1..])
    ensures OptionalArgAt(s) ==> r == shlexSplit(s)
  {
    if OptionalArgAt(s) then shlexSplit(s)
    else [if s == [] then [] else s[1..]]
  }

  /** A leading space does not change whether the line starts with an optional argument. */
  lemma {:induction false} SpaceKeepsOptionalArg(x: string)
    ensures OptionalArgAt(" " + x) <==> OptionalArgAt(x)
  {
    var s := " " + x;
    assert s[1..] == x;
    assert SpaceRun(s) == 1 + SpaceRun(x);
  }

  /**
   * Only the one space after the command is consumed: code that does not
   * start with an optional argument comes back as a single argument,
   * verbatim, leading whitespace and all.
   */
  lemma {:induction false} OneSpaceConsumed(x: string, shlexSplit: string -> seq<string>)
    requires !OptionalArgAt(x)
    ensures PybSplitter(" " + x, shlexSplit) == [x]
  {
    SpaceKeepsOptionalArg(x);
    assert (" " + x)[1..] == x;
  }

  /** The command's own example: three spaces then `abc` give the line of two spaces then `abc`. */
  lemma {:induction false} ThreeSpacesExample(shlexSplit: string -> seq<string>)
    ensures PybSplitter("   abc", shlexSplit) == ["  abc"]
  {
    assert !OptionalArgAt("  abc") by {
      assert SpaceRun("abc") == 0;
      assert SpaceRun("  abc") == 2 by {
        assert "  abc"[1..] == " abc";
        assert " abc"[1..] == "abc";
      }
    }
    OneSpaceConsumed("  abc", shlexSplit);
    assert " " + "  abc" == "   abc";
  }

  /** One of the two module-level line buffers (`legacy_cached_lines`, `new_cached_lines`). */
  class LineCache {
    var cachedLines: seq<string>

    constructor ()
      ensures cachedLines == []
    {
      cachedLines := [];
    }

    /**
     * `run_pyb`. `execRaises` says whether executing the buffered program
     * raises. Returns what was logged, the program run (if any), and whether
     * taking the first argument raised.
     */
    method RunPyb(a: PybArgs, execRaises: bool) returns (log: seq<LogLine>, executed: Option<string>, raised: bool)
      modifies this
      ensures log == (if a.printFlag then InfoLines(old(cachedLines)) else [])
                     + (if a.execFlag && execRaises then ErrorReport(old(cachedLines)) else [])
      ensures executed == if a.execFlag then Some(JoinLines(old(cachedLines))) else None
      ensures raised <==> NextCache(old(cachedLines), a).None?
      ensures cachedLines == NextCache(old(cachedLines), a).GetOr(old(cachedLines))
    {
      log := [];
      executed := None;
      raised := false;
      if a.printFlag {
        for i := 0 to |cachedLines|
          invariant log == InfoLines(cachedLines[..i])
        {
          log := log + [Info(cachedLines[i])];
        }
        assert cachedLines[..|cachedLines|] == cachedLines;
      }
      if a.execFlag {
        var joined := JoinLines(cachedLines);
        executed := Some(joined);
        if execRaises {
          log := log + [Error("Error occurred during 'pyb' command:"), Error(joined)];
          if |cachedLines| > 1 {
            log := log + [Error(RULE)];
          }
        }
      }
      if a.discardFlag || a.execFlag {
        cachedLines := [];
      }
      if a.execFlag || a.discardFlag || a.printFlag {
        return;
      }
      if a.args == [] {
        raised := true;
        return;
      }
      cachedLines := cachedLines + [a.args[0]];
    }
  }
}
