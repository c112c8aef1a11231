/**
 * The text-mod loader (`text_mod_loader/loader.py`): joining description
 * lines the way Markdown does, listing authors in a sentence, detecting
 * ASCII-art borders, filling in a mod's metadata from a parse result, and
 * the reload of all text mods.
 */
module Loader {
  import opened Wrappers
  import opened Strings
  import opened Settings
  import opened TextModStates
  import opened TextMods
  import opened ParseResults
  import opened Hotfixes

  // ---------------------------------------------------------------- join_lines_markdown_like

  /** What the Markdown-like join yields: a stripped line, a space or a newline. */
  datatype Piece = Text(text: string) | Space | Newline

  function Render(pieces: seq<Piece>): string
    decreases |pieces|
  {
    if pieces == [] then ""
    else
      var head := match pieces[0]
        case Text(t) => t
        case Space => " "
        case Newline => "\n";
      head + Render(pieces[1..])
  }

  lemma {:induction false} RenderConcat(a: seq<Piece>, b: seq<Piece>)
    ensures Render(a + b) == Render(a) + Render(b)
    decreases |a|
  {
    if a == [] {
      assert a + b == b;
    } else {
      assert (a + b)[0] == a[0] && (a + b)[1..] == a[1..] + b;
      RenderConcat(a[1..], b);
    }
  }

  /** Every line stripped with `str.strip()`. */
  function StripAll(lines: seq<string>): (r: seq<string>)
    ensures |r| == |lines| && forall i :: 0 <= i < |lines| ==> r[i] == Strip(lines[i])
  {
    seq(|lines|, i requires 0 <= i < |lines| => Strip(lines[i]))
  }

  /** What one stripped line yields, given whether the output so far asks for no separator. */
  function LinePieces(stripped: string, noSpace: bool): seq<Piece>
  {
    if stripped != "" then (if noSpace then [] else [Space]) + [Text(stripped)]
    else if noSpace then [] else [Newline]
  }

  /**
   * The generator of `join_lines_markdown_like`, over the stripped lines: a
   * non-blank line yields its stripped text, after a space unless it starts
   * the output or follows a blank line; a blank line yields a newline unless
   * it starts the output or follows another blank line.
   */
  function MarkdownPieces(stripped: seq<string>, noSpace: bool): seq<Piece>
    decreases |stripped|
  {
    if stripped == [] then [] else LinePieces(stripped[0], noSpace) + MarkdownPieces(stripped[1..], stripped[0] == "")
  }

  /** The non-blank lines, in order. */
  function NonBlank(stripped: seq<string>): (r: seq<string>)
    ensures forall i :: 0 <= i < |r| ==> r[i] != "" && r[i] in stripped
    ensures |r| <= |stripped|
    decreases |stripped|
  {
    if stripped == [] then []
    else (if stripped[0] == "" then [] else [stripped[0]]) + NonBlank(stripped[1..])
  }

  function Texts(pieces: seq<Piece>): seq<string>
    decreases |pieces|
  {
    if pieces == [] then []
    else (if pieces[0].Text? then [pieces[0].text] else []) + Texts(pieces[1..])
  }

  lemma {:induction false} TextsConcat(a: seq<Piece>, b: seq<Piece>)
    ensures Texts(a + b) == Texts(a) + Texts(b)
    decreases |a|
  {
    if a == [] {
      assert a + b == b;
    } else {
      assert (a + b)[0] == a[0] && (a + b)[1..] == a[1..] + b;
      TextsConcat(a[1..], b);
    }
  }

  /** Each non-blank line appears once and in order; nothing else is text. */
  lemma {:induction false} TextsAreNonBlankLines(stripped: seq<string>, noSpace: bool)
    ensures Texts(MarkdownPieces(stripped, noSpace)) == NonBlank(stripped)
    decreases |stripped|
  {
    if stripped != [] {
      TextsConcat(LinePieces(stripped[0], noSpace), MarkdownPieces(stripped[1..], stripped[0] == ""));
      TextsAreNonBlankLines(stripped[1..], stripped[0] == "");
    }
  }

  /**
   * Every separator directly follows a text, so no two separators are
   * adjacent and, when no separator is due at the start, the output does not
   * start with one; every text is a non-blank line.
   */
  predicate WellSeparated(pieces: seq<Piece>, noSpace: bool, stripped: seq<string>)
  {
    SeparatorsFollowText(pieces, noSpace) && TextsFromLines(pieces, stripped)
  }

  predicate SeparatorsFollowText(pieces: seq<Piece>, noSpace: bool)
  {
    forall i {:trigger pieces[i]} :: 0 <= i < |pieces| && !pieces[i].Text? ==> (i == 0 && !noSpace) || (0 < i && pieces[i - 1].Text?)
  }

  predicate TextsFromLines(pieces: seq<Piece>, stripped: seq<string>)
  {
    forall i :: 0 <= i < |pieces| && pieces[i].Text? ==> pieces[i].text != "" && pieces[i].text in stripped
  }

  lemma {:induction false} WellSeparatedStep(stripped: seq<string>, noSpace: bool)
    requires stripped != []
    requires WellSeparated(MarkdownPieces(stripped[1..], stripped[0] == ""), stripped[0] == "", stripped[1..])
    ensures WellSeparated(MarkdownPieces(stripped, noSpace), noSpace, stripped)
  {
    var head, tail := LinePieces(stripped[0], noSpace), MarkdownPieces(stripped[1..], stripped[0] == "");
    assert MarkdownPieces(stripped, noSpace) == head + tail;
    SeparatorsConcat(head, tail, stripped[0], noSpace);
    if stripped[0] != "" {
      assert head == (if noSpace then [] else [Space]) + [Text(stripped[0])];
    }
    TextsFromLinesConcat(head, tail, stripped);
  }

  /** The separators of one line's pieces followed by the rest's. */
  lemma {:induction false} SeparatorsConcat(head: seq<Piece>, tail: seq<Piece>, line: string, noSpace: bool)
    requires head == LinePieces(line, noSpace)
    requires SeparatorsFollowText(tail, line == "")
    ensures SeparatorsFollowText(head + tail, noSpace)
  {
    var all := head + tail;
    if line != "" {
      assert head == (if noSpace then [] else [Space]) + [Text(line)];
      assert head[|head| - 1] == Text(line);
    }
    forall i | 0 <= i < |all| && !all[i].Text?
      ensures (i == 0 && !noSpace) || (0 < i && all[i - 1].Text?)
    {
      if i >= |head| {
        assert tail[i - |head|] == all[i];
        if i > |head| {
          assert tail[i - |head| - 1] == all[i - 1];
        } else if i > 0 {
          assert all[i - 1] == head[|head| - 1];
        }
      }
    }
  }

  /** The texts of the first line's pieces followed by the rest's all come from the lines. */
  lemma {:induction false} TextsFromLinesConcat(head: seq<Piece>, tail: seq<Piece>, stripped: seq<string>)
    requires stripped != []
    requires forall i :: 0 <= i < |head| && head[i].Text? ==> head[i].text == stripped[0] && stripped[0] != ""
    requires TextsFromLines(tail, stripped[1..])
    ensures TextsFromLines(head + tail, stripped)
  {
    var all := head + tail;
    forall i | 0 <= i < |all| && all[i].Text?
      ensures all[i].text != "" && all[i].text in stripped
    {
      if i >= |head| {
        assert tail[i - |head|] == all[i];
        assert all[i].text in stripped[1..];
      } else {
        assert head[i] == all[i];
      }
    }
  }

  lemma {:induction false} MarkdownWellSeparated(stripped: seq<string>, noSpace: bool)
    ensures WellSeparated(MarkdownPieces(stripped, noSpace), noSpace, stripped)
    decreases |stripped|
  {
    if stripped != [] {
      MarkdownWellSeparated(stripped[1..], stripped[0] == "");
      WellSeparatedStep(stripped, noSpace);
    }
  }

  /** A run of blank lines right after a text yields exactly one newline, however long it is. */
  lemma {:induction false} BlankRunIsOneNewline(blanks: seq<string>, rest: seq<string>)
    requires blanks != [] && forall i :: 0 <= i < |blanks| ==> blanks[i] == ""
    ensures MarkdownPieces(blanks + rest, false) == [Newline] + MarkdownPieces(rest, true)
  {
    assert (blanks + rest)[0] == blanks[0] && (blanks + rest)[1..] == blanks[1..] + rest;
    LeadingBlanksVanish(blanks[1..], rest);
  }

  /** Blank lines where no separator is due yield nothing. */
  lemma {:induction false} LeadingBlanksVanish(blanks: seq<string>, rest: seq<string>)
    requires forall i :: 0 <= i < |blanks| ==> blanks[i] == ""
    ensures MarkdownPieces(blanks + rest, true) == MarkdownPieces(rest, true)
    decreases |blanks|
  {
    if blanks == [] {
      assert blanks + rest == rest;
    } else {
      assert (blanks + rest)[0] == blanks[0] && (blanks + rest)[1..] == blanks[1..] + rest;
      LeadingBlanksVanish(blanks[1..], rest);
    }
  }

  /** Two adjacent non-blank lines are joined by one space. */
  lemma {:induction false} AdjacentLinesOneSpace(a: string, b: string, rest: seq<string>)
    requires a != "" && b != ""
    ensures MarkdownPieces([a, b] + rest, true) == [Text(a), Space, Text(b)] + MarkdownPieces(rest, false)
  {
    var lines := [a, b] + rest;
    assert lines[0] == a && lines[1..] == [b] + rest;
    assert ([b] + rest)[0] == b && ([b] + rest)[1..] == rest;
    assert MarkdownPieces([b] + rest, false) == [Space, Text(b)] + MarkdownPieces(rest, false);
    assert MarkdownPieces(lines, true) == [Text(a)] + MarkdownPieces([b] + rest, false);
  }

  lemma {:induction false} NonBlankFirst(a: string, rest: seq<string>, noSpace: bool)
    requires a != ""
    ensures MarkdownPieces([a] + rest, noSpace) == LinePieces(a, noSpace) + MarkdownPieces(rest, false)
  {
    assert ([a] + rest)[0] == a && ([a] + rest)[1..] == rest;
  }

  /** Two non-blank lines with one or more blank lines between them are joined by one newline. */
  lemma {:induction false} BlankSeparatedOneNewline(a: string, blanks: seq<string>, b: string, rest: seq<string>)
    requires a != "" && b != ""
    requires blanks != [] && forall i :: 0 <= i < |blanks| ==> blanks[i] == ""
    ensures MarkdownPieces([a] + (blanks + ([b] + rest)), true) == [Text(a), Newline, Text(b)] + MarkdownPieces(rest, false)
  {
    var tail := [b] + rest;
    var r := MarkdownPieces(rest, false);
    var t := MarkdownPieces(tail, true);
    var m := MarkdownPieces(blanks + tail, false);
    NonBlankFirst(b, rest, true);
    assert LinePieces(b, true) == [Text(b)];
    assert t == [Text(b)] + r;
    BlankRunIsOneNewline(blanks, tail);
    assert m == [Newline] + t;
    NonBlankFirst(a, blanks + tail, true);
    assert LinePieces(a, true) == [Text(a)];
    assert MarkdownPieces([a] + (blanks + tail), true) == [Text(a)] + m;
    assert [Text(a)] + ([Newline] + ([Text(b)] + r)) == [Text(a), Newline, Text(b)] + r;
  }

  /** No stripped line starts with whitespace. */
  predicate NoLeadingSpace(stripped: seq<string>)
  {
    forall i :: 0 <= i < |stripped| && stripped[i] != "" ==> !IsSpace(stripped[i][0])
  }

  lemma {:induction false} StrippedNoLeadingSpace(lines: seq<string>)
    ensures NoLeadingSpace(StripAll(lines))
  {
    var stripped := StripAll(lines);
    forall i | 0 <= i < |stripped| && stripped[i] != ""
      ensures !IsSpace(stripped[i][0])
    {
      StripSpec(lines[i]);
    }
  }

  lemma {:induction false} JoinedStartsWithTextOf(stripped: seq<string>)
    requires NoLeadingSpace(stripped)
    ensures Render(MarkdownPieces(stripped, true)) != "" ==> !IsSpace(Render(MarkdownPieces(stripped, true))[0])
  {
    var pieces := MarkdownPieces(stripped, true);
    MarkdownWellSeparated(stripped, true);
    if pieces != [] {
      assert pieces[0].Text?;
      var t := pieces[0].text;
      assert t != "" && t in stripped;
      var k :| 0 <= k < |stripped| && stripped[k] == t;
      assert Render(pieces) == t + Render(pieces[1..]);
    }
  }

  /** The joined text of any lines never starts with whitespace, a space or newline included. */
  lemma {:induction false} JoinedStartsWithText(lines: seq<string>)
    ensures Render(MarkdownPieces(StripAll(lines), true)) != "" ==> !IsSpace(Render(MarkdownPieces(StripAll(lines), true))[0])
  {
    StrippedNoLeadingSpace(lines);
    JoinedStartsWithTextOf(StripAll(lines));
  }

  lemma {:induction false} MarkdownStep(stripped: seq<string>, i: nat, noSpace: bool)
    requires i < |stripped|
    ensures Render(MarkdownPieces(stripped[i..], noSpace))
      == Render(LinePieces(stripped[i], noSpace)) + Render(MarkdownPieces(stripped[i + 1..], stripped[i] == ""))
  {
    assert stripped[i..][0] == stripped[i] && stripped[i..][1..] == stripped[i + 1..];
    RenderConcat(LinePieces(stripped[i], noSpace), MarkdownPieces(stripped[i + 1..], stripped[i] == ""));
  }

  lemma {:induction false} LineRender(stripped: string, noSpace: bool)
    ensures Render(LinePieces(stripped, noSpace))
      == if stripped != "" then (if noSpace then "" else " ") + stripped else if noSpace then "" else "\n"
  {
    var p := LinePieces(stripped, noSpace);
    if |p| == 2 {
      assert p[1..][1..] == [];
    }
    if |p| >= 1 {
      assert Render(p[1..]) == if |p| == 2 then stripped else "";
    }
  }

  lemma {:induction false} ConcatAssoc(a: string, b: string, c: string)
    ensures (a + b) + c == a + (b + c)
  {
  }

  /** `join_lines_markdown_like`. */
  method JoinLinesMarkdownLike(lines: seq<string>) returns (joined: string)
    ensures joined == Render(MarkdownPieces(StripAll(lines), true))
  {
    joined := JoinStripped(StripAll(lines));
  }

  /** The loop of `join_lines_markdown_like`, over lines already stripped. */
  method JoinStripped(all: seq<string>) returns (joined: string)
    ensures joined == Render(MarkdownPieces(all, true))
  {
    joined := "";
    var noSpace := true;
    var i := 0;
    while i < |all|
      invariant i <= |all|
      invariant joined + Render(MarkdownPieces(all[i..], noSpace)) == Render(MarkdownPieces(all, true))
    {
      var stripped := all[i];
      ghost var wasNoSpace := noSpace;
      var piece := "";
      if stripped != "" {
        if !noSpace {
          piece := " ";
        }
        piece := piece + stripped;
        noSpace := false;
      } else {
        if !noSpace {
          piece := "\n";
        }
        noSpace := true;
      }
      LineRender(stripped, wasNoSpace);
      MarkdownStep(all, i, wasNoSpace);
      ConcatAssoc(joined, piece, Render(MarkdownPieces(all[i + 1..], noSpace)));
      joined := joined + piece;
      i := i + 1;
    }
    assert all[i..] == [];
  }

  // ---------------------------------------------------------------- join_sentence

  /** Each entry followed by ", ". */
  function CommaJoined(entries: seq<string>): string
    decreases |entries|
  {
    if entries == [] then "" else entries[0] + ", " + CommaJoined(entries[1..])
  }

  /**
   * `join_sentence`: the entries listed with ", " between them and the final
   * connector before the last one when there are more than two. An empty
   * list raises `IndexError` and is not allowed.
   */
  function JoinSentence(entries: seq<string>, finalConnector: string): (r: string)
    requires entries != []
    ensures |entries[|entries| - 1]| <= |r| && r[|r| - |entries[|entries| - 1]|..] == entries[|entries| - 1]
  {
    var last := entries[|entries| - 1];
    var r := CommaJoined(entries[..|entries| - 1]) + (if |entries| > 2 then finalConnector + " " else "") + last;
    assert r[|r| - |last|..] == last;
    r
  }

  /** One entry is itself, two are "A, B", and three are "A, B, and C". */
  lemma {:induction false} JoinSentenceExamples(a: string, b: string, c: string)
    ensures JoinSentence([a], "and") == a
    ensures JoinSentence([a, b], "and") == a + ", " + b
    ensures JoinSentence([a, b, c], "and") == a + ", " + b + ", " + "and " + c
  {
    assert [a, b][..1] == [a] && [a][1..] == [];
    assert [a, b, c][..2] == [a, b] && [a, b][1..] == [b] && [b][1..] == [];
    assert CommaJoined([b]) == b + ", ";
    assert CommaJoined([a, b]) == a + ", " + (b + ", ");
  }

  /** `sep.join(entries)`: the entries with `sep` between each two neighbours. */
  function Joined(sep: string, entries: seq<string>): string
    decreases |entries|
  {
    if entries == [] then ""
    else if |entries| == 1 then entries[0]
    else entries[0] + sep + Joined(sep, entries[1..])
  }

  /** Entries each followed by ", ", then one more, are the ", "-join of all of them. */
  lemma {:induction false} CommaJoinedThen(entries: seq<string>, x: string)
    ensures CommaJoined(entries) + x == Joined(", ", entries + [x])
    decreases |entries|
  {
    if entries == [] {
      assert entries + [x] == [x];
    } else {
      CommaJoinedThen(entries[1..], x);
      assert (entries + [x])[1..] == entries[1..] + [x];
      assert CommaJoined(entries) + x == entries[0] + ", " + (CommaJoined(entries[1..]) + x);
    }
  }

  /**
   * `join_sentence` is `", ".join` of the entries, except that with more than
   * two entries the last one is preceded by the final connector and a space.
   */
  lemma {:induction false} JoinSentenceIsJoin(entries: seq<string>, finalConnector: string)
    requires entries != []
    ensures |entries| <= 2 ==> JoinSentence(entries, finalConnector) == Joined(", ", entries)
    ensures |entries| > 2 ==>
      JoinSentence(entries, finalConnector) == Joined(", ", entries[..|entries| - 1] + [finalConnector + " " + entries[|entries| - 1]])
  {
    var n := |entries|;
    var front := entries[..n - 1];
    if n <= 2 {
      CommaJoinedThen(front, entries[n - 1]);
      assert front + [entries[n - 1]] == entries;
    } else {
      CommaJoinedThen(front, finalConnector + " " + entries[n - 1]);
    }
  }

  // ---------------------------------------------------------------- find_edge_characters

  /** `string.whitespace`. */
  const WHITESPACE: set<char> := {' ', '\t', '\n', '\r', '\U{B}', '\U{C}'}

  /** `str.isalnum` over ASCII letters and digits. */
  predicate IsAlnum(c: char)
  {
    'a' <= c <= 'z' || 'A' <= c <= 'Z' || '0' <= c <= '9'
  }

  /** The characters of an edge that are not alphanumeric, in order. */
  function Symbols(edge: string): (r: seq<char>)
    ensures |r| <= |edge|
    ensures forall c :: c in r <==> c in edge && !IsAlnum(c)
    decreases |edge|
  {
    if edge == [] then []
    else (if IsAlnum(edge[0]) then [] else [edge[0]]) + Symbols(edge[1..])
  }

  /** More than 0.8 of the edge's characters are symbols. */
  predicate Dense(edge: string)
  {
    5 * |Symbols(edge)| > 4 * |edge|
  }

  /** The symbols an edge contributes: all of them when they are dense enough, none otherwise. */
  function EdgeSymbols(edge: string): (r: set<char>)
    ensures forall c :: c in r <==> Dense(edge) && c in edge && !IsAlnum(c)
  {
    if Dense(edge) then set c | c in Symbols(edge) else {}
  }

  function Firsts(lines: seq<string>): (r: string)
    requires forall i :: 0 <= i < |lines| ==> lines[i] != ""
    ensures |r| == |lines| && forall i :: 0 <= i < |lines| ==> r[i] == lines[i][0]
  {
    seq(|lines|, i requires 0 <= i < |lines| => lines[i][0])
  }

  function Lasts(lines: seq<string>): (r: string)
    requires forall i :: 0 <= i < |lines| ==> lines[i] != ""
    ensures |r| == |lines| && forall i :: 0 <= i < |lines| ==> r[i] == lines[i][|lines[i]| - 1]
  {
    seq(|lines|, i requires 0 <= i < |lines| => lines[i][|lines[i]| - 1])
  }

  /** The four edges of the stripped non-blank lines: first line, last line, first characters, last characters. */
  function Edges(stripped: seq<string>): (r: seq<string>)
    requires stripped != [] && forall i :: 0 <= i < |stripped| ==> stripped[i] != ""
    ensures |r| == 4
  {
    [stripped[0], stripped[|stripped| - 1], Firsts(stripped), Lasts(stripped)]
  }

  function SymbolsOfEdges(edges: seq<string>): set<char>
    decreases |edges|
  {
    if edges == [] then {} else SymbolsOfEdges(edges[..|edges| - 1]) + EdgeSymbols(edges[|edges| - 1])
  }

  /** What `find_edge_characters` returns for the non-blank stripped lines, as a set of characters. */
  function EdgeCharactersOf(stripped: seq<string>): set<char>
    requires forall i :: 0 <= i < |stripped| ==> stripped[i] != ""
  {
    if stripped == [] then WHITESPACE else WHITESPACE + SymbolsOfEdges(Edges(stripped))
  }

  /** What `find_edge_characters` returns, as a set of characters. */
  function EdgeCharacters(lines: seq<string>): set<char>
  {
    EdgeCharactersOf(NonBlank(StripAll(lines)))
  }

  lemma {:induction false} SymbolsOfEdgesMeaning(edges: seq<string>, c: char)
    ensures c in SymbolsOfEdges(edges) <==> exists i :: 0 <= i < |edges| && Dense(edges[i]) && c in edges[i] && !IsAlnum(c)
    decreases |edges|
  {
    if edges != [] {
      var init := edges[..|edges| - 1];
      SymbolsOfEdgesMeaning(init, c);
      assert forall i :: 0 <= i < |init| ==> init[i] == edges[i];
    }
  }

  /**
   * The result is the whitespace plus the symbols of every dense edge, and
   * nothing else: only whitespace when every line is blank, and never a
   * letter or a digit.
   */
  lemma {:induction false} EdgeCharactersMeaning(stripped: seq<string>, c: char)
    requires forall i :: 0 <= i < |stripped| ==> stripped[i] != ""
    ensures WHITESPACE <= EdgeCharactersOf(stripped)
    ensures stripped == [] ==> EdgeCharactersOf(stripped) == WHITESPACE
    ensures stripped != [] ==>
      (c in EdgeCharactersOf(stripped) <==>
        (c in WHITESPACE || exists i :: 0 <= i < 4 && Dense(Edges(stripped)[i]) && c in Edges(stripped)[i] && !IsAlnum(c)))
    ensures c in EdgeCharactersOf(stripped) ==> !IsAlnum(c)
  {
    if stripped != [] {
      SymbolsOfEdgesMeaning(Edges(stripped), c);
    }
  }

  lemma {:induction false} SymbolsStep(edges: seq<string>, k: nat)
    requires k < |edges|
    ensures SymbolsOfEdges(edges[..k + 1]) == SymbolsOfEdges(edges[..k]) + EdgeSymbols(edges[k])
  {
    assert edges[..k + 1][..k] == edges[..k];
  }

  /** `find_edge_characters`; the order of the characters in the returned string does not matter to `strip`. */
  method FindEdgeCharacters(lines: seq<string>) returns (chars: set<char>)
    ensures chars == EdgeCharacters(lines)
  {
    var stripped := NonBlank(StripAll(lines));
    if stripped == [] {
      return WHITESPACE;
    }
    chars := AddEdgeSymbols(stripped);
  }

  /** The loop of `find_edge_characters` over the four edges. */
  method AddEdgeSymbols(stripped: seq<string>) returns (chars: set<char>)
    requires stripped != [] && forall i :: 0 <= i < |stripped| ==> stripped[i] != ""
    ensures chars == EdgeCharactersOf(stripped)
  {
    chars := WHITESPACE;
    var edges := Edges(stripped);
    for k := 0 to 4
      invariant chars == WHITESPACE + SymbolsOfEdges(edges[..k])
    {
      SymbolsStep(edges, k);
      var edge := edges[k];
      var symbols := Symbols(edge);
      if 5 * |symbols| > 4 * |edge| {
        chars := chars + set c | c in symbols;
      }
    }
    assert edges[..4] == edges;
  }

  /** `str.strip(chars)`: the characters of `chars` removed from both ends. */
  function StripChars(s: string, chars: set<char>): (r: string)
    ensures |r| <= |s|
    ensures r != [] ==> r[0] !in chars && r[|r| - 1] !in chars
    ensures s == [] || (s[0] !in chars && s[|s| - 1] !in chars) ==> r == s
    decreases |s|
  {
    if s != [] && s[0] in chars then StripChars(s[1..], chars)
    else if s != [] && s[|s| - 1] in chars then StripChars(s[..|s| - 1], chars)
    else s
  }

  function StripEach(lines: seq<string>, chars: set<char>): (r: seq<string>)
    ensures |r| == |lines| && forall i :: 0 <= i < |lines| ==> r[i] == StripChars(lines[i], chars)
  {
    seq(|lines|, i requires 0 <= i < |lines| => StripChars(lines[i], chars))
  }

  // ---------------------------------------------------------------- load_mod_info

  /** The first value of a tag, or the default when the tag is absent. */
  function FirstOr(tags: map<string, seq<string>>, tag: string, default: string): string
    requires tag in tags ==> tags[tag] != []
  {
    if tag in tags then tags[tag][0] else default
  }

  /** The authors: the first main author, then every author stripped. */
  function Authors(tags: map<string, seq<string>>): (r: seq<string>)
    requires "@main-author" in tags ==> tags["@main-author"] != []
    ensures r == [] <==> "@main-author" !in tags && ("@author" !in tags || tags["@author"] == [])
  {
    (if "@main-author" in tags then [tags["@main-author"][0]] else [])
    + (if "@author" in tags then seq(|tags["@author"]|, i requires 0 <= i < |tags["@author"]| => Strip(tags["@author"][i])) else [])
  }

  /** The default metadata of a file the parser could not read. */
  function FailedInfo(fileName: string, mtime: real): ModInfo
  {
    ModInfo(mtime, false, None, None, fileName, DEFAULT_AUTHOR, "", "")
  }

  /**
   * `load_mod_info`, given what `file_parser.parse` made of the file (`None`
   * when it raised), the file's name and its modification time.
   */
  method LoadModInfo(parsed: Option<ParseResult>, fileName: string, mtime: real, members: map<string, Game>)
    returns (info: ModInfo)
    requires parsed.Some? ==> TagListsNonEmpty(parsed.value.Contents())
    ensures parsed.None? ==> info == FailedInfo(fileName, mtime)
    ensures parsed.Some? ==>
      var tags := parsed.value.blimpTags;
      && info.modifyTime == mtime
      && info.ignoreMe == ("@tml-ignore-me" in tags)
      && info.sparkServiceIdx == (if parsed.value.sparkServiceIdx.None? then None else Some(parsed.value.sparkServiceIdx.value))
      && info.recommendedGame == (if parsed.value.game.None? then None else MemberGet(members, GameName(parsed.value.game.value)))
      && info.title == FirstOr(tags, "@title", fileName)
      && info.version == FirstOr(tags, "@version", "")
      && info.author == (if Authors(tags) == [] then DEFAULT_AUTHOR else JoinSentence(Authors(tags), "and"))
    ensures parsed.Some? && "@description" in parsed.value.blimpTags ==>
      info.description == Render(MarkdownPieces(StripAll(parsed.value.blimpTags["@description"]), true))
    ensures parsed.Some? && "@description" !in parsed.value.blimpTags ==>
      var untagged := parsed.value.untaggedLines;
      info.description == Render(MarkdownPieces(StripAll(StripEach(untagged, EdgeCharacters(untagged))), true))
  {
    if parsed.None? {
      return FailedInfo(fileName, mtime);
    }
    var pr := parsed.value;
    var tags := pr.blimpTags;
    var authors := Authors(tags);
    var description;
    if "@description" in tags {
      description := JoinLinesMarkdownLike(tags["@description"]);
    } else {
      var stripChars := FindEdgeCharacters(pr.untaggedLines);
      description := JoinLinesMarkdownLike(StripEach(pr.untaggedLines, stripChars));
    }
    var game := if pr.game.None? then None else MemberGet(members, GameName(pr.game.value));
    var spark: Option<int> := if pr.sparkServiceIdx.None? then None else Some(pr.sparkServiceIdx.value);
    info := ModInfo(
      mtime, "@tml-ignore-me" in tags, spark, game,
      FirstOr(tags, "@title", fileName),
      if authors == [] then DEFAULT_AUTHOR else JoinSentence(authors, "and"),
      FirstOr(tags, "@version", ""),
      description);
  }

  /** With no tags the title is the file name, the author "Text Mod Loader" and the version empty. */
  lemma {:induction false} MetadataDefaults(tags: map<string, seq<string>>, fileName: string)
    requires "@title" !in tags && "@version" !in tags && "@main-author" !in tags && "@author" !in tags
    ensures FirstOr(tags, "@title", fileName) == fileName && FirstOr(tags, "@version", "") == ""
    ensures Authors(tags) == []
  {
  }

  // ---------------------------------------------------------------- load_all_text_mods

  /** `all_text_mods`: the loaded text mods by file. */
  class TextModRegistry {
    var mods: map<string, TextMod>

    constructor ()
      ensures mods == map[]
    {
      mods := map[];
    }

    /** Every mod is stored under its own file. */
    predicate Valid()
      reads this
    {
      forall k :: k in mods ==> mods[k].file == k
    }

    /**
     * The first loop of `load_all_text_mods`: every mod checks whether its
     * file still exists, and those left inactive are dropped.
     */
    method DropInactive(fileExists: string -> bool)
      requires Valid()
      modifies this, mods.Values
      ensures Valid()
      ensures forall k :: k in old(mods) ==> old(mods)[k].state == CheckedState(old(mods[k].state), fileExists(k))
      ensures forall k :: k in mods <==> k in old(mods) && IsActive(old(mods)[k].state)
      ensures forall k :: k in mods ==> mods[k] == old(mods)[k]
    {
      ghost var before := mods;
      var remaining := mods.Keys;
      while remaining != {}
        invariant remaining <= before.Keys
        invariant forall k :: k in before ==> before[k].file == k
        invariant forall k :: k in mods ==> k in before && mods[k] == before[k]
        invariant forall k :: k in remaining ==> k in mods && before[k].state == old(before[k].state)
        invariant forall k :: k in before && k !in remaining ==> before[k].state == CheckedState(old(before[k].state), fileExists(k))
        invariant forall k :: k in before && k !in remaining ==> (k in mods <==> IsActive(before[k].state))
        decreases remaining
      {
        ghost var some := SomeMember(remaining);
        var k :| k in remaining;
        var mod := mods[k];
        assert forall j :: j in before && j != k ==> before[j] != mod;
        mod.CheckDeleted(fileExists(mod.file));
        if !IsActive(mod.state) {
          mods := mods - {k};
        }
        remaining := remaining - {k};
        forall j | j in before && j !in remaining
          ensures before[j].state == CheckedState(old(before[j].state), fileExists(j))
          ensures j in mods <==> IsActive(before[j].state)
        {
          if j != k {
            assert before[j] != mod;
          }
        }
      }
    }

    /**
     * The second loop of `load_all_text_mods`: every file not loaded yet gets
     * a new mod unless its metadata asks to be ignored. `infoOf` is the
     * metadata the cache or `load_mod_info` gives for a file, `nameOf` its
     * file name; `supportedGames` is the default of the mod base class.
     * `anyHotfixUsed` is the flag each new mod's `__post_init__` reads: as
     * written `IMPORTED_ANY_HOTFIX_USED`, as intended `HotfixFlag.anyHotfixUsed`.
     */
    method AddNewMods(entries: seq<string>, isFile: string -> bool, infoOf: string -> ModInfo,
                      supportedGames: set<Game>, anyHotfixUsed: bool, serviceName: int -> Option<string>)
      requires Valid()
      modifies this
      ensures Valid()
      ensures forall k :: k in old(mods) ==> k in mods && mods[k] == old(mods)[k]
      ensures forall k :: k in mods <==> k in old(mods) || (k in entries && isFile(k) && !infoOf(k).ignoreMe)
      ensures forall k :: k in mods && k !in old(mods) ==> fresh(mods[k]) && IsLoadedFrom(mods[k], infoOf(k), anyHotfixUsed, serviceName)
    {
      var i := 0;
      while i < |entries|
        invariant i <= |entries|
        invariant Valid()
        invariant forall k :: k in old(mods) ==> k in mods && mods[k] == old(mods)[k]
        invariant forall k :: k in mods <==> k in old(mods) || (k in entries[..i] && isFile(k) && !infoOf(k).ignoreMe)
        invariant forall k :: k in mods && k !in old(mods) ==> fresh(mods[k]) && IsLoadedFrom(mods[k], infoOf(k), anyHotfixUsed, serviceName)
      {
        var entry := entries[i];
        assert entries[..i + 1] == entries[..i] + [entry];
        if !isFile(entry) || entry in mods {
          i := i + 1;
          continue;
        }
        var info := infoOf(entry);
        if info.ignoreMe {
          i := i + 1;
          continue;
        }
        var bad := info.sparkServiceIdx.Some? && !IsHotfixService(info.sparkServiceIdx.value, serviceName);
        var mod := new TextMod(info.title, info.author, info.version, entry, info.sparkServiceIdx, info.recommendedGame,
                               Some(info.description), supportedGames, anyHotfixUsed, !bad);
        mods := mods[entry := mod];
        i := i + 1;
      }
      assert entries[..i] == entries;
    }
  }

  /** A mod built from a file's metadata, locked as `__post_init__` decides. */
  ghost predicate IsLoadedFrom(mod: TextMod, info: ModInfo, anyHotfixUsed: bool, serviceName: int -> Option<string>)
    reads mod
  {
    && mod.name == info.title && mod.author == info.author && mod.version == info.version
    && mod.sparkServiceIdx == info.sparkServiceIdx && mod.recommendedGame == info.recommendedGame
    && mod.internalDescription == Some(info.description)
    && mod.state == InitialState(Disabled, info.sparkServiceIdx, anyHotfixUsed,
                                 info.sparkServiceIdx.Some? && IsHotfixService(info.sparkServiceIdx.value, serviceName))
  }

  /** `load_all_text_mods`: inactive mods are dropped, active ones kept as they are, and new files loaded. */
  method LoadAllTextMods(registry: TextModRegistry, fileExists: string -> bool, entries: seq<string>, isFile: string -> bool,
                         infoOf: string -> ModInfo, supportedGames: set<Game>, anyHotfixUsed: bool,
                         serviceName: int -> Option<string>)
    requires registry.Valid()
    modifies registry, registry.mods.Values
    ensures registry.Valid()
    ensures forall k :: k in old(registry.mods) ==>
      old(registry.mods)[k].state == CheckedState(old(registry.mods[k].state), fileExists(k))
    ensures forall k :: k in old(registry.mods) && IsActive(old(registry.mods)[k].state) ==>
      k in registry.mods && registry.mods[k] == old(registry.mods)[k]
    ensures forall k :: k in registry.mods <==>
      (k in old(registry.mods) && IsActive(old(registry.mods)[k].state)) || (k in entries && isFile(k) && !infoOf(k).ignoreMe)
    ensures forall k :: k in registry.mods && !(k in old(registry.mods) && IsActive(old(registry.mods)[k].state)) ==>
      fresh(registry.mods[k]) && IsLoadedFrom(registry.mods[k], infoOf(k), anyHotfixUsed, serviceName)
  {
    registry.DropInactive(fileExists);
    registry.AddNewMods(entries, isFile, infoOf, supportedGames, anyHotfixUsed, serviceName);
  }
}
