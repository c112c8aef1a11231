/**
 * The text form of an item code and its parsing (`parse_item_code`). A code is
 * either `IDENT(BASE)` or `IDENTMODDED[BASE|EXTENSION]`, with the identifier
 * made of word characters and the marker `MODDED` in any case; BASE and
 * EXTENSION are Base64. The identifier must start with the current game's
 * prefix, matched without regard to case.
 *
 * The regular expression `^(\w+)(?:\((.+?)\)|MODDED\[(.+?)\|(.+?)\])$` is
 * specified by hand: `MatchItemCode` computes its groups, and `Shape` and
 * `Render` describe the same language declaratively.
 */
module ItemCodeText {
  import opened Wrappers
  import opened Bytes
  import Base64
  import opened Strings

  /** The games the codec knows, each with its own code prefix. */
  datatype Game = BL2 | TPS | AoDK

  /** The outcome codes of unpacking (`UnpackResult`). */
  datatype UnpackResult =
    | NoMatch            // no item code in the text
    | WrongGame          // the code's prefix belongs to another game
    | MalformedCode      // invalid Base64, a bad length or checksum, an invalid extension
    | GameRejectedCode   // the game's own unpacker refused the serial
    | FullWeapon
    | FullItem
    | PartialWeapon      // a weapon, but some replacement object was not found
    | PartialItem

  // ---------------------------------------------------------------- characters

  /** A word character of `\w`, over ASCII. */
  predicate IsWordChar(c: char)
  {
    'A' <= c <= 'Z' || 'a' <= c <= 'z' || '0' <= c <= '9' || c == '_'
  }

  predicate NoNewline(s: string)
  {
    forall i :: 0 <= i < |s| ==> s[i] != '\n'
  }

  predicate AllWordChars(s: string)
  {
    forall i :: 0 <= i < |s| ==> IsWordChar(s[i])
  }

  // ---------------------------------------------------------------- matching

  /** The groups of a match: the identifier and the Base64 parts, plus the marker as written. */
  datatype CodeMatch =
    | Plain(ident: string, base: string)
    | Modded(ident: string, marker: string, base: string, extension: string)

  /** Length of the longest prefix of word characters. */
  function WordRun(s: string): (n: nat)
    ensures n <= |s|
    ensures forall i :: 0 <= i < n ==> IsWordChar(s[i])
    ensures n < |s| ==> !IsWordChar(s[n])
  {
    if s == [] || !IsWordChar(s[0]) then 0 else 1 + WordRun(s[1..])
  }

  /** Index of the first '|' at or after index 1, or the length when there is none. */
  function BarIndex(s: string, from: nat): (k: nat)
    requires from <= |s|
    ensures from <= k <= |s|
    ensures forall i :: from <= i < k ==> s[i] != '|'
    ensures k < |s| ==> s[k] == '|'
    decreases |s| - from
  {
    if from == |s| || s[from] == '|' then from else BarIndex(s, from + 1)
  }

  /**
   * The match of `RE_ITEM_CODE` on stripped text. The identifier is the whole
   * run of word characters (neither '(' nor '[' is one), less the six characters
   * of the marker in the modded form. The lazy BASE group of the modded form ends
   * at the first '|' after its first character that leaves the EXTENSION non-empty.
   */
  function MatchItemCode(s: string): (r: Option<CodeMatch>)
  {
    var w := WordRun(s);
    if !NoNewline(s) || w == 0 || w == |s| then None
    else if s[w] == '(' then MatchPlain(s, w)
    else if s[w] == '[' then MatchModded(s, w)
    else None
  }

  /** The plain form after a word run of length `w`: `(BASE)` to the end. */
  function MatchPlain(s: string, w: nat): Option<CodeMatch>
    requires w < |s|
  {
    if |s| >= w + 3 && s[|s| - 1] == ')' then Some(Plain(s[..w], s[w + 1..|s| - 1])) else None
  }

  /** The modded form after a word run of length `w` that ends in the marker: `[BASE|EXTENSION]` to the end. */
  function MatchModded(s: string, w: nat): Option<CodeMatch>
    requires w < |s|
  {
    if w >= 7 && EqualIgnoreCase(s[w - 6..w], "MODDED") && |s| >= w + 3 && s[|s| - 1] == ']' then
      var inner := s[w + 1..|s| - 1];
      var k := BarIndex(inner, 1);
      if k + 1 < |inner| then Some(Modded(s[..w - 6], s[w - 6..w], inner[..k], inner[k + 1..])) else None
    else None
  }

  /** The groups the regular expression can produce. */
  predicate Shape(m: CodeMatch)
  {
    && m.ident != [] && AllWordChars(m.ident)
    && m.base != [] && NoNewline(m.base)
    && match m
       case Plain(_, _) => true
       case Modded(_, marker, base, extension) =>
         && EqualIgnoreCase(marker, "MODDED")
         && (forall i :: 1 <= i < |base| ==> base[i] != '|')
         && extension != [] && NoNewline(extension)
  }

  /** The text a match covers. */
  function Render(m: CodeMatch): string
  {
    match m
    case Plain(ident, base) => ident + "(" + base + ")"
    case Modded(ident, marker, base, extension) => ident + marker + "[" + base + "|" + extension + "]"
  }

  lemma {:induction false} MarkerIsWord(marker: string)
    requires EqualIgnoreCase(marker, "MODDED")
    ensures AllWordChars(marker)
  {
    forall i | 0 <= i < |marker| ensures IsWordChar(marker[i]) {
      assert UpperChar(marker[i]) == UpperChar("MODDED"[i]);
    }
  }

  lemma {:induction false} WordRunOf(a: string, b: string)
    requires AllWordChars(a) && (b != [] ==> !IsWordChar(b[0]))
    ensures WordRun(a + b) == |a|
  {
    if a != [] {
      assert (a + b)[1..] == a[1..] + b;
      WordRunOf(a[1..], b);
    } else {
      assert a + b == b;
    }
  }

  /** Every match is a well-shaped code that covers the whole text. */
  lemma {:induction false} MatchSound(s: string)
    requires MatchItemCode(s).Some?
    ensures Shape(MatchItemCode(s).value) && Render(MatchItemCode(s).value) == s
  {
    var w := WordRun(s);
    if s[w] == '(' {
      assert s == s[..w] + [s[w]] + s[w + 1..|s| - 1] + [s[|s| - 1]];
    } else {
      ModdedMatchSound(s, w);
    }
  }

  lemma {:induction false} ModdedMatchSound(s: string, w: nat)
    requires 0 < w < |s| && NoNewline(s) && AllWordChars(s[..w]) && s[w] == '['
    requires MatchModded(s, w).Some?
    ensures Shape(MatchModded(s, w).value) && Render(MatchModded(s, w).value) == s
  {
    ModdedMatchRenders(s, w);
    ModdedMatchShape(s, w);
  }

  lemma {:induction false} ModdedMatchRenders(s: string, w: nat)
    requires 0 < w < |s| && s[w] == '['
    requires MatchModded(s, w).Some?
    ensures Render(MatchModded(s, w).value) == s
  {
    var inner := s[w + 1..|s| - 1];
    var k := BarIndex(inner, 1);
    ModdedPieces(s, w, k);
  }

  /** Text cut into the modded form's pieces renders back to itself. */
  lemma {:induction false} ModdedPieces(s: string, w: nat, k: nat)
    requires 7 <= w && w + 3 <= |s| && s[w] == '[' && s[|s| - 1] == ']'
    requires k + 1 < |s| - w - 2 && s[w + 1 + k] == '|'
    ensures var inner := s[w + 1..|s| - 1];
      Render(Modded(s[..w - 6], s[w - 6..w], inner[..k], inner[k + 1..])) == s
  {
    var inner := s[w + 1..|s| - 1];
    var t := s[..w - 6] + s[w - 6..w];
    assert t == s[..w];
    var u := t + "[";
    assert u == s[..w + 1];
    var v := u + inner[..k];
    assert v == s[..w + 1 + k];
    var x := v + "|";
    assert x == s[..w + 2 + k];
    var y := x + inner[k + 1..];
    assert y == s[..|s| - 1];
    assert y + "]" == s;
  }

  lemma {:induction false} ModdedMatchShape(s: string, w: nat)
    requires 0 < w < |s| && NoNewline(s) && AllWordChars(s[..w]) && s[w] == '['
    requires MatchModded(s, w).Some?
    ensures Shape(MatchModded(s, w).value)
  {
    var inner := s[w + 1..|s| - 1];
    var k := BarIndex(inner, 1);
    var ident, marker, base, ext := s[..w - 6], s[w - 6..w], inner[..k], inner[k + 1..];
    assert MatchModded(s, w).value == Modded(ident, marker, base, ext);
    assert NoNewline(base) by {
      forall i | 0 <= i < |base| ensures base[i] != '\n' { assert base[i] == s[w + 1 + i]; }
    }
    assert NoNewline(ext) by {
      forall i | 0 <= i < |ext| ensures ext[i] != '\n' { assert ext[i] == s[w + 1 + k + 1 + i]; }
    }
    assert AllWordChars(ident) by {
      forall i | 0 <= i < |ident| ensures IsWordChar(ident[i]) { assert ident[i] == s[..w][i]; }
    }
  }

  lemma {:induction false} BarIndexAt(s: string, from: nat, k: nat)
    requires from <= k < |s| && s[k] == '|'
    requires forall i :: from <= i < k ==> s[i] != '|'
    ensures BarIndex(s, from) == k
    decreases k - from
  {
    if from < k {
      BarIndexAt(s, from + 1, k);
    }
  }

  /** Every well-shaped code is matched, with the same groups. */
  lemma {:induction false} MatchComplete(m: CodeMatch)
    requires Shape(m)
    ensures MatchItemCode(Render(m)) == Some(m)
  {
    if m.Plain? {
      PlainComplete(m.ident, m.base);
    } else {
      ModdedComplete(m.ident, m.marker, m.base, m.extension);
    }
  }

  lemma {:induction false} PlainComplete(ident: string, base: string)
    requires Shape(Plain(ident, base))
    ensures MatchItemCode(ident + "(" + base + ")") == Some(Plain(ident, base))
  {
    var tail := "(" + base + ")";
    var s := ident + tail;
    assert s == ident + "(" + base + ")";
    WordRunOf(ident, tail);
    forall i | 0 <= i < |s| ensures s[i] != '\n' {
      if i < |ident| {
        assert IsWordChar(s[i]);
      } else if |ident| < i < |s| - 1 {
        assert s[i] == base[i - |ident| - 1];
      }
    }
    assert s[..|ident|] == ident;
    assert s[|ident| + 1..|s| - 1] == base;
  }

  lemma {:induction false} ModdedComplete(ident: string, marker: string, base: string, extension: string)
    requires Shape(Modded(ident, marker, base, extension))
    ensures MatchItemCode(ident + marker + "[" + base + "|" + extension + "]")
         == Some(Modded(ident, marker, base, extension))
  {
    MarkerIsWord(marker);
    var word := ident + marker;
    var inner := base + "|" + extension;
    var s := word + ("[" + inner + "]");
    assert s == ident + marker + "[" + base + "|" + extension + "]";
    assert AllWordChars(word) by {
      forall i | 0 <= i < |word| ensures IsWordChar(word[i]) {
        if i >= |ident| { assert word[i] == marker[i - |ident|]; }
      }
    }
    WordRunOf(word, "[" + inner + "]");
    assert NoNewline(inner) by {
      forall i | 0 <= i < |inner| ensures inner[i] != '\n' {
        if i < |base| {
          assert inner[i] == base[i];
        } else if i > |base| {
          assert inner[i] == extension[i - |base| - 1];
        }
      }
    }
    WordThenBracketed(word, inner);
    ModdedGroups(ident, marker, base, extension);
  }

  /** A word run followed by a bracketed text without line breaks has no line break. */
  lemma {:induction false} WordThenBracketed(word: string, inner: string)
    requires AllWordChars(word) && NoNewline(inner)
    ensures NoNewline(word + ("[" + inner + "]"))
  {
    var s := word + ("[" + inner + "]");
    forall i | 0 <= i < |s| ensures s[i] != '\n' {
      if i < |word| {
        assert s[i] == word[i];
      } else if |word| < i < |s| - 1 {
        assert s[i] == inner[i - |word| - 1];
      }
    }
  }

  /** The modded form reads its groups back from the rendered text. */
  lemma {:induction false} ModdedGroups(ident: string, marker: string, base: string, extension: string)
    requires Shape(Modded(ident, marker, base, extension))
    ensures var w := |ident + marker|;
      MatchModded(ident + marker + "[" + base + "|" + extension + "]", w)
        == Some(Modded(ident, marker, base, extension))
  {
    var inner := base + "|" + extension;
    var word := ident + marker;
    var s := word + ("[" + inner + "]");
    assert s == ident + marker + "[" + base + "|" + extension + "]";
    var w := |word|;
    assert |marker| == 6;
    assert s[..w] == word;
    assert s[w + 1..|s| - 1] == inner;
    assert s[w] == '[' && s[|s| - 1] == ']';
    assert word[..w - 6] == ident && word[w - 6..] == marker;
    BarIndexAt(inner, 1, |base|);
    assert inner[..|base|] == base && inner[|base| + 1..] == extension;
    ModdedGroupsOf(s, w, ident, marker, inner, |base|);
  }

  lemma {:induction false} ModdedGroupsOf(s: string, w: nat, ident: string, marker: string, inner: string, k: nat)
    requires 7 <= w && w + 3 <= |s|
    requires s[..w] == ident + marker && |marker| == 6 && EqualIgnoreCase(marker, "MODDED")
    requires s[w + 1..|s| - 1] == inner && s[|s| - 1] == ']'
    requires BarIndex(inner, 1) == k && k + 1 < |inner|
    ensures MatchModded(s, w) == Some(Modded(ident, marker, inner[..k], inner[k + 1..]))
  {
    assert s[w - 6..w] == s[..w][w - 6..];
    assert s[..w - 6] == s[..w][..w - 6];
    assert (ident + marker)[w - 6..] == marker && (ident + marker)[..w - 6] == ident;
  }

  // ---------------------------------------------------------------- the game prefix

  /** `GAME_PREFIX`: the prefix packed codes get. */
  function GamePrefix(game: Game): string
  {
    match game
    case BL2 => "BL2"
    case TPS => "BLOZ"
    case AoDK => "AODK"
  }

  /** `RE_GAME_PREFIX.match(ident)`: the identifier starts with an accepted prefix, up to case. */
  predicate AcceptsPrefix(game: Game, ident: string)
  {
    match game
    case BL2 => StartsWithIgnoreCase(ident, "BL2")
    case TPS => StartsWithIgnoreCase(ident, "BLOZ") || StartsWithIgnoreCase(ident, "BLTPS")
    case AoDK => StartsWithIgnoreCase(ident, "AODK")
  }

  /** A game accepts its own prefix, and no game accepts another game's prefix. */
  lemma {:induction false} PrefixesSeparateGames(game: Game, other: Game)
    ensures AcceptsPrefix(game, GamePrefix(game))
    ensures other != game ==> !AcceptsPrefix(other, GamePrefix(game))
  {
    var p := GamePrefix(game);
    assert p[..|p|] == p;
    match game {
      case BL2 => assert |p| == 3 && UpperChar(p[0]) == 'B';
      case TPS => assert |p| == 4 && UpperChar(p[0]) == 'B' && UpperChar(p[2]) == 'O';
      case AoDK => assert |p| == 4 && UpperChar(p[0]) == 'A';
    }
  }

  /** The prefix is matched, not the whole identifier: anything may follow it. */
  lemma {:induction false} PrefixIsEnough(game: Game, suffix: string)
    ensures AcceptsPrefix(game, GamePrefix(game) + suffix)
  {
    var p := GamePrefix(game);
    assert (p + suffix)[..|p|] == p;
  }

  // ---------------------------------------------------------------- parsing

  /** What `parse_item_code` returns: an outcome code, or the serial and the optional extension. */
  datatype ParseOutcome =
    | Failed(result: UnpackResult)
    | Parsed(serial: seq<Byte>, extension: Option<seq<Byte>>)

  /** The decoded extension of a match, if it has one. */
  function DecodedExtension(m: CodeMatch): Option<Result<seq<Byte>, Base64.DecodeError>>
  {
    if m.Modded? then Some(Base64.Decode(m.extension)) else None
  }

  /**
   * `parse_item_code` as it is evidently intended: every Base64 failure,
   * including text that is not ASCII, gives MalformedCode.
   */
  function ParseItemCode(code: string, game: Game): (r: ParseOutcome)
    ensures r == Failed(NoMatch) <==> MatchItemCode(Strip(code)).None?
    ensures r.Parsed? ==>
      && MatchItemCode(Strip(code)).Some? && AcceptsPrefix(game, MatchItemCode(Strip(code)).value.ident)
      && Base64.Decode(MatchItemCode(Strip(code)).value.base) == Ok(r.serial)
  {
    match MatchItemCode(Strip(code))
    case None => Failed(NoMatch)
    case Some(m) =>
      if !AcceptsPrefix(game, m.ident) then Failed(WrongGame)
      else Decoded(Base64.Decode(m.base), DecodedExtension(m))
  }

  /** The outcome once the Base64 parts are decoded: any failure is MalformedCode. */
  function Decoded(serial: Result<seq<Byte>, Base64.DecodeError>,
                   extension: Option<Result<seq<Byte>, Base64.DecodeError>>): (r: ParseOutcome)
  {
    if serial.Err? || (extension.Some? && extension.value.Err?) then Failed(MalformedCode)
    else Parsed(serial.value, if extension.Some? then Some(extension.value.value) else None)
  }

  /**
   * A well-shaped code, with any surrounding whitespace, parses to the decoding of
   * its groups when its identifier carries the game's prefix, and to WrongGame
   * otherwise.
   */
  lemma {:induction false} ParseRendered(m: CodeMatch, game: Game, lead: string, trail: string)
    requires Shape(m)
    requires forall i :: 0 <= i < |lead| ==> IsSpace(lead[i])
    requires forall i :: 0 <= i < |trail| ==> IsSpace(trail[i])
    ensures AcceptsPrefix(game, m.ident) ==>
      ParseItemCode(lead + Render(m) + trail, game) == Decoded(Base64.Decode(m.base), DecodedExtension(m))
    ensures !AcceptsPrefix(game, m.ident) ==> ParseItemCode(lead + Render(m) + trail, game) == Failed(WrongGame)
  {
    var s := Render(m);
    assert s[0] == m.ident[0];
    assert IsWordChar(s[0]);
    assert s[|s| - 1] == (if m.Plain? then ')' else ']');
    StripPadded(lead, s, trail);
    MatchComplete(m);
  }

  /** What `parse_item_code` as written does: return, or raise the ValueError it does not catch. */
  datatype AsWritten = Returned(outcome: ParseOutcome) | RaisedValueError

  /**
   * `parse_item_code` as written: `b64decode` raises ValueError, not
   * `binascii.Error`, for a string that is not ASCII, and only `binascii.Error`
   * is caught.
   */
  function ParseItemCodeAsWritten(code: string, game: Game): (r: AsWritten)
  {
    match MatchItemCode(Strip(code))
    case None => Returned(Failed(NoMatch))
    case Some(m) =>
      if !AcceptsPrefix(game, m.ident) then Returned(Failed(WrongGame))
      else DecodedAsWritten(Base64.Decode(m.base), DecodedExtension(m))
  }

  /** The decoding step as written: a NonAscii failure escapes as the ValueError. */
  function DecodedAsWritten(serial: Result<seq<Byte>, Base64.DecodeError>,
                            extension: Option<Result<seq<Byte>, Base64.DecodeError>>): (r: AsWritten)
  {
    if serial == Err(Base64.NonAscii) then RaisedValueError
    else if serial.Err? then Returned(Failed(MalformedCode))
    else if extension == Some(Err(Base64.NonAscii)) then RaisedValueError
    else if extension.Some? && extension.value.Err? then Returned(Failed(MalformedCode))
    else Returned(Parsed(serial.value, if extension.Some? then Some(extension.value.value) else None))
  }

  /**
   * The outcome codes of parsing: NoMatch exactly when the stripped text is not
   * a code, WrongGame exactly when the identifier lacks the prefix, and on
   * success an extension exactly for the modded form.
   */
  lemma {:induction false} ParseOutcomes(code: string, game: Game)
    ensures ParseItemCode(code, game) == Failed(NoMatch) <==> MatchItemCode(Strip(code)).None?
    ensures ParseItemCode(code, game) == Failed(WrongGame) <==>
      MatchItemCode(Strip(code)).Some? && !AcceptsPrefix(game, MatchItemCode(Strip(code)).value.ident)
    ensures ParseItemCode(code, game) == Failed(MalformedCode) <==>
      && MatchItemCode(Strip(code)).Some?
      && AcceptsPrefix(game, MatchItemCode(Strip(code)).value.ident)
      && (Base64.Decode(MatchItemCode(Strip(code)).value.base).Err?
          || (MatchItemCode(Strip(code)).value.Modded? && Base64.Decode(MatchItemCode(Strip(code)).value.extension).Err?))
    ensures ParseItemCode(code, game).Parsed? ==>
      (ParseItemCode(code, game).extension.Some? <==> MatchItemCode(Strip(code)).value.Modded?)
    ensures ParseItemCode(code, game).Failed? ==> ParseItemCode(code, game).result in {NoMatch, WrongGame, MalformedCode}
  {
  }

  /** Where the code as written returns, it returns what the corrected parser does. */
  lemma {:induction false} AsWrittenAgrees(code: string, game: Game)
    ensures ParseItemCodeAsWritten(code, game).Returned? ==>
      ParseItemCodeAsWritten(code, game).outcome == ParseItemCode(code, game)
    ensures ParseItemCodeAsWritten(code, game).RaisedValueError? ==>
      ParseItemCode(code, game) == Failed(MalformedCode)
  {
    match MatchItemCode(Strip(code)) {
      case None =>
      case Some(m) =>
        if AcceptsPrefix(game, m.ident) {
          DecodedAgrees(Base64.Decode(m.base), DecodedExtension(m));
        }
    }
  }

  /** The decoding step as written raises only where the corrected step gives MalformedCode, and agrees elsewhere. */
  lemma {:induction false} DecodedAgrees(serial: Result<seq<Byte>, Base64.DecodeError>,
                      extension: Option<Result<seq<Byte>, Base64.DecodeError>>)
    ensures DecodedAsWritten(serial, extension).Returned? ==>
      DecodedAsWritten(serial, extension).outcome == Decoded(serial, extension)
    ensures DecodedAsWritten(serial, extension).RaisedValueError? <==>
      serial == Err(Base64.NonAscii) || (serial.Ok? && extension == Some(Err(Base64.NonAscii)))
    ensures DecodedAsWritten(serial, extension).RaisedValueError? ==> Decoded(serial, extension) == Failed(MalformedCode)
  {
  }

  /** The text `BL2(é)` has the shape of a plain code whose Base64 is the one letter `é`. */
  lemma {:induction false} NonAsciiMatches()
    ensures MatchItemCode(Strip("BL2(\U{E9})")) == Some(Plain("BL2", "\U{E9}"))
  {
    NonAsciiUnstripped();
    NonAsciiPieces();
    PlainComplete("BL2", "\U{E9}");
  }

  lemma {:induction false} NonAsciiUnstripped()
    ensures Strip("BL2(\U{E9})") == "BL2(\U{E9})"
  {
    var s := "BL2(\U{E9})";
    assert |s| == 6 && s[0] == 'B' && s[5] == ')';
    StripUnchanged(s);
  }

  lemma {:induction false} NonAsciiPieces()
    ensures "BL2(\U{E9})" == "BL2" + "(" + "\U{E9}" + ")"
    ensures Shape(Plain("BL2", "\U{E9}"))
  {
  }

  /** The letter `é` is not ASCII, so decoding it fails as non-ASCII. */
  lemma {:induction false} NonAsciiDecode()
    ensures Base64.Decode("\U{E9}") == Err(Base64.NonAscii)
  {
    assert !Base64.IsAscii("\U{E9}") by {
      assert "\U{E9}"[0] as int == 0xE9;
    }
  }

  /** A code whose Base64 holds a non-ASCII letter makes the code as written raise. */
  lemma {:induction false} NonAsciiRaises()
    ensures ParseItemCodeAsWritten("BL2(\U{E9})", BL2) == RaisedValueError
    ensures ParseItemCode("BL2(\U{E9})", BL2) == Failed(MalformedCode)
  {
    NonAsciiMatches();
    NonAsciiDecode();
    PrefixesSeparateGames(BL2, BL2);
    assert AcceptsPrefix(BL2, "BL2");
    assert DecodedAsWritten(Base64.Decode("\U{E9}"), DecodedExtension(Plain("BL2", "\U{E9}"))) == RaisedValueError;
  }
}
