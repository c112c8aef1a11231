/**
 * Packing and unpacking whole item codes (`pack_item_code`, `unpack_item_code`).
 *
 * The game's own serial-number natives (`PackSerialNumber`, `UnpackSerialNumber`,
 * `PeekIsWeapon`), the object lookup and the zlib pair with the preset
 * dictionary are not modelled; they are the fields of a `Natives` value that
 * both directions receive.
 */
module ItemCodes {
  import opened Wrappers
  import opened Bytes
  import Base64
  import Strings
  import opened FieldTables
  import opened GearboxCrc
  import opened SerialNumbers
  import opened ModdedReplacements
  import opened ItemCodeText

  /** The game's serial-number buffer: a fixed array of forty bytes. */
  type SerialBuffer = s: seq<Byte> | |s| == SERIAL_BUFFER_SIZE witness seq(40, _ => 0)

  /**
   * Definition-data values as the engine's struct types them: sixteen fields,
   * 32-bit integers at the two integer slots (3 and 15 in both tables) and an
   * object or none everywhere else.
   */
  predicate Typed(values: seq<FieldValue>)
  {
    && |values| == 16
    && forall i :: 0 <= i < 16 ==>
         if i == 3 || i == 15 then values[i].IntValue? && IsI32(values[i].n) else !values[i].IntValue?
  }

  type DefValues = v: seq<FieldValue> | Typed(v)
    witness [NoObject, NoObject, NoObject, IntValue(0), NoObject, NoObject, NoObject, NoObject,
             NoObject, NoObject, NoObject, NoObject, NoObject, NoObject, NoObject, IntValue(0)]

  /** A weapon or item definition-data struct. */
  datatype Definition = Definition(isWeapon: bool, values: DefValues)

  /** The engine functions and the compression pair the codec calls. */
  datatype Natives = Natives(
    pack: Definition -> SerialBuffer,                  // PackSerialNumber of the definition's kind
    unpack: (bool, SerialBuffer) -> Option<DefValues>, // UnpackSerialNumber of WillowWeapon (true) or WillowItem (false); None when it fails
    peekIsWeapon: SerialBuffer -> bool,                // PeekIsWeapon
    find: Finder,                                      // UTF-8 decoding plus find_object
    compress: seq<Byte> -> seq<Byte>,                  // zlib with the preset dictionary
    decompress: seq<Byte> -> Option<seq<Byte>>)        // None where zlib.error is raised

  /** The field table of a weapon or of an item. */
  function Fields(isWeapon: bool): (fields: seq<FieldData>)
    ensures WellFormed(fields)
  {
    WeaponFieldsWellFormed();
    ItemFieldsWellFormed();
    if isWeapon then WEAPON_FIELDS else ITEM_FIELDS
  }

  /** Typed values are exactly the values that conform to either table. */
  lemma {:induction false} TypedConforms(values: seq<FieldValue>, fields: seq<FieldData>)
    requires WellFormed(fields)
    ensures Typed(values) <==> Conforms(values, fields)
  {
  }

  // ---------------------------------------------------------------- unpacking

  /** What unpacking returns: an outcome code and the definition, or the `struct.error` nothing catches. */
  datatype Unpacked = Unpacked(result: UnpackResult, def: Option<Definition>) | RaisedStructError

  /** The outcome of a successful unpack, looked up as `((PARTIAL_ITEM, PARTIAL_WEAPON), (FULL_ITEM, FULL_WEAPON))[success][is_weapon]`. */
  function Completed(isWeapon: bool, allFound: bool): UnpackResult
  {
    [[PartialItem, PartialWeapon], [FullItem, FullWeapon]][if allFound then 1 else 0][if isWeapon then 1 else 0]
  }

  /** `_unpack_item_code_impl`, as a function of the code, the game and the natives. */
  function Unpacking(code: string, game: Game, natives: Natives): (r: Unpacked)
  {
    UnpackOutcome(ParseItemCode(code, game), natives)
  }

  /** The steps after parsing: a failure is passed on, otherwise the parts are validated. */
  function UnpackOutcome(parsed: ParseOutcome, natives: Natives): (r: Unpacked)
  {
    match parsed
    case Failed(result) => Unpacked(result, None)
    case Parsed(encoded, compressed) => UnpackParsed(encoded, compressed, natives)
  }

  /** The steps after parsing: validate the serial, then the extension if there is one. */
  function UnpackParsed(encoded: seq<Byte>, compressed: Option<seq<Byte>>, natives: Natives): (r: Unpacked)
  {
    match ValidatedSerial(encoded)
    case None => Unpacked(MalformedCode, None)
    case Some(decoded) =>
      ValidatedSerialSpec(encoded);
      if compressed.None? then UnpackValidated(decoded, None, natives)
      else
        match ValidateAndDecompressModdedReplacements(compressed.value, natives.decompress)
        case None => Unpacked(MalformedCode, None)
        case Some(payload) => UnpackValidated(decoded, Some(payload), natives)
  }

  /** The steps after validation: the game peeks at and unpacks the padded serial, then the payload is applied. */
  function UnpackValidated(decoded: seq<Byte>, payload: Option<seq<Byte>>, natives: Natives): (r: Unpacked)
    requires |decoded| <= SERIAL_BUFFER_SIZE
  {
    var buffer: SerialBuffer := Padded(decoded);
    var isWeapon := natives.peekIsWeapon(buffer);
    match natives.unpack(isWeapon, buffer)
    case None => Unpacked(GameRejectedCode, None)
    case Some(values) =>
      if payload.None? then Unpacked(Completed(isWeapon, true), Some(Definition(isWeapon, values)))
      else ApplyPayload(isWeapon, values, payload.value, natives.find)
  }

  /** Applying the payload to the definition the game unpacked, and choosing the outcome. */
  function ApplyPayload(isWeapon: bool, values: DefValues, payload: seq<Byte>, find: Finder): (r: Unpacked)
  {
    TypedConforms(values, Fields(isWeapon));
    match Apply(values, payload, Fields(isWeapon), find)
    case None => RaisedStructError
    case Some(applied) =>
      ApplyConforms(values, payload, Fields(isWeapon), find);
      TypedConforms(applied.values, Fields(isWeapon));
      Unpacked(Completed(isWeapon, applied.allFound), Some(Definition(isWeapon, applied.values)))
  }

  /**
   * `_unpack_item_code_impl`: parse, validate both parts, let the game peek at
   * and unpack the padded serial, then apply the replacements to the fresh
   * definition data in place.
   */
  method UnpackItemCode(code: string, game: Game, natives: Natives) returns (r: Unpacked)
    ensures r == Unpacking(code, game, natives)
  {
    var parseResult := ParseItemCode(code, game);
    r := UnpackParsedCode(parseResult, natives);
  }

  /** The part of `_unpack_item_code_impl` between parsing and the game's unpack. */
  method UnpackParsedCode(parseResult: ParseOutcome, natives: Natives) returns (r: Unpacked)
    ensures r == UnpackOutcome(parseResult, natives)
  {
    if parseResult.Failed? {
      return Unpacked(parseResult.result, None);
    }
    ghost var encoded, compressed := parseResult.serial, parseResult.extension;
    var decodedSerial := ValidateAndDecodeSerialNumber(parseResult.serial);
    if decodedSerial.None? {
      return Unpacked(MalformedCode, None);
    }
    ValidatedSerialSpec(encoded);
    var decompressed: Option<seq<Byte>> := None;
    if parseResult.extension.Some? {
      decompressed := ValidateAndDecompressModdedReplacements(parseResult.extension.value, natives.decompress);
      if decompressed.None? {
        return Unpacked(MalformedCode, None);
      }
    }
    assert UnpackParsed(encoded, compressed, natives) == UnpackValidated(decodedSerial.value, decompressed, natives);
    r := UnpackDecoded(decodedSerial.value, decompressed, natives);
  }

  /** The part of `_unpack_item_code_impl` after validation, with the payload applied in place. */
  method UnpackDecoded(decoded: seq<Byte>, decompressed: Option<seq<Byte>>, natives: Natives) returns (r: Unpacked)
    requires |decoded| <= SERIAL_BUFFER_SIZE
    ensures r == UnpackValidated(decoded, decompressed, natives)
  {
    var buffer: SerialBuffer := Padded(decoded);
    var isWeapon := natives.peekIsWeapon(buffer);
    var fields := Fields(isWeapon);
    var unpacked := natives.unpack(isWeapon, buffer);
    if unpacked.None? {
      return Unpacked(GameRejectedCode, None);
    }
    if decompressed.None? {
      return Unpacked(Completed(isWeapon, true), Some(Definition(isWeapon, unpacked.value)));
    }
    var defData := new FieldValue[16](i requires 0 <= i < 16 => unpacked.value[i]);
    assert defData[..] == unpacked.value;
    TypedConforms(unpacked.value, fields);
    var success := ApplyModdedReplacements(defData, decompressed.value, fields, natives.find);
    if success.None? {
      return RaisedStructError;
    }
    ApplyConforms(unpacked.value, decompressed.value, fields, natives.find);
    TypedConforms(defData[..], fields);
    return Unpacked(Completed(isWeapon, success.value), Some(Definition(isWeapon, defData[..])));
  }

  /** The lookup table gives FULL exactly when every object was found, and the weapon outcome exactly for a weapon. */
  lemma {:induction false} CompletedMeaning(isWeapon: bool, allFound: bool)
    ensures Completed(isWeapon, allFound) in {FullWeapon, FullItem, PartialWeapon, PartialItem}
    ensures Completed(isWeapon, allFound) in {FullWeapon, FullItem} <==> allFound
    ensures Completed(isWeapon, allFound) in {FullWeapon, PartialWeapon} <==> isWeapon
  {
  }

  /** The outcome an unpacking step can give, where `modded` says whether a payload was given. */
  predicate Consistent(r: Unpacked, modded: bool)
  {
    match r
    case RaisedStructError => modded
    case Unpacked(result, def) =>
      && (def.Some? <==> result in {FullWeapon, FullItem, PartialWeapon, PartialItem})
      && (def.Some? ==> (def.value.isWeapon <==> result in {FullWeapon, PartialWeapon}))
      && (result in {PartialWeapon, PartialItem} ==> modded)
  }

  /**
   * After validation: a definition comes back exactly with a FULL or PARTIAL
   * outcome, of the weapon kind exactly for a weapon; PARTIAL and the uncaught
   * `struct.error` need a payload; the game's refusal is GAME_REJECTED_CODE.
   */
  lemma {:induction false} UnpackValidatedOutcomes(decoded: seq<Byte>, payload: Option<seq<Byte>>, natives: Natives)
    requires |decoded| <= SERIAL_BUFFER_SIZE
    ensures Consistent(UnpackValidated(decoded, payload, natives), payload.Some?)
    ensures UnpackValidated(decoded, payload, natives) == Unpacked(GameRejectedCode, None) <==>
      natives.unpack(natives.peekIsWeapon(Padded(decoded)), Padded(decoded)).None?
  {
    var buffer: SerialBuffer := Padded(decoded);
    var isWeapon := natives.peekIsWeapon(buffer);
    CompletedMeaning(isWeapon, true);
    CompletedMeaning(isWeapon, false);
  }

  /**
   * The outcome codes of unpacking: a parse failure is passed on, an invalid
   * serial or extension gives MALFORMED_CODE, and every other outcome is
   * consistent, with PARTIAL and the uncaught `struct.error` only for the
   * modded form.
   */
  lemma {:induction false} UnpackOutcomes(parsed: ParseOutcome, natives: Natives)
    requires parsed.Failed? ==> parsed.result in {NoMatch, WrongGame, MalformedCode}
    ensures parsed.Failed? ==> UnpackOutcome(parsed, natives) == Unpacked(parsed.result, None)
    ensures parsed.Parsed? && ValidatedSerial(parsed.serial).None? ==>
      UnpackOutcome(parsed, natives) == Unpacked(MalformedCode, None)
    ensures Consistent(UnpackOutcome(parsed, natives), parsed.Parsed? && parsed.extension.Some?)
  {
    match parsed {
      case Failed(_) =>
      case Parsed(encoded, compressed) =>
        if ValidatedSerial(encoded).Some? {
          ValidatedSerialSpec(encoded);
          var decoded := ValidatedSerial(encoded).value;
          if compressed.None? {
            UnpackValidatedOutcomes(decoded, None, natives);
          } else {
            var payload := ValidateAndDecompressModdedReplacements(compressed.value, natives.decompress);
            if payload.Some? {
              UnpackValidatedOutcomes(decoded, payload, natives);
            }
          }
        }
    }
  }

  /** The outcome codes of `unpack_item_code` for any code: those of parsing, then those of the later steps. */
  lemma {:induction false} UnpackingOutcomes(code: string, game: Game, natives: Natives)
    ensures ParseItemCode(code, game).Failed? ==>
      Unpacking(code, game, natives) == Unpacked(ParseItemCode(code, game).result, None)
    ensures Consistent(Unpacking(code, game, natives),
                       ParseItemCode(code, game).Parsed? && ParseItemCode(code, game).extension.Some?)
  {
    ParseOutcomes(code, game);
    UnpackOutcomes(ParseItemCode(code, game), natives);
  }

  // ---------------------------------------------------------------- packing

  /** Why packing fails: the game could not unpack the serial it had just packed (a RuntimeError). */
  datatype PackError = UnpackFailed

  /** `buffer[1:5] = (0, 0, 0, 0)`: the encryption key zeroed. */
  function KeyCleared(buffer: SerialBuffer): (r: SerialBuffer)
    ensures r[1] == 0 && r[2] == 0 && r[3] == 0 && r[4] == 0
    ensures forall i :: 0 <= i < |r| && !(1 <= i < 5) ==> r[i] == buffer[i]
  {
    buffer[1 := 0][2 := 0][3 := 0][4 := 0]
  }

  /** `buffer.rstrip(b"\xff")`: trailing 0xFF bytes removed. */
  function StripTrailingFF(buffer: seq<Byte>): (r: seq<Byte>)
    ensures |r| <= |buffer| && r == buffer[..|r|]
    ensures forall i :: |r| <= i < |buffer| ==> buffer[i] == 0xFF
    ensures r != [] ==> r[|r| - 1] != 0xFF
  {
    if buffer != [] && buffer[|buffer| - 1] == 0xFF then StripTrailingFF(buffer[..|buffer| - 1]) else buffer
  }

  /** The serial a packed code carries: key zeroed, checksum stored, trailing padding removed. */
  function BaseSerial(serial: SerialBuffer): seq<Byte>
  {
    StripTrailingFF(Sealed(KeyCleared(serial)))
  }

  /** The replacements payload of a definition against what survived the game's own pack and unpack. */
  function ReplacementPayload(def: Definition, unpacked: DefValues): seq<Byte>
  {
    TypedConforms(def.values, Fields(def.isWeapon));
    Payload(def.values, unpacked, Fields(def.isWeapon))
  }

  /** The extension of a packed code: none when no field changed, else the version byte and the compressed payload. */
  function Extension(def: Definition, unpacked: DefValues, compress: seq<Byte> -> seq<Byte>): Option<seq<Byte>>
  {
    TypedConforms(def.values, Fields(def.isWeapon));
    if ChangedMask(def.values, unpacked, Fields(def.isWeapon), 16) == 0 then None
    else Some([MODDED_CODE_VERSION] + compress(ReplacementPayload(def, unpacked)))
  }

  /** The text of a code: `PREFIX(BASE)` without an extension, `PREFIXMODDED[BASE|EXTENSION]` with one. */
  function CodeText(game: Game, serial: seq<Byte>, extension: Option<seq<Byte>>): string
  {
    if extension.None? then Render(Plain(GamePrefix(game), Base64.Encode(serial)))
    else Render(Modded(GamePrefix(game), "MODDED", Base64.Encode(serial), Base64.Encode(extension.value)))
  }

  /** `_pack_item_code_impl`, as a function of the definition, the game and the natives. */
  function Packed(def: Definition, game: Game, natives: Natives): (r: Result<string, PackError>)
  {
    var serial := natives.pack(def);
    match natives.unpack(def.isWeapon, serial)
    case None => Err(UnpackFailed)
    case Some(unpacked) => Ok(CodeText(game, BaseSerial(serial), Extension(def, unpacked, natives.compress)))
  }

  /**
   * `_pack_item_code_impl`: pack and unpack through the game, diff the fields,
   * then fix up the serial buffer in place (key zeroed, checksum stored) and
   * render the plain or the modded code.
   */
  method PackItemCode(def: Definition, game: Game, natives: Natives) returns (r: Result<string, PackError>)
    ensures r == Packed(def, game, natives)
  {
    var fields := Fields(def.isWeapon);
    var serialNumber := natives.pack(def);
    var unpacked := natives.unpack(def.isWeapon, serialNumber);
    if unpacked.None? {
      return Err(UnpackFailed);
    }
    TypedConforms(def.values, fields);
    var replacementBits, replacementData := DiffReplacements(def.values, unpacked.value, fields);

    var buffer := SealedBuffer(serialNumber);
    var baseCode := Base64.Encode(StripTrailingFF(buffer[..]));

    ghost var extension := Extension(def, unpacked.value, natives.compress);
    if replacementBits == 0 {
      assert extension == None;
      return Ok(Render(Plain(GamePrefix(game), baseCode)));
    }
    ChangedMaskBound(def.values, unpacked.value, fields, 16);
    var compressedData := natives.compress(U16Le(replacementBits) + replacementData);
    var moddedCode := Base64.Encode([MODDED_CODE_VERSION] + compressedData);
    assert extension == Some([MODDED_CODE_VERSION] + compressedData);
    return Ok(Render(Modded(GamePrefix(game), "MODDED", baseCode, moddedCode)));
  }

  /** The buffer fix-up of `_pack_item_code_impl`: a copy of the game's buffer with the key zeroed and the checksum stored in place. */
  method SealedBuffer(serialNumber: SerialBuffer) returns (buffer: array<Byte>)
    ensures fresh(buffer)
    ensures buffer[..] == Sealed(KeyCleared(serialNumber))
  {
    buffer := new Byte[SERIAL_BUFFER_SIZE](i requires 0 <= i < SERIAL_BUFFER_SIZE => serialNumber[i]);
    assert buffer[..] == serialNumber;
    buffer[1], buffer[2], buffer[3], buffer[4] := 0, 0, 0, 0;
    ghost var cleared := KeyCleared(serialNumber);
    assert buffer[..] == cleared;
    var check := CalcSerialChecksum(buffer[..]);
    buffer[5], buffer[6] := check / 256, check % 256;
    assert buffer[..] == cleared[5 := check / 256][6 := check % 256];
  }

  /** A code starts with the game's prefix, followed by '(' exactly when it has no extension. */
  lemma {:induction false} CodeTextForm(game: Game, serial: seq<Byte>, extension: Option<seq<Byte>>)
    ensures var code, p := CodeText(game, serial, extension), GamePrefix(game);
      |code| > |p| && code[..|p|] == p && (code[|p|] == '(' <==> extension.None?)
  {
    var p := GamePrefix(game);
    var b := Base64.Encode(serial);
    if extension.None? {
      var s0 := p + "(";
      AppendKeepsPrefix(s0, b, p);
      AppendKeepsPrefix(s0 + b, ")", p);
      assert CodeText(game, serial, extension) == s0 + b + ")";
    } else {
      var e := Base64.Encode(extension.value);
      var s0 := p + "MODDED";
      AppendKeepsPrefix(s0, "[", p);
      AppendKeepsPrefix(s0 + "[", b, p);
      AppendKeepsPrefix(s0 + "[" + b, "|", p);
      AppendKeepsPrefix(s0 + "[" + b + "|", e, p);
      AppendKeepsPrefix(s0 + "[" + b + "|" + e, "]", p);
      assert CodeText(game, serial, extension) == s0 + "[" + b + "|" + e + "]";
    }
  }

  /** Appending to text keeps its prefix and its characters. */
  lemma {:induction false} AppendKeepsPrefix(x: string, y: string, p: string)
    requires |p| < |x| && x[..|p|] == p
    ensures |p| < |x + y| && (x + y)[..|p|] == p && (x + y)[|p|] == x[|p|]
  {
    assert (x + y)[..|p|] == x[..|p|];
  }

  /** A packed code has an extension exactly when some field did not survive the game's own pack and unpack. */
  lemma {:induction false} ExtensionIffChanged(def: Definition, unpacked: DefValues, compress: seq<Byte> -> seq<Byte>)
    ensures Extension(def, unpacked, compress).None? <==> def.values == unpacked
  {
    TypedConforms(def.values, Fields(def.isWeapon));
    NoChangesNoBits(def.values, unpacked, Fields(def.isWeapon));
  }

  /**
   * A packed code is the plain form exactly when every field survived the
   * game's own pack and unpack, and the modded form otherwise; it always starts
   * with the game's prefix.
   */
  lemma {:induction false} PackedForm(def: Definition, game: Game, natives: Natives)
    requires natives.unpack(def.isWeapon, natives.pack(def)).Some?
    ensures Packed(def, game, natives).Ok?
    ensures var code, unpacked := Packed(def, game, natives).value, natives.unpack(def.isWeapon, natives.pack(def)).value;
      && |code| > |GamePrefix(game)|
      && code[..|GamePrefix(game)|] == GamePrefix(game)
      && (code[|GamePrefix(game)|] == '(' <==> def.values == unpacked)
  {
    var unpacked := natives.unpack(def.isWeapon, natives.pack(def)).value;
    var extension := Extension(def, unpacked, natives.compress);
    CodeTextForm(game, BaseSerial(natives.pack(def)), extension);
    ExtensionIffChanged(def, unpacked, natives.compress);
  }

  /**
   * The serial of a packed code: the game's buffer with the key zeroed and the
   * checksum of that buffer stored big-endian at bytes 5-6, less its trailing
   * 0xFF bytes, of which none is left.
   */
  lemma {:induction false} BaseSerialShape(serial: SerialBuffer)
    ensures var b, sealed := BaseSerial(serial), Sealed(KeyCleared(serial));
      && b == sealed[..|b|]
      && (forall i :: |b| <= i < SERIAL_BUFFER_SIZE ==> sealed[i] == 0xFF)
      && (b != [] ==> b[|b| - 1] != 0xFF)
      && (|b| >= 7 ==> b[1] == 0 && b[2] == 0 && b[3] == 0 && b[4] == 0
                       && ReadU16Be(b, 5) == Checksum(KeyCleared(serial)))
  {
    var cleared := KeyCleared(serial);
    var sealed := Sealed(cleared);
    var b := StripTrailingFF(sealed);
    SealedHeader(cleared);
    if |b| >= 7 {
      PrefixHeader(b, sealed);
    }
  }

  /** A prefix of seven or more bytes has the buffer's key bytes and stored checksum. */
  lemma {:induction false} PrefixHeader(b: seq<Byte>, buffer: seq<Byte>)
    requires 7 <= |b| <= |buffer| && b == buffer[..|b|]
    ensures b[1] == buffer[1] && b[2] == buffer[2] && b[3] == buffer[3] && b[4] == buffer[4]
    ensures ReadU16Be(b, 5) == ReadU16Be(buffer, 5)
  {
    assert b[5] == buffer[5] && b[6] == buffer[6];
  }

  /** A sealed key-cleared buffer keeps the zero key and holds the buffer's checksum big-endian at bytes 5-6. */
  lemma {:induction false} SealedHeader(cleared: SerialBuffer)
    requires cleared[1] == 0 && cleared[2] == 0 && cleared[3] == 0 && cleared[4] == 0
    ensures var sealed := Sealed(cleared);
      && sealed[1] == 0 && sealed[2] == 0 && sealed[3] == 0 && sealed[4] == 0
      && ReadU16Be(sealed, 5) == Checksum(cleared)
  {
    var check := Checksum(cleared);
    var sealed := Sealed(cleared);
    assert sealed[5] == check / 256 && sealed[6] == check % 256;
    assert (check / 256) * 256 + check % 256 == check;
  }

  // ---------------------------------------------------------------- the round trip

  /** Base64 text never holds a line break or a '|', and is empty only for no bytes. */
  lemma {:induction false} EncodedText(b: seq<Byte>)
    ensures NoNewline(Base64.Encode(b))
    ensures forall i :: 0 <= i < |Base64.Encode(b)| ==> Base64.Encode(b)[i] != '|'
    ensures b != [] ==> Base64.Encode(b) != []
  {
    var s := Base64.Encode(b);
    Base64.EncodeShape(b);
    var n := |Base64.ToSextets(b)|;
    forall i | 0 <= i < |s| ensures s[i] != '\n' && s[i] != '|' {
      if i < n {
        assert Base64.IsAlphabet(s[i]);
      } else {
        assert s[i] == '=';
      }
    }
  }

  /** The groups of a code's text are well shaped, and its identifier is the game's prefix. */
  lemma {:induction false} CodeTextShape(game: Game, serial: seq<Byte>, extension: Option<seq<Byte>>)
    requires serial != []
    requires extension.Some? ==> extension.value != []
    ensures var m := if extension.None? then Plain(GamePrefix(game), Base64.Encode(serial))
                     else Modded(GamePrefix(game), "MODDED", Base64.Encode(serial), Base64.Encode(extension.value));
      Shape(m) && Render(m) == CodeText(game, serial, extension) && m.ident == GamePrefix(game)
  {
    EncodedText(serial);
    var ident := GamePrefix(game);
    assert AllWordChars(ident);
    if extension.Some? {
      EncodedText(extension.value);
      assert Strings.EqualIgnoreCase("MODDED", "MODDED");
    }
  }

  /**
   * A code's text parses, in its own game, back to the serial and extension it
   * was built from, and is WrongGame in every other game.
   */
  lemma {:induction false} ParseCodeText(game: Game, other: Game, serial: seq<Byte>, extension: Option<seq<Byte>>)
    requires serial != []
    requires extension.Some? ==> extension.value != []
    ensures ParseItemCode(CodeText(game, serial, extension), game) == Parsed(serial, extension)
    ensures other != game ==> ParseItemCode(CodeText(game, serial, extension), other) == Failed(WrongGame)
  {
    CodeTextShape(game, serial, extension);
    var m := if extension.None? then Plain(GamePrefix(game), Base64.Encode(serial))
             else Modded(GamePrefix(game), "MODDED", Base64.Encode(serial), Base64.Encode(extension.value));
    PrefixesSeparateGames(game, other);
    Base64.DecodeEncode(serial);
    if extension.Some? {
      Base64.DecodeEncode(extension.value);
    }
    assert "" + Render(m) + "" == Render(m);
    ParseRendered(m, game, "", "");
    ParseRendered(m, other, "", "");
  }

  /** A packed code is refused, as WrongGame, by every other game. */
  lemma {:induction false} PackedForOtherGame(def: Definition, game: Game, other: Game, natives: Natives)
    requires natives.unpack(def.isWeapon, natives.pack(def)).Some?
    requires BaseSerial(natives.pack(def)) != []
    requires other != game
    ensures Packed(def, game, natives).Ok?
    ensures Unpacking(Packed(def, game, natives).value, other, natives) == Unpacked(WrongGame, None)
  {
    var unpacked := natives.unpack(def.isWeapon, natives.pack(def)).value;
    ParseCodeText(game, other, BaseSerial(natives.pack(def)), Extension(def, unpacked, natives.compress));
  }

  /**
   * Cutting a buffer before its trailing 0xFF bytes: padding gives the buffer
   * back, and sealing the cut part is cutting the sealed buffer.
   */
  lemma {:induction false} CutBeforePadding(buffer: seq<Byte>, n: nat)
    requires |buffer| == SERIAL_BUFFER_SIZE && 7 <= n <= SERIAL_BUFFER_SIZE
    requires forall i :: n <= i < SERIAL_BUFFER_SIZE ==> buffer[i] == 0xFF
    ensures Padded(buffer[..n]) == buffer
    ensures Sealed(buffer[..n]) == Sealed(buffer)[..n]
  {
    var head := buffer[..n];
    assert buffer == head + seq(SERIAL_BUFFER_SIZE - n, _ => 0xFF);
    TrailingPaddingIgnored(head, SERIAL_BUFFER_SIZE - n);
    assert Padded(buffer) == buffer;
  }

  /**
   * The serial of a packed code validates, and comes back as the game's buffer
   * with the key zeroed, cut to the code's length; padding it again gives that
   * whole buffer. This needs the checksum bytes to hold 0xFF in the game's
   * buffer, as they do before a serial is sealed, and at least eight bytes to
   * survive the stripping.
   */
  lemma {:induction false} ValidatePackedSerial(serial: SerialBuffer)
    requires serial[5] == 0xFF && serial[6] == 0xFF
    requires |BaseSerial(serial)| >= MIN_SERIAL_LENGTH
    ensures ValidatedSerial(BaseSerial(serial)) == Some(KeyCleared(serial)[..|BaseSerial(serial)|])
    ensures Padded(KeyCleared(serial)[..|BaseSerial(serial)|]) == KeyCleared(serial)
  {
    var cleared := KeyCleared(serial);
    var b := BaseSerial(serial);
    BaseSerialShape(serial);
    SealedKeepsTail(cleared, |b|);
    ValidateCut(cleared, |b|);
  }

  /** Sealing changes only bytes 5 and 6, so the padding after a cut at 7 or more is the buffer's own. */
  lemma {:induction false} SealedKeepsTail(cleared: SerialBuffer, n: nat)
    requires 7 <= n
    requires forall i :: n <= i < SERIAL_BUFFER_SIZE ==> Sealed(cleared)[i] == 0xFF
    ensures forall i :: n <= i < SERIAL_BUFFER_SIZE ==> cleared[i] == 0xFF
  {
    var sealed := Sealed(cleared);
    forall i | n <= i < SERIAL_BUFFER_SIZE ensures cleared[i] == 0xFF {
      assert cleared[i] == sealed[i];
    }
  }

  /** A key-cleared buffer cut before its padding validates once sealed, and pads back to the whole buffer. */
  lemma {:induction false} ValidateCut(cleared: SerialBuffer, n: nat)
    requires MIN_SERIAL_LENGTH <= n <= SERIAL_BUFFER_SIZE
    requires cleared[1] == 0 && cleared[2] == 0 && cleared[3] == 0 && cleared[4] == 0
    requires cleared[5] == 0xFF && cleared[6] == 0xFF
    requires forall i :: n <= i < SERIAL_BUFFER_SIZE ==> cleared[i] == 0xFF
    ensures ValidatedSerial(Sealed(cleared)[..n]) == Some(cleared[..n])
    ensures Padded(cleared[..n]) == cleared
  {
    CutBeforePadding(cleared, n);
    ValidateSealed(cleared[..n]);
  }

  /**
   * After validation, the game's unpack of the padded serial and the payload,
   * if any, give back the definition when the natives are consistent, the
   * objects resolve and the payload is the one packed.
   */
  lemma {:induction false} UnpackPackedSerial(def: Definition, natives: Natives, decoded: seq<Byte>, payload: Option<seq<Byte>>)
    requires |decoded| <= SERIAL_BUFFER_SIZE
    requires natives.peekIsWeapon(Padded(decoded)) == def.isWeapon
    requires natives.unpack(def.isWeapon, Padded(decoded)).Some?
    requires Resolvable(def.values, natives.find)
    requires payload.None? ==> def.values == natives.unpack(def.isWeapon, Padded(decoded)).value
    requires payload.Some? ==> payload.value == ReplacementPayload(def, natives.unpack(def.isWeapon, Padded(decoded)).value)
    ensures UnpackValidated(decoded, payload, natives) == Unpacked(Completed(def.isWeapon, true), Some(def))
  {
    var unpacked := natives.unpack(def.isWeapon, Padded(decoded)).value;
    if payload.Some? {
      var fields := Fields(def.isWeapon);
      TypedConforms(def.values, fields);
      PayloadRoundTrip(def.values, unpacked, fields, [], natives.find);
      assert payload.value + [] == payload.value;
    }
  }

  /**
   * The codec's round trip: unpacking the code packed from a definition gives
   * that definition back, as FULL_WEAPON or FULL_ITEM. It relies on the game's
   * natives behaving consistently (the key bytes do not matter to them, peeking
   * tells the kind the packer was given), on every object resolving from its
   * upper-cased name, and on the compression pair round-tripping the payload.
   */
  lemma {:induction false} PackUnpackRoundTrip(def: Definition, game: Game, natives: Natives)
    requires natives.unpack(def.isWeapon, natives.pack(def)).Some?
    requires natives.pack(def)[5] == 0xFF && natives.pack(def)[6] == 0xFF
    requires |BaseSerial(natives.pack(def))| >= MIN_SERIAL_LENGTH
    requires natives.peekIsWeapon(KeyCleared(natives.pack(def))) == def.isWeapon
    requires natives.unpack(def.isWeapon, KeyCleared(natives.pack(def))) == natives.unpack(def.isWeapon, natives.pack(def))
    requires Resolvable(def.values, natives.find)
    requires var payload := ReplacementPayload(def, natives.unpack(def.isWeapon, natives.pack(def)).value);
      natives.decompress(natives.compress(payload)) == Some(payload)
      && |natives.compress(payload)| >= MIN_MODDED_LENGTH - 1
    ensures Packed(def, game, natives).Ok?
    ensures Unpacking(Packed(def, game, natives).value, game, natives) == Unpacked(Completed(def.isWeapon, true), Some(def))
  {
    var serial := natives.pack(def);
    var unpacked := natives.unpack(def.isWeapon, serial).value;
    var b := BaseSerial(serial);
    var extension := Extension(def, unpacked, natives.compress);
    var code := CodeText(game, b, extension);
    assert Packed(def, game, natives) == Ok(code);
    ParseCodeText(game, game, b, extension);
    assert Unpacking(code, game, natives) == UnpackOutcome(Parsed(b, extension), natives);
    ValidatePackedSerial(serial);
    var decoded := KeyCleared(serial)[..|b|];
    ExtensionIffChanged(def, unpacked, natives.compress);
    var payload: Option<seq<Byte>> := None;
    if extension.Some? {
      var p := ReplacementPayload(def, unpacked);
      ValidatePacked(p, natives.compress, natives.decompress);
      payload := Some(p);
    }
    assert UnpackParsed(b, extension, natives) == UnpackValidated(decoded, payload, natives);
    UnpackPackedSerial(def, natives, decoded, payload);
  }
}
