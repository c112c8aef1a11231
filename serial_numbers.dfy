/**
 * Validation of the two byte strings an item code carries, before anything is
 * handed to the game: the serial number (length, decryption, checksum) and the
 * modded-replacements extension (length, version byte, decompression).
 */
module SerialNumbers {
  import opened Wrappers
  import opened Bytes
  import opened SerialCipher
  import opened GearboxCrc

  /** A prefix byte, four key bytes, two checksum bytes and at least one byte of data. */
  const MIN_SERIAL_LENGTH: nat := 8
  /** The game's serial-number buffer holds at most this many bytes. */
  const MAX_SERIAL_LENGTH: nat := 40

  /** A buffer with its checksum bytes 5 and 6 replaced by 0xFF, as the checksum is computed. */
  function Blanked(buffer: seq<Byte>): (r: seq<Byte>)
    requires |buffer| >= 7
    ensures |r| == |buffer|
    ensures r[5] == 0xFF && r[6] == 0xFF
    ensures forall i :: 0 <= i < |buffer| && i != 5 && i != 6 ==> r[i] == buffer[i]
  {
    buffer[5 := 0xFF][6 := 0xFF]
  }

  /** The checksum a decoded serial stores big-endian at bytes 5-6 matches its contents. */
  predicate ChecksumMatches(decoded: seq<Byte>)
    requires |decoded| >= 7
  {
    ReadU16Be(decoded, 5) == Checksum(Blanked(decoded))
  }

  /** `validate_and_decode_serial_number`, as a function of the encoded bytes. */
  function ValidatedSerial(encoded: seq<Byte>): (r: Option<seq<Byte>>)
  {
    if !(MIN_SERIAL_LENGTH <= |encoded| <= MAX_SERIAL_LENGTH) then None
    else
      var decoded := Decoded(encoded);
      assert |decoded| == |encoded| by { DecodedLength(encoded); }
      if ChecksumMatches(decoded) then Some(Blanked(decoded)) else None
  }

  lemma {:induction false} DecodedLength(s: seq<Byte>)
    requires CanDecode(s)
    ensures |Decoded(s)| == |s| && Decoded(s)[0] == s[0]
  {
    if InitialKey(KeyAndSteps(s)) != 0 {
      DecodedShape(s, 0);
    }
  }

  /** `validate_and_decode_serial_number`: decode, read the stored checksum, blank it in place and compare. */
  method ValidateAndDecodeSerialNumber(encoded: seq<Byte>) returns (r: Option<seq<Byte>>)
    ensures r == ValidatedSerial(encoded)
  {
    if !(MIN_SERIAL_LENGTH <= |encoded| <= MAX_SERIAL_LENGTH) {
      return None;
    }
    var decodedBuffer := DecodeSerial(encoded);
    var originalCheck := ReadU16Be(decodedBuffer, 5);
    decodedBuffer := decodedBuffer[5 := 0xFF][6 := 0xFF];
    var check := CalcSerialChecksum(decodedBuffer);
    if check != originalCheck {
      return None;
    }
    return Some(decodedBuffer);
  }

  /**
   * The validator accepts exactly the serials of 8 to 40 bytes whose decoded
   * checksum matches, and then returns the decoded bytes with bytes 5-6 set to
   * 0xFF and every other byte unchanged.
   */
  lemma {:induction false} ValidatedSerialSpec(encoded: seq<Byte>)
    ensures ValidatedSerial(encoded).Some? <==>
      MIN_SERIAL_LENGTH <= |encoded| <= MAX_SERIAL_LENGTH && ChecksumMatches(Decoded(encoded))
    ensures ValidatedSerial(encoded).Some? ==>
      var r, d := ValidatedSerial(encoded).value, Decoded(encoded);
      && |r| == |encoded|
      && r[5] == 0xFF && r[6] == 0xFF
      && (forall i :: 0 <= i < |r| && i != 5 && i != 6 ==> r[i] == d[i])
  {
    if MIN_SERIAL_LENGTH <= |encoded| <= MAX_SERIAL_LENGTH {
      DecodedLength(encoded);
    }
  }

  /** A plain serial (key zero) with its checksum stored: what a packed code carries. */
  function Sealed(buffer: seq<Byte>): (r: seq<Byte>)
    requires |buffer| >= 7
    ensures |r| == |buffer|
  {
    var check := Checksum(buffer);
    buffer[5 := check / 256][6 := check % 256]
  }

  /**
   * A buffer of 8 to 40 bytes whose bytes 1-4 are zero and whose checksum bytes
   * hold 0xFF validates once its checksum is stored, and comes back as it was.
   */
  lemma {:induction false} ValidateSealed(buffer: seq<Byte>)
    requires MIN_SERIAL_LENGTH <= |buffer| <= MAX_SERIAL_LENGTH
    requires buffer[1] == 0 && buffer[2] == 0 && buffer[3] == 0 && buffer[4] == 0
    requires buffer[5] == 0xFF && buffer[6] == 0xFF
    ensures ValidatedSerial(Sealed(buffer)) == Some(buffer)
  {
    var s := Sealed(buffer);
    assert KeyAndSteps(s) == 0;
    assert Decoded(s) == s;
    assert Blanked(s) == buffer;
  }

  // ---------------------------------------------------------------- the modded extension

  /** The only supported version byte of the modded extension. */
  const MODDED_CODE_VERSION: Byte := 0

  /** A version byte, a two-byte zlib header, a four-byte dictionary id, a four-byte checksum and at least one byte of data. */
  const MIN_MODDED_LENGTH: nat := 12

  /**
   * `validate_and_decompress_modded_replacements`. Decompression with the
   * preset dictionary is the parameter `decompress`, which gives None where
   * zlib raises.
   */
  function ValidateAndDecompressModdedReplacements(
    compressed: seq<Byte>, decompress: seq<Byte> -> Option<seq<Byte>>): (r: Option<seq<Byte>>)
    ensures r.Some? ==> |compressed| >= MIN_MODDED_LENGTH && compressed[0] == MODDED_CODE_VERSION
  {
    if |compressed| < MIN_MODDED_LENGTH then None
    else if compressed[0] != MODDED_CODE_VERSION then None
    else decompress(compressed[1..])
  }

  /** A short extension or a wrong version is rejected before decompression is attempted. */
  lemma {:induction false} RejectedBeforeDecompression(
    compressed: seq<Byte>, d1: seq<Byte> -> Option<seq<Byte>>, d2: seq<Byte> -> Option<seq<Byte>>)
    requires |compressed| < MIN_MODDED_LENGTH || compressed[0] != MODDED_CODE_VERSION
    ensures ValidateAndDecompressModdedReplacements(compressed, d1) == None
    ensures ValidateAndDecompressModdedReplacements(compressed, d2) == None
  {
  }

  /** A well-formed extension is accepted exactly when its body decompresses. */
  lemma {:induction false} AcceptedIffDecompresses(compressed: seq<Byte>, decompress: seq<Byte> -> Option<seq<Byte>>)
    requires |compressed| >= MIN_MODDED_LENGTH && compressed[0] == MODDED_CODE_VERSION
    ensures ValidateAndDecompressModdedReplacements(compressed, decompress) == decompress(compressed[1..])
  {
  }

  /** The extension a packed code carries validates back to the uncompressed payload. */
  lemma {:induction false} ValidatePacked(
    payload: seq<Byte>, compress: seq<Byte> -> seq<Byte>, decompress: seq<Byte> -> Option<seq<Byte>>)
    requires decompress(compress(payload)) == Some(payload)
    requires |compress(payload)| >= MIN_MODDED_LENGTH - 1
    ensures ValidateAndDecompressModdedReplacements([MODDED_CODE_VERSION] + compress(payload), decompress) == Some(payload)
  {
    var c := [MODDED_CODE_VERSION] + compress(payload);
    assert c[1..] == compress(payload);
  }
}
