/**
 * The modded-replacements payload of an item code: a little-endian 16-bit
 * bitmap followed by one value for each set bit, in field-table order. An
 * integer field takes a little-endian signed 32-bit value; an object field takes
 * the upper-cased path name of the object followed by a NUL, or a lone NUL for
 * "no object".
 *
 * The definition data is a fixed array of sixteen values, one per table entry.
 * An object is identified by its path name, and the engine's object lookup
 * (UTF-8 decoding plus `find_object`) is the parameter `find`, which gives None
 * where the source catches an error.
 */
module ModdedReplacements {
  import opened Wrappers
  import opened Bytes
  import opened Bits
  import opened FieldTables

  /** The value of one definition-data field. */
  datatype FieldValue =
    | IntValue(n: int)
    | ObjectValue(path: seq<Byte>)
    | NoObject

  /** What the lookup gives for an object name: the object, or None when decoding or lookup fails. */
  type Finder = seq<Byte> -> Option<seq<Byte>>

  /** The field is listed in the bitmap: `field.mask & bitmap != 0`. */
  predicate Selected(field: FieldData, bitmap: nat)
  {
    BitAnd(field.mask, bitmap) != 0
  }

  // ---------------------------------------------------------------- reading

  /** Index of the first NUL byte, or the length when there is none. */
  function NulIndex(s: seq<Byte>): (k: nat)
    ensures k <= |s|
    ensures forall j :: 0 <= j < k ==> s[j] != NUL
    ensures k < |s| ==> s[k] == NUL
  {
    if s == [] || s[0] == NUL then 0 else 1 + NulIndex(s[1..])
  }

  /** `s.partition(b"\x00")` without the separator: the text before the first NUL and the text after it. */
  function Partition(s: seq<Byte>): (r: (seq<Byte>, seq<Byte>))
    ensures NoNul(r.0)
    ensures |r.0| + |r.1| <= |s|
  {
    var k := NulIndex(s);
    if k == |s| then (s, []) else (s[..k], s[k + 1..])
  }

  /** The result of applying a payload: the new field values and whether every named object was found. */
  datatype Applied = Applied(values: seq<FieldValue>, allFound: bool)

  /**
   * The fields from `i` on: each selected field consumes its value from `rest`.
   * None is the `struct.error` raised when an integer field finds fewer than four
   * bytes left, which nothing catches.
   */
  function ApplyFrom(values: seq<FieldValue>, fields: seq<FieldData>, bitmap: nat,
                     rest: seq<Byte>, i: nat, find: Finder, missed: bool): (r: Option<Applied>)
    requires |values| == |fields| && i <= |fields|
    ensures r.Some? ==> |r.value.values| == |values|
    decreases |fields| - i
  {
    if i == |fields| then Some(Applied(values, !missed))
    else if !Selected(fields[i], bitmap) then ApplyFrom(values, fields, bitmap, rest, i + 1, find, missed)
    else if fields[i].isInt then
      if |rest| < 4 then None
      else ApplyFrom(values[i := IntValue(ReadI32Le(rest, 0))], fields, bitmap, rest[4..], i + 1, find, missed)
    else
      var (name, after) := Partition(rest);
      if name == [] then ApplyFrom(values[i := NoObject], fields, bitmap, after, i + 1, find, missed)
      else match find(name)
        case Some(obj) => ApplyFrom(values[i := ObjectValue(obj)], fields, bitmap, after, i + 1, find, missed)
        case None => ApplyFrom(values[i := NoObject], fields, bitmap, after, i + 1, find, true)
  }

  /** `apply_modded_replacements` as a function: None where it raises on a payload too short. */
  function Apply(values: seq<FieldValue>, replacements: seq<Byte>, fields: seq<FieldData>, find: Finder): (r: Option<Applied>)
    requires |values| == |fields|
    ensures r.Some? ==> |replacements| >= 2 && |r.value.values| == |values|
  {
    if |replacements| < 2 then None
    else ApplyFrom(values, fields, ReadU16Le(replacements, 0), replacements[2..], 0, find, false)
  }

  /**
   * `apply_modded_replacements`: reads the bitmap, then walks the table, consuming
   * the shrinking buffer and setting each selected field of `defData` in place.
   * None stands for the uncaught `struct.error`; otherwise the result is True
   * when every named object was found.
   */
  method ApplyModdedReplacements(defData: array<FieldValue>, replacements: seq<Byte>,
                                 fields: seq<FieldData>, find: Finder) returns (r: Option<bool>)
    requires defData.Length == |fields|
    modifies defData
    ensures Apply(old(defData[..]), replacements, fields, find).None? ==> r.None?
    ensures Apply(old(defData[..]), replacements, fields, find).Some? ==>
      r == Some(Apply(old(defData[..]), replacements, fields, find).value.allFound)
      && defData[..] == Apply(old(defData[..]), replacements, fields, find).value.values
  {
    if |replacements| < 2 {
      return None;
    }
    var bitmap := ReadU16Le(replacements, 0);
    var rest := replacements[2..];
    var missedAnyObject := false;
    ghost var expected := Apply(old(defData[..]), replacements, fields, find);
    var i := 0;
    while i < |fields|
      invariant 0 <= i <= |fields|
      invariant ApplyFrom(defData[..], fields, bitmap, rest, i, find, missedAnyObject) == expected
    {
      var field := fields[i];
      if BitAnd(field.mask, bitmap) != 0 {
        var value: FieldValue;
        if field.isInt {
          if |rest| < 4 {
            return None;
          }
          value := IntValue(ReadI32Le(rest, 0));
          rest := rest[4..];
        } else {
          var (objName, after) := Partition(rest);
          rest := after;
          if objName != [] {
            var found := find(objName);
            if found.Some? {
              value := ObjectValue(found.value);
            } else {
              missedAnyObject := true;
              value := NoObject;
            }
          } else {
            value := NoObject;
          }
        }
        defData[i] := value;
      }
      i := i + 1;
    }
    return Some(!missedAnyObject);
  }

  // ---------------------------------------------------------------- properties of reading

  /** Fields whose bit is clear keep their value. */
  lemma {:induction false} UnselectedUnchanged(values: seq<FieldValue>, fields: seq<FieldData>, bitmap: nat,
                                               rest: seq<Byte>, i: nat, find: Finder, missed: bool, j: nat)
    requires |values| == |fields| && i <= |fields|
    requires j < |fields| && (j < i || !Selected(fields[j], bitmap))
    requires ApplyFrom(values, fields, bitmap, rest, i, find, missed).Some?
    ensures ApplyFrom(values, fields, bitmap, rest, i, find, missed).value.values[j] == values[j]
    decreases |fields| - i
  {
    if i < |fields| && Selected(fields[i], bitmap) {
      if fields[i].isInt {
        UnselectedUnchanged(values[i := IntValue(ReadI32Le(rest, 0))], fields, bitmap, rest[4..], i + 1, find, missed, j);
      } else {
        var (name, after) := Partition(rest);
        if name == [] {
          UnselectedUnchanged(values[i := NoObject], fields, bitmap, after, i + 1, find, missed, j);
        } else if find(name).Some? {
          UnselectedUnchanged(values[i := ObjectValue(find(name).value)], fields, bitmap, after, i + 1, find, missed, j);
        } else {
          UnselectedUnchanged(values[i := NoObject], fields, bitmap, after, i + 1, find, true, j);
        }
      }
    } else if i < |fields| {
      UnselectedUnchanged(values, fields, bitmap, rest, i + 1, find, missed, j);
    }
  }

  /** Once a lookup has failed the result reports a miss, whatever follows. */
  lemma {:induction false} MissSticks(values: seq<FieldValue>, fields: seq<FieldData>, bitmap: nat,
                                      rest: seq<Byte>, i: nat, find: Finder)
    requires |values| == |fields| && i <= |fields|
    ensures var r := ApplyFrom(values, fields, bitmap, rest, i, find, true); r.Some? ==> !r.value.allFound
    decreases |fields| - i
  {
    if i < |fields| && Selected(fields[i], bitmap) {
      if fields[i].isInt {
        if |rest| >= 4 {
          MissSticks(values[i := IntValue(ReadI32Le(rest, 0))], fields, bitmap, rest[4..], i + 1, find);
        }
      } else {
        var (name, after) := Partition(rest);
        if name == [] {
          MissSticks(values[i := NoObject], fields, bitmap, after, i + 1, find);
        } else if find(name).Some? {
          MissSticks(values[i := ObjectValue(find(name).value)], fields, bitmap, after, i + 1, find);
        } else {
          MissSticks(values[i := NoObject], fields, bitmap, after, i + 1, find);
        }
      }
    } else if i < |fields| {
      MissSticks(values, fields, bitmap, rest, i + 1, find);
    }
  }

  /**
   * A selected object field whose name the lookup cannot resolve is set to no
   * object, the walk goes on, and the result reports the miss.
   */
  lemma {:induction false} FailedLookup(values: seq<FieldValue>, fields: seq<FieldData>, bitmap: nat,
                     rest: seq<Byte>, i: nat, find: Finder, missed: bool)
    requires |values| == |fields| && i < |fields|
    requires Selected(fields[i], bitmap) && !fields[i].isInt
    requires Partition(rest).0 != [] && find(Partition(rest).0).None?
    ensures ApplyFrom(values, fields, bitmap, rest, i, find, missed)
         == ApplyFrom(values[i := NoObject], fields, bitmap, Partition(rest).1, i + 1, find, true)
    ensures var r := ApplyFrom(values, fields, bitmap, rest, i, find, missed); r.Some? ==> !r.value.allFound
  {
    MissSticks(values[i := NoObject], fields, bitmap, Partition(rest).1, i + 1, find);
  }

  /** An empty name sets no object and is not a miss. */
  lemma {:induction false} EmptyName(values: seq<FieldValue>, fields: seq<FieldData>, bitmap: nat,
                  rest: seq<Byte>, i: nat, find: Finder, missed: bool)
    requires |values| == |fields| && i < |fields|
    requires Selected(fields[i], bitmap) && !fields[i].isInt
    requires rest != [] && rest[0] == NUL
    ensures ApplyFrom(values, fields, bitmap, rest, i, find, missed)
         == ApplyFrom(values[i := NoObject], fields, bitmap, rest[1..], i + 1, find, missed)
  {
    assert NulIndex(rest) == 0;
  }

  /** A selected integer field with fewer than four bytes left raises. */
  lemma {:induction false} TruncatedInteger(values: seq<FieldValue>, fields: seq<FieldData>, bitmap: nat,
                         rest: seq<Byte>, i: nat, find: Finder, missed: bool)
    requires |values| == |fields| && i < |fields|
    requires Selected(fields[i], bitmap) && fields[i].isInt && |rest| < 4
    ensures ApplyFrom(values, fields, bitmap, rest, i, find, missed).None?
  {
  }

  /** Reading keeps each value of the kind its field demands: a 32-bit integer, or an object or none. */
  lemma {:induction false} ApplyFromConforms(values: seq<FieldValue>, fields: seq<FieldData>, bitmap: nat,
                                             rest: seq<Byte>, i: nat, find: Finder, missed: bool)
    requires Conforms(values, fields) && i <= |fields|
    requires ApplyFrom(values, fields, bitmap, rest, i, find, missed).Some?
    ensures Conforms(ApplyFrom(values, fields, bitmap, rest, i, find, missed).value.values, fields)
    decreases |fields| - i
  {
    if i < |fields| {
      if !Selected(fields[i], bitmap) {
        ApplyFromConforms(values, fields, bitmap, rest, i + 1, find, missed);
      } else if fields[i].isInt {
        ApplyFromConforms(values[i := IntValue(ReadI32Le(rest, 0))], fields, bitmap, rest[4..], i + 1, find, missed);
      } else {
        var (name, after) := Partition(rest);
        if name == [] {
          ApplyFromConforms(values[i := NoObject], fields, bitmap, after, i + 1, find, missed);
        } else if find(name).Some? {
          ApplyFromConforms(values[i := ObjectValue(find(name).value)], fields, bitmap, after, i + 1, find, missed);
        } else {
          ApplyFromConforms(values[i := NoObject], fields, bitmap, after, i + 1, find, true);
        }
      }
    }
  }

  lemma {:induction false} ApplyConforms(values: seq<FieldValue>, replacements: seq<Byte>, fields: seq<FieldData>, find: Finder)
    requires Conforms(values, fields)
    requires Apply(values, replacements, fields, find).Some?
    ensures Conforms(Apply(values, replacements, fields, find).value.values, fields)
  {
    ApplyFromConforms(values, fields, ReadU16Le(replacements, 0), replacements[2..], 0, find, false);
  }

  // ---------------------------------------------------------------- writing

  /** The value kinds the packer accepts: integers in 32 bits for integer fields, objects or none elsewhere. */
  predicate Conforms(values: seq<FieldValue>, fields: seq<FieldData>)
  {
    && |values| == |fields|
    && forall i :: 0 <= i < |fields| ==>
         if fields[i].isInt then values[i].IntValue? && IsI32(values[i].n) else !values[i].IntValue?
  }

  /** The payload bytes of one changed value. */
  function EncodeValue(v: FieldValue): (r: seq<Byte>)
    requires v.IntValue? ==> IsI32(v.n)
  {
    match v
    case IntValue(n) => I32Le(n)
    case ObjectValue(path) => UpperBytes(path) + [NUL]
    case NoObject => [NUL]
  }

  /** The bitmap after the first `n` fields: the masks of the changed ones or-ed together in order. */
  function ChangedMask(original: seq<FieldValue>, unpacked: seq<FieldValue>, fields: seq<FieldData>, n: nat): nat
    requires |original| == |unpacked| == |fields| && n <= |fields|
  {
    if n == 0 then 0
    else if original[n - 1] == unpacked[n - 1] then ChangedMask(original, unpacked, fields, n - 1)
    else BitOr(ChangedMask(original, unpacked, fields, n - 1), fields[n - 1].mask)
  }

  /** The payload from field `i` on: the encodings of the changed values, in table order. */
  function ChangedPayload(original: seq<FieldValue>, unpacked: seq<FieldValue>, fields: seq<FieldData>, i: nat): seq<Byte>
    requires Conforms(original, fields) && |unpacked| == |fields| && i <= |fields|
    decreases |fields| - i
  {
    if i == |fields| then []
    else if original[i] == unpacked[i] then ChangedPayload(original, unpacked, fields, i + 1)
    else EncodeValue(original[i]) + ChangedPayload(original, unpacked, fields, i + 1)
  }

  /**
   * The diff loop of `_pack_item_code_impl`: every field whose value differs from
   * the value that survived the game's own pack and unpack gets its bit set and
   * its value appended.
   */
  method DiffReplacements(original: seq<FieldValue>, unpacked: seq<FieldValue>, fields: seq<FieldData>)
    returns (replacementBits: nat, replacementData: seq<Byte>)
    requires Conforms(original, fields) && |unpacked| == |fields|
    ensures replacementBits == ChangedMask(original, unpacked, fields, |fields|)
    ensures replacementData == ChangedPayload(original, unpacked, fields, 0)
  {
    replacementBits := 0;
    replacementData := [];
    var i := 0;
    while i < |fields|
      invariant 0 <= i <= |fields|
      invariant replacementBits == ChangedMask(original, unpacked, fields, i)
      invariant replacementData + ChangedPayload(original, unpacked, fields, i) == ChangedPayload(original, unpacked, fields, 0)
    {
      ghost var tail := ChangedPayload(original, unpacked, fields, i + 1);
      PayloadStep(original, unpacked, fields, i);
      MaskStep(original, unpacked, fields, i, replacementBits);
      if original[i] != unpacked[i] {
        replacementBits := BitOr(replacementBits, fields[i].mask);
        var encoded := EncodeValue(original[i]);
        AppendAssociates(replacementData, encoded, tail);
        replacementData := replacementData + encoded;
      }
      i := i + 1;
    }
  }

  /** The bitmap after field `i` is the one before it, with field `i`'s mask or-ed in if it changed. */
  lemma {:induction false} MaskStep(original: seq<FieldValue>, unpacked: seq<FieldValue>, fields: seq<FieldData>, i: nat, before: nat)
    requires |original| == |unpacked| == |fields| && i < |fields|
    requires before == ChangedMask(original, unpacked, fields, i)
    ensures ChangedMask(original, unpacked, fields, i + 1)
      == if original[i] == unpacked[i] then before else BitOr(before, fields[i].mask)
  {
  }

  /** The payload from field `i` on is field `i`'s encoding, if it changed, then the payload from `i + 1` on. */
  lemma {:induction false} PayloadStep(original: seq<FieldValue>, unpacked: seq<FieldValue>, fields: seq<FieldData>, i: nat)
    requires Conforms(original, fields) && |unpacked| == |fields| && i < |fields|
    ensures original[i] == unpacked[i] ==>
      ChangedPayload(original, unpacked, fields, i) == ChangedPayload(original, unpacked, fields, i + 1)
    ensures original[i] != unpacked[i] ==>
      ChangedPayload(original, unpacked, fields, i) == EncodeValue(original[i]) + ChangedPayload(original, unpacked, fields, i + 1)
  {
  }

  lemma {:induction false} AppendAssociates(a: seq<Byte>, b: seq<Byte>, c: seq<Byte>)
    ensures (a + b) + c == a + (b + c)
  {
  }

  /** The whole payload: the bitmap as a little-endian 16-bit value, then the changed values. */
  function Payload(original: seq<FieldValue>, unpacked: seq<FieldValue>, fields: seq<FieldData>): (r: seq<Byte>)
    requires WellFormed(fields) && Conforms(original, fields) && |unpacked| == |fields|
  {
    ChangedMaskBound(original, unpacked, fields, 16);
    U16Le(ChangedMask(original, unpacked, fields, 16)) + ChangedPayload(original, unpacked, fields, 0)
  }

  // ---------------------------------------------------------------- properties of writing

  lemma {:induction false} ChangedMaskBound(original: seq<FieldValue>, unpacked: seq<FieldValue>, fields: seq<FieldData>, n: nat)
    requires WellFormed(fields) && |original| == |unpacked| == 16 && n <= 16
    ensures ChangedMask(original, unpacked, fields, n) < TWO_16
  {
    if n > 0 {
      ChangedMaskBound(original, unpacked, fields, n - 1);
      if original[n - 1] != unpacked[n - 1] {
        Pow2Table();
        Pow2Monotone(15 - (n - 1), 16);
        BitOrBound(ChangedMask(original, unpacked, fields, n - 1), fields[n - 1].mask, 16);
      }
    }
  }

  /** Bit `15 - j` of the bitmap after `n` fields is set exactly when field `j < n` changed. */
  lemma {:induction false} ChangedMaskBits(original: seq<FieldValue>, unpacked: seq<FieldValue>, fields: seq<FieldData>, n: nat, j: nat)
    requires WellFormed(fields) && |original| == |unpacked| == 16 && n <= 16 && j < 16
    ensures HasBit(ChangedMask(original, unpacked, fields, n), 15 - j) <==> j < n && original[j] != unpacked[j]
  {
    if n == 0 {
      NoBitOfZero(15 - j);
    } else {
      ChangedMaskBits(original, unpacked, fields, n - 1, j);
      if original[n - 1] != unpacked[n - 1] {
        BitOrHasBit(ChangedMask(original, unpacked, fields, n - 1), fields[n - 1].mask, 15 - j);
        Pow2HasBit(15 - (n - 1), 15 - j);
      }
    }
  }

  /** The packed bitmap selects exactly the fields whose value changed. */
  lemma {:induction false} ChangedFieldsSelected(original: seq<FieldValue>, unpacked: seq<FieldValue>, fields: seq<FieldData>, j: nat)
    requires WellFormed(fields) && |original| == |unpacked| == 16 && j < 16
    ensures Selected(fields[j], ChangedMask(original, unpacked, fields, 16)) <==> original[j] != unpacked[j]
  {
    ChangedMaskBits(original, unpacked, fields, 16, j);
    MaskMeets(15 - j, ChangedMask(original, unpacked, fields, 16));
  }

  /** The bitmap is zero exactly when no field changed: the code then needs no extension. */
  lemma {:induction false} NoChangesNoBits(original: seq<FieldValue>, unpacked: seq<FieldValue>, fields: seq<FieldData>)
    requires WellFormed(fields) && |original| == |unpacked| == 16
    ensures ChangedMask(original, unpacked, fields, 16) == 0 <==> original == unpacked
  {
    var m := ChangedMask(original, unpacked, fields, 16);
    if m == 0 {
      forall j | 0 <= j < 16 ensures original[j] == unpacked[j] {
        ChangedMaskBits(original, unpacked, fields, 16, j);
        NoBitOfZero(15 - j);
      }
    } else if original == unpacked {
      forall k | 0 <= k < 16 ensures HasBit(m, k) <==> HasBit(0, k) {
        ChangedMaskBits(original, unpacked, fields, 16, 15 - k);
        NoBitOfZero(k);
      }
      ChangedMaskBound(original, unpacked, fields, 16);
      Pow2Table();
      BitsDetermine(m, 0, 16);
    }
  }

  /** What the engine lookup must do for the objects of a definition: resolve their upper-cased names back to them. */
  predicate Resolvable(values: seq<FieldValue>, find: Finder)
  {
    forall i :: 0 <= i < |values| && values[i].ObjectValue? ==>
      values[i].path != [] && NoNul(values[i].path) && find(UpperBytes(values[i].path)) == Some(values[i].path)
  }

  lemma {:induction false} NulIndexTerminated(name: seq<Byte>, more: seq<Byte>)
    requires NoNul(name)
    ensures NulIndex(name + [NUL] + more) == |name|
  {
    if name != [] {
      assert (name + [NUL] + more)[1..] == name[1..] + [NUL] + more;
      NulIndexTerminated(name[1..], more);
    }
  }

  lemma {:induction false} PartitionTerminated(name: seq<Byte>, more: seq<Byte>)
    requires NoNul(name)
    ensures Partition(name + [NUL] + more) == (name, more)
  {
    var s := name + [NUL] + more;
    NulIndexTerminated(name, more);
    assert s[..|name|] == name;
    assert s[|name| + 1..] == more;
  }

  lemma {:induction false} UpperNoNul(path: seq<Byte>)
    requires NoNul(path)
    ensures NoNul(UpperBytes(path))
  {
  }

  /**
   * Decoding the payload from field `i` on, over values that still hold the
   * unpacked ones from `i`, restores the original values from `i` and reports
   * every object found, whatever bytes trail the payload.
   */
  lemma {:induction false} RoundTripFrom(original: seq<FieldValue>, unpacked: seq<FieldValue>, fields: seq<FieldData>,
                                         current: seq<FieldValue>, i: nat, trailing: seq<Byte>, find: Finder)
    requires WellFormed(fields) && Conforms(original, fields) && |unpacked| == 16 && |current| == 16
    requires Resolvable(original, find)
    requires i <= 16 && current[i..] == unpacked[i..]
    ensures ApplyFrom(current, fields, ChangedMask(original, unpacked, fields, 16),
                      ChangedPayload(original, unpacked, fields, i) + trailing, i, find, false)
         == Some(Applied(current[..i] + original[i..], true))
    decreases 16 - i
  {
    if i == 16 {
      assert current[..16] + original[16..] == current;
    } else {
      var next := if original[i] == unpacked[i] then current else current[i := original[i]];
      RoundTripStep(original, unpacked, fields, current, i, trailing, find);
      assert current[i] == unpacked[i];
      assert next[i + 1..] == unpacked[i + 1..];
      assert next[..i + 1] + original[i + 1..] == current[..i] + original[i..];
      RoundTripFrom(original, unpacked, fields, next, i + 1, trailing, find);
    }
  }

  /** One field of the decoding: a changed field takes its original value from the payload, an unchanged one is skipped. */
  lemma {:induction false} RoundTripStep(original: seq<FieldValue>, unpacked: seq<FieldValue>, fields: seq<FieldData>,
                                         current: seq<FieldValue>, i: nat, trailing: seq<Byte>, find: Finder)
    requires WellFormed(fields) && Conforms(original, fields) && |unpacked| == 16 && |current| == 16
    requires Resolvable(original, find)
    requires i < 16
    ensures var bitmap := ChangedMask(original, unpacked, fields, 16);
      var next := if original[i] == unpacked[i] then current else current[i := original[i]];
      ApplyFrom(current, fields, bitmap, ChangedPayload(original, unpacked, fields, i) + trailing, i, find, false)
      == ApplyFrom(next, fields, bitmap, ChangedPayload(original, unpacked, fields, i + 1) + trailing, i + 1, find, false)
  {
    var bitmap := ChangedMask(original, unpacked, fields, 16);
    var more := ChangedPayload(original, unpacked, fields, i + 1);
    var tail := more + trailing;
    ChangedFieldsSelected(original, unpacked, fields, i);
    PayloadStep(original, unpacked, fields, i);
    if original[i] != unpacked[i] {
      var encoded := EncodeValue(original[i]);
      AppendAssociates(encoded, more, trailing);
      if fields[i].isInt {
        IntStep(current, fields, bitmap, original[i].n, tail, i, find);
      } else if original[i].ObjectValue? {
        ObjectStep(current, fields, bitmap, original[i].path, tail, i, find);
      } else {
        NoObjectStep(current, fields, bitmap, tail, i, find);
      }
    }
  }

  /** A selected integer field reads its four bytes. */
  lemma {:induction false} IntStep(values: seq<FieldValue>, fields: seq<FieldData>, bitmap: nat, n: int,
                                   tail: seq<Byte>, i: nat, find: Finder)
    requires |values| == |fields| && i < |fields| && Selected(fields[i], bitmap) && fields[i].isInt && IsI32(n)
    ensures ApplyFrom(values, fields, bitmap, I32Le(n) + tail, i, find, false)
         == ApplyFrom(values[i := IntValue(n)], fields, bitmap, tail, i + 1, find, false)
  {
    var rest := I32Le(n) + tail;
    assert rest[..4] == I32Le(n);
    assert ReadI32Le(rest, 0) == ReadI32Le(I32Le(n), 0);
    assert rest[4..] == tail;
  }

  /** A selected object field reads a name up to its NUL and looks it up. */
  lemma {:induction false} ObjectStep(values: seq<FieldValue>, fields: seq<FieldData>, bitmap: nat, path: seq<Byte>,
                                      tail: seq<Byte>, i: nat, find: Finder)
    requires |values| == |fields| && i < |fields| && Selected(fields[i], bitmap) && !fields[i].isInt
    requires path != [] && NoNul(path) && find(UpperBytes(path)) == Some(path)
    ensures ApplyFrom(values, fields, bitmap, UpperBytes(path) + [NUL] + tail, i, find, false)
         == ApplyFrom(values[i := ObjectValue(path)], fields, bitmap, tail, i + 1, find, false)
  {
    UpperNoNul(path);
    PartitionTerminated(UpperBytes(path), tail);
  }

  /** A selected object field with an empty name is set to no object. */
  lemma {:induction false} NoObjectStep(values: seq<FieldValue>, fields: seq<FieldData>, bitmap: nat,
                                        tail: seq<Byte>, i: nat, find: Finder)
    requires |values| == |fields| && i < |fields| && Selected(fields[i], bitmap) && !fields[i].isInt
    ensures ApplyFrom(values, fields, bitmap, [NUL] + tail, i, find, false)
         == ApplyFrom(values[i := NoObject], fields, bitmap, tail, i + 1, find, false)
  {
    PartitionTerminated([], tail);
    assert [] + [NUL] + tail == [NUL] + tail;
  }

  /**
   * Applying the packed payload to the values the game's own pack and unpack
   * give back restores the original values, with every object found; bytes after
   * the payload are ignored.
   */
  lemma {:induction false} PayloadRoundTrip(original: seq<FieldValue>, unpacked: seq<FieldValue>, fields: seq<FieldData>,
                         trailing: seq<Byte>, find: Finder)
    requires WellFormed(fields) && Conforms(original, fields) && |unpacked| == 16
    requires Resolvable(original, find)
    ensures Apply(unpacked, Payload(original, unpacked, fields) + trailing, fields, find) == Some(Applied(original, true))
  {
    var p := Payload(original, unpacked, fields) + trailing;
    ChangedMaskBound(original, unpacked, fields, 16);
    var bits := ChangedMask(original, unpacked, fields, 16);
    var body := ChangedPayload(original, unpacked, fields, 0);
    assert p == U16Le(bits) + (body + trailing);
    assert p[..2] == U16Le(bits);
    assert ReadU16Le(p, 0) == ReadU16Le(U16Le(bits), 0);
    assert p[2..] == body + trailing;
    RoundTripFrom(original, unpacked, fields, unpacked, 0, trailing, find);
    assert unpacked[..0] + original[0..] == original;
  }
}
