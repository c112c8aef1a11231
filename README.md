# willow2-sdk-mods, modelled in Dafny

This project models the rule-bearing core of a collection of Borderlands 2 / Pre-Sequel
SDK mods and proves properties of that model.

- **Item-code codec** (`vendor_edit/item_codes.py`). Item definitions are written as text codes: `PREFIX(base64)`, or
  `PREFIXMODDED[base64|base64]` when parts were replaced. The model covers:
  - the code grammar and Python's strict Base64 decoding;
  - the serial-number stream cipher;
  - Gearbox's CRC-32 checksum, folded to 16 bits;
  - serial validation;
  - the two 16-entry field tables;
  - the "modded replacements" payload (a little-endian bitmask followed by one value per set bit);
  - packing and unpacking, with their round trip.
  Modules: `Bytes`, `Bits`, `Base64`, `FieldTables`, `SerialCipher`, `GearboxCrc`, `SerialNumbers`,
  `ModdedReplacements`, `ItemCodeText`, `ItemCodes`. `Wrappers` and `Strings` are shared helpers.
- **Compression-dictionary tooling** (`vendor_edit/zdict_experiments`). The model covers:
  - the corpus writer that emits bitmask-plus-names records (`CorpusRecords`);
  - the substring-counting, deduplicating and "portmanteau" dictionary builder (`SubstringCounts`,
    `SortedListing`, `SubstringGroups`, `Portmanteau`, `DictionaryBuilder`).
- **Weapon replacement lists and packages** (`vendor_edit/replacement_lists.py`, `vendor_edit/packages.py`):
  candidate levels and parts per slot, slot ordering, one new definition per candidate, dotted package
  paths and the memoised package object (`ReplacementLists`, `Packages`).
- **Text-mod loader** (`text_mod_loader`). The model covers:
  - the seven-state lifecycle of a text mod and its operations (`TextModStates`, `TextMods`);
  - hotfix locking (`Hotfixes`);
  - description joining, edge detection, metadata defaults and the reload of all mods (`Loader`);
  - the saved settings: the auto-enable list, the suppression counter and the metadata cache (`Settings`);
  - the C++ mod-file parsers: BLIMP tag splitting, command detection, the line-by-line, FilterTool and
    BLCMM scanners, format dispatch and the spark-service scan (`ParseResults`, `ParserUtil`, `LineParser`,
    `FiltertoolParser`, `BlcmParser`, `FileParser`).
- **Equip locker** (`equip_locker`): the allegiance, rarity and weapon/item-type restrictions, the
  conjunction of the enabled ones, the equipped-item chain walk, the unequip pass and the `GiveTo` rule
  (`EquipOptions`, `Allegiance`, `Rarities`, `WeaponItemTypes`, `EquipLocker`).
- **Smaller plugins**:
  - the alt-use vendors' per-player nearby-vendor map and purchase gate (`AltUseVendors`);
  - the cheats' cyclable options (`CyclableOptions`);
  - the travel-station teleport cursor (`TpTravels`);
  - the `pyb` console line buffer (`Pyb`);
  - the enemy level randomizer (`EnemyLevels`).

Objects whose fields the source updates in place are classes, with `modifies` clauses on their methods:
- the text mod;
- the settings;
- the parse result;
- the nearby-vendor tracker;
- the travel cursor;
- the `pyb` buffer;
- the package.

Pure rules are functions over datatypes. Loops that build results are methods proved against a
specification function.

## Model

| member | source | states |
|---|---|---|
| Bytes.U16Be | vendor_edit/item_codes.py:459 | the two big-endian bytes read back, with `ReadU16Be`, as the value written |
| Bytes.U16Le | vendor_edit/item_codes.py:473 | the two little-endian bytes of the bitmap read back, with `ReadU16Le`, as the bitmap |
| Bytes.I32Be | vendor_edit/item_codes.py:492 | the two's-complement big-endian encoding of any signed 32-bit value reads back as that value |
| Bytes.I32Le | vendor_edit/item_codes.py:434 | `struct.pack("<i", v)` for any signed 32-bit value is read back by `struct.unpack_from("<i")` (line 383) as `v` |
| Bytes.Signed32 | vendor_edit/item_codes.py:492 | the signed reading of an unsigned 32-bit value is in the signed range and congruent to it modulo 2^32 |
| Bytes.BitXorInvolutive | vendor_edit/item_codes.py:501 | xor-ing twice with the same value gives the value back, the property the serial cipher relies on |
| Bytes.UpperBytes | vendor_edit/item_codes.py:437 | the upper-cased path name has the same length and each byte is the ASCII upper case of the original |
| Bits.BitOrHasBit | vendor_edit/item_codes.py:429 | a bit of `replacement_bits \| mask` is set exactly when it is set in either operand |
| Bits.MaskMeets | vendor_edit/item_codes.py:380 | `mask & bitmap != 0` for a single-bit mask holds exactly when that bit of the bitmap is set |
| Bits.BitsDetermine | vendor_edit/item_codes.py:376 | two 16-bit bitmaps that agree on every bit are equal |
| Base64.DecodeEncode | vendor_edit/item_codes.py:466 | decoding, with `b64decode(validate=True)`, the `b64encode` text of any byte string gives the bytes back |
| Base64.DecodeAccepts | vendor_edit/item_codes.py:298 | with `validate=True` the decoder accepts exactly ASCII texts of alphabet characters followed only by `=`, as many as the data length needs to reach a multiple of 4, and never a data length of 1 modulo 4; an accepted text has a length divisible by 4 |
| Base64.Decode | vendor_edit/item_codes.py:298 | exactly a non-ASCII text is the `ValueError`; a decoded text gives 6 bits per data character, rounded down to whole bytes |
| Base64.Encode | vendor_edit/item_codes.py:466 | the encoding has 4 characters for every started group of 3 bytes |
| Base64.EncodeShape | vendor_edit/item_codes.py:466 | the encoding is alphabet characters followed by exactly the '=' padding that completes the last group of four |
| Base64.FromToSextets | vendor_edit/item_codes.py:466 | splitting bytes into sextets and joining them back gives the bytes back |
| Base64.SextetsOfChars | vendor_edit/item_codes.py:298 | reading back the alphabet characters of a run of sextets gives the sextets |
| Base64.DataLength | vendor_edit/item_codes.py:298 | the data length is the longest prefix of alphabet characters: everything before it is in the alphabet and the next character is not |
| FieldTables.WeaponFieldsWellFormed | vendor_edit/item_codes.py:132-149 | the weapon table has sixteen fields, field `i` with mask bit `15 - i`, the masks or-ing to 0xFFFF, and a field is an integer exactly at masks 0x1000 and 0x0001 |
| FieldTables.ItemFieldsWellFormed | vendor_edit/item_codes.py:151-168 | the same shape for the item table |
| FieldTables.AllMasksFull | vendor_edit/item_codes.py:380 | the masks of a well-formed table or together to 0xFFFF, so every bitmap bit names a field |
| FieldTables.AllMasksPrefix | vendor_edit/item_codes.py:424-429 | the first `n` masks of a well-formed table together hold exactly bits `16 - n` to 15 |
| FieldTables.WellFormedMasks | vendor_edit/item_codes.py:132-168 | in a well-formed table masks are non-zero, pairwise disjoint and strictly descending |
| SerialCipher.DecodeSerial | vendor_edit/item_codes.py:483-504 | the loop computes the decoded serial: unchanged for a zero key, otherwise the same length and byte 0 |
| SerialCipher.ZeroKeyRange | vendor_edit/item_codes.py:492-496 | the key `key_and_steps >> 5` is zero exactly when the stored value lies in 0..31 |
| SerialCipher.Steps | vendor_edit/item_codes.py:503 | the rotation count is below the number of xor-ed bytes |
| SerialCipher.NextKey | vendor_edit/item_codes.py:500 | a key step, with Python's non-negative `%`, stays below the modulus 0xFFFFFFFB |
| SerialCipher.DecodedShape | vendor_edit/item_codes.py:498-504 | with a non-zero key the result keeps the length and byte 0, has bytes 1-4 zero, and holds xor-ed byte `i` at position `5 + (i + steps) mod n` |
| SerialCipher.NoRotationWhenZeroSteps | vendor_edit/item_codes.py:504 | a rotation count of zero leaves the xor-ed bytes in place (`x[-0:] + x[:-0]`) |
| SerialCipher.KeyStreamInvolutive | vendor_edit/item_codes.py:499-501 | xor-ing with the same key stream twice gives the data back |
| SerialCipher.RotateRightLeft | vendor_edit/item_codes.py:504 | the rotation the decoder applies undoes the left rotation by the same count |
| SerialCipher.DecodeEncrypted | vendor_edit/item_codes.py:483-504 | decoding a serial that was rotated, xor-ed and stamped with a non-zero key gives its plain bytes behind four zero key bytes |
| GearboxCrc.Padded | vendor_edit/item_codes.py:530 | `ljust(40, b"\xff")` keeps the buffer as a prefix, pads with 0xFF up to 40 bytes and never truncates |
| GearboxCrc.GearboxCrc | vendor_edit/item_codes.py:520-533 | the table-driven loop over the padded buffer computes `Crc(buffer)`, a 32-bit value |
| GearboxCrc.CrcTableSize | vendor_edit/item_codes.py:537-602 | the table has one entry for each of the 256 byte values |
| GearboxCrc.CalcSerialChecksum | vendor_edit/item_codes.py:507-517 | the checksum is the two CRC halves xor-ed, a 16-bit value |
| GearboxCrc.TrailingPaddingIgnored | vendor_edit/item_codes.py:461-463 | appending 0xFF bytes up to 40 bytes changes neither the padded buffer nor the checksum, which is why trailing 0xFF can be stripped from a code |
| GearboxCrc.ChecksumOfPadded | vendor_edit/item_codes.py:239 | a serial padded to 40 bytes has the same checksum as the serial |
| SerialNumbers.Blanked | vendor_edit/item_codes.py:327 | blanking sets bytes 5 and 6 to 0xFF and leaves every other byte and the length unchanged |
| SerialNumbers.ValidateAndDecodeSerialNumber | vendor_edit/item_codes.py:308-333 | the method computes `ValidatedSerial`: length check, decode, stored checksum read, blanking in place and comparison |
| SerialNumbers.ValidatedSerialSpec | vendor_edit/item_codes.py:317-333 | the validator accepts exactly the serials of 8 to 40 bytes whose decoded checksum matches, and returns the decoded bytes with bytes 5-6 set to 0xFF |
| SerialNumbers.ValidateSealed | vendor_edit/item_codes.py:454-459 | a buffer of 8 to 40 bytes with a zero key and its checksum stored validates and comes back as it was before the checksum was stored |
| SerialNumbers.RejectedBeforeDecompression | vendor_edit/item_codes.py:346-352 | an extension shorter than 12 bytes or with a version byte other than 0 is rejected, whatever the decompressor does |
| SerialNumbers.AcceptedIffDecompresses | vendor_edit/item_codes.py:353-358 | a well-formed extension is accepted exactly when its body after the version byte decompresses, and yields that result |
| SerialNumbers.ValidatePacked | vendor_edit/item_codes.py:473-474 | the version byte followed by the compressed payload validates back to the payload, given that the decompressor inverts the compressor |
| SerialNumbers.ValidateAndDecompressModdedReplacements | vendor_edit/item_codes.py:336-358 | an extension is accepted only when it is long enough and starts with the modded-code version |
| GearboxCrc.Checksum | vendor_edit/item_codes.py:507-517 | the checksum fits in 16 bits |
| ModdedReplacements.NulIndex | vendor_edit/item_codes.py:386 | the index found is the first NUL, or the length when there is none |
| ModdedReplacements.Partition | vendor_edit/item_codes.py:386 | the name before the separator holds no NUL, and the name and the rest together are no longer than the input |
| ModdedReplacements.Apply | vendor_edit/item_codes.py:361-403 | a result exists only for a buffer that holds the two bitmap bytes, and it has one value per field |
| ModdedReplacements.ApplyModdedReplacements | vendor_edit/item_codes.py:361-403 | the method fails exactly where `Apply` does (the uncaught `struct.error`), and otherwise leaves in the array the values `Apply` gives and returns whether every name was found |
| ModdedReplacements.UnselectedUnchanged | vendor_edit/item_codes.py:380 | fields whose bit is clear keep their value |
| ModdedReplacements.MissSticks | vendor_edit/item_codes.py:379-403 | once a lookup has failed the result reports a miss, whatever follows |
| ModdedReplacements.FailedLookup | vendor_edit/item_codes.py:387-397 | a selected object field whose name cannot be resolved is set to no object, the walk goes on past its NUL, and the result reports the miss |
| ModdedReplacements.EmptyName | vendor_edit/item_codes.py:398-399 | an empty name sets no object and is not a miss |
| ModdedReplacements.TruncatedInteger | vendor_edit/item_codes.py:382-384 | a selected integer field with fewer than four bytes left raises |
| ModdedReplacements.ApplyConforms | vendor_edit/item_codes.py:382-401 | applying a payload keeps every value of the kind its field demands: a 32-bit integer, or an object or none |
| ModdedReplacements.DiffReplacements | vendor_edit/item_codes.py:421-442 | the diff loop builds the bitmap of the changed fields and the payload of their encoded values, in table order |
| ModdedReplacements.ChangedMaskBits | vendor_edit/item_codes.py:424-429 | bit `15 - j` of the bitmap after `n` fields is set exactly when field `j < n` changed |
| ModdedReplacements.ChangedMaskBound | vendor_edit/item_codes.py:429-473 | the bitmap fits the 16 bits `struct.pack("<H")` accepts |
| ModdedReplacements.ChangedFieldsSelected | vendor_edit/item_codes.py:380-429 | the bitmap the packer writes selects, on unpacking, exactly the fields whose value changed |
| ModdedReplacements.NoChangesNoBits | vendor_edit/item_codes.py:469 | the bitmap is zero exactly when no field changed, which is when the code gets no extension |
| ModdedReplacements.PartitionTerminated | vendor_edit/item_codes.py:386-437 | partitioning a NUL-free name followed by NUL gives the name and what follows |
| ModdedReplacements.UpperNoNul | vendor_edit/item_codes.py:437 | upper-casing a NUL-free path keeps it NUL-free |
| ModdedReplacements.IntStep | vendor_edit/item_codes.py:383-434 | a selected integer field reads back the four bytes `struct.pack("<i")` wrote and moves past them |
| ModdedReplacements.ObjectStep | vendor_edit/item_codes.py:386-437 | a selected object field reads back the upper-cased path name the packer wrote and resolves it to the object |
| ModdedReplacements.NoObjectStep | vendor_edit/item_codes.py:398-440 | a selected object field reads back the lone NUL written for no object as no object |
| ModdedReplacements.RoundTripFrom | vendor_edit/item_codes.py:380-442 | decoding the payload from field `i` on restores the original values from `i` and reports every object found, whatever bytes trail the payload |
| ModdedReplacements.PayloadRoundTrip | vendor_edit/item_codes.py:361-473 | applying the packed payload to the values the game's own pack and unpack give back restores the original values, with every object found |
| ItemCodeText.WordRun | vendor_edit/item_codes.py:102 | the identifier run is the longest prefix of word characters |
| ItemCodeText.MatchSound | vendor_edit/item_codes.py:101-104 | every match of the code pattern is a well-shaped code whose groups render back to the whole text |
| ItemCodeText.ModdedMatchSound | vendor_edit/item_codes.py:102 | every match of the modded form `IDENTMODDED[BASE\|EXTENSION]` is well-shaped and renders back to the text |
| ItemCodeText.MatchComplete | vendor_edit/item_codes.py:101-104 | every well-shaped code is matched, with the same groups |
| ItemCodeText.PlainComplete | vendor_edit/item_codes.py:102 | a well-shaped plain code `IDENT(BASE)` is matched with its identifier and base |
| ItemCodeText.ModdedComplete | vendor_edit/item_codes.py:102 | a well-shaped modded code is matched with its identifier, marker, base and extension |
| ItemCodeText.ModdedGroups | vendor_edit/item_codes.py:102 | the lazy groups of the modded form split at the first '\|' after the base's first character |
| ItemCodeText.PrefixesSeparateGames | vendor_edit/item_codes.py:92-98 | each game accepts the prefix it writes, and no game accepts another game's prefix |
| ItemCodeText.PrefixIsEnough | vendor_edit/item_codes.py:291 | the prefix pattern is matched at the start, so anything may follow the prefix in the identifier |
| ItemCodeText.ParseRendered | vendor_edit/item_codes.py:276-305 | a well-shaped code, with any leading and trailing whitespace `str.strip` removes, parses to the decoding of its groups when its identifier carries the game's prefix, and to WRONG_GAME otherwise |
| ItemCodeText.ParseItemCode | vendor_edit/item_codes.py:276-305 | a code fails with NoMatch exactly when its stripped text does not match the pattern; a parsed code matched, carried the game's prefix, and its serial is the Base64 decoding of the base group |
| ItemCodeText.ParseOutcomes | vendor_edit/item_codes.py:287-305 | NO_MATCH exactly when the stripped text is not a code, WRONG_GAME exactly when the identifier lacks the prefix, MALFORMED_CODE exactly when a Base64 part fails to decode, and otherwise the decoded serial, with an extension exactly for the modded form |
| ItemCodeText.AsWrittenAgrees | vendor_edit/item_codes.py:297-303 | where the parser as written returns, it returns what the corrected parser does; where it raises, the corrected parser gives MALFORMED_CODE |
| ItemCodeText.DecodedAgrees | vendor_edit/item_codes.py:297-303 | the decoding step as written raises exactly on a non-ASCII failure, where the corrected step gives MALFORMED_CODE, and agrees elsewhere |
| ItemCodeText.NonAsciiRaises | vendor_edit/item_codes.py:297-303 | the code `BL2(é)` makes the parser as written raise ValueError, while the corrected parser gives MALFORMED_CODE |
| Strings.StripSpec | vendor_edit/item_codes.py:287 | `str.strip()` keeps a contiguous part of the text with no whitespace at either end, and removes only whitespace |
| ItemCodes.Fields | vendor_edit/item_codes.py:243-245 | the table chosen for a weapon or an item is well formed |
| ItemCodes.TypedConforms | vendor_edit/item_codes.py:431-442 | values typed as the engine's struct types them are exactly the values of the kinds either table demands |
| ItemCodes.UnpackItemCode | vendor_edit/item_codes.py:207-273 | the method computes `Unpacking`: parse, validate both parts, let the game peek at and unpack the padded serial, then apply the replacements in place |
| ItemCodes.UnpackParsedCode | vendor_edit/item_codes.py:212-231 | the steps between parsing and the game's unpack compute `UnpackOutcome` |
| ItemCodes.UnpackDecoded | vendor_edit/item_codes.py:238-273 | the steps after validation compute `UnpackValidated` |
| ItemCodes.CompletedMeaning | vendor_edit/item_codes.py:269-272 | the lookup table gives a FULL outcome exactly when every object was found, and a weapon outcome exactly for a weapon |
| ItemCodes.UnpackValidatedOutcomes | vendor_edit/item_codes.py:238-273 | after validation a definition comes back exactly with a FULL or PARTIAL outcome of the right kind; PARTIAL and the uncaught `struct.error` need a payload; the game's refusal is GAME_REJECTED_CODE |
| ItemCodes.UnpackOutcomes | vendor_edit/item_codes.py:212-231 | a parse failure is passed on, an invalid serial or extension gives MALFORMED_CODE, and every other outcome is consistent |
| ItemCodes.UnpackingOutcomes | vendor_edit/item_codes.py:207-273 | the outcome codes of `unpack_item_code` for any code: those of parsing, then those of the later steps |
| ItemCodes.KeyCleared | vendor_edit/item_codes.py:455 | bytes 1-4 become zero and every other byte is kept |
| ItemCodes.StripTrailingFF | vendor_edit/item_codes.py:463 | `rstrip(b"\xff")` keeps a prefix, removes only 0xFF bytes, and leaves no trailing 0xFF |
| ItemCodes.PackItemCode | vendor_edit/item_codes.py:406-476 | the method computes `Packed`: pack and unpack through the game, diff the fields, fix up the buffer and render the plain or the modded code |
| ItemCodes.SealedBuffer | vendor_edit/item_codes.py:445-459 | the fixed-up buffer is a fresh copy of the game's buffer with the key zeroed and the checksum stored big-endian at bytes 5-6 |
| ItemCodes.CodeTextForm | vendor_edit/item_codes.py:469-476 | a code starts with the game's prefix, followed by '(' exactly when it has no extension and by `MODDED` otherwise |
| ItemCodes.ExtensionIffChanged | vendor_edit/item_codes.py:469 | a packed code has an extension exactly when some field did not survive the game's own pack and unpack |
| ItemCodes.PackedForm | vendor_edit/item_codes.py:406-476 | when the game's unpack succeeds, packing succeeds; the code is the plain form exactly when every field survived, and always starts with the game's prefix |
| ItemCodes.BaseSerialShape | vendor_edit/item_codes.py:454-463 | the serial of a packed code has a zero key, holds the key-cleared buffer's checksum at bytes 5-6, and has no trailing 0xFF |
| ItemCodes.EncodedText | vendor_edit/item_codes.py:466-474 | Base64 text never holds a line break or a '\|', and is empty only for no bytes |
| ItemCodes.CodeTextShape | vendor_edit/item_codes.py:470-476 | the groups of a code's text are well shaped, and its identifier is the game's prefix |
| ItemCodes.ParseCodeText | vendor_edit/item_codes.py:276-305 | a code's text parses, in its own game, back to the serial and extension it was built from, and is WRONG_GAME in every other game |
| ItemCodes.PackedForOtherGame | vendor_edit/item_codes.py:291-292 | a packed code is refused as WRONG_GAME by every other game |
| ItemCodes.CutBeforePadding | vendor_edit/item_codes.py:463 | padding a buffer cut before its trailing 0xFF bytes gives the buffer back, and sealing commutes with the cut |
| ItemCodes.ValidatePackedSerial | vendor_edit/item_codes.py:308-333 | the serial of a packed code validates, and comes back as the key-cleared buffer cut to the code's length; padding it gives that whole buffer |
| ItemCodes.ValidateCut | vendor_edit/item_codes.py:317-333 | a key-cleared buffer cut before its padding validates once sealed, and pads back to the whole buffer |
| ItemCodes.UnpackPackedSerial | vendor_edit/item_codes.py:238-273 | with consistent natives, resolvable objects and the packed payload, the steps after validation give the definition back as FULL |
| ItemCodes.PackUnpackRoundTrip | vendor_edit/item_codes.py:47-70 | unpacking the code packed from a definition gives that definition back, as FULL_WEAPON or FULL_ITEM |
| SubstringCounts.CountSubstrings | vendor_edit/zdict_experiments/gen_dict.py:25-32 | the first loop's counter, as a multiset, is the multiset of the substrings every upper-cased line contributes |
| SubstringCounts.CountLine | vendor_edit/zdict_experiments/gen_dict.py:27-32 | one line adds exactly its substrings to the counter |
| SubstringCounts.CountRow | vendor_edit/zdict_experiments/gen_dict.py:29-31 | one start index adds its row of long-enough substrings |
| SubstringCounts.RowsStep | vendor_edit/zdict_experiments/gen_dict.py:30 | one more start index adds its row |
| SubstringCounts.RowMembers | vendor_edit/zdict_experiments/gen_dict.py:29-31 | a row holds exactly the substrings of three or more characters at its start that end below the bound |
| SubstringCounts.RowsMembers | vendor_edit/zdict_experiments/gen_dict.py:29-31 | the rows below a start bound hold exactly the substrings counted at some start below it |
| SubstringCounts.CountedSubstrings | vendor_edit/zdict_experiments/gen_dict.py:26-32 | a substring is counted exactly when it is `line[a:e]` of an upper-cased line for a pair `a < e < len(line)` three or more apart, so the last character of a line is never part of a counted substring |
| SubstringCounts.FrequentMembers | vendor_edit/zdict_experiments/gen_dict.py:37-43 | exactly the substrings counted at least seven times are kept, each with its count |
| SortedListing.InsertionPoint | vendor_edit/zdict_experiments/gen_dict.py:82 | the insertion point comes after every element whose key is no larger and before every larger one |
| SortedListing.InsertedSorted | vendor_edit/zdict_experiments/gen_dict.py:82 | inserting at the insertion point keeps the order sorted |
| SortedListing.ListSorted | vendor_edit/zdict_experiments/gen_dict.py:82-119 | `sorted` of a set lists each element once, in an order sorted by the key |
| SubstringGroups.PartitionedMember | vendor_edit/zdict_experiments/gen_dict.py:48-52 | a substring filed under a count has that count |
| SubstringGroups.ReverseCounts | vendor_edit/zdict_experiments/gen_dict.py:48-52 | every counted substring is filed under its own count, and every count's group is non-empty and holds only substrings with that count |
| SubstringGroups.Sweep | vendor_edit/zdict_experiments/gen_dict.py:82-126 | over entries listed longest first, no two kept entries contain one another, every dropped entry is inside a kept one, exactly the unlisted and the kept entries of the group remain, and a non-empty list keeps something |
| SubstringGroups.LongestFirstOrder | vendor_edit/zdict_experiments/gen_dict.py:82 | `sorted(..., key=len, reverse=True)` lists each entry once, longest first |
| SubstringGroups.InsideNoLonger | vendor_edit/zdict_experiments/gen_dict.py:83 | a string occurs in one no longer than itself only when the two are equal |
| SubstringGroups.DropContained | vendor_edit/zdict_experiments/gen_dict.py:77-88 | one group of the same-count pass keeps no entry inside another kept one and drops only entries inside a kept longer one |
| SubstringGroups.SameCountPass | vendor_edit/zdict_experiments/gen_dict.py:77-88 | every group is reduced on its own and no count is added or lost |
| SubstringGroups.WindowStep | vendor_edit/zdict_experiments/gen_dict.py:108-126 | one step only removes from the group at `idx`, and only entries contained in another entry of a group with a count no larger |
| SubstringGroups.Window | vendor_edit/zdict_experiments/gen_dict.py:110-114 | the window holds the group at `idx` and otherwise only entries of the groups of later (smaller) counts |
| SubstringGroups.SlidingWindowPass | vendor_edit/zdict_experiments/gen_dict.py:107-126 | the pass keeps every count, only removes entries, and removes only entries contained in another entry of a group whose count is no larger |
| SubstringGroups.SubGroupsDisjoint | vendor_edit/zdict_experiments/gen_dict.py:77-126 | groups cut down from the partition by count still file no substring under two counts |
| SubstringGroups.Flattened | vendor_edit/zdict_experiments/gen_dict.py:130-134 | `filtered_counts` holds exactly the substrings left in some group, each under that group's count |
| SubstringGroups.Rank | vendor_edit/zdict_experiments/gen_dict.py:136-143 | the two stable sorts list every substring once, by count largest first and within a count shortest first |
| Portmanteau.OverlapAtMost | vendor_edit/zdict_experiments/gen_dict.py:152-155 | the overlap found is the longest suffix, of at most `k` characters, that the dictionary starts with |
| Portmanteau.PrependedShape | vendor_edit/zdict_experiments/gen_dict.py:151-158 | after a step the dictionary starts with the whole substring and ends with the previous dictionary, its length grows by the substring less the overlap, and no longer proper overlap would do |
| Portmanteau.Used | vendor_edit/zdict_experiments/gen_dict.py:150-161 | the loop takes no more substrings than there are |
| Portmanteau.BuiltCovers | vendor_edit/zdict_experiments/gen_dict.py:148-161 | the dictionary contains every substring the loop took and ends with the dictionary it started from; the loop stops early only once the dictionary has passed 0x8000 characters |
| Portmanteau.BuildDictionary | vendor_edit/zdict_experiments/gen_dict.py:148-161 | the last loop, with the suffix search written out, computes `Built` from the empty dictionary |
| DictionaryBuilder.ReduceCounts | vendor_edit/zdict_experiments/gen_dict.py:48-134 | every substring left after both passes is one of the counted substrings, under its own count, and a substring is dropped only when another counted substring, no more common, contains it |
| DictionaryBuilder.FilteredCounts | vendor_edit/zdict_experiments/gen_dict.py:25-134 | every substring left was counted at least seven times, is kept under exactly that count, and occurs in an upper-cased part name before that name's last character; a frequent substring is dropped only when a no more common frequent substring contains it |
| DictionaryBuilder.GenerateDictionary | vendor_edit/zdict_experiments/gen_dict.py:25-161 | the script ranks the substrings left by count and length and builds the dictionary from them; the substrings left are frequent, and a frequent substring missing from them lies inside another frequent substring that is no more common |
| ReplacementLists.SlotIndex | vendor_edit/replacement_lists.py:99-129 | each basic slot sits at its index in the declaration order |
| ReplacementLists.Present | vendor_edit/replacement_lists.py:160-162 | the manufacturers kept are exactly the entries that are not `None` |
| ReplacementLists.PresentConcat | vendor_edit/replacement_lists.py:160-162 | filtering keeps the order of the entries |
| ReplacementLists.Without | vendor_edit/replacement_lists.py:194-198 | a part list keeps exactly the weighted parts other than the one equipped |
| ReplacementLists.WithoutConcat | vendor_edit/replacement_lists.py:194-198 | filtering keeps the order of the parts left |
| ReplacementLists.Levels | vendor_edit/replacement_lists.py:173-186 | the candidate levels are exactly the targets clamped to `[1, max_level]` that differ from the original level, so each is at least 1 and at most `max(1, max_level)` |
| ReplacementLists.NewWeaponReplacements | vendor_edit/replacement_lists.py:155-199 | the list keeps the weapon, the present manufacturers, the candidate levels of `Levels` for the owner's level, overpower levels, the weapon's grade and the level cap plus overpower modifier, and for each slot exactly the weighted parts other than the equipped one |
| ReplacementLists.CreateReplacementList | vendor_edit/replacement_lists.py:47-60 | a list is created exactly for an item whose class inherits `WillowWeapon`, and anything else raises |
| ReplacementLists.GetSlots | vendor_edit/replacement_lists.py:201-216 | the method builds `Slots`: the manufacturer and level slots first, then the basic slots with a list, appended in turn |
| ReplacementLists.SlotIndexOf | vendor_edit/replacement_lists.py:99-129 | the slot index inverts indexing into the declaration order |
| ReplacementLists.FilledSlotsMembers | vendor_edit/replacement_lists.py:210-214 | the basic slots offered are exactly those with a list, in declaration order |
| ReplacementLists.SlotsOffered | vendor_edit/replacement_lists.py:201-216 | the manufacturer is offered exactly when there are manufacturers, the level exactly when there are levels, each basic slot exactly when its list is non-empty, and nothing else |
| ReplacementLists.SlotsOrdered | vendor_edit/replacement_lists.py:201-216 | each slot offered ranks strictly below every later one: manufacturer, then level, then the basic slots in declaration order, none twice |
| ReplacementLists.RankIncreasingConcat | vendor_edit/replacement_lists.py:210 | two increasing runs, the first wholly below a bound and the second at or above it, make one increasing run |
| ReplacementLists.Copied | vendor_edit/replacement_lists.py:236-241 | the copy has the chosen field set to the value, every other field as before, and the game stage synced to the grade index |
| ReplacementLists.ValuesOf | vendor_edit/replacement_lists.py:235 | a field iterates over its list in order, or over the level set, each level once, in whatever order the set yields |
| ReplacementLists.ListLevels | vendor_edit/replacement_lists.py:235 | iterating the level set yields each level exactly once |
| ReplacementLists.CreateReplacementsForSlot | vendor_edit/replacement_lists.py:218-251 | a collected weapon and a slot that is not a weapon slot raise; otherwise one definition per value of the slot's list, each a copy with that value set and the game stage synced, and for the level slot one per level |
| ReplacementLists.LevelValuesCount | vendor_edit/replacement_lists.py:235 | a list of distinct levels holding every level of the set and nothing else is as long as the set |
| Packages.Engine.FindObject | vendor_edit/packages.py:23-24 | the lookup finds an object exactly when one is loaded under the path, and it is that object |
| Packages.Engine.ConstructObject | vendor_edit/packages.py:25-30 | constructing appends one record of the call and returns the new object, leaving the loaded objects alone |
| Packages.Package.PathName | vendor_edit/packages.py:33-37 | the path name ends with the package's name, and is that name for a root |
| Packages.Package.Unreal | vendor_edit/packages.py:19-31 | a cached object is returned with no engine call; otherwise the object found under the path name, or else one newly constructed under the outer package's object with flags 0x4000; either way it is then cached |
| Packages.PathNameJoinsNames | vendor_edit/packages.py:33-37 | the path name is the names from the root down, joined by dots |
| Packages.DeclarePackages | vendor_edit/packages.py:40-45 | the root and the four packages under it have the path names `vendor_edit`, `vendor_edit.inv_bal_def`, `vendor_edit.part`, `vendor_edit.part_collection` and `vendor_edit.prefix` |
| Packages.Package.constructor | vendor_edit/packages.py:12-45 | a new package keeps its name and outer package, has no cached object, and its outer chain is finite |
| Packages.Engine.constructor | vendor_edit/packages.py:23-30 | the engine starts with the given loaded objects and nothing constructed |
| TextModStates.SevenStates | text_mod_loader/anti_circular_import.py:39-45 | there are exactly seven states, all distinct |
| TextModStates.ToggleIsInvolution | text_mod_loader/anti_circular_import.py:24-27 | the toggle links exactly Enabled and DisableOnRestart, in both directions |
| TextModStates.DisabledExits | text_mod_loader/anti_circular_import.py:28-36 | Disabled leaves only for Enabled (mod enabled), LockedBadService (init with a wrong service), LockedHotfixes (another hotfix mod) or DeletedInactive |
| TextModStates.DeletionTargets | text_mod_loader/anti_circular_import.py:24-36 | deleting the file sends the active states to DeletedActive and the rest to DeletedInactive |
| TextModStates.DeletedAreFinal | text_mod_loader/anti_circular_import.py:24-36 | the deleted states have no outgoing transition |
| TextMods.TextMod.constructor | text_mod_loader/text_mod.py:98-105 | a new mod starts Disabled and `__post_init__` locks it when it uses a spark service and the flag it is given says a hotfix mod already ran, or when its service is not the hotfix service; as written that flag is the copy taken at import, which is always False |
| TextMods.InitialState | text_mod_loader/text_mod.py:98-105 | the state is kept or becomes one of the two locks, a lock only for a mod using a spark service, and such a mod is locked for hotfixes whenever a hotfix mod already ran |
| TextMods.CheckedState | text_mod_loader/text_mod.py:177-192 | an existing file keeps the state; a missing one becomes DeletedActive when the mod was active and DeletedInactive otherwise |
| TextMods.StatusLabel | text_mod_loader/text_mod.py:161-175 | no state is labelled Incompatible |
| TextMods.StaleFlagNeverLocksHotfixes | text_mod_loader/text_mod.py:13 | as written, with the copy of `any_hotfix_used` taken at import, no new mod is ever locked for hotfixes, even one using a spark service after a hotfix mod ran |
| TextMods.LiveFlagLocksHotfixes | text_mod_loader/text_mod.py:98-105 | reading the live flag, a new mod using a spark service after a hotfix mod ran is locked for hotfixes |
| TextMods.TextMod.CheckDeleted | text_mod_loader/text_mod.py:177-192 | the new state is `CheckedState` of the old one |
| TextMods.TextMod.Enable | text_mod_loader/text_mod.py:107-139 | after `check_deleted`, Disabled is executed with `exec "<path>"` and becomes Enabled, DisableOnRestart becomes Enabled without a command, Enabled does nothing, a locked or deleted mod shows one message box; auto-enable records the mod exactly when it newly became Enabled |
| TextMods.TextMod.Disable | text_mod_loader/text_mod.py:141-159 | after `check_deleted`, Enabled becomes DisableOnRestart and is dropped from auto-enable; every other state stays |
| TextMods.TextMod.GetStatus | text_mod_loader/text_mod.py:161-175 | the Incompatible label for a game the mod does not support, otherwise the label of its state |
| TextMods.DescriptionWarnsFirst | text_mod_loader/text_mod.py:36-45 | the description starts with the other-game warning exactly when the mod was made for a game other than the running one |
| TextMods.DescriptionNotesState | text_mod_loader/text_mod.py:47-70 | the description warns about a deleted file, notes a restart and explains a lock exactly in the matching states |
| TextMods.DescriptionEndsWithOwn | text_mod_loader/text_mod.py:72-75 | the description ends with the file's own description exactly when that is not empty |
| TextMods.CheckDeletedFollowsDiagram | text_mod_loader/text_mod.py:177-192 | `check_deleted` makes at most one documented transition, changes nothing while the file exists, keeps deleted states, and is idempotent |
| TextMods.EnableFollowsDiagram | text_mod_loader/text_mod.py:107-139 | with the file present, `enable` sends Disabled and DisableOnRestart to Enabled along a documented transition and changes no other state, so never a locked one |
| TextMods.DisableFollowsDiagram | text_mod_loader/text_mod.py:141-159 | `disable` changes only Enabled, to DisableOnRestart, along the toggle |
| TextMods.MissingFileDeletes | text_mod_loader/text_mod.py:177-192 | with the file missing, `enable` and `disable` end where `check_deleted` does, in the deleted state matching whether the mod was active |
| TextMods.InitFollowsDiagram | text_mod_loader/text_mod.py:98-105 | `__post_init__` moves a Disabled mod only along a documented transition, to a locked state, and exactly when it uses a spark service and a hotfix mod ran or the service is wrong |
| TextMods.EnablingLockedMeansStuck | text_mod_loader/text_mod.py:81-92 | `enabling_locked` holds exactly in the states from which `enable` cannot reach Enabled |
| TextMods.StatusLabelGroups | text_mod_loader/text_mod.py:165-175 | two states get the same label exactly when they are the same, both locked or both deleted, and no state gets the Incompatible label |
| Hotfixes.IsHotfixService | text_mod_loader/hotfixes.py:24-45 | index 0 is the hotfix service without a lookup, and an index with no configuration object is not |
| Hotfixes.HotfixServiceIgnoresCase | text_mod_loader/hotfixes.py:45 | any other index is the hotfix service exactly when its name is "micropatch" ignoring case |
| Hotfixes.HotfixLockFollowsDiagram | text_mod_loader/hotfixes.py:17-19 | locking follows the documented transition from Disabled to LockedHotfixes, and changes a state exactly when it is Disabled and the mod uses a spark service |
| Hotfixes.HotfixFlag.constructor | text_mod_loader/hotfixes.py:6 | the flag starts clear |
| Hotfixes.HotfixFlag.MarkHotfixesUsed | text_mod_loader/hotfixes.py:9-21 | every Disabled mod that uses a spark service becomes LockedHotfixes, every other mod keeps its state, and the flag is set |
| Loader.StripAll | text_mod_loader/loader.py:33 | every line is stripped, in order, nothing added or dropped |
| Loader.NonBlank | text_mod_loader/loader.py:34 | the non-blank lines are taken from the lines, and there are no more of them |
| Loader.TextsAreNonBlankLines | text_mod_loader/loader.py:30-44 | the texts `join_lines_markdown_like` yields are exactly the non-blank stripped lines, each once and in order |
| Loader.MarkdownWellSeparated | text_mod_loader/loader.py:30-44 | every space or newline directly follows a text, so separators never touch and the output never starts with one |
| Loader.BlankRunIsOneNewline | text_mod_loader/loader.py:39-42 | a run of blank lines after a text yields one newline, however long it is |
| Loader.LeadingBlanksVanish | text_mod_loader/loader.py:31-42 | blank lines at the start, or after another blank line, yield nothing |
| Loader.AdjacentLinesOneSpace | text_mod_loader/loader.py:34-38 | two adjacent non-blank lines are joined by exactly one space |
| Loader.NonBlankFirst | text_mod_loader/loader.py:34-38 | a non-blank line yields its text, after a space unless no separator is due, and asks for a space before the next text |
| Loader.BlankSeparatedOneNewline | text_mod_loader/loader.py:30-44 | two non-blank lines with blank lines between them are joined by exactly one newline |
| Loader.StrippedNoLeadingSpace | text_mod_loader/loader.py:33 | no stripped line starts with whitespace |
| Loader.JoinedStartsWithText | text_mod_loader/loader.py:18-44 | the joined text never starts with whitespace |
| Loader.JoinLinesMarkdownLike | text_mod_loader/loader.py:18-44 | the loop builds exactly the rendering of the generator's pieces over the stripped lines |
| Loader.JoinStripped | text_mod_loader/loader.py:30-44 | the loop over stripped lines builds exactly the rendering of the generator's pieces |
| Loader.JoinSentence | text_mod_loader/loader.py:47-69 | the sentence ends with the last entry |
| Loader.CommaJoinedThen | text_mod_loader/loader.py:60-67 | the entries joined by the loop, followed by one more, are `", ".join` of all of them |
| Loader.JoinSentenceIsJoin | text_mod_loader/loader.py:47-69 | up to two entries are `", ".join` of the entries; more are `", ".join` of all but the last and the connector followed by the last |
| Loader.JoinSentenceExamples | text_mod_loader/loader.py:51-67 | one entry is itself, two are "A, B", three are "A, B, and C" |
| Loader.Symbols | text_mod_loader/loader.py:99 | the symbols of an edge are exactly its non-alphanumeric characters, and no more than the edge holds |
| Loader.EdgeSymbols | text_mod_loader/loader.py:98-101 | an edge contributes its non-alphanumeric characters exactly when more than 0.8 of it are symbols |
| Loader.Firsts | text_mod_loader/loader.py:93 | the first characters of the lines, one per line, in order |
| Loader.Lasts | text_mod_loader/loader.py:94 | the last characters of the lines, one per line, in order |
| Loader.Edges | text_mod_loader/loader.py:90-95 | there are exactly four edges |
| Loader.EdgeCharactersMeaning | text_mod_loader/loader.py:72-103 | the result always holds the whitespace, is only the whitespace when every line is blank, otherwise adds exactly the symbols of the dense edges, and never holds a letter or digit |
| Loader.FindEdgeCharacters | text_mod_loader/loader.py:72-103 | the method returns the characters `EdgeCharacters` defines |
| Loader.AddEdgeSymbols | text_mod_loader/loader.py:90-103 | the loop over the four edges collects the whitespace plus every dense edge's symbols |
| Loader.StripChars | text_mod_loader/loader.py:145 | `str.strip(chars)` leaves no stripped character at either end, never grows the string, and leaves alone a string with none at its ends |
| Loader.StripEach | text_mod_loader/loader.py:145 | every line stripped of the characters, in order |
| Loader.Authors | text_mod_loader/loader.py:132-136 | there are no authors exactly when there is no main author and no author tag or an empty one |
| Loader.LoadModInfo | text_mod_loader/loader.py:106-159 | a parser failure gives the defaults; otherwise each field comes from its tag or its default, the author list is joined as a sentence, and the description is the markdown-like join of the description tag or of the untagged lines stripped of their edge characters |
| Loader.MetadataDefaults | text_mod_loader/loader.py:155-157 | with no tags the title is the file name, the version empty and the author list empty |
| Loader.TextModRegistry.constructor | text_mod_loader/anti_circular_import.py:14 | the registry starts empty |
| Loader.TextModRegistry.DropInactive | text_mod_loader/loader.py:164-181 | every mod runs `check_deleted`; exactly the mods left active stay, unchanged |
| Loader.TextModRegistry.AddNewMods | text_mod_loader/loader.py:183-209 | the loaded mods stay; exactly the files not loaded yet and not asking to be ignored get a fresh mod built from their metadata and the hotfix flag the module sees |
| Loader.LoadAllTextMods | text_mod_loader/loader.py:162-209 | after a reload the registry holds exactly the mods left active, unchanged, and a fresh mod for every new file not asking to be ignored, built with the hotfix flag the module sees |
| Settings.RemoveFirst | text_mod_loader/settings.py:88-89 | `list.remove` drops exactly one occurrence, or nothing when there is none |
| Settings.OtherPaths | text_mod_loader/settings.py:87-92 | the entries other than the path, and no others |
| Settings.RemoveFirstOfSingle | text_mod_loader/settings.py:88-89 | for a path listed at most once, removing its first occurrence removes it entirely |
| Settings.AutoEnableUpdatedCount | text_mod_loader/settings.py:85-92 | afterwards the path is listed once, at the end, when enabling, and not at all when disabling |
| Settings.AutoEnableKeepsOthers | text_mod_loader/settings.py:87-92 | the other entries keep their relative order |
| Settings.Stored | text_mod_loader/settings.py:160-169 | the stored dictionary always has a `recommended_game` key |
| Settings.ReadCachedAsWritten | text_mod_loader/settings.py:116-149 | a missing `recommended_game` key is exactly what raises, and a cached answer is never older than the file |
| Settings.ReadCached | text_mod_loader/settings.py:116-149 | the corrected read gives the same answer as the written one |
| Settings.CachedRoundTrip | text_mod_loader/settings.py:116-169 | what `update_cached_mod_info` stores is read back unchanged for an unmodified file and a known game |
| Settings.CachedReadTrusted | text_mod_loader/settings.py:145-147 | a cached entry is rejected exactly when the file is newer than its cached time, 0 when missing |
| Settings.SecondReadLosesGame | text_mod_loader/settings.py:129 | as written, the first read returns the stored info but the second read of the same entry has lost the recommended game |
| Settings.SettingsState.constructor | text_mod_loader/settings.py:30-42 | the defaults: nothing auto-enabled, nothing cached, version 0, no suppression |
| Settings.SettingsState.SanitizeSettings | text_mod_loader/settings.py:45-71 | the version becomes current; a version change empties the cache, otherwise the cache is re-keyed by the resolved paths of the files that still exist, the last entry for a path winning (`Rekeyed`); the auto-enable list keeps only existing files, resolved, in order |
| Settings.Rekeyed | text_mod_loader/settings.py:64-68 | the re-keyed cache holds exactly the resolved paths of the existing files |
| Settings.RekeyedLastWins | text_mod_loader/settings.py:64-68 | a resolved path maps to the entry of the last existing file that resolves to it, as a dict comprehension keeps the last value written |
| Settings.RekeyedValueFrom | text_mod_loader/settings.py:64-68 | every entry of the re-keyed cache is the entry of some existing file resolving to its key |
| Settings.RekeyedResolvedKeys | text_mod_loader/settings.py:64-68 | when every path already resolves to itself, re-keying only drops the files that no longer exist |
| Settings.SettingsState.ChangeModAutoEnable | text_mod_loader/settings.py:74-94 | nothing changes while suppressed; otherwise the path moves to the end or is removed |
| Settings.SettingsState.BeginSuppress | text_mod_loader/settings.py:100-101 | the counter goes up by one and nothing else changes |
| Settings.SettingsState.EndSuppress | text_mod_loader/settings.py:102-103 | the counter goes back down only when the body returned normally |
| Settings.SettingsState.GetCachedModInfo | text_mod_loader/settings.py:116-149 | an uncached path gives `None`; a cached one gives the written read's answer and stores back the converted dictionary |
| Settings.SettingsState.UpdateCachedModInfo | text_mod_loader/settings.py:152-171 | exactly the path's entry is replaced by the stored form of the info |
| Settings.ExistingResolved | text_mod_loader/settings.py:59-63 | the list holds exactly the resolved paths of the files that exist, and is never longer |
| FileParser.FormatOf | text_mod_loader/file_parser/main.cpp:84-96 | a first line starting with "<BLCMM" selects the BLCMM scanner, one starting with "#<" the FilterTool scanner, anything else (an empty stream included) the line-by-line scanner |
| FileParser.DigitRun | text_mod_loader/file_parser/main.cpp:61-62 | the run of digits from the position is as long as it can be |
| FileParser.FromChars | text_mod_loader/file_parser/main.cpp:60-65 | `from_chars` succeeds only on a digit and with a value that fits a `size_t`, and fails on any non-digit |
| FileParser.SparkCandidate | text_mod_loader/file_parser/main.cpp:47-58 | a candidate line holds the spark prefix, up to case, where the scan says it starts |
| FileParser.SparkIndex | text_mod_loader/file_parser/main.cpp:36-73 | the corrected reading names an index only on a line that holds "set", the prefix after it and "Keys" or "Values" after the prefix |
| FileParser.AsWrittenNeverParses | text_mod_loader/file_parser/main.cpp:61-65 | as written, no line ever names an index, because the number is read at the prefix's 'T' |
| FileParser.SparkServiceExample | text_mod_loader/file_parser/main.cpp:38-73 | the hotfix line for service `d` names index `d` when the number is read after the prefix, and nothing as written |
| FileParser.SparkIndices | text_mod_loader/file_parser/main.cpp:37 | the index each line names, one per line, in order |
| FileParser.LastNamedWins | text_mod_loader/file_parser/main.cpp:37-73 | the last index named overwrites every earlier one |
| FileParser.NothingNamedKeeps | text_mod_loader/file_parser/main.cpp:37-73 | with nothing named, the index is left as found |
| FileParser.LastLineWins | text_mod_loader/file_parser/main.cpp:36-74 | the last line naming an index decides the result |
| FileParser.NoIndexKeeps | text_mod_loader/file_parser/main.cpp:36-74 | with no line naming an index, the result keeps the index it started with |
| FileParser.LookForSparkService | text_mod_loader/file_parser/main.cpp:36-74 | the scan leaves the index the last naming line gives, and changes nothing else |
| FileParser.SparkIndicesAsWritten | text_mod_loader/file_parser/main.cpp:37 | the index each line names as written, one per line, in order |
| FileParser.AsWrittenScanKeeps | text_mod_loader/file_parser/main.cpp:36-74 | as written, the scan never changes the index, whatever the lines |
| FileParser.LookForSparkServiceAsWritten | text_mod_loader/file_parser/main.cpp:36-74 | the scan as written leaves the index its as-written reading gives, and changes nothing else |
| FileParser.AddLines | text_mod_loader/file_parser/main.cpp:93 | the FilterTool comments are added in order as strings, and nothing else changes |
| FileParser.StdStrings | text_mod_loader/file_parser/filtertool_parser.cpp:39 | each comment passed as a string, in order |
| FileParser.Parse | text_mod_loader/file_parser/main.cpp:83-101 | the corrected parse: the first line selects the scanner; a BLCMM file fails exactly on a preprocessor error, a version other than "1" or a missing root, and otherwise yields the walk's comments and the type name as game; a FilterTool file yields the comments after its description header up to the stopping line; the line scanner yields the comment lines before the first command; the spark scan then reads the rest of the stream from the start of the stopping line and records the last index named |
| FileParser.ScanDescription | text_mod_loader/file_parser/main.cpp:83-96 | the scan selected by the first line: its result, where it leaves the stream and the comments it adds, as for `Parse`, with no spark service index yet |
| FileParser.ParseAsWritten | text_mod_loader/file_parser/main.cpp:83-101 | as written the same scan results, and the spark scan, which never parses a digit, leaves no index |
| FileParser.SparkIndexAsWritten | text_mod_loader/file_parser/main.cpp:47-65 | as written a line yields an index only when the candidate position holds a digit, and there it holds the `T` of the prefix |
| LineParser.FirstNotHash | text_mod_loader/file_parser/line_parser.cpp:12 | the first character that is not '#', or none when the line is all '#' |
| LineParser.HashComment | text_mod_loader/file_parser/line_parser.cpp:11-19 | the corrected comment text is a proper suffix of the line, and starts with a space only when that space did not directly follow the '#'s |
| LineParser.HashOnlyLineReadsPastEnd | text_mod_loader/file_parser/line_parser.cpp:12-13 | the written and corrected readings agree wherever the written one is defined, and it is undefined exactly on lines of '#' alone |
| LineParser.LineArgs | text_mod_loader/file_parser/line_parser.cpp:19-28 | the comment argument of each line, one per line, in order |
| LineParser.SeekBack | text_mod_loader/file_parser/line_parser.cpp:33-34 | the stream is left at the start of the stopping line |
| LineParser.SeekBackLosesFirstCharacter | text_mod_loader/file_parser/line_parser.cpp:34 | seeking back by the line's length drops the first character of the stopping line and nothing else |
| LineParser.ParseFileLineByLine | text_mod_loader/file_parser/line_parser.cpp:8-37 | every line before the first command is added as a comment in order, the scan stops at that command, and nothing else changes |
| LineParser.AddLineComment | text_mod_loader/file_parser/line_parser.cpp:11-29 | a '#' line is added through the buffer overload, any other line whole |
| BlcmParser.CategoryWalk | text_mod_loader/file_parser/blcm_parser.cpp:57-70 | a description category adds only comments, none of them a command, and no more than it has children |
| BlcmParser.RootWalk | text_mod_loader/file_parser/blcm_parser.cpp:29-75 | the walk never adds a comment holding a command |
| BlcmParser.DiscardIsLast | text_mod_loader/file_parser/blcm_parser.cpp:44-74 | the walk discards at most once, and only right before the description category's comments |
| BlcmParser.DiscardForgetsEarlier | text_mod_loader/file_parser/blcm_parser.cpp:55 | after a discard only the later comments count |
| BlcmParser.AddCategoryComments | text_mod_loader/file_parser/blcm_parser.cpp:57-70 | the comments become those of the description category's walk, and nothing else changes |
| BlcmParser.ExtractDescription | text_mod_loader/file_parser/blcm_parser.cpp:18-76 | a wrong version and a missing root are the two errors and leave the comments alone; otherwise the comments become the walk's |
| BlcmParser.ParseBlcmmFile | text_mod_loader/file_parser/blcm_parser.cpp:80-101 | a reader error changes nothing; the game is set from a non-empty type name before the walk, so also when the walk then fails |
| FiltertoolParser.TrimEnd | text_mod_loader/file_parser/filtertool_parser.cpp:18-19 | the text without trailing whitespace is a prefix, ends in a non-space, and only whitespace was cut |
| FiltertoolParser.KindOf | text_mod_loader/file_parser/filtertool_parser.cpp:23-47 | a line is a comment exactly when it is neither a header nor a command, and starts the description exactly when it is the first description header |
| FiltertoolParser.ParseFiltertoolFile | text_mod_loader/file_parser/filtertool_parser.cpp:7-51 | the first line is skipped; the comments are the untrimmed lines after the first description header, or after the first line, up to the command or header that stops the scan; the trimmed view is the corrected one, defined on lines of whitespace only |
| FiltertoolParser.Trimmed | text_mod_loader/file_parser/filtertool_parser.cpp:16-21 | the corrected trimmed view ends in non-spaces on both sides, and is empty exactly for a line of whitespace only |
| FiltertoolParser.EndOfNonSpace | text_mod_loader/file_parser/filtertool_parser.cpp:18-21 | the reverse search ends one past the last non-space character, with only whitespace after it, or at the start when there is none |
| FiltertoolParser.BlankLineInvertsView | text_mod_loader/file_parser/filtertool_parser.cpp:16-21 | the written view is defined and equal to the trimmed line exactly when the line is empty or holds a non-space; a line of whitespace only, such as " ", gives an inverted range |
| ParseResults.FindFirst | text_mod_loader/file_parser/parse_result.cpp:24-54 | `find_first_of` finds the first occurrence, or reports none when there is none |
| ParseResults.UpToNul | text_mod_loader/file_parser/parse_result.cpp:14-42 | a C string reader sees the buffer up to its first NUL, all of it when there is none |
| ParseResults.TagSplitRoundTrip | text_mod_loader/file_parser/parse_result.cpp:54-62 | tag and value put back together give the comment, and the tag holds no space |
| ParseResults.Appended | text_mod_loader/file_parser/parse_result.cpp:68-73 | the tag's list gets the value at its end, created on first use, and every other tag is unchanged |
| ParseResults.WithComment | text_mod_loader/file_parser/parse_result.cpp:44-74 | an empty comment changes nothing, one not starting with '@' is added whole to the untagged lines, and the untagged lines grow by at most that comment |
| ParseResults.OverloadsAgree | text_mod_loader/file_parser/parse_result.cpp:13-74 | the buffer overload adds exactly what the string overload adds for the text up to the first NUL |
| ParseResults.TaggedCommentAppends | text_mod_loader/file_parser/parse_result.cpp:54-73 | a well-formed tag appends its value to the lower-cased tag's list and changes nothing else; a malformed one changes nothing |
| ParseResults.ValuesNeverLost | text_mod_loader/file_parser/parse_result.cpp:37-73 | every tag's earlier values are a prefix of its new list, and a new tag has a value |
| ParseResults.TagListsStayNonEmpty | text_mod_loader/file_parser/parse_result.cpp:37-73 | neither overload leaves a tag with no value |
| ParseResults.TagListsNonEmptyAfterArgs | text_mod_loader/file_parser/parse_result.cpp:13-74 | no run of comments leaves a tag with no value, so `[0]` of a tag's list is always defined |
| ParseResults.WithArgsConcat | text_mod_loader/file_parser/parse_result.cpp:13-74 | adding two runs of comments is adding their concatenation |
| ParseResults.PlainLinesInOrder | text_mod_loader/file_parser/parse_result.cpp:49-51 | plain lines become the untagged lines, unchanged and in order |
| ParseResults.ParseResult.constructor | text_mod_loader/file_parser/parse_result.h:18-23 | a new result has no tags, no untagged lines, no game and no index |
| ParseResults.ParseResult.DiscardComments | text_mod_loader/file_parser/parse_result.cpp:8-11 | both comment fields are emptied, and the game and index kept |
| ParseResults.ParseResult.AddComment | text_mod_loader/file_parser/parse_result.cpp:44-74 | the comments become `WithComment` of the old ones, and nothing else changes |
| ParseResults.ParseResult.AddCommentBuffer | text_mod_loader/file_parser/parse_result.cpp:13-43 | the comments become `WithCommentBuffer` of the old ones, and nothing else changes |
| ParseResults.ParseResult.AddArg | text_mod_loader/file_parser/parse_result.h:35-36 | the argument goes to the matching overload, and nothing else changes |
| ParserUtil.LexCompare | text_mod_loader/file_parser/util.cpp:14-26 | the comparison answers -1, 0 or 1 |
| ParserUtil.LexCompareProperties | text_mod_loader/file_parser/util.cpp:14-26 | the comparison is 0 exactly on equal texts and changes sign when its arguments swap |
| ParserUtil.Compare | text_mod_loader/file_parser/util.cpp:14-26 | the loop answers the lexicographic comparison of the lower-cased first `n` characters |
| ParserUtil.CompareIsCaseInsensitiveEquality | text_mod_loader/file_parser/util.cpp:8-26 | `compare` is 0 exactly when the first `n` characters agree up to case |
| ParserUtil.CiFind | text_mod_loader/file_parser/main.cpp:48-68 | `find` on a case-insensitive view gives the first match at or after the start, or none when there is none |
| ParserUtil.FirstNonSpace | text_mod_loader/file_parser/util.cpp:51 | the first non-space character, or the end |
| ParserUtil.FirstSpace | text_mod_loader/file_parser/util.cpp:62 | the first space character, or the end |
| ParserUtil.IsCommand | text_mod_loader/file_parser/util.cpp:50-65 | blank text is never a command |
| ParserUtil.LeadingSpaceIgnored | text_mod_loader/file_parser/util.cpp:51 | leading whitespace does not change whether a line is a command |
| ParserUtil.SparkPrefixIsCommand | text_mod_loader/file_parser/util.cpp:56-60 | with spark allowed, text starting with "spark" after whitespace is a command, word boundary or not |
| ParserUtil.FirstWordDecides | text_mod_loader/file_parser/util.cpp:62-64 | otherwise a line is a command exactly when its first word is say, exec or set, up to case |
| ParserUtil.SettingsIsNotCommand | text_mod_loader/file_parser/util.cpp:62-64 | "settings" is not a command: the first word must match whole |
| CorpusRecords.SlotTables | vendor_edit/zdict_experiments/constructor_to_replacements.py:9-45 | both slot tables put their fourteen slots on bits 15 down to 1, skipping 12, strictly descending |
| CorpusRecords.VanillaParts | vendor_edit/zdict_experiments/constructor_to_replacements.py:48-58 | the vanilla parts are exactly the listed parts and "None" |
| CorpusRecords.SplitJoined | vendor_edit/zdict_experiments/constructor_to_replacements.py:71 | names free of NUL, each written with a NUL after it, split back into the same names |
| CorpusRecords.BitmapBits | vendor_edit/zdict_experiments/constructor_to_replacements.py:66-70 | bit `k` of the bitmap is set exactly when a non-vanilla part sits in a slot on bit `k` |
| CorpusRecords.BitmapZero | vendor_edit/zdict_experiments/constructor_to_replacements.py:66-74 | the bitmap is zero exactly when every part is vanilla |
| CorpusRecords.BitmapBound | vendor_edit/zdict_experiments/constructor_to_replacements.py:70-79 | with every slot on a bit below 16, the bitmap fits the record's unsigned 16-bit field |
| CorpusRecords.RecordContents | vendor_edit/zdict_experiments/constructor_to_replacements.py:63-80 | a record exists exactly when some part is not vanilla; its length field counts the bitmap and payload, its bitmap has the bits of the replaced slots, and its payload splits back into their upper-cased names in slot order |
| CorpusRecords.ReadFlatten | vendor_edit/zdict_experiments/constructor_to_replacements.py:79-80 | a file of records read back by their length fields gives the same records |
| CorpusRecords.CorpusCounts | vendor_edit/zdict_experiments/constructor_to_replacements.py:60-80 | every record written is well framed, and `total_items` counts exactly the records while nothing raised, one more after the payload too long to frame |
| CorpusRecords.AppendedConcat | vendor_edit/zdict_experiments/constructor_to_replacements.py:86-94 | writing two runs of items one after the other is writing them all |
| CorpusRecords.AppendedRaised | vendor_edit/zdict_experiments/constructor_to_replacements.py:79 | once the script raised, later items change nothing |
| CorpusRecords.RaisedStays | vendor_edit/zdict_experiments/constructor_to_replacements.py:79 | a corpus that has raised stays as it is |
| CorpusRecords.EntriesWritable | vendor_edit/zdict_experiments/constructor_to_replacements.py:67 | items that have every slot of a table can all be written with it |
| CorpusRecords.SaveEntries | vendor_edit/zdict_experiments/constructor_to_replacements.py:87-94 | a save file whose weapons and items have their slots gives entries that can all be written |
| CorpusRecords.CorpusWriter.constructor | vendor_edit/zdict_experiments/constructor_to_replacements.py:60-86 | the file starts empty and `total_items` at 0 |
| CorpusRecords.CorpusWriter.AppendReplacements | vendor_edit/zdict_experiments/constructor_to_replacements.py:63-80 | an all-vanilla item changes nothing; otherwise the counter goes up and the record is appended, or nothing is written when its length overflows |
| CorpusRecords.CorpusWriter.AppendAll | vendor_edit/zdict_experiments/constructor_to_replacements.py:87-94 | one loop writes exactly the records the entries give, in order, and ends with the matching counter |
| CorpusRecords.WriteSaveFile | vendor_edit/zdict_experiments/constructor_to_replacements.py:83-96 | the script's file holds the records of the whole save file, equipped and stored weapons then equipped and stored items, and its counter matches |
| EquipOptions.VisibleMapSpec | equip_locker/restrictions/allegiance.py:48-51 | a key is in a comprehension map exactly when a visible option has it, and maps to the last such option |
| EquipOptions.SoleOwner | equip_locker/restrictions/rarity.py:59 | when exactly one visible option has a key, the map holds that option under it |
| EquipOptions.NoOwner | equip_locker/restrictions/weap_item_type.py:64-73 | when no visible option has a key, the map does not hold it |
| Allegiance.RefusedOnlyByVisibleOption | equip_locker/restrictions/allegiance.py:81-101 | a refused item has a manufacturer whose label a visible option holds, no override let it through, and some visible manufacturer is set to Not Allowed |
| Allegiance.AllVisibleAllowedAcceptsAll | equip_locker/restrictions/allegiance.py:48-101 | with every visible manufacturer allowed nothing is refused, whatever hidden options say |
| Allegiance.RelicJudgedByBoostedManufacturer | equip_locker/restrictions/allegiance.py:96-99 | with allegiance relics allowed, a relic is judged by the visible manufacturer it boosts |
| Allegiance.DefaultsAcceptEverything | equip_locker/restrictions/allegiance.py:53-101 | with the options at their defaults every item may be equipped |
| Allegiance.SharedFlashLabel | equip_locker/restrictions/allegiance.py:29-48 | the shared label `s_and_s` belongs to Bandit in BL2, to Scav in TPS and to nobody in AoDK |
| Rarities.RefusedOnlyByOwnRarityOption | equip_locker/restrictions/rarity.py:64-73 | an item is refused only by the visible option of its own rarity set to Not Allowed |
| Rarities.SeraphOwner | equip_locker/restrictions/rarity.py:45-59 | Seraph's rarity belongs to Glitch in TPS and to Seraph elsewhere, and Rainbow exists outside TPS only |
| WeaponItemTypes.RefusedOnlyByOwnTypeOption | equip_locker/restrictions/weap_item_type.py:76-86 | a weapon is refused only by the visible option of its weapon type, any other item only by the visible option of its class, set to Not Allowed |
| WeaponItemTypes.ArtifactClassOwner | equip_locker/restrictions/weap_item_type.py:66-73 | the artifact class belongs to Oz Kits in TPS and to Relics elsewhere |
| WeaponItemTypes.LasersOnlyInTps | equip_locker/restrictions/weap_item_type.py:55-64 | weapon type 6 has an option exactly in TPS |
| EquipLocker.BuildOptions | equip_locker/__init__.py:25-49 | each restriction, in order, contributes its enable switch and then its nested menu, and is paired with its switch |
| EquipLocker.ConsultedSpec | equip_locker/__init__.py:52-66 | only enabled restrictions are asked, every one asked before the last accepted, and the item is refused exactly when the last one asked refused |
| EquipLocker.CanItemBeEquipped | equip_locker/__init__.py:52-66 | the loop answers true exactly when every enabled restriction accepts, and asks exactly the restrictions up to the first refusal |
| EquipLocker.CanBeUsedByNarrows | equip_locker/__init__.py:91-131 | for the local pawn the hook narrows the engine's answer to equippable items; other pawns are untouched |
| EquipLocker.DivertedOnlyWhenRefused | equip_locker/__init__.py:69-88 | a pickup is added unreadied exactly for the local pawn, an item it may not equip and a present inventory manager, so only for an item `CanBeUsedBy` also refuses |
| EquipLocker.WalkChain | equip_locker/__init__.py:146-148 | following a chain to its end visits exactly its items, in order |
| EquipLocker.GetEquippedItems | equip_locker/__init__.py:134-148 | nothing without a pawn, else the weapon chain and then the item chain |
| EquipLocker.RestrictedMembers | equip_locker/__init__.py:157-159 | an item is unreadied exactly when it is equipped and refused |
| EquipLocker.UnequipRestrictedItems | equip_locker/__init__.py:151-159 | exactly the equipped items `CanBeUsedBy` refuses are unreadied, in order |
| EquipLocker.UnreadyRefused | equip_locker/__init__.py:157-159 | the loop unreadies exactly the refused items, in order |
| EquipLocker.UnequipTakesOffRestricted | equip_locker/__init__.py:91-159 | with the hook in place the unequip pass takes off exactly the equipped items an enabled restriction refuses or the engine refuses |
| AltUseVendors.ShopTypesAreTheKeys | alt_use_vendors/shop_info.py:208-232 | the shop types with a secondary use are exactly the keys of the map, the black market not among them |
| AltUseVendors.VendorTracker.constructor | alt_use_vendors/__init__.py:157 | both maps start empty |
| AltUseVendors.VendorTracker.CreateIcons | alt_use_vendors/__init__.py:36-69 | a map that has icons is left alone; otherwise every shop type with a secondary use gets the icon of its name, constructed exactly when none exists |
| AltUseVendors.VendorTracker.UpdateVendorCosts | alt_use_vendors/__init__.py:210-232 | nothing for a controller with no vendors; a `KeyError` exactly for a shop type with no secondary use; otherwise one cost update per nearby vendor of that type and none for any other |
| AltUseVendors.VendorTracker.UpdateEach | alt_use_vendors/__init__.py:223-232 | the loop updates each nearby vendor of the type once, with its cost, and no other vendor |
| AltUseVendors.VendorTracker.Touch | alt_use_vendors/__init__.py:161-178 | a player pawn near a vending machine adds the machine to its controller's set and updates that controller's costs for the machine's type; anything else changes nothing |
| AltUseVendors.VendorTracker.UnTouch | alt_use_vendors/__init__.py:182-201 | a player pawn leaving a machine drops it from its controller's set, and the entry goes once the set is empty |
| AltUseVendors.VendorTracker.ShowLoadingMovie | alt_use_vendors/__init__.py:205-207 | loading a level forgets every vendor and keeps the icons |
| AltUseVendors.VendorTracker.PerformedSecondaryUseAction | alt_use_vendors/__init__.py:104-148 | the hook decides as `SecondaryUseOutcome` with the shop's cost, and after a purchase updates the costs of the nearby vendors of that type, with the cost function read after the purchase |
| AltUseVendors.SecondaryUseOutcome | alt_use_vendors/__init__.py:110-138 | a refusal happens only for a zero cost or a wallet short of it; a purchase only for a non-zero affordable cost, and the wallet is kept or loses exactly the cost |
| AltUseVendors.SecondaryUseGate | alt_use_vendors/__init__.py:110-138 | the hook acts exactly for an authority controller at a vending machine with a secondary icon and use; it refuses exactly free purchases and those the wallet cannot cover; a purchase takes exactly the cost except at the weapon vendor, and never makes a non-negative wallet negative |
| CyclableOptions.CyclePrefix | apples_borderlands_cheats/cheats/__init__.py:21 | "Cycle " exactly for more than two choices, "Toggle " otherwise |
| CyclableOptions.KeybindFor | apples_borderlands_cheats/cheats/__init__.py:21-29 | the keybind's name, display name and title are the prefix followed by the option's own |
| CyclableOptions.FirstIndex | apples_borderlands_cheats/cheats/__init__.py:31 | `list.index` finds the first position holding the value |
| CyclableOptions.NextChoice | apples_borderlands_cheats/cheats/__init__.py:31-33 | one cycle keeps the value among the choices |
| CyclableOptions.FirstIndexOfDistinct | apples_borderlands_cheats/cheats/__init__.py:31 | with distinct choices, each choice is found at its own position |
| CyclableOptions.NextChoiceSteps | apples_borderlands_cheats/cheats/__init__.py:31-33 | a cycle steps to the next choice, and from the last back to the first |
| CyclableOptions.CycledSplit | apples_borderlands_cheats/cheats/__init__.py:30-38 | any number of cycles stays among the choices, and cycles add up |
| CyclableOptions.CycledForward | apples_borderlands_cheats/cheats/__init__.py:31-33 | without reaching the end, `k` cycles move `k` positions forward |
| CyclableOptions.FullCycleReturns | apples_borderlands_cheats/cheats/__init__.py:30-38 | with distinct choices, as many cycles as there are choices bring the value back |
| CyclableOptions.CycledThroughLast | apples_borderlands_cheats/cheats/__init__.py:31-33 | from position `i`, a full round is the cycles to the last position and `i + 1` more |
| CyclableOptions.CycledFromLast | apples_borderlands_cheats/cheats/__init__.py:31-33 | from the last position, `i + 1` cycles wrap to the first and reach position `i` |
| CyclableOptions.RepeatedChoiceCycleIsShorter | apples_borderlands_cheats/cheats/__init__.py:31 | with a repeated choice, a full round need not come back |
| CyclableOptions.CyclableOption.constructor | apples_borderlands_cheats/cheats/__init__.py:13-43 | the option keeps its fields and gets the keybind its choice count calls for |
| CyclableOptions.CyclableOption.OnCycle | apples_borderlands_cheats/cheats/__init__.py:30-38 | a value not among the choices raises and changes nothing; otherwise the value moves to the next choice and the message names it |
| TpTravels.TravelNamesMembers | apples_borderlands_cheats/cheats/tp_travels.py:24-28 | the list holds exactly the names of the stations that have a travel definition, and no more entries than stations |
| TpTravels.PyIndex | apples_borderlands_cheats/cheats/tp_travels.py:31 | Python indexing succeeds exactly from `-len` to `len - 1`, counting negative indices from the end |
| TpTravels.Advance | apples_borderlands_cheats/cheats/tp_travels.py:36-40 | an empty list does nothing; otherwise the cursor moves to the next name, wrapping after the last, and teleports there |
| TpTravels.EmptyWorldBreaksKeybind | apples_borderlands_cheats/cheats/tp_travels.py:31-37 | as written, a press in a world with no stations leaves an empty list, and every later press raises and changes nothing |
| TpTravels.CorrectedNeverRaises | apples_borderlands_cheats/cheats/tp_travels.py:20-40 | the corrected press never raises, keeps the cursor consistent, and teleports exactly when its list is not empty |
| TpTravels.CorrectedAgreesWhenNoRaise | apples_borderlands_cheats/cheats/tp_travels.py:20-40 | from any consistent state where the written press does not raise, the corrected one does the same |
| TpTravels.CorrectedCursor | apples_borderlands_cheats/cheats/tp_travels.py:31-40 | a change of world restarts at the first station; staying moves to the next, wrapping after the last |
| TpTravels.TPFastTravel.constructor | apples_borderlands_cheats/cheats/tp_travels.py:12-13 | the cursor starts at 0 over the placeholder "DUMMY" |
| TpTravels.TPFastTravel.CurrentTravels | apples_borderlands_cheats/cheats/tp_travels.py:24-28 | the loop collects exactly the names of the stations with a travel definition, in order |
| TpTravels.TPFastTravel.TpNextAsWritten | apples_borderlands_cheats/cheats/tp_travels.py:20-40 | the new cursor and result are those of the written press |
| TpTravels.TPFastTravel.TpNext | apples_borderlands_cheats/cheats/tp_travels.py:20-40 | the new cursor and result are those of the corrected press, which never raises and keeps the cursor consistent |
| Pyb.FirstNewline | command_extensions/builtins/pyb.py:52 | the position of the first newline |
| Pyb.SplitJoin | command_extensions/builtins/pyb.py:52 | lines without newlines, joined by newlines, split back into the same lines |
| Pyb.InfoLines | command_extensions/builtins/pyb.py:48-50 | `--print` logs each buffered line, in order |
| Pyb.ErrorReport | command_extensions/builtins/pyb.py:56-60 | a failing program logs the header and the program, and a rule of 80 `=` only for more than one line |
| Pyb.FlagsAppendNothing | command_extensions/builtins/pyb.py:63-69 | a flag never buffers anything; without one exactly the first argument is appended |
| Pyb.BufferedThenExecuted | command_extensions/builtins/pyb.py:51-69 | plain commands buffer their lines in order, and `--exec` then runs a program of exactly those lines and empties the buffer |
| Pyb.SpaceRun | command_extensions/builtins/pyb.py:19 | the run of leading whitespace is as long as it can be |
| Pyb.SpaceKeepsOptionalArg | command_extensions/builtins/pyb.py:19 | a leading space does not change whether the line starts with an optional argument |
| Pyb.OneSpaceConsumed | command_extensions/builtins/pyb.py:72-89 | code not starting with an optional argument comes back as one argument, verbatim, after the one space after the command |
| Pyb.ThreeSpacesExample | command_extensions/builtins/pyb.py:86-89 | three spaces then `abc` give two spaces then `abc` |
| Pyb.LineCache.constructor | command_extensions/builtins/pyb.py:29-30 | a buffer starts empty |
| Pyb.LineCache.RunPyb | command_extensions/builtins/pyb.py:33-69 | the log, the program run and the new buffer are those the flags call for, and taking the missing first argument is what raises |
| EnemyLevels.RandRange | enemy_level_randomizer/__init__.py:48 | `randrange` draws within the range, and raises exactly for an empty one |
| EnemyLevels.RandRangeCovers | enemy_level_randomizer/__init__.py:48 | every value of the range is drawn for some roll |
| EnemyLevels.LevelRangeBounds | enemy_level_randomizer/__init__.py:44-46 | the range is never below 0, reaches at most the decrease under and exactly the increase over the offset stage, and is never empty for slider values |
| EnemyLevels.HookReplacesWithinRange | enemy_level_randomizer/__init__.py:34-52 | player pawns are left alone; every other pawn gets one call with a level in the range |
| EnemyLevels.EveryLevelReachable | enemy_level_randomizer/__init__.py:44-51 | every level of the range can come up |
| EnemyLevels.DefaultRanges | enemy_level_randomizer/__init__.py:8-46 | with the default sliders stage 10 lands between 5 and 15, and stage 2 between 0 and 7 |
| EnemyLevels.NegativeDecreaseRaises | enemy_level_randomizer/__init__.py:44-48 | outside the slider values the range can be empty, and the hook then raises |
| Bytes.XorAllOnes | vendor_edit/item_codes.py:533 | `~h & 0xFFFFFFFF` is `0xFFFFFFFF - h` for a 32-bit `h` |
| GearboxCrc.Crc | vendor_edit/item_codes.py:520-533 | the complemented result is the table fold started at 0xFFFFFFFF over the buffer padded to 40 bytes with 0xFF |
| SerialCipher.Decoded | vendor_edit/item_codes.py:483-504 | decoding keeps the length and the first byte, and a zero initial key changes nothing |
| SerialCipher.Encrypted | vendor_edit/item_codes.py:483-504 | the encryption the decoder undoes keeps the first byte, stores the key word big-endian in bytes 1 to 4 and adds five bytes |
| Allegiance.CanBeEquipped | equip_locker/restrictions/allegiance.py:81-101 | an item with no manufacturer, and any item when every allegiance is allowed, may be equipped |
| Rarities.CanBeEquipped | equip_locker/restrictions/rarity.py:64-73 | any item when every rarity is allowed, and an item whose rarity is not in the map, may be equipped |
| WeaponItemTypes.CanBeEquipped | equip_locker/restrictions/weap_item_type.py:76-86 | any item when every type is allowed, and a weapon with no type definition, may be equipped |
| EquipLocker.ImportedRestriction | equip_locker/__init__.py:19-21 | importing a name gives the restriction defined under it, and nothing for a name no module defines |
| EquipLocker.ImportRestrictions | equip_locker/__init__.py:19-33 | the import fails exactly when some name is not defined; otherwise it gives one restriction per name, each defined under that name |
| EquipLocker.MisspeltImportFails | equip_locker/__init__.py:19 | as written the misspelt `allegience_restriction` makes the import fail; the defined names give the three restrictions |
| EquipLocker.Accepts | equip_locker/__init__.py:62-66 | the allegiance restriction accepts items with no manufacturer, and each restriction accepts everything when its settings allow everything |
| EquipLocker.Consulted | equip_locker/__init__.py:62-66 | no more restrictions are asked than are listed |
| EquipLocker.GiveTo | equip_locker/__init__.py:70-89 | the item is added unreadied exactly for the local pawn, a refused item and a pawn with an inventory manager, with the pickup sound the call asked for |
| EnemyLevels.LevelRange | enemy_level_randomizer/__init__.py:44-46 | both ends are at least 0, and the range is not empty for slider values |
| EnemyLevels.SetGameStage | enemy_level_randomizer/__init__.py:34-52 | player pawns pass through; other pawns raise exactly for an empty range, and otherwise get a level in the range |
| TpTravels.StepAsWritten | apples_borderlands_cheats/cheats/tp_travels.py:20-40 | a press raises exactly when the index is outside Python's range for the cache, and then changes nothing |
| TpTravels.StepCorrected | apples_borderlands_cheats/cheats/tp_travels.py:20-40 | the corrected press never raises, keeps or replaces the cache by the current stations, and teleports only to a cached station |
| Pyb.JoinLines | command_extensions/builtins/pyb.py:52 | the program starts with the first line, followed by a newline when there are more |
| Pyb.SplitLines | command_extensions/builtins/pyb.py:52 | splitting gives at least one line, none holding a newline, and a text without newline stays whole |
| Pyb.NextCache | command_extensions/builtins/pyb.py:63-69 | the command raises `IndexError` (no next buffer) exactly when no flag is set and no argument given; otherwise the buffer is emptied, or keeps its old lines first and grows by at most one |
| Pyb.OptionalArgAt | command_extensions/builtins/pyb.py:19 | a text starting with an optional argument has a `-` right after its leading whitespace |
| Pyb.PybSplitter | command_extensions/builtins/pyb.py:72-83 | code not starting with an optional argument is one argument, the text after its first character; otherwise `shlex.split` decides |
| Strings.Upper | vendor_edit/zdict_experiments/gen_dict.py:27 | upper-casing keeps the length, leaves no ASCII lower-case letter, and keeps each character's lower-case form |
| Strings.Lower | text_mod_loader/hotfixes.py:45 | lower-casing keeps the length, leaves no ASCII upper-case letter, and keeps each character's upper-case form |

## Left out

- zlib deflate/inflate with the preset dictionary: compression and decompression are function parameters. Their round trip is a hypothesis of the lemmas that need it.
- Engine natives and reflection are parameters or record fields. This covers:
  - `PackSerialNumber`, `UnpackSerialNumber` and `PeekIsWeapon` (the `Natives` value in `ItemCodes`);
  - `find_object` and `construct_object` (the `Packages.Engine` object);
  - `find_all` (the station list given to `TpTravels`);
  - `GetRarityForLevel` (the item's rarity is an input);
  - every live `obj.X` field read.
- The engine's case-insensitive object lookup is a map from the upper-cased path name to an object, passed as a parameter.
- `CreateWeaponFromDef` and the other calls that create weapons from the definitions in `create_replacements_for_slot` are left out. The model returns the definitions.
- Regular expressions are specified by hand, not run by a regex engine. `\w` is taken as ASCII `[A-Za-z0-9_]`; Unicode word characters are not modelled. `str.strip`/`str.isspace` use Python's full whitespace set (`Strings.IsSpace`), `string.whitespace` is its ASCII set, and C's `std::isspace` the "C" locale set (`ParserUtil.IsCSpace`).
- Strings.Upper: ASCII upper-casing only; Python's `str.upper` also maps other letters, and some to longer text ('ß' becomes "SS").
- Strings.Lower: ASCII lower-casing only; Python's `str.lower` also maps non-ASCII letters.
- Bytes.UpperBytes: the path name is upper-cased over ASCII before its UTF-8 encoding, so a path with non-ASCII letters is not modelled.
- SubstringCounts.CountSubstrings: counts over the ASCII upper-cased lines, for the same reason.
- Loader.Symbols: `str.isalnum` is taken over ASCII letters and digits, so a non-ASCII letter such as 'é', alphanumeric in Python, counts as a symbol here.
- `shlex.split` is a parameter of `Pyb.PybSplitter`.
- File system and process I/O become inputs or outputs:
  - whether a file exists and its modification time (a `real`) are inputs;
  - `iterdir` gives a list of paths;
  - settings `.save()`, the file writes of the corpus and dictionary scripts and the console command are outputs.
- `iter_auto_enabled_paths` is left out: it only filters the auto-enable list by path existence.
- Saving the settings to disk is left out.
- Floating point is not modelled. Modification times are `real` values that are only compared.
- The BLCMM preprocessor and the XML reader are left out. The BLCMM walk runs over the document they would produce, given as a list of nodes.
- The pybind bindings and the conversion to the system encoding are left out. Strings are `seq<char>`.
- The C++ headers `line_parser.h` and `blcm_parser.h` declare functions returning the comments, where the `.cpp` definitions take a `ParseResult&` to fill; the model follows the `.cpp` bodies.
- FileParser.AddLines: main.cpp:93 calls a two-argument `parse_filtertool_file(stream, parse_result)`, which is not defined; only the one-argument version returning a `std::vector<py::str>` exists (filtertool_parser.cpp:7). The model takes the evident intent, adding each returned comment through the string overload of `add_comment`.
- The stream is a sequence of lines, and its position is the index of a line.
- Random draws are a `roll` parameter. `random.randrange` is `EnemyLevels.RandRange`.
- The enemy level randomizer's sliders are whole numbers. The `int()` of the slider values and `prevent_hooking_direct_calls` are left out.
- Equip locker:
  - a pawn with no inventory manager makes `get_equipped_items` raise `AttributeError`; the model takes the chain of equipped items as given;
  - `unequip_restricted_items` walks a snapshot of the chain, where the source's generator re-reads `item.Inventory` after each unequip;
  - the `SetItemCardEx` UI hook (card text only), the option change handlers and `on_enable` are left out; they only re-run `unequip_restricted_items`;
  - the rarity restriction's weak-pointer cache of the game globals is left out.
- EquipLocker.GiveTo: the `ClientConditionalIncrementPickupStats` call before the item is added is left out; it only updates pickup statistics.
- Alt-use vendors:
  - `initialize_from_definition`, `trigger_money_is_power` and the voice lines are left out;
  - the per-shop cost and purchase functions (floating-point per-bullet and heal costs) are parameters;
  - the `InstantFire`, `ConsumeProjectileResource` and `TakeDamage` hooks are left out; each only calls `update_vendor_costs`, which is modelled.
- AltUseVendors.VendorTracker.PerformedSecondaryUseAction: the reset `obj.UsableObjectUpdateTime = 0.0` (alt_use_vendors/__init__.py:123) is left out; it is a floating-point timer the engine uses to refresh the usable object, and nothing in the model reads it.
- Text mods:
  - registering and deregistering with the mod manager is left out, as is what the manager's own `Mod.enable`/`Mod.disable` do;
  - `legacy_compat` is left out;
  - message boxes and HUD messages are returned as effects rather than shown;
  - traceback and logging text are left out.
- TextMods.TextMod.constructor: the hotfix flag is a parameter. As written the source always passes the copy taken at import, `IMPORTED_ANY_HOTFIX_USED`, which is False, so no new mod is locked for hotfixes; `LoadAllTextMods` takes the flag as a parameter too, and the difference from the live flag is recorded under "## Findings".
- Loader.TextModRegistry.AddNewMods: the metadata of each new file is a function `infoOf` of its path. The cached read of `settings.py` and the file parse that produce it at loader.py:191-193 are modelled on their own (`Settings.ReadCached`, `FileParser.Parse`) but not composed here.
- Loader.LoadAllTextMods: the same `infoOf` parameter stands for the metadata, for the same reason.
- GearboxCrc.GearboxCrc: computed with the 256-entry table as the source does. No proof relates the table to the bitwise reflected CRC-32 of polynomial 0xEDB88320.
- Python's set iteration order in the dictionary builder is unspecified. Where the script sorts a set, the model takes some listing in the order the sort key allows.

## Findings

| source | as written | input that shows it | evidently intended | confidence | as-written member | corrected member |
|---|---|---|---|---|---|---|
| vendor_edit/item_codes.py:297-303 | `b64decode` of a string holding a non-ASCII character raises `ValueError`, which the `except binascii.Error` does not catch, so parsing raises | the code `BL2(é)` | such a code is `MALFORMED_CODE`, like any other invalid Base64 | not executed | ItemCodeText.NonAsciiRaises | ItemCodeText.AsWrittenAgrees |
| text_mod_loader/settings.py:129 | the converted `Game` value is written back into the cached entry, and a `Game` is not a member name, so the next read of the same entry yields no recommended game | any cached entry with a known recommended game, read twice | every read of an unchanged entry yields the stored game | not executed | Settings.SecondReadLosesGame | Settings.CachedRoundTrip |
| text_mod_loader/file_parser/line_parser.cpp:12-13 | on a line of only `#`, `find_first_not_of` gives `npos` and `line[npos]` reads past the end | the line `#` | a line of only `#` adds an empty comment | not executed | LineParser.HashOnlyLineReadsPastEnd | LineParser.HashComment |
| text_mod_loader/file_parser/line_parser.cpp:34 | `seekg(-line.size())` does not count the newline `getline` consumed, so the stream is left one character into the command line (the same code is at filtertool_parser.cpp:46) | the lines `# a` then `set x y` leave the stream at `et x y` | the stream is left at the start of the command line | not executed | LineParser.SeekBackLosesFirstCharacter | LineParser.SeekBack |
| text_mod_loader/file_parser/main.cpp:61-65 | `from_chars` starts at `transient_offset`, the `T` of the prefix, so it always fails and no spark service index is ever recorded | the line `set Transient.SparkServiceConfiguration_5 Keys` | the digits after the prefix are parsed, giving index 5 | not executed | FileParser.AsWrittenNeverParses | FileParser.SparkServiceExample |
| apples_borderlands_cheats/cheats/tp_travels.py:31-37 | after a press in a world with no stations, the cache is empty and the index -1, so every later press raises `IndexError` at `cached_travel_names[-1]`, in any world | a press with no stations, then a press anywhere | an empty cache counts as a change of world, so the next press starts at the new world's first station | not executed | TpTravels.EmptyWorldBreaksKeybind | TpTravels.CorrectedNeverRaises |
| text_mod_loader/text_mod.py:13 | `from .hotfixes import any_hotfix_used` copies the flag's value at import, False; `mark_hotfixes_used` later rebinds only the module's own name, so `__post_init__` never locks a new mod for hotfixes | a hotfix mod runs, then a reload finds a new mod using a spark service | that mod is locked for hotfixes, as `__post_init__` reads | not executed | TextMods.StaleFlagNeverLocksHotfixes | TextMods.LiveFlagLocksHotfixes |
| equip_locker/__init__.py:19 | the name imported is `allegience_restriction`, while the allegiance module defines `allegiance_restriction`, so the import fails and the mod does not load | importing the mod | the three restrictions are imported and each gets its enable option | not executed | EquipLocker.MisspeltImportFails | EquipLocker.ImportRestrictions |
| text_mod_loader/file_parser/filtertool_parser.cpp:16-21 | on a non-empty line of whitespace only, the forward search ends at the end and the reverse search at the start, so the `string_view` is built over an inverted range, which is undefined behaviour | the line " " | such a line trims to the empty view | not executed | FiltertoolParser.BlankLineInvertsView | FiltertoolParser.Trimmed |
