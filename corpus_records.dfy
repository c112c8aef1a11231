/**
 * The replacement-corpus builder (`zdict_experiments/constructor_to_replacements.py`):
 * for every weapon and item of a save file it writes one record in the same
 * bitmask-plus-names shape a modded code's payload has, naming the parts that
 * are not vanilla.
 *
 * Part names are modelled by their UTF-8 bytes; the JSON save file and the
 * vanilla part lists are inputs, and the output file is a byte sequence that
 * grows.
 */
module CorpusRecords {
  import opened Bytes
  import opened Bits
  import opened ModdedReplacements

  /** A definition-data attribute and the bitmap bit it is recorded under. */
  type Slot = (string, nat)

  /** A part name, as UTF-8 bytes. */
  type Part = seq<Byte>

  /** The weapon slots, bits 15 down to 1 without the integer slot at bit 12. */
  const WEAPON_SLOTS: seq<Slot> := [
    ("WeaponTypeDefinition", 15),
    ("BalanceDefinition", 14),
    ("ManufacturerDefinition", 13),
    ("BodyPartDefinition", 11),
    ("GripPartDefinition", 10),
    ("BarrelPartDefinition", 9),
    ("SightPartDefinition", 8),
    ("StockPartDefinition", 7),
    ("ElementalPartDefinition", 6),
    ("Accessory1PartDefinition", 5),
    ("Accessory2PartDefinition", 4),
    ("MaterialPartDefinition", 3),
    ("PrefixPartDefinition", 2),
    ("TitlePartDefinition", 1)]

  /** The item slots, on the same bits. */
  const ITEM_SLOTS: seq<Slot> := [
    ("ItemDefinition", 15),
    ("BalanceDefinition", 14),
    ("ManufacturerDefinition", 13),
    ("AlphaItemPartDefinition", 11),
    ("BetaItemPartDefinition", 10),
    ("GammaItemPartDefinition", 9),
    ("DeltaItemPartDefinition", 8),
    ("EpsilonItemPartDefinition", 7),
    ("ZetaItemPartDefinition", 6),
    ("EtaItemPartDefinition", 5),
    ("ThetaItemPartDefinition", 4),
    ("MaterialItemPartDefinition", 3),
    ("PrefixItemNamePartDefinition", 2),
    ("TitleItemNamePartDefinition", 1)]

  /** The part name "None". */
  const NONE_PART: Part := ['N' as Byte, 'o' as Byte, 'n' as Byte, 'e' as Byte]

  /** The bit a slot table gives its `i`-th entry: 15 down to 1, skipping 12. */
  function SlotBit(i: nat): int
  {
    if i < 3 then 15 - i else 14 - i
  }

  /** A slot table: fourteen entries on bits 15 to 1, in descending order, leaving out the integer slots 12 and 0. */
  predicate SlotTable(slots: seq<Slot>)
  {
    && |slots| == 14
    && (forall i :: 0 <= i < 14 ==> slots[i].1 == SlotBit(i))
  }

  /** Both tables record their slots on the same bits, 15 to 1 without 12, strictly descending. */
  lemma {:induction false} SlotTables()
    ensures SlotTable(WEAPON_SLOTS) && SlotTable(ITEM_SLOTS)
    ensures forall i, j :: 0 <= i < j < 14 ==> SlotBit(i) > SlotBit(j)
    ensures forall i :: 0 <= i < 14 ==> 1 <= SlotBit(i) <= 15 && SlotBit(i) != 12
  {
  }

  /** `VANILLA_PARTS`: the parts of the four lists, with "None" added. */
  function VanillaParts(listed: set<Part>): (r: set<Part>)
    ensures NONE_PART in r
    ensures forall p :: p in r <==> p in listed || p == NONE_PART
  {
    listed + {NONE_PART}
  }

  /** The item has every slot of the table (otherwise the lookup raises KeyError). */
  predicate HasSlots(item: map<string, Part>, slots: seq<Slot>)
  {
    forall i :: 0 <= i < |slots| ==> slots[i].0 in item
  }

  /** The part in a slot is not vanilla, so it is recorded. */
  predicate Replaced(item: map<string, Part>, slot: Slot, vanilla: set<Part>)
    requires slot.0 in item
  {
    item[slot.0] !in vanilla
  }

  /** The bitmap of the first slots: the bit of every replaced slot or-ed together. */
  function Bitmap(item: map<string, Part>, slots: seq<Slot>, vanilla: set<Part>): nat
    requires HasSlots(item, slots)
  {
    if slots == [] then 0
    else
      var last := slots[|slots| - 1];
      BitOr(Bitmap(item, slots[..|slots| - 1], vanilla), if Replaced(item, last, vanilla) then Pow2(last.1) else 0)
  }

  /** The upper-cased names of the replaced parts, in slot order. */
  function ReplacedNames(item: map<string, Part>, slots: seq<Slot>, vanilla: set<Part>): seq<Part>
    requires HasSlots(item, slots)
  {
    if slots == [] then []
    else
      var last := slots[|slots| - 1];
      ReplacedNames(item, slots[..|slots| - 1], vanilla)
        + (if Replaced(item, last, vanilla) then [UpperBytes(item[last.0])] else [])
  }

  /** Names each followed by a NUL, concatenated. */
  function Joined(names: seq<Part>): seq<Byte>
  {
    if names == [] then [] else names[0] + [NUL] + Joined(names[1..])
  }

  /** The inverse reading: split a payload at its NULs. */
  function SplitNames(payload: seq<Byte>): seq<Part>
    decreases |payload|
  {
    if payload == [] then []
    else
      var (name, rest) := Partition(payload);
      assert |rest| < |payload| by {
        if NulIndex(payload) == |payload| {
          assert rest == [];
        }
      }
      [name] + SplitNames(rest)
  }

  /** Joining names without a NUL and splitting again gives the names back. */
  lemma {:induction false} SplitJoined(names: seq<Part>)
    requires forall i :: 0 <= i < |names| ==> NoNul(names[i])
    ensures SplitNames(Joined(names)) == names
  {
    if names != [] {
      PartitionTerminated(names[0], Joined(names[1..]));
      assert Joined(names) == names[0] + [NUL] + Joined(names[1..]);
      SplitJoined(names[1..]);
    }
  }

  /** Joining one more name appends it and its NUL. */
  lemma {:induction false} JoinedSnoc(names: seq<Part>, name: Part)
    ensures Joined(names + [name]) == Joined(names) + name + [NUL]
  {
    if names != [] {
      assert (names + [name])[1..] == names[1..] + [name];
      JoinedSnoc(names[1..], name);
    }
  }

  /** Bit `k` of the bitmap is set exactly when some replaced slot is recorded under bit `k`. */
  lemma {:induction false} BitmapBits(item: map<string, Part>, slots: seq<Slot>, vanilla: set<Part>, k: nat)
    requires HasSlots(item, slots)
    ensures HasBit(Bitmap(item, slots, vanilla), k) <==>
      exists j :: 0 <= j < |slots| && slots[j].1 == k && Replaced(item, slots[j], vanilla)
  {
    if slots == [] {
      NoBitOfZero(k);
    } else {
      var n := |slots| - 1;
      var last := slots[n];
      var front := slots[..n];
      BitmapBits(item, front, vanilla, k);
      BitOrHasBit(Bitmap(item, front, vanilla), if Replaced(item, last, vanilla) then Pow2(last.1) else 0, k);
      if Replaced(item, last, vanilla) {
        Pow2HasBit(last.1, k);
      } else {
        NoBitOfZero(k);
      }
      if exists j :: 0 <= j < |slots| && slots[j].1 == k && Replaced(item, slots[j], vanilla) {
        var j :| 0 <= j < |slots| && slots[j].1 == k && Replaced(item, slots[j], vanilla);
        if j < n {
          assert front[j] == slots[j];
        }
      }
    }
  }

  /** The bitmap is zero exactly when every part is vanilla. */
  lemma {:induction false} BitmapZero(item: map<string, Part>, slots: seq<Slot>, vanilla: set<Part>)
    requires HasSlots(item, slots)
    ensures Bitmap(item, slots, vanilla) == 0 <==> forall j :: 0 <= j < |slots| ==> !Replaced(item, slots[j], vanilla)
  {
    if slots != [] {
      var n := |slots| - 1;
      var front := slots[..n];
      BitmapZero(item, front, vanilla);
      if forall j :: 0 <= j < |slots| ==> !Replaced(item, slots[j], vanilla) {
        forall j | 0 <= j < n ensures !Replaced(item, front[j], vanilla) {
          assert front[j] == slots[j];
        }
      }
      if Bitmap(item, slots, vanilla) == 0 {
        forall j | 0 <= j < |slots| ensures !Replaced(item, slots[j], vanilla) {
          BitmapBits(item, slots, vanilla, slots[j].1);
          NoBitOfZero(slots[j].1);
        }
      }
    }
  }

  /** With every bit below 16 the bitmap fits the record's u16. */
  lemma {:induction false} BitmapBound(item: map<string, Part>, slots: seq<Slot>, vanilla: set<Part>)
    requires HasSlots(item, slots)
    requires forall i :: 0 <= i < |slots| ==> slots[i].1 < 16
    ensures Bitmap(item, slots, vanilla) < TWO_16
  {
    Pow2Values();
    if slots != [] {
      var n := |slots| - 1;
      BitmapBound(item, slots[..n], vanilla);
      Pow2Monotone(slots[n].1, 16);
      BitOrBound(Bitmap(item, slots[..n], vanilla), if Replaced(item, slots[n], vanilla) then Pow2(slots[n].1) else 0, 16);
    }
  }

  /** What one item contributes: nothing, a record, or the `struct.error` of a length over 0xFFFF. */
  datatype RecordOutcome = NoRecord | Record(bytes: seq<Byte>) | TooLong

  /** `append_replacements` as a function: `<H` of the payload length plus 2, `<H` of the bitmap, then the payload. */
  function RecordOf(item: map<string, Part>, slots: seq<Slot>, vanilla: set<Part>): RecordOutcome
    requires HasSlots(item, slots)
    requires forall i :: 0 <= i < |slots| ==> slots[i].1 < 16
  {
    var bitmap := Bitmap(item, slots, vanilla);
    var payload := Joined(ReplacedNames(item, slots, vanilla));
    if bitmap == 0 then NoRecord
    else if |payload| + 2 >= TWO_16 then TooLong
    else
      BitmapBound(item, slots, vanilla);
      Record(U16Le(|payload| + 2) + U16Le(bitmap) + payload)
  }

  /** A record's length field counts the bitmap and the payload, the bytes that follow it. */
  predicate WellFramed(record: seq<Byte>)
  {
    |record| >= 4 && ReadU16Le(record, 0) == |record| - 2
  }

  /**
   * A record exists exactly when some part is not vanilla; its length field
   * counts everything after it, its bitmap has the bits of the replaced slots,
   * and its payload splits back into their upper-cased names, in slot order.
   */
  lemma {:induction false} RecordContents(item: map<string, Part>, slots: seq<Slot>, vanilla: set<Part>)
    requires HasSlots(item, slots)
    requires forall i :: 0 <= i < |slots| ==> slots[i].1 < 16
    requires forall i :: 0 <= i < |slots| ==> NoNul(item[slots[i].0])
    ensures RecordOf(item, slots, vanilla).NoRecord? <==> forall j :: 0 <= j < |slots| ==> !Replaced(item, slots[j], vanilla)
    ensures RecordOf(item, slots, vanilla).Record? ==>
      var r := RecordOf(item, slots, vanilla).bytes;
      && WellFramed(r)
      && ReadU16Le(r, 2) == Bitmap(item, slots, vanilla)
      && SplitNames(r[4..]) == ReplacedNames(item, slots, vanilla)
  {
    BitmapZero(item, slots, vanilla);
    var names := ReplacedNames(item, slots, vanilla);
    ReplacedNamesNoNul(item, slots, vanilla);
    SplitJoined(names);
    if RecordOf(item, slots, vanilla).Record? {
      var payload := Joined(names);
      BitmapBound(item, slots, vanilla);
      var r := U16Le(|payload| + 2) + U16Le(Bitmap(item, slots, vanilla)) + payload;
      assert r[2..4] == U16Le(Bitmap(item, slots, vanilla));
      assert r[4..] == payload;
    }
  }

  /** Upper-casing keeps a name free of NUL. */
  lemma {:induction false} ReplacedNamesNoNul(item: map<string, Part>, slots: seq<Slot>, vanilla: set<Part>)
    requires HasSlots(item, slots)
    requires forall i :: 0 <= i < |slots| ==> NoNul(item[slots[i].0])
    ensures forall i :: 0 <= i < |ReplacedNames(item, slots, vanilla)| ==> NoNul(ReplacedNames(item, slots, vanilla)[i])
  {
    if slots != [] {
      var n := |slots| - 1;
      ReplacedNamesNoNul(item, slots[..n], vanilla);
      UpperNoNul(item[slots[n].0]);
    }
  }

  /** One item and the slot table it is written with. */
  datatype Entry = Entry(item: map<string, Part>, slots: seq<Slot>)

  /** The entries of a list of weapons or items, all with one table. */
  function EntriesOf(items: seq<map<string, Part>>, slots: seq<Slot>): (r: seq<Entry>)
    ensures |r| == |items|
    ensures forall i :: 0 <= i < |items| ==> r[i] == Entry(items[i], slots)
  {
    seq(|items|, i requires 0 <= i < |items| => Entry(items[i], slots))
  }

  /** An entry the script can write: every slot of its table is in the item, with a bit below 16. */
  predicate EntryWritable(e: Entry)
  {
    HasSlots(e.item, e.slots) && forall k :: 0 <= k < |e.slots| ==> e.slots[k].1 < 16
  }

  /** The entries can be written: every item has its table's slots, all on bits below 16. */
  predicate Writable(entries: seq<Entry>)
  {
    forall i :: 0 <= i < |entries| ==> EntryWritable(entries[i])
  }

  /** The corpus so far: the records written, `total_items`, and whether the script has died of a `struct.error`. */
  datatype Corpus = Corpus(records: seq<seq<Byte>>, totalItems: nat, raised: bool)

  /** Writing one entry; once raised, nothing more happens. */
  function AppendEntry(before: Corpus, e: Entry, vanilla: set<Part>): Corpus
    requires EntryWritable(e)
  {
    if before.raised then before
    else match RecordOf(e.item, e.slots, vanilla)
      case NoRecord => before
      case TooLong => Corpus(before.records, before.totalItems + 1, true)
      case Record(r) => Corpus(before.records + [r], before.totalItems + 1, false)
  }

  /** Writing entries in order, from a corpus. */
  function Appended(start: Corpus, entries: seq<Entry>, vanilla: set<Part>): Corpus
    requires Writable(entries)
  {
    if entries == [] then start
    else AppendEntry(Appended(start, entries[..|entries| - 1], vanilla), entries[|entries| - 1], vanilla)
  }

  /** Records concatenated, as the output file holds them. */
  function Flatten(records: seq<seq<Byte>>): seq<Byte>
  {
    if records == [] then [] else records[0] + Flatten(records[1..])
  }

  lemma {:induction false} FlattenSnoc(records: seq<seq<Byte>>, r: seq<Byte>)
    ensures Flatten(records + [r]) == Flatten(records) + r
  {
    if records != [] {
      assert (records + [r])[1..] == records[1..] + [r];
      FlattenSnoc(records[1..], r);
    }
  }

  /** Reading a corpus file back, record by record, by the length fields. */
  function ReadRecords(file: seq<Byte>): seq<seq<Byte>>
    decreases |file|
  {
    if |file| < 2 then []
    else
      var size := ReadU16Le(file, 0) + 2;
      if size > |file| then [] else [file[..size]] + ReadRecords(file[size..])
  }

  /** A file of well-framed records reads back as those records. */
  lemma {:induction false} ReadFlatten(records: seq<seq<Byte>>)
    requires forall i :: 0 <= i < |records| ==> WellFramed(records[i])
    ensures ReadRecords(Flatten(records)) == records
  {
    if records != [] {
      var file := Flatten(records);
      var r := records[0];
      assert file == r + Flatten(records[1..]);
      assert file[..2] == r[..2];
      assert ReadU16Le(file, 0) == ReadU16Le(r, 0);
      assert file[..|r|] == r;
      assert file[|r|..] == Flatten(records[1..]);
      ReadFlatten(records[1..]);
    }
  }

  /**
   * Every record written is well framed, and while the script has not died,
   * `total_items` counts exactly the records: after the one item whose payload
   * is too long, it counts one more, the item it never wrote.
   */
  lemma {:induction false} CorpusCounts(start: Corpus, entries: seq<Entry>, vanilla: set<Part>)
    requires Writable(entries)
    requires forall i :: 0 <= i < |entries| ==> forall k :: 0 <= k < |entries[i].slots| ==> NoNul(entries[i].item[entries[i].slots[k].0])
    requires !start.raised && start.totalItems == |start.records|
    requires forall i :: 0 <= i < |start.records| ==> WellFramed(start.records[i])
    ensures var c := Appended(start, entries, vanilla);
      && (forall i :: 0 <= i < |c.records| ==> WellFramed(c.records[i]))
      && c.totalItems == |c.records| + (if c.raised then 1 else 0)
  {
    if entries != [] {
      var n := |entries| - 1;
      assert Writable(entries[..n]);
      CorpusCounts(start, entries[..n], vanilla);
      var e := entries[n];
      RecordContents(e.item, e.slots, vanilla);
    }
  }

  /** Writing two runs of entries one after the other is writing them all. */
  lemma {:induction false} AppendedConcat(start: Corpus, a: seq<Entry>, b: seq<Entry>, vanilla: set<Part>)
    requires Writable(a) && Writable(b)
    ensures Writable(a + b)
    ensures Appended(start, a + b, vanilla) == Appended(Appended(start, a, vanilla), b, vanilla)
  {
    WritableConcat(a, b);
    if b != [] {
      var n := |b| - 1;
      var ab := a + b;
      AppendedLast(start, ab, vanilla);
      AppendedLast(Appended(start, a, vanilla), b, vanilla);
      assert ab[..|ab| - 1] == a + b[..n];
      assert ab[|ab| - 1] == b[n];
      AppendedConcat(start, a, b[..n], vanilla);
    } else {
      assert a + b == a;
    }
  }

  lemma {:induction false} WritableConcat(a: seq<Entry>, b: seq<Entry>)
    requires Writable(a) && Writable(b)
    ensures Writable(a + b) && (b != [] ==> Writable(b[..|b| - 1]))
  {
    forall i | 0 <= i < |a + b| ensures EntryWritable((a + b)[i]) {
      if i >= |a| {
        assert (a + b)[i] == b[i - |a|];
      }
    }
  }

  /** Writing entries is writing all but the last, then the last. */
  lemma {:induction false} AppendedLast(start: Corpus, entries: seq<Entry>, vanilla: set<Part>)
    requires Writable(entries) && entries != []
    ensures Writable(entries[..|entries| - 1]) && EntryWritable(entries[|entries| - 1])
    ensures Appended(start, entries, vanilla)
      == AppendEntry(Appended(start, entries[..|entries| - 1], vanilla), entries[|entries| - 1], vanilla)
  {
  }

  /** The output file and the module's `total_items` counter. */
  class CorpusWriter {
    var file: seq<Byte>
    var totalItems: nat

    constructor ()
      ensures file == [] && totalItems == 0
    {
      file := [];
      totalItems := 0;
    }

    /**
     * `append_replacements`: collect the bitmap and the names of the
     * non-vanilla parts; when there are any, count the item and write its
     * record. `raised` is the `struct.error` of a record too long to frame,
     * raised after the counter was bumped and before anything was written.
     */
    method AppendReplacements(item: map<string, Part>, slots: seq<Slot>, vanilla: set<Part>) returns (raised: bool)
      requires HasSlots(item, slots)
      requires forall i :: 0 <= i < |slots| ==> slots[i].1 < 16
      modifies this
      ensures match RecordOf(item, slots, vanilla)
        case NoRecord => file == old(file) && totalItems == old(totalItems) && !raised
        case TooLong => file == old(file) && totalItems == old(totalItems) + 1 && raised
        case Record(r) => file == old(file) + r && totalItems == old(totalItems) + 1 && !raised
    {
      var bitmap := 0;
      var replacements: seq<Byte> := [];
      for i := 0 to |slots|
        invariant bitmap == Bitmap(item, slots[..i], vanilla)
        invariant replacements == Joined(ReplacedNames(item, slots[..i], vanilla))
        invariant file == old(file) && totalItems == old(totalItems)
      {
        ghost var names := ReplacedNames(item, slots[..i], vanilla);
        assert slots[..i + 1][..i] == slots[..i];
        assert slots[..i + 1][i] == slots[i];
        var part := item[slots[i].0];
        if part in vanilla {
          assert ReplacedNames(item, slots[..i + 1], vanilla) == names + [];
          assert names + [] == names;
          continue;
        }
        assert ReplacedNames(item, slots[..i + 1], vanilla) == names + [UpperBytes(part)];
        bitmap := BitOr(bitmap, Pow2(slots[i].1));
        JoinedSnoc(names, UpperBytes(part));
        replacements := replacements + UpperBytes(part) + [NUL];
      }
      assert slots[..|slots|] == slots;
      ghost var outcome := RecordOf(item, slots, vanilla);

      if bitmap == 0 {
        assert outcome == NoRecord;
        return false;
      }

      totalItems := totalItems + 1;

      if |replacements| + 2 >= TWO_16 {
        assert outcome == TooLong;
        return true;
      }
      BitmapBound(item, slots, vanilla);
      var header := U16Le(|replacements| + 2) + U16Le(bitmap);
      assert outcome == Record(header + replacements);
      file := file + header;
      file := file + replacements;
      assert file == old(file) + (header + replacements);
      return false;
    }

    /** One of the script's loops: append every item of a list with one table, stopping if one raises. */
    method AppendAll(items: seq<map<string, Part>>, slots: seq<Slot>, vanilla: set<Part>, ghost records: seq<seq<Byte>>)
      returns (raised: bool, ghost after: Corpus)
      requires Writable(EntriesOf(items, slots))
      requires file == Flatten(records)
      modifies this
      ensures after == Appended(Corpus(records, old(totalItems), false), EntriesOf(items, slots), vanilla)
      ensures file == Flatten(after.records) && totalItems == after.totalItems && raised == after.raised
    {
      ghost var entries := EntriesOf(items, slots);
      ghost var start := Corpus(records, totalItems, false);
      after := start;
      raised := false;
      var i := 0;
      while i < |items|
        invariant 0 <= i <= |items|
        invariant Writable(entries[..i])
        invariant after == Appended(start, entries[..i], vanilla)
        invariant file == Flatten(after.records) && totalItems == after.totalItems && !after.raised
      {
        assert entries[..i + 1][..i] == entries[..i];
        assert Writable(entries[..i + 1]);
        raised := AppendReplacements(items[i], slots, vanilla);
        match RecordOf(items[i], slots, vanilla) {
          case NoRecord =>
          case TooLong =>
            after := Corpus(after.records, after.totalItems + 1, true);
          case Record(r) =>
            FlattenSnoc(after.records, r);
            after := Corpus(after.records + [r], after.totalItems + 1, false);
        }
        i := i + 1;
        if raised {
          assert after == Appended(start, entries[..i], vanilla);
          AppendedRaised(start, entries, i, vanilla);
          assert entries[..|items|] == entries;
          return;
        }
      }
      assert entries[..|items|] == entries;
    }
  }

  /** Once raised, later entries change nothing. */
  lemma {:induction false} AppendedRaised(start: Corpus, entries: seq<Entry>, i: nat, vanilla: set<Part>)
    requires Writable(entries) && i <= |entries|
    requires Appended(start, entries[..i], vanilla).raised
    ensures Appended(start, entries, vanilla) == Appended(start, entries[..i], vanilla)
    decreases |entries| - i
  {
    if i < |entries| {
      assert entries[..i + 1][..i] == entries[..i];
      assert Writable(entries[..i + 1]);
      AppendedRaised(start, entries, i + 1, vanilla);
    } else {
      assert entries[..i] == entries;
    }
  }

  /** The save file's four lists of weapons and items. */
  datatype SaveFile = SaveFile(
    wpnEquipped: seq<map<string, Part>>,
    weapons: seq<map<string, Part>>,
    itmEquipped: seq<map<string, Part>>,
    items: seq<map<string, Part>>)

  /** Everything the script writes, in its order: equipped and stored weapons, then equipped and stored items. */
  function SaveEntries(save: SaveFile): (r: seq<Entry>)
    ensures Complete(save) ==> Writable(r)
  {
    var a, b, c, d := EntriesOf(save.wpnEquipped, WEAPON_SLOTS), EntriesOf(save.weapons, WEAPON_SLOTS),
                      EntriesOf(save.itmEquipped, ITEM_SLOTS), EntriesOf(save.items, ITEM_SLOTS);
    if Complete(save) then
      SlotTables();
      EntriesWritable(save.wpnEquipped, WEAPON_SLOTS);
      EntriesWritable(save.weapons, WEAPON_SLOTS);
      EntriesWritable(save.itmEquipped, ITEM_SLOTS);
      EntriesWritable(save.items, ITEM_SLOTS);
      WritableConcat(a, b);
      WritableConcat(a + b, c);
      WritableConcat(a + b + c, d);
      a + b + c + d
    else a + b + c + d
  }

  /** Every weapon has the weapon slots and every item the item slots. */
  predicate Complete(save: SaveFile)
  {
    && (forall i :: 0 <= i < |save.wpnEquipped| ==> HasSlots(save.wpnEquipped[i], WEAPON_SLOTS))
    && (forall i :: 0 <= i < |save.weapons| ==> HasSlots(save.weapons[i], WEAPON_SLOTS))
    && (forall i :: 0 <= i < |save.itmEquipped| ==> HasSlots(save.itmEquipped[i], ITEM_SLOTS))
    && (forall i :: 0 <= i < |save.items| ==> HasSlots(save.items[i], ITEM_SLOTS))
  }

  lemma {:induction false} EntriesWritable(items: seq<map<string, Part>>, slots: seq<Slot>)
    requires SlotTable(slots)
    requires forall i :: 0 <= i < |items| ==> HasSlots(items[i], slots)
    ensures Writable(EntriesOf(items, slots))
  {
  }

  /**
   * The script: the four loops over a fresh output file, with the vanilla
   * parts and "None" treated as vanilla; it ends with the corpus of the
   * whole save file.
   */
  method WriteSaveFile(save: SaveFile, listed: set<Part>) returns (writer: CorpusWriter, ghost corpus: Corpus)
    requires Complete(save)
    ensures corpus == Appended(Corpus([], 0, false), SaveEntries(save), VanillaParts(listed))
    ensures writer.file == Flatten(corpus.records) && writer.totalItems == corpus.totalItems
  {
    SlotTables();
    var vanilla := VanillaParts(listed);
    var a, b, c, d := EntriesOf(save.wpnEquipped, WEAPON_SLOTS), EntriesOf(save.weapons, WEAPON_SLOTS),
                      EntriesOf(save.itmEquipped, ITEM_SLOTS), EntriesOf(save.items, ITEM_SLOTS);
    EntriesWritable(save.wpnEquipped, WEAPON_SLOTS);
    EntriesWritable(save.weapons, WEAPON_SLOTS);
    EntriesWritable(save.itmEquipped, ITEM_SLOTS);
    EntriesWritable(save.items, ITEM_SLOTS);
    ghost var start := Corpus([], 0, false);
    AppendedConcat(start, a, b, vanilla);
    AppendedConcat(start, a + b, c, vanilla);
    AppendedConcat(start, a + b + c, d, vanilla);
    assert SaveEntries(save) == a + b + c + d;

    writer := new CorpusWriter();
    var raised;
    raised, corpus := writer.AppendAll(save.wpnEquipped, WEAPON_SLOTS, vanilla, []);
    if !raised {
      raised, corpus := writer.AppendAll(save.weapons, WEAPON_SLOTS, vanilla, corpus.records);
    } else {
      RaisedStays(corpus, b, vanilla);
    }
    if !raised {
      raised, corpus := writer.AppendAll(save.itmEquipped, ITEM_SLOTS, vanilla, corpus.records);
    } else {
      RaisedStays(corpus, c, vanilla);
    }
    if !raised {
      raised, corpus := writer.AppendAll(save.items, ITEM_SLOTS, vanilla, corpus.records);
    } else {
      RaisedStays(corpus, d, vanilla);
    }
  }

  /** A corpus that has raised stays as it is. */
  lemma {:induction false} RaisedStays(c: Corpus, entries: seq<Entry>, vanilla: set<Part>)
    requires Writable(entries) && c.raised
    ensures Appended(c, entries, vanilla) == c
  {
    if entries != [] {
      assert Writable(entries[..|entries| - 1]);
      RaisedStays(c, entries[..|entries| - 1], vanilla);
    }
  }
}
