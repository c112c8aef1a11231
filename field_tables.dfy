/**
 * The two static field tables of the item-code codec. Each entry names one
 * field of the game's weapon or item definition data, the bit that marks it in
 * a modded-replacement bitmap, and whether its value is an integer (all other
 * fields hold an object reference).
 */
module FieldTables {
  import opened Bytes
  import opened Bits

  datatype FieldData = FieldData(name: string, mask: nat, isInt: bool)

  const WEAPON_FIELDS: seq<FieldData> := [
    FieldData("WeaponTypeDefinition", 0x8000, false),
    FieldData("BalanceDefinition", 0x4000, false),
    FieldData("ManufacturerDefinition", 0x2000, false),
    FieldData("ManufacturerGradeIndex", 0x1000, true),
    FieldData("BodyPartDefinition", 0x0800, false),
    FieldData("GripPartDefinition", 0x0400, false),
    FieldData("BarrelPartDefinition", 0x0200, false),
    FieldData("SightPartDefinition", 0x0100, false),
    FieldData("StockPartDefinition", 0x0080, false),
    FieldData("ElementalPartDefinition", 0x0040, false),
    FieldData("Accessory1PartDefinition", 0x0020, false),
    FieldData("Accessory2PartDefinition", 0x0010, false),
    FieldData("MaterialPartDefinition", 0x0008, false),
    FieldData("PrefixPartDefinition", 0x0004, false),
    FieldData("TitlePartDefinition", 0x0002, false),
    FieldData("GameStage", 0x0001, true)
  ]

  const ITEM_FIELDS: seq<FieldData> := [
    FieldData("ItemDefinition", 0x8000, false),
    FieldData("BalanceDefinition", 0x4000, false),
    FieldData("ManufacturerDefinition", 0x2000, false),
    FieldData("ManufacturerGradeIndex", 0x1000, true),
    FieldData("AlphaItemPartDefinition", 0x0800, false),
    FieldData("BetaItemPartDefinition", 0x0400, false),
    FieldData("GammaItemPartDefinition", 0x0200, false),
    FieldData("DeltaItemPartDefinition", 0x0100, false),
    FieldData("EpsilonItemPartDefinition", 0x0080, false),
    FieldData("ZetaItemPartDefinition", 0x0040, false),
    FieldData("EtaItemPartDefinition", 0x0020, false),
    FieldData("ThetaItemPartDefinition", 0x0010, false),
    FieldData("MaterialItemPartDefinition", 0x0008, false),
    FieldData("PrefixItemNamePartDefinition", 0x0004, false),
    FieldData("TitleItemNamePartDefinition", 0x0002, false),
    FieldData("GameStage", 0x0001, true)
  ]

  /** The mask of every field of a table, or-ed together. */
  function AllMasks(t: seq<FieldData>): (m: nat)
  {
    if t == [] then 0 else BitOr(AllMasks(t[..|t| - 1]), t[|t| - 1].mask)
  }

  /**
   * The shape both tables share and that the bitmap codec relies on: sixteen
   * entries, entry `i` marked by bit `15 - i` (so masks are distinct single bits
   * in strictly descending order), and integer values exactly at 0x1000 and 0x0001.
   */
  predicate WellFormed(t: seq<FieldData>) {
    && |t| == 16
    && (forall i :: 0 <= i < 16 ==> t[i].mask == Pow2(15 - i))
    && (forall i :: 0 <= i < 16 ==> (t[i].isInt <==> i == 3 || i == 15))
  }

  /** Distinct table entries never share a mask bit. */
  predicate Disjoint(t: seq<FieldData>) {
    forall i, j :: 0 <= i < |t| && 0 <= j < |t| && i != j ==> BitAnd(t[i].mask, t[j].mask) == 0
  }

  lemma {:induction false} Pow2Table()
    ensures Pow2(0) == 0x1 && Pow2(1) == 0x2 && Pow2(2) == 0x4 && Pow2(3) == 0x8
    ensures Pow2(4) == 0x10 && Pow2(5) == 0x20 && Pow2(6) == 0x40 && Pow2(7) == 0x80
    ensures Pow2(8) == 0x100 && Pow2(9) == 0x200 && Pow2(10) == 0x400 && Pow2(11) == 0x800
    ensures Pow2(12) == 0x1000 && Pow2(13) == 0x2000 && Pow2(14) == 0x4000 && Pow2(15) == 0x8000
    ensures Pow2(16) == 0x1_0000
  {
    assert Pow2(8) == 0x100;
  }

  lemma {:induction false} WeaponFieldsWellFormed()
    ensures WellFormed(WEAPON_FIELDS)
    ensures AllMasks(WEAPON_FIELDS) == 0xFFFF
    ensures forall i :: 0 <= i < 16 ==> (WEAPON_FIELDS[i].isInt <==> WEAPON_FIELDS[i].mask == 0x1000 || WEAPON_FIELDS[i].mask == 0x0001)
  {
    Pow2Table();
    assert forall i :: 0 <= i < 16 ==> WEAPON_FIELDS[i].mask == Pow2(15 - i);
    assert forall i :: 0 <= i < 16 ==> (WEAPON_FIELDS[i].isInt <==> i == 3 || i == 15);
    AllMasksFull(WEAPON_FIELDS);
  }

  lemma {:induction false} ItemFieldsWellFormed()
    ensures WellFormed(ITEM_FIELDS)
    ensures AllMasks(ITEM_FIELDS) == 0xFFFF
    ensures forall i :: 0 <= i < 16 ==> (ITEM_FIELDS[i].isInt <==> ITEM_FIELDS[i].mask == 0x1000 || ITEM_FIELDS[i].mask == 0x0001)
  {
    Pow2Table();
    assert forall i :: 0 <= i < 16 ==> ITEM_FIELDS[i].mask == Pow2(15 - i);
    assert forall i :: 0 <= i < 16 ==> (ITEM_FIELDS[i].isInt <==> i == 3 || i == 15);
    AllMasksFull(ITEM_FIELDS);
  }

  /** The first `n` masks of a well-formed table together hold exactly the bits `16 - n` to 15. */
  lemma {:induction false} AllMasksPrefix(t: seq<FieldData>, n: nat, k: nat)
    requires WellFormed(t) && n <= 16
    ensures HasBit(AllMasks(t[..n]), k) <==> 16 - n <= k < 16
  {
    if n == 0 {
      assert t[..0] == [];
      NoBitOfZero(k);
    } else {
      assert t[..n][..n - 1] == t[..n - 1];
      AllMasksPrefix(t, n - 1, k);
      BitOrHasBit(AllMasks(t[..n - 1]), Pow2(16 - n), k);
      Pow2HasBit(16 - n, k);
    }
  }

  lemma {:induction false} AllMasksBound(t: seq<FieldData>, n: nat)
    requires WellFormed(t) && n <= 16
    ensures AllMasks(t[..n]) < Pow2(16)
  {
    if n > 0 {
      assert t[..n][..n - 1] == t[..n - 1];
      AllMasksBound(t, n - 1);
      Pow2Monotone(15 - (n - 1), 16);
      BitOrBound(AllMasks(t[..n - 1]), Pow2(16 - n), 16);
    }
  }

  /** `2^n - 1` has exactly the bits 0 to `n - 1`. */
  lemma {:induction false} LowOnes(n: nat, k: nat)
    ensures HasBit(Pow2(n) - 1, k) <==> k < n
  {
    if n == 0 {
      NoBitOfZero(k);
    } else if k > 0 {
      assert (Pow2(n) - 1) / 2 == Pow2(n - 1) - 1;
      LowOnes(n - 1, k - 1);
    }
  }

  /** The masks of a well-formed table or together to 0xFFFF: every bitmap bit names a field. */
  lemma {:induction false} AllMasksFull(t: seq<FieldData>)
    requires WellFormed(t)
    ensures AllMasks(t) == 0xFFFF
  {
    assert t[..16] == t;
    AllMasksBound(t, 16);
    Pow2Table();
    forall k | 0 <= k < 16
      ensures HasBit(AllMasks(t), k) <==> HasBit(Pow2(16) - 1, k)
    {
      AllMasksPrefix(t, 16, k);
      LowOnes(16, k);
    }
    BitsDetermine(AllMasks(t), Pow2(16) - 1, 16);
  }

  /** In a well-formed table masks are pairwise disjoint, non-zero and strictly descending. */
  lemma {:induction false} WellFormedMasks(t: seq<FieldData>)
    requires WellFormed(t)
    ensures Disjoint(t)
    ensures forall i :: 0 <= i < 16 ==> t[i].mask != 0
    ensures forall i, j :: 0 <= i < j < 16 ==> t[i].mask > t[j].mask
  {
    forall i, j | 0 <= i < 16 && 0 <= j < 16 && i != j
      ensures BitAnd(t[i].mask, t[j].mask) == 0
    {
      BitAndPow2(15 - i, Pow2(15 - j));
      Pow2HasBit(15 - j, 15 - i);
    }
    forall i, j | 0 <= i < j < 16
      ensures t[i].mask > t[j].mask
    {
      Pow2Monotone(15 - j, 15 - i);
    }
  }
}
