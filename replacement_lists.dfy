/**
 * Weapon replacement lists (`vendor_edit/replacement_lists.py`): for a weapon,
 * the manufacturers, levels and parts it could be given instead of its own,
 * the slots that have any, and one new weapon definition per candidate.
 *
 * Engine objects are plain references: `ObjRef` is an object or `None`, and
 * the live fields the script reads (the class check, the owner's levels, the
 * balance's part lists) are fields of the records below.
 */
module ReplacementLists {
  import opened Wrappers

  /** An engine object, or `None`. */
  type ObjRef = Option<nat>

  /** The basic weapon part slots, in the declaration order of `BASIC_SLOTS`. */
  datatype WeaponSlot = Body | Grip | Barrel | Sight | Stock | Element | Accessory | AltAccessory | Material

  const BASIC_SLOTS: seq<WeaponSlot> := [Body, Grip, Barrel, Sight, Stock, Element, Accessory, AltAccessory, Material]

  /** The position of a slot in `BASIC_SLOTS`. */
  function SlotIndex(s: WeaponSlot): (i: nat)
    ensures i < |BASIC_SLOTS| && BASIC_SLOTS[i] == s
  {
    match s
    case Body => 0
    case Grip => 1
    case Barrel => 2
    case Sight => 3
    case Stock => 4
    case Element => 5
    case Accessory => 6
    case AltAccessory => 7
    case Material => 8
  }

  /** The dummy items a slot menu offers: the two special ones, the basic weapon slots, and any other. */
  datatype DummyItem = ManufacturerItem | LevelItem | BasicItem(slot: WeaponSlot) | OtherItem(objName: string)

  /** The fields of a weapon definition the lists read and write. */
  datatype DefinitionData = DefinitionData(
    manufacturer: ObjRef,
    gradeIndex: int,
    gameStage: int,
    parts: WeaponSlot -> ObjRef)

  /** The balance: its manufacturer entries and the weighted parts of each slot's part list. */
  datatype Balance = Balance(manufacturers: seq<ObjRef>, weightedParts: WeaponSlot -> seq<ObjRef>)

  /**
   * An inventory item as the lists see it: whether its class inherits
   * `WillowWeapon`, its definition and balance, and the owner's experience
   * level, unlocked overpower levels, level cap and overpower modifier.
   */
  datatype Inventory = Inventory(
    inheritsWeapon: bool,
    definition: DefinitionData,
    balance: Balance,
    playerLevel: int,
    opLevels: int,
    levelCap: int,
    opModifier: int)

  /** `can_create_replacements`: only weapons are supported. */
  predicate CanCreateReplacements(item: Inventory)
  {
    item.inheritsWeapon
  }

  // ---------------------------------------------------------------- the lists

  /** The non-`None` entries of a list, in order. */
  function Present(entries: seq<ObjRef>): (r: seq<nat>)
    ensures |r| <= |entries|
    ensures forall m :: m in r <==> Some(m) in entries
  {
    if entries == [] then []
    else
      var rest := Present(entries[1..]);
      assert entries == [entries[0]] + entries[1..];
      if entries[0].Some? then [entries[0].value] + rest else rest
  }

  /** Filtering keeps the order: the entries of a concatenation come in the order of its halves. */
  lemma {:induction false} PresentConcat(a: seq<ObjRef>, b: seq<ObjRef>)
    ensures Present(a + b) == Present(a) + Present(b)
  {
    if a == [] {
      assert a + b == b;
    } else {
      assert (a + b)[0] == a[0] && (a + b)[1..] == a[1..] + b;
      PresentConcat(a[1..], b);
      var head := if a[0].Some? then [a[0].value] else [];
      assert Present(a) == head + Present(a[1..]);
      assert Present(a + b) == head + Present(a[1..] + b);
    }
  }

  /** The parts of a part list other than the one equipped. */
  function Without(parts: seq<ObjRef>, equipped: ObjRef): (r: seq<ObjRef>)
    ensures |r| <= |parts|
    ensures forall p :: p in r <==> p in parts && p != equipped
  {
    if parts == [] then []
    else
      var rest := Without(parts[1..], equipped);
      assert parts == [parts[0]] + parts[1..];
      if parts[0] != equipped then [parts[0]] + rest else rest
  }

  /** Filtering keeps the order of the parts left. */
  lemma {:induction false} WithoutConcat(a: seq<ObjRef>, b: seq<ObjRef>, equipped: ObjRef)
    ensures Without(a + b, equipped) == Without(a, equipped) + Without(b, equipped)
  {
    if a == [] {
      assert a + b == b;
    } else {
      assert (a + b)[0] == a[0] && (a + b)[1..] == a[1..] + b;
      WithoutConcat(a[1..], b, equipped);
      var head := if a[0] != equipped then [a[0]] else [];
      assert Without(a, equipped) == head + Without(a[1..], equipped);
      assert Without(a + b, equipped) == head + Without(a[1..] + b, equipped);
    }
  }

  /** `max(1, min(x, max_level))`. */
  function Clamp(x: int, maxLevel: int): int
  {
    var capped := if x < maxLevel then x else maxLevel;
    if capped < 1 then 1 else capped
  }

  /** The level targets before clamping: the owner's level with overpower, and the original level ±1, ±5, ±10. */
  function LevelTargets(playerLevel: int, opLevels: int, original: int): seq<int>
  {
    [playerLevel + opLevels, original + 10, original + 5, original + 1, original - 1, original - 5, original - 10]
  }

  /**
   * The candidate levels: each target clamped to `[1, max_level]`, less the
   * original level. Every candidate is at least 1, at most `max(1, max_level)`
   * and not the original level; the candidates are exactly the clamped
   * targets that differ from the original.
   */
  function Levels(playerLevel: int, opLevels: int, original: int, maxLevel: int): (r: set<int>)
    ensures forall l :: l in r ==> 1 <= l && l <= (if maxLevel < 1 then 1 else maxLevel) && l != original
    ensures forall x :: x in LevelTargets(playerLevel, opLevels, original) ==>
      Clamp(x, maxLevel) == original || Clamp(x, maxLevel) in r
    ensures forall l :: l in r ==> exists x :: x in LevelTargets(playerLevel, opLevels, original) && Clamp(x, maxLevel) == l
  {
    set x | x in LevelTargets(playerLevel, opLevels, original) && Clamp(x, maxLevel) != original :: Clamp(x, maxLevel)
  }

  /** What `WeaponReplacements.__init__` stores about a weapon. */
  datatype WeaponReplacements = WeaponReplacements(
    weapon: Inventory,
    manufacturers: seq<nat>,
    levels: set<int>,
    partLists: WeaponSlot -> seq<ObjRef>)

  /** `WeaponReplacements.__init__`. */
  function NewWeaponReplacements(weapon: Inventory): (r: WeaponReplacements)
    ensures r.weapon == weapon
    ensures r.manufacturers == Present(weapon.balance.manufacturers)
    ensures forall l :: l in r.levels ==> l != weapon.definition.gradeIndex
    ensures r.levels == Levels(weapon.playerLevel, weapon.opLevels, weapon.definition.gradeIndex, weapon.levelCap + weapon.opModifier)
    ensures forall s, p :: p in r.partLists(s) <==>
      p in weapon.balance.weightedParts(s) && p != weapon.definition.parts(s)
  {
    var def := weapon.definition;
    WeaponReplacements(
      weapon,
      Present(weapon.balance.manufacturers),
      Levels(weapon.playerLevel, weapon.opLevels, def.gradeIndex, weapon.levelCap + weapon.opModifier),
      s => Without(weapon.balance.weightedParts(s), def.parts(s)))
  }

  /** `create_replacement_list`: a list for a weapon, and a `ValueError` for anything else. */
  function CreateReplacementList(item: Inventory): (r: Result<WeaponReplacements, string>)
    ensures r.Ok? <==> CanCreateReplacements(item)
    ensures r.Ok? ==> r.value.weapon == item
  {
    if item.inheritsWeapon then Ok(NewWeaponReplacements(item))
    else Err("Unable to create replacement list")
  }

  // ---------------------------------------------------------------- slots

  /** Where a slot goes in `get_slots`: the manufacturer, then the level, then the basic slots in order. */
  function Rank(item: DummyItem): nat
  {
    match item
    case ManufacturerItem => 0
    case LevelItem => 1
    case BasicItem(s) => 2 + SlotIndex(s)
    case OtherItem(_) => 2 + |BASIC_SLOTS|
  }

  /** The first `k` basic slots with a non-empty list, as dummy items, in order. */
  function FilledSlots(r: WeaponReplacements, k: nat): seq<DummyItem>
    requires k <= |BASIC_SLOTS|
  {
    if k == 0 then []
    else
      var s := BASIC_SLOTS[k - 1];
      FilledSlots(r, k - 1) + (if r.partLists(s) != [] then [BasicItem(s)] else [])
  }

  /** The list `get_slots` returns. */
  function Slots(r: WeaponReplacements): seq<DummyItem>
  {
    (if r.manufacturers != [] then [ManufacturerItem] else [])
      + (if r.levels != {} then [LevelItem] else [])
      + FilledSlots(r, |BASIC_SLOTS|)
  }

  /** `get_slots`: the special slots first, then the basic slots with a list, appended in turn. */
  method GetSlots(r: WeaponReplacements) returns (slots: seq<DummyItem>)
    ensures slots == Slots(r)
  {
    slots := [];
    if r.manufacturers != [] {
      slots := slots + [ManufacturerItem];
    }
    if r.levels != {} {
      slots := slots + [LevelItem];
    }
    ghost var special := slots;
    for k := 0 to |BASIC_SLOTS|
      invariant slots == special + FilledSlots(r, k)
    {
      var s := BASIC_SLOTS[k];
      if r.partLists(s) != [] {
        slots := slots + [BasicItem(s)];
      }
    }
  }

  /** `SlotIndex` inverts indexing into `BASIC_SLOTS`. */
  lemma {:induction false} SlotIndexOf(i: nat)
    requires i < |BASIC_SLOTS|
    ensures SlotIndex(BASIC_SLOTS[i]) == i
  {
  }

  /** The filled basic slots among the first `k`: exactly those with a list, each ranked below `k + 2`, in rank order. */
  lemma {:induction false} FilledSlotsMembers(r: WeaponReplacements, k: nat)
    requires k <= |BASIC_SLOTS|
    ensures forall i :: 0 <= i < |FilledSlots(r, k)| ==>
      FilledSlots(r, k)[i].BasicItem? && Rank(FilledSlots(r, k)[i]) < k + 2
    ensures forall i, j :: 0 <= i < j < |FilledSlots(r, k)| ==>
      Rank(FilledSlots(r, k)[i]) < Rank(FilledSlots(r, k)[j])
    ensures forall s :: BasicItem(s) in FilledSlots(r, k) <==> SlotIndex(s) < k && r.partLists(s) != []
  {
    if k > 0 {
      FilledSlotsMembers(r, k - 1);
      var front := FilledSlots(r, k - 1);
      var s := BASIC_SLOTS[k - 1];
      SlotIndexOf(k - 1);
      if r.partLists(s) != [] {
        var f := front + [BasicItem(s)];
        assert FilledSlots(r, k) == f;
        assert Rank(BasicItem(s)) == k + 1;
        forall i | 0 <= i < |f| ensures f[i].BasicItem? && Rank(f[i]) < k + 2 {
          if i < |front| { assert f[i] == front[i]; }
        }
        forall i, j | 0 <= i < j < |f| ensures Rank(f[i]) < Rank(f[j]) {
          assert f[i] == front[i];
          if j < |front| { assert f[j] == front[j]; }
        }
        forall t ensures BasicItem(t) in f <==> SlotIndex(t) < k && r.partLists(t) != [] {
          if SlotIndex(t) == k - 1 {
            assert t == s;
          }
        }
      } else {
        assert FilledSlots(r, k) == front;
        forall t ensures BasicItem(t) in front <==> SlotIndex(t) < k && r.partLists(t) != [] {
          if SlotIndex(t) == k - 1 {
            assert BASIC_SLOTS[SlotIndex(t)] == t;
          }
        }
      }
    }
  }

  /**
   * `get_slots` offers the manufacturer exactly when there are manufacturers,
   * the level exactly when there are levels, each basic slot exactly when its
   * list is non-empty, and nothing else.
   */
  lemma {:induction false} SlotsOffered(r: WeaponReplacements)
    ensures ManufacturerItem in Slots(r) <==> r.manufacturers != []
    ensures LevelItem in Slots(r) <==> r.levels != {}
    ensures forall s :: BasicItem(s) in Slots(r) <==> r.partLists(s) != []
    ensures forall name :: OtherItem(name) !in Slots(r)
  {
    FilledSlotsMembers(r, |BASIC_SLOTS|);
    var filled := FilledSlots(r, |BASIC_SLOTS|);
    var special := (if r.manufacturers != [] then [ManufacturerItem] else [])
      + (if r.levels != {} then [LevelItem] else []);
    assert Slots(r) == special + filled;
    assert ManufacturerItem !in filled && LevelItem !in filled;
  }

  /** Each item ranks strictly below every later one. */
  predicate RankIncreasing(items: seq<DummyItem>)
  {
    forall i, j :: 0 <= i < j < |items| ==> Rank(items[i]) < Rank(items[j])
  }

  /** The manufacturer comes first, then the level, then the basic slots in declaration order, none twice. */
  lemma {:induction false} SlotsOrdered(r: WeaponReplacements)
    ensures RankIncreasing(Slots(r))
  {
    FilledSlotsMembers(r, |BASIC_SLOTS|);
    var filled := FilledSlots(r, |BASIC_SLOTS|);
    var special := (if r.manufacturers != [] then [ManufacturerItem] else [])
      + (if r.levels != {} then [LevelItem] else []);
    assert Slots(r) == special + filled;
    assert forall i :: 0 <= i < |special| ==> Rank(special[i]) < 2;
    assert RankIncreasing(special);
    forall i | 0 <= i < |filled| ensures Rank(filled[i]) >= 2 {
      assert filled[i].BasicItem?;
    }
    RankIncreasingConcat(special, filled, 2);
  }

  /** Two increasing runs, the first wholly below `bound` and the second wholly at or above it, make one. */
  lemma {:induction false} RankIncreasingConcat(x: seq<DummyItem>, y: seq<DummyItem>, bound: nat)
    requires RankIncreasing(x) && RankIncreasing(y)
    requires forall i :: 0 <= i < |x| ==> Rank(x[i]) < bound
    requires forall i :: 0 <= i < |y| ==> Rank(y[i]) >= bound
    ensures RankIncreasing(x + y)
  {
    var xy := x + y;
    forall i, j | 0 <= i < j < |xy| ensures Rank(xy[i]) < Rank(xy[j]) {
      if j < |x| {
        assert xy[i] == x[i] && xy[j] == x[j];
      } else if i < |x| {
        assert xy[i] == x[i] && xy[j] == y[j - |x|];
      } else {
        assert xy[i] == y[i - |x|] && xy[j] == y[j - |x|];
      }
    }
  }

  // ---------------------------------------------------------------- the replacements

  /** The definition field a slot edits, with the name `getattr` and `setattr` use. */
  datatype Field = ManufacturerField | GradeField | PartField(slot: WeaponSlot)

  /** A value of one of the lists: a manufacturer, a level or a part. */
  datatype Value = Maker(maker: nat) | Grade(level: int) | Piece(part: ObjRef)

  /** `MANUFACTURER_SLOT_NAMES`, `LEVEL_SLOT_NAMES` or `BASIC_SLOTS[slot]`, which raises `KeyError` for other items. */
  function FieldOf(slot: DummyItem): Option<Field>
  {
    match slot
    case ManufacturerItem => Some(ManufacturerField)
    case LevelItem => Some(GradeField)
    case BasicItem(s) => Some(PartField(s))
    case OtherItem(_) => None
  }

  /** `setattr(new_def, field, value)` on a copy, then `GameStage` synced to `ManufacturerGradeIndex`. */
  function Copied(def: DefinitionData, field: Field, v: Value): (d: DefinitionData)
    ensures d.gameStage == d.gradeIndex
    ensures d.manufacturer == (if field == ManufacturerField && v.Maker? then Some(v.maker) else def.manufacturer)
    ensures d.gradeIndex == (if field == GradeField && v.Grade? then v.level else def.gradeIndex)
    ensures forall t :: d.parts(t) == (if field == PartField(t) && v.Piece? then v.part else def.parts(t))
  {
    var edited :=
      match field
      case ManufacturerField => if v.Maker? then def.(manufacturer := Some(v.maker)) else def
      case GradeField => if v.Grade? then def.(gradeIndex := v.level) else def
      case PartField(s) => if v.Piece? then def.(parts := t => if t == s then v.part else def.parts(t)) else def;
    edited.(gameStage := edited.gradeIndex)
  }

  /** The values a field iterates over: the list, or the level set in whatever order the set yields. */
  method ValuesOf(r: WeaponReplacements, field: Field) returns (values: seq<Value>)
    ensures field == ManufacturerField ==> values == seq(|r.manufacturers|, i requires 0 <= i < |r.manufacturers| => Maker(r.manufacturers[i]))
    ensures field.PartField? ==> values == seq(|r.partLists(field.slot)|, i requires 0 <= i < |r.partLists(field.slot)| => Piece(r.partLists(field.slot)[i]))
    ensures field == GradeField ==> forall i :: 0 <= i < |values| ==> values[i].Grade? && values[i].level in r.levels
    ensures field == GradeField ==> forall l :: l in r.levels ==> Grade(l) in values
    ensures field == GradeField ==> forall i, j :: 0 <= i < j < |values| ==> values[i] != values[j]
  {
    match field
    case ManufacturerField =>
      values := seq(|r.manufacturers|, i requires 0 <= i < |r.manufacturers| => Maker(r.manufacturers[i]));
    case PartField(s) =>
      values := seq(|r.partLists(s)|, i requires 0 <= i < |r.partLists(s)| => Piece(r.partLists(s)[i]));
    case GradeField =>
      values := ListLevels(r.levels);
  }

  /** The level set as values, in whatever order the set yields them. */
  method ListLevels(levels: set<int>) returns (values: seq<Value>)
    ensures forall i :: 0 <= i < |values| ==> values[i].Grade? && values[i].level in levels
    ensures forall l :: l in levels ==> Grade(l) in values
    ensures forall i, j :: 0 <= i < j < |values| ==> values[i] != values[j]
  {
    values := [];
    var remaining := levels;
    while remaining != {}
      invariant remaining <= levels
      invariant forall i :: 0 <= i < |values| ==> values[i].Grade? && values[i].level in levels && values[i].level !in remaining
      invariant forall l :: l in levels && l !in remaining ==> Grade(l) in values
      invariant forall i, j :: 0 <= i < j < |values| ==> values[i] != values[j]
      decreases remaining
    {
      ghost var some := SomeMember(remaining);
      var lv: int :| lv in remaining;
      values := values + [Grade(lv)];
      remaining := remaining - {lv};
    }
  }

  /**
   * `create_replacements_for_slot`: one new definition per value of the slot's
   * list, each a copy of the weapon's definition with that value set and the
   * game stage synced. It raises when the weapon has been garbage collected
   * (`collected`) and, with a `KeyError`, for a slot that is not a weapon slot.
   * Creating the weapons from the definitions is an engine call, left out.
   */
  method CreateReplacementsForSlot(r: WeaponReplacements, slot: DummyItem, collected: bool)
    returns (result: Result<seq<DefinitionData>, string>)
    ensures collected ==> result.Err?
    ensures !collected && FieldOf(slot).None? ==> result.Err?
    ensures !collected && FieldOf(slot).Some? ==> result.Ok?
    ensures result.Ok? && slot == ManufacturerItem ==>
      |result.value| == |r.manufacturers|
      && forall i :: 0 <= i < |result.value| ==> result.value[i] == Copied(r.weapon.definition, ManufacturerField, Maker(r.manufacturers[i]))
    ensures result.Ok? && slot.BasicItem? ==>
      |result.value| == |r.partLists(slot.slot)|
      && forall i :: 0 <= i < |result.value| ==>
           result.value[i] == Copied(r.weapon.definition, PartField(slot.slot), Piece(r.partLists(slot.slot)[i]))
    ensures result.Ok? && slot == LevelItem ==>
      |result.value| == |r.levels|
      && (forall i :: 0 <= i < |result.value| ==>
            result.value[i].gradeIndex in r.levels
            && result.value[i] == Copied(r.weapon.definition, GradeField, Grade(result.value[i].gradeIndex)))
      && (forall l :: l in r.levels ==> exists i :: 0 <= i < |result.value| && result.value[i].gradeIndex == l)
  {
    if collected {
      return Err("weapon got gc'd while we were still working with it!");
    }
    var field := FieldOf(slot);
    if field.None? {
      return Err("KeyError");
    }
    var values := ValuesOf(r, field.value);
    var def := r.weapon.definition;
    var newWeapons: seq<DefinitionData> := [];
    for i := 0 to |values|
      invariant |newWeapons| == i
      invariant forall k :: 0 <= k < i ==> newWeapons[k] == Copied(def, field.value, values[k])
    {
      newWeapons := newWeapons + [Copied(def, field.value, values[i])];
    }
    if slot == LevelItem {
      LevelValuesCount(r.levels, values);
      forall l | l in r.levels ensures exists i :: 0 <= i < |newWeapons| && newWeapons[i].gradeIndex == l {
        var i :| 0 <= i < |values| && values[i] == Grade(l);
        assert newWeapons[i].gradeIndex == l;
      }
    }
    result := Ok(newWeapons);
  }

  /** A list of distinct levels that holds every level of a set and nothing else is as long as the set. */
  lemma {:induction false} LevelValuesCount(levels: set<int>, values: seq<Value>)
    requires forall i :: 0 <= i < |values| ==> values[i].Grade? && values[i].level in levels
    requires forall l :: l in levels ==> Grade(l) in values
    requires forall i, j :: 0 <= i < j < |values| ==> values[i] != values[j]
    ensures |values| == |levels|
    decreases |values|
  {
    if values != [] {
      var last := values[|values| - 1];
      var front := values[..|values| - 1];
      forall l | l in levels - {last.level} ensures Grade(l) in front {
        var i :| 0 <= i < |values| && values[i] == Grade(l);
      }
      LevelValuesCount(levels - {last.level}, front);
    } else if levels != {} {
      var l := SomeMember(levels);
      assert false;
    }
  }
}
