/**
 * The equip locker (`equip_locker/__init__.py`): each restriction has an
 * enable switch, an item may be equipped when every enabled restriction
 * accepts it, and the engine hooks and the unequip pass act on that verdict.
 */
module EquipLocker {
  import opened Wrappers
  import opened EquipOptions
  import Allegiance
  import Rarities
  import WeaponItemTypes

  datatype Restriction = AllegianceRestriction | RarityRestriction | WeaponItemTypeRestriction

  function Name(r: Restriction): string
  {
    match r
    case AllegianceRestriction => "Allegiance"
    case RarityRestriction => "Rarity"
    case WeaponItemTypeRestriction => "Weapon/Item Type"
  }

  /** The restrictions, in the order the mod registers them. */
  const RESTRICTIONS: seq<Restriction> := [AllegianceRestriction, RarityRestriction, WeaponItemTypeRestriction]

  /** The module-level name under which a restriction's own module defines it. */
  function DefinedName(r: Restriction): string
  {
    match r
    case AllegianceRestriction => "allegiance_restriction"
    case RarityRestriction => "rarity_restriction"
    case WeaponItemTypeRestriction => "weapon_item_type_restriction"
  }

  /** `from … import name`: the restriction defined under `name`, if any. */
  function ImportedRestriction(name: string): (r: Option<Restriction>)
    ensures forall x: Restriction :: DefinedName(x) == name ==> r == Some(x)
    ensures r.Some? ==> DefinedName(r.value) == name
  {
    if name == "allegiance_restriction" then Some(AllegianceRestriction)
    else if name == "rarity_restriction" then Some(RarityRestriction)
    else if name == "weapon_item_type_restriction" then Some(WeaponItemTypeRestriction)
    else None
  }

  /** The package's imports of the restrictions, in order: an unknown name raises `ImportError`. */
  function ImportRestrictions(names: seq<string>): (r: Result<seq<Restriction>, string>)
    ensures r.Err? <==> exists i :: 0 <= i < |names| && ImportedRestriction(names[i]).None?
    ensures r.Ok? ==> |r.value| == |names| && forall i :: 0 <= i < |names| ==> DefinedName(r.value[i]) == names[i]
    decreases |names|
  {
    if names == [] then Ok([])
    else
      var x := ImportedRestriction(names[0]);
      if x.None? then Err("ImportError: cannot import name '" + names[0] + "'")
      else
        var rest := ImportRestrictions(names[1..]);
        if rest.Err? then rest else Ok([x.value] + rest.value)
  }

  /** The names the package imports, as written: the allegiance restriction is misspelt. */
  const IMPORTED_NAMES_AS_WRITTEN: seq<string> := ["allegience_restriction", "rarity_restriction", "weapon_item_type_restriction"]

  /**
   * As written, importing the package fails on the misspelt name, while the
   * names the restriction modules define import `RESTRICTIONS`, in order.
   */
  lemma {:induction false} MisspeltImportFails()
    ensures ImportRestrictions(IMPORTED_NAMES_AS_WRITTEN).Err?
    ensures ImportRestrictions(seq(|RESTRICTIONS|, i requires 0 <= i < |RESTRICTIONS| => DefinedName(RESTRICTIONS[i]))) == Ok(RESTRICTIONS)
  {
    assert ImportedRestriction(IMPORTED_NAMES_AS_WRITTEN[0]).None?;
    var names := seq(|RESTRICTIONS|, i requires 0 <= i < |RESTRICTIONS| => DefinedName(RESTRICTIONS[i]));
    var third := [DefinedName(WeaponItemTypeRestriction)];
    var second := [DefinedName(RarityRestriction)] + third;
    assert names == [DefinedName(AllegianceRestriction)] + second;
    assert ImportedRestriction(third[0]) == Some(WeaponItemTypeRestriction) && third[1..] == [];
    assert ImportRestrictions(third[1..]) == Ok([]) && [WeaponItemTypeRestriction] + [] == [WeaponItemTypeRestriction];
    assert ImportRestrictions(third) == Ok([WeaponItemTypeRestriction]);
    assert ImportedRestriction(second[0]) == Some(RarityRestriction) && second[1..] == third;
    assert ImportRestrictions(second[1..]) == Ok([WeaponItemTypeRestriction]);
    assert [RarityRestriction] + [WeaponItemTypeRestriction] == [RarityRestriction, WeaponItemTypeRestriction];
    assert [AllegianceRestriction] + [RarityRestriction, WeaponItemTypeRestriction] == RESTRICTIONS;
    assert ImportRestrictions(second) == Ok([RarityRestriction, WeaponItemTypeRestriction]);
    assert ImportedRestriction(names[0]) == Some(AllegianceRestriction) && names[1..] == second;
  }

  /** An entry of the mod's option list: a restriction's enable switch, or the nested menu of its options. */
  datatype LockerOption = EnableSwitch(name: string, restriction: Restriction) | Nested(name: string, restriction: Restriction)

  /**
   * The module-level loop: every restriction contributes its enable switch
   * followed by its nested menu, and is paired with its switch.
   */
  method BuildOptions() returns (options: seq<LockerOption>, pairs: seq<(LockerOption, Restriction)>)
    ensures |options| == 2 * |RESTRICTIONS| && |pairs| == |RESTRICTIONS|
    ensures forall i :: 0 <= i < |pairs| ==>
      pairs[i] == (EnableSwitch("Enable " + Name(RESTRICTIONS[i]), RESTRICTIONS[i]), RESTRICTIONS[i])
      && options[2 * i] == pairs[i].0 && options[2 * i + 1] == Nested(Name(RESTRICTIONS[i]), RESTRICTIONS[i])
  {
    options, pairs := [], [];
    for k := 0 to |RESTRICTIONS|
      invariant |options| == 2 * k && |pairs| == k
      invariant forall i :: 0 <= i < k ==>
        pairs[i] == (EnableSwitch("Enable " + Name(RESTRICTIONS[i]), RESTRICTIONS[i]), RESTRICTIONS[i])
        && options[2 * i] == pairs[i].0 && options[2 * i + 1] == Nested(Name(RESTRICTIONS[i]), RESTRICTIONS[i])
    {
      var restriction := RESTRICTIONS[k];
      var enable := EnableSwitch("Enable " + Name(restriction), restriction);
      options := options + [enable, Nested(Name(restriction), restriction)];
      pairs := pairs + [(enable, restriction)];
    }
  }

  /**
   * The values of every option: the current game, each enable switch (all
   * off by default), and the options of the three restrictions.
   * `rarityForLevel` is the game's `GetRarityForLevel`.
   */
  datatype LockerSettings = LockerSettings(
    game: Game,
    enabled: Restriction -> bool,
    allegiance: Allegiance.AllegianceSettings,
    rarityForLevel: int -> nat,
    rarityAllowed: string -> bool,
    typeAllowed: string -> bool)

  /** The verdict of one restriction. */
  function Accepts(r: Restriction, item: Item, s: LockerSettings): (ok: bool)
    ensures r == AllegianceRestriction && item.manufacturer.None? ==> ok
    ensures r == RarityRestriction && (forall n :: s.rarityAllowed(n)) ==> ok
    ensures r == WeaponItemTypeRestriction && (forall n :: s.typeAllowed(n)) ==> ok
  {
    match r
    case AllegianceRestriction => Allegiance.CanBeEquipped(item, s.game, s.allegiance)
    case RarityRestriction => Rarities.CanBeEquipped(item, s.game, s.rarityForLevel, s.rarityAllowed)
    case WeaponItemTypeRestriction => WeaponItemTypes.CanBeEquipped(item, s.game, s.typeAllowed)
  }

  /** Every enabled restriction accepts the item. */
  predicate AcceptedByEnabled(pairs: seq<Restriction>, item: Item, s: LockerSettings)
  {
    forall i :: 0 <= i < |pairs| && s.enabled(pairs[i]) ==> Accepts(pairs[i], item, s)
  }

  /** The restrictions the loop asks, in order: the enabled ones, up to and including the first that refuses. */
  function Consulted(pairs: seq<Restriction>, item: Item, s: LockerSettings): (c: seq<Restriction>)
    ensures |c| <= |pairs|
    decreases |pairs|
  {
    if pairs == [] then []
    else if !s.enabled(pairs[0]) then Consulted(pairs[1..], item, s)
    else if !Accepts(pairs[0], item, s) then [pairs[0]]
    else [pairs[0]] + Consulted(pairs[1..], item, s)
  }

  /**
   * Only enabled restrictions are asked, every one asked before the last
   * accepted, and the item is refused exactly when the last one asked refused.
   */
  lemma {:induction false} ConsultedSpec(pairs: seq<Restriction>, item: Item, s: LockerSettings)
    ensures var c := Consulted(pairs, item, s);
      && (forall j :: 0 <= j < |c| ==> s.enabled(c[j]) && c[j] in pairs)
      && (forall j :: 0 <= j < |c| - 1 ==> Accepts(c[j], item, s))
      && (AcceptedByEnabled(pairs, item, s) <==> c == [] || Accepts(c[|c| - 1], item, s))
    decreases |pairs|
  {
    if pairs != [] {
      ConsultedSpec(pairs[1..], item, s);
      var c := Consulted(pairs[1..], item, s);
      assert forall j :: 0 <= j < |c| ==> c[j] in pairs[1..];
      assert forall i :: 1 <= i < |pairs| ==> pairs[i] == pairs[1..][i - 1];
      if s.enabled(pairs[0]) && Accepts(pairs[0], item, s) {
        var d := [pairs[0]] + c;
        assert forall j :: 1 <= j < |d| ==> d[j] == c[j - 1];
      }
    }
  }

  /** `can_item_be_equipped`: the enabled restrictions are asked in order, stopping at the first refusal. */
  method CanItemBeEquipped(pairs: seq<Restriction>, item: Item, s: LockerSettings) returns (ok: bool, consulted: seq<Restriction>)
    ensures ok <==> AcceptedByEnabled(pairs, item, s)
    ensures consulted == Consulted(pairs, item, s)
  {
    consulted := [];
    var i := 0;
    while i < |pairs|
      invariant i <= |pairs|
      invariant forall j :: 0 <= j < i && s.enabled(pairs[j]) ==> Accepts(pairs[j], item, s)
      invariant consulted + Consulted(pairs[i..], item, s) == Consulted(pairs, item, s)
    {
      assert pairs[i..][0] == pairs[i] && pairs[i..][1..] == pairs[i + 1..];
      if !s.enabled(pairs[i]) {
        i := i + 1;
        continue;
      }
      consulted := consulted + [pairs[i]];
      if !Accepts(pairs[i], item, s) {
        return false, consulted;
      }
      assert consulted + Consulted(pairs[i + 1..], item, s) == Consulted(pairs, item, s);
      i := i + 1;
    }
    assert pairs[i..] == [];
    ok := true;
  }

  // ---------------------------------------------------------------- engine hooks

  /**
   * The `CanBeUsedBy` hook, and the `InventoryShouldBeReadiedWhenEquipped`
   * hook with the inventory manager's owner as the pawn: for the local pawn
   * an item that may not be equipped is refused (`Some(false)`); otherwise
   * the engine decides (`None`).
   */
  function CanBeUsedByHook(isLocalPawn: bool, equippable: bool): Option<bool>
  {
    if !isLocalPawn then None
    else if !equippable then Some(false)
    else None
  }

  /** What `CanBeUsedBy` answers once the hook has run, given the engine's own answer. */
  function EffectiveCanBeUsedBy(isLocalPawn: bool, equippable: bool, engine: bool): (r: bool)
  {
    CanBeUsedByHook(isLocalPawn, equippable).GetOr(engine)
  }

  /** For the local pawn the hook narrows the engine's answer to equippable items; others are untouched. */
  lemma {:induction false} CanBeUsedByNarrows(isLocalPawn: bool, equippable: bool, engine: bool)
    ensures EffectiveCanBeUsedBy(isLocalPawn, equippable, engine) == (engine && (!isLocalPawn || equippable))
  {
  }

  /** What the `GiveTo` hook does with a picked-up item. */
  datatype GiveToOutcome =
    | Proceed                          // the engine's own GiveTo runs
    | AddedUnreadied(playSound: bool)  // the item is added without readying it, and GiveTo is blocked

  /** The `GiveTo` hook: a pickup is diverted only for the local pawn, an item it may not equip, and a present inventory manager. */
  function GiveTo(isLocalPawn: bool, equippable: bool, hasInventoryManager: bool, playSound: bool): (r: GiveToOutcome)
    ensures r.AddedUnreadied? <==> isLocalPawn && !equippable && hasInventoryManager
    ensures r.AddedUnreadied? ==> r.playSound == playSound
  {
    if !isLocalPawn then Proceed
    else if equippable then Proceed
    else if !hasInventoryManager then Proceed
    else AddedUnreadied(playSound)
  }

  /** A pickup is only diverted for an item that `CanBeUsedBy` also refuses. */
  lemma {:induction false} DivertedOnlyWhenRefused(isLocalPawn: bool, equippable: bool, hasInventoryManager: bool, playSound: bool, engine: bool)
    ensures GiveTo(isLocalPawn, equippable, hasInventoryManager, playSound).AddedUnreadied?
      <==> hasInventoryManager && CanBeUsedByHook(isLocalPawn, equippable) == Some(false)
    ensures GiveTo(isLocalPawn, equippable, hasInventoryManager, playSound).AddedUnreadied? ==>
      !EffectiveCanBeUsedBy(isLocalPawn, equippable, engine)
  {
  }

  // ---------------------------------------------------------------- equipped items

  /** Engine objects, by identity. */
  type ObjectId = nat

  /** The inventory manager's two chains: the weapons (`InventoryChain`) and the items (`ItemChain`). */
  datatype InventoryManager = InventoryManager(inventoryChain: Option<ObjectId>, itemChain: Option<ObjectId>)

  /**
   * Following `.Inventory` (`next`, absent for None) from `head` visits
   * exactly `order` and then reaches None.
   */
  ghost predicate IsChain(next: map<ObjectId, ObjectId>, head: Option<ObjectId>, order: seq<ObjectId>)
  {
    if order == [] then head.None?
    else
      && head == Some(order[0])
      && (forall i :: 0 <= i < |order| - 1 ==> order[i] in next && next[order[i]] == order[i + 1])
      && order[|order| - 1] !in next
  }

  /** The inner loop of `get_equipped_items`: one chain, followed until None. */
  method WalkChain(next: map<ObjectId, ObjectId>, head: Option<ObjectId>, ghost order: seq<ObjectId>) returns (items: seq<ObjectId>)
    requires IsChain(next, head, order)
    ensures items == order
  {
    items := [];
    var item := head;
    ghost var i := 0;
    while item.Some?
      invariant i <= |order| && items == order[..i]
      invariant item == if i < |order| then Some(order[i]) else None
      decreases |order| - i
    {
      items := items + [item.value];
      item := if item.value in next then Some(next[item.value]) else None;
      i := i + 1;
    }
    assert order[..i] == order;
  }

  /** `get_equipped_items`: nothing without a pawn, else the weapon chain followed by the item chain. */
  method GetEquippedItems(pawn: Option<InventoryManager>, next: map<ObjectId, ObjectId>,
                          ghost weapons: seq<ObjectId>, ghost items: seq<ObjectId>) returns (equipped: seq<ObjectId>)
    requires pawn.Some? ==> IsChain(next, pawn.value.inventoryChain, weapons) && IsChain(next, pawn.value.itemChain, items)
    ensures equipped == if pawn.None? then [] else weapons + items
  {
    if pawn.None? {
      return [];
    }
    var first := WalkChain(next, pawn.value.inventoryChain, weapons);
    var second := WalkChain(next, pawn.value.itemChain, items);
    equipped := first + second;
  }

  /** The equipped items `CanBeUsedBy` refuses, in order. */
  function Restricted(equipped: seq<ObjectId>, canBeUsedBy: ObjectId -> bool): seq<ObjectId>
    decreases |equipped|
  {
    if equipped == [] then []
    else (if canBeUsedBy(equipped[0]) then [] else [equipped[0]]) + Restricted(equipped[1..], canBeUsedBy)
  }

  /** An item is unreadied exactly when it is equipped and refused. */
  lemma {:induction false} RestrictedMembers(equipped: seq<ObjectId>, canBeUsedBy: ObjectId -> bool, x: ObjectId)
    ensures x in Restricted(equipped, canBeUsedBy) <==> x in equipped && !canBeUsedBy(x)
    decreases |equipped|
  {
    if equipped != [] {
      RestrictedMembers(equipped[1..], canBeUsedBy, x);
      assert equipped == [equipped[0]] + equipped[1..];
    }
  }

  lemma {:induction false} RestrictedStep(equipped: seq<ObjectId>, canBeUsedBy: ObjectId -> bool, i: nat)
    requires i < |equipped|
    ensures Restricted(equipped[i..], canBeUsedBy)
      == (if canBeUsedBy(equipped[i]) then [] else [equipped[i]]) + Restricted(equipped[i + 1..], canBeUsedBy)
  {
    assert equipped[i..][0] == equipped[i] && equipped[i..][1..] == equipped[i + 1..];
  }

  /** `unequip_restricted_items`: every equipped item `CanBeUsedBy` refuses is unreadied, in order. */
  method UnequipRestrictedItems(pawn: Option<InventoryManager>, next: map<ObjectId, ObjectId>,
                                ghost weapons: seq<ObjectId>, ghost items: seq<ObjectId>,
                                canBeUsedBy: ObjectId -> bool) returns (unreadied: seq<ObjectId>)
    requires pawn.Some? ==> IsChain(next, pawn.value.inventoryChain, weapons) && IsChain(next, pawn.value.itemChain, items)
    ensures unreadied == Restricted(if pawn.None? then [] else weapons + items, canBeUsedBy)
  {
    if pawn.None? {
      return [];
    }
    var equipped := GetEquippedItems(pawn, next, weapons, items);
    unreadied := UnreadyRefused(equipped, canBeUsedBy);
  }

  /** The loop of `unequip_restricted_items` over the equipped items. */
  method UnreadyRefused(equipped: seq<ObjectId>, canBeUsedBy: ObjectId -> bool) returns (unreadied: seq<ObjectId>)
    ensures unreadied == Restricted(equipped, canBeUsedBy)
  {
    unreadied := [];
    for i := 0 to |equipped|
      invariant unreadied + Restricted(equipped[i..], canBeUsedBy) == Restricted(equipped, canBeUsedBy)
    {
      RestrictedStep(equipped, canBeUsedBy, i);
      ghost var rest := Restricted(equipped[i + 1..], canBeUsedBy);
      if !canBeUsedBy(equipped[i]) {
        assert unreadied + ([equipped[i]] + rest) == (unreadied + [equipped[i]]) + rest;
        unreadied := unreadied + [equipped[i]];
      } else {
        assert [] + rest == rest;
      }
    }
    assert equipped[|equipped|..] == [];
  }

  /**
   * With the hook in place, the unequip pass for the local pawn unreadies
   * exactly the equipped items that some enabled restriction refuses or that
   * the engine itself refuses.
   */
  lemma {:induction false} UnequipTakesOffRestricted(equipped: seq<ObjectId>, itemOf: ObjectId -> Item, s: LockerSettings,
                                  engine: ObjectId -> bool, canBeUsedBy: ObjectId -> bool, x: ObjectId)
    requires forall y :: canBeUsedBy(y) == EffectiveCanBeUsedBy(true, AcceptedByEnabled(RESTRICTIONS, itemOf(y), s), engine(y))
    ensures x in Restricted(equipped, canBeUsedBy) <==>
      x in equipped && (!AcceptedByEnabled(RESTRICTIONS, itemOf(x), s) || !engine(x))
  {
    RestrictedMembers(equipped, canBeUsedBy, x);
  }
}
