/**
 * The weapon/item type restriction (`equip_locker/restrictions/weap_item_type.py`):
 * weapons are locked by their weapon type, other items by their class.
 */
module WeaponItemTypes {
  import opened Wrappers
  import opened EquipOptions
  import ItemCodeText

  /** The indices of `EWeaponType`; the lasers of TPS are index 6. */
  const WT_PISTOL: nat := 0
  const WT_SHOTGUN: nat := 1
  const WT_SMG: nat := 2
  const WT_SNIPER_RIFLE: nat := 3
  const WT_ASSAULT_RIFLE: nat := 4
  const WT_ROCKET_LAUNCHER: nat := 5
  const WT_LASER: nat := 6

  /** A weapon type option: its display name, weapon type and supported games. */
  datatype WeaponOption = WeaponOption(name: string, weaponType: nat, supportedGames: set<Game>)

  /** An item type option: its display name, class name and supported games. */
  datatype ItemOption = ItemOption(name: string, className: string, supportedGames: set<Game>)

  /** `ALL_WEAPON_TYPES`, in declaration order. */
  const ALL_WEAPON_TYPES: seq<WeaponOption> := [
    WeaponOption("Pistols", WT_PISTOL, WILLOW2),
    WeaponOption("Shotguns", WT_SHOTGUN, WILLOW2),
    WeaponOption("SMGs", WT_SMG, WILLOW2),
    WeaponOption("Snipers", WT_SNIPER_RIFLE, WILLOW2),
    WeaponOption("Rifles", WT_ASSAULT_RIFLE, WILLOW2),
    WeaponOption("Launchers", WT_ROCKET_LAUNCHER, WILLOW2),
    WeaponOption("Lasers", WT_LASER, {ItemCodeText.TPS})
  ]

  /** `ALL_ITEM_TYPES`, in declaration order. */
  const ALL_ITEM_TYPES: seq<ItemOption> := [
    ItemOption("Shields", "WillowShield", WILLOW2),
    ItemOption("Grenade Mods", "WillowGrenadeMod", WILLOW2),
    ItemOption("Class Mods", "WillowClassMod", WILLOW2),
    ItemOption("Relics", "WillowArtifact", {ItemCodeText.BL2, ItemCodeText.AoDK}),
    ItemOption("Oz Kits", "WillowArtifact", {ItemCodeText.TPS})
  ]

  function WeaponShown(game: Game): WeaponOption -> bool
  {
    (o: WeaponOption) => game in o.supportedGames
  }

  function WeaponTypeOf(o: WeaponOption): nat
  {
    o.weaponType
  }

  function ItemShown(game: Game): ItemOption -> bool
  {
    (o: ItemOption) => game in o.supportedGames
  }

  function ClassNameOf(o: ItemOption): string
  {
    o.className
  }

  /** `WEAPON_TYPE_MAP`: the visible weapon type options by weapon type. */
  function WeaponTypeMap(game: Game): map<nat, WeaponOption>
  {
    VisibleMap(ALL_WEAPON_TYPES, WeaponShown(game), WeaponTypeOf)
  }

  /** `ITEM_CLASS_MAP`: the visible item type options by class name. */
  function ItemClassMap(game: Game): map<string, ItemOption>
  {
    VisibleMap(ALL_ITEM_TYPES, ItemShown(game), ClassNameOf)
  }

  /** `can_item_be_equipped` of the weapon/item type restriction; `allowed` is each option's value by name. */
  function CanBeEquipped(item: Item, game: Game, allowed: string -> bool): (r: bool)
    ensures (forall n :: allowed(n)) ==> r
    ensures item.className == "WillowWeapon" && item.weaponType.None? ==> r
  {
    if item.className == "WillowWeapon" then
      match item.weaponType
      case None => true
      case Some(t) => if t !in WeaponTypeMap(game) then true else allowed(WeaponTypeMap(game)[t].name)
    else if item.className !in ItemClassMap(game) then true
    else allowed(ItemClassMap(game)[item.className].name)
  }

  /**
   * A weapon is only refused by the visible option of its own weapon type set
   * to Not Allowed; any other item only by the visible option of its own class.
   */
  lemma {:induction false} RefusedOnlyByOwnTypeOption(item: Item, game: Game, allowed: string -> bool)
    requires !CanBeEquipped(item, game, allowed)
    ensures item.className == "WillowWeapon" ==>
      item.weaponType.Some?
      && exists i :: (0 <= i < |ALL_WEAPON_TYPES| && game in ALL_WEAPON_TYPES[i].supportedGames
           && ALL_WEAPON_TYPES[i].weaponType == item.weaponType.value && !allowed(ALL_WEAPON_TYPES[i].name))
    ensures item.className != "WillowWeapon" ==>
      exists i :: (0 <= i < |ALL_ITEM_TYPES| && game in ALL_ITEM_TYPES[i].supportedGames
        && ALL_ITEM_TYPES[i].className == item.className && !allowed(ALL_ITEM_TYPES[i].name))
  {
    if item.className == "WillowWeapon" {
      VisibleMapSpec(ALL_WEAPON_TYPES, WeaponShown(game), WeaponTypeOf);
      var t := item.weaponType.value;
      var i :| LastOwner(ALL_WEAPON_TYPES, WeaponShown(game), WeaponTypeOf, t, i) && WeaponTypeMap(game)[t] == ALL_WEAPON_TYPES[i];
    } else {
      VisibleMapSpec(ALL_ITEM_TYPES, ItemShown(game), ClassNameOf);
      var i :| LastOwner(ALL_ITEM_TYPES, ItemShown(game), ClassNameOf, item.className, i)
        && ItemClassMap(game)[item.className] == ALL_ITEM_TYPES[i];
    }
  }

  /**
   * Relics and Oz Kits are both `WillowArtifact` but never visible together:
   * the class belongs to Oz Kits in TPS and to Relics in the other games.
   */
  lemma {:induction false} ArtifactClassOwner(game: Game)
    ensures "WillowArtifact" in ItemClassMap(game)
    ensures ItemClassMap(game)["WillowArtifact"].name == if game == ItemCodeText.TPS then "Oz Kits" else "Relics"
  {
    forall i | 0 <= i < |ALL_ITEM_TYPES| && ClassNameOf(ALL_ITEM_TYPES[i]) == "WillowArtifact"
      ensures i == 3 || i == 4
    {
      assert ALL_ITEM_TYPES[i].className == "WillowArtifact";
    }
    if game == ItemCodeText.TPS {
      SoleOwner(ALL_ITEM_TYPES, ItemShown(game), ClassNameOf, "WillowArtifact", 4);
    } else {
      SoleOwner(ALL_ITEM_TYPES, ItemShown(game), ClassNameOf, "WillowArtifact", 3);
    }
  }

  /** The Lasers option is visible in TPS only, so elsewhere `WEAPON_TYPE_MAP` has no entry for type 6. */
  lemma {:induction false} LasersOnlyInTps(game: Game)
    ensures WT_LASER in WeaponTypeMap(game) <==> game == ItemCodeText.TPS
  {
    forall i | 0 <= i < |ALL_WEAPON_TYPES| && WeaponTypeOf(ALL_WEAPON_TYPES[i]) == WT_LASER
      ensures i == 6
    {
    }
    if game == ItemCodeText.TPS {
      SoleOwner(ALL_WEAPON_TYPES, WeaponShown(game), WeaponTypeOf, WT_LASER, 6);
    } else {
      NoOwner(ALL_WEAPON_TYPES, WeaponShown(game), WeaponTypeOf, WT_LASER);
    }
  }
}
