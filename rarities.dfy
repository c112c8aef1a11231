/**
 * The rarity restriction (`equip_locker/restrictions/rarity.py`): items are
 * locked by the rarity the game's globals give their rarity level.
 */
module Rarities {
  import opened Wrappers
  import opened EquipOptions
  import ItemCodeText

  /** The indices of `EItemRarity`. */
  const RARITY_COMMON: nat := 1
  const RARITY_UNCOMMON: nat := 2
  const RARITY_RARE: nat := 3
  const RARITY_VERY_RARE: nat := 4
  const RARITY_LEGENDARY: nat := 5
  const RARITY_SERAPH: nat := 6
  const RARITY_RAINBOW: nat := 7

  /** A rarity option: its display name, rarity and supported games. */
  datatype RarityOption = RarityOption(name: string, rarity: nat, supportedGames: set<Game>)

  /** `ALL_RARITIES`, in declaration order. Seraph and Glitch share a rarity. */
  const ALL_RARITIES: seq<RarityOption> := [
    RarityOption("Common", RARITY_COMMON, WILLOW2),
    RarityOption("Uncommon", RARITY_UNCOMMON, WILLOW2),
    RarityOption("Rare", RARITY_RARE, WILLOW2),
    RarityOption("Very Rare", RARITY_VERY_RARE, WILLOW2),
    RarityOption("Legendary", RARITY_LEGENDARY, WILLOW2),
    RarityOption("Seraph", RARITY_SERAPH, {ItemCodeText.BL2, ItemCodeText.AoDK}),
    RarityOption("Glitch", RARITY_SERAPH, {ItemCodeText.TPS}),
    RarityOption("Rainbow", RARITY_RAINBOW, {ItemCodeText.BL2, ItemCodeText.AoDK})
  ]

  function Shown(game: Game): RarityOption -> bool
  {
    (o: RarityOption) => game in o.supportedGames
  }

  function RarityOf(o: RarityOption): nat
  {
    o.rarity
  }

  /** `RARITY_LEVEL_MAP`: the visible rarity options by rarity. */
  function RarityLevelMap(game: Game): map<nat, RarityOption>
  {
    VisibleMap(ALL_RARITIES, Shown(game), RarityOf)
  }

  /**
   * `can_item_be_equipped` of the rarity restriction. `rarityForLevel` is the
   * globals object's `GetRarityForLevel`; `allowed` is each option's value by name.
   */
  function CanBeEquipped(item: Item, game: Game, rarityForLevel: int -> nat, allowed: string -> bool): (r: bool)
    ensures (forall n :: allowed(n)) ==> r
    ensures rarityForLevel(item.rarityLevel) !in RarityLevelMap(game) ==> r
  {
    var rarity := rarityForLevel(item.rarityLevel);
    if rarity !in RarityLevelMap(game) then true else allowed(RarityLevelMap(game)[rarity].name)
  }

  /** An item is only refused by the visible option of its own rarity set to Not Allowed. */
  lemma {:induction false} RefusedOnlyByOwnRarityOption(item: Item, game: Game, rarityForLevel: int -> nat, allowed: string -> bool)
    requires !CanBeEquipped(item, game, rarityForLevel, allowed)
    ensures exists i :: (0 <= i < |ALL_RARITIES| && game in ALL_RARITIES[i].supportedGames
      && ALL_RARITIES[i].rarity == rarityForLevel(item.rarityLevel) && !allowed(ALL_RARITIES[i].name))
  {
    VisibleMapSpec(ALL_RARITIES, Shown(game), RarityOf);
    var rarity := rarityForLevel(item.rarityLevel);
    var i :| LastOwner(ALL_RARITIES, Shown(game), RarityOf, rarity, i) && RarityLevelMap(game)[rarity] == ALL_RARITIES[i];
  }

  /**
   * Seraph and Glitch share `RARITY_Seraph` but no game, so the rarity has one
   * visible owner: Glitch in TPS, Seraph elsewhere. Rainbow exists outside TPS only.
   */
  lemma {:induction false} SeraphOwner(game: Game)
    ensures RARITY_SERAPH in RarityLevelMap(game)
    ensures RarityLevelMap(game)[RARITY_SERAPH].name == if game == ItemCodeText.TPS then "Glitch" else "Seraph"
    ensures RARITY_RAINBOW in RarityLevelMap(game) <==> game != ItemCodeText.TPS
  {
    forall i | 0 <= i < |ALL_RARITIES| && RarityOf(ALL_RARITIES[i]) == RARITY_SERAPH
      ensures i == 5 || i == 6
    {
    }
    forall i | 0 <= i < |ALL_RARITIES| && RarityOf(ALL_RARITIES[i]) == RARITY_RAINBOW
      ensures i == 7
    {
    }
    if game == ItemCodeText.TPS {
      SoleOwner(ALL_RARITIES, Shown(game), RarityOf, RARITY_SERAPH, 6);
      NoOwner(ALL_RARITIES, Shown(game), RarityOf, RARITY_RAINBOW);
    } else {
      SoleOwner(ALL_RARITIES, Shown(game), RarityOf, RARITY_SERAPH, 5);
      SoleOwner(ALL_RARITIES, Shown(game), RarityOf, RARITY_RAINBOW, 7);
    }
  }
}
