/**
 * The allegiance restriction (`equip_locker/restrictions/allegiance.py`):
 * items are locked by the manufacturer whose flash label they carry, with
 * three overrides (weapons only, usable items, allegiance relics).
 */
module Allegiance {
  import opened Wrappers
  import opened EquipOptions
  import ItemCodeText

  /** A manufacturer option: its display name, flash label, allegiance relic and supported games. */
  datatype Manufacturer = Manufacturer(name: string, flashLabel: string, artifact: Option<string>, supportedGames: set<Game>)

  /** `ALL_MANUFACTURERS`, in declaration order. */
  const ALL_MANUFACTURERS: seq<Manufacturer> := [
    Manufacturer("Bandit", "s_and_s", Some("Artifact_AllegianceA"), {ItemCodeText.BL2}),
    Manufacturer("Dahl", "dahl", Some("Artifact_AllegianceB"), WILLOW2),
    Manufacturer("Hyperion", "hyperion", Some("Artifact_AllegianceC"), WILLOW2),
    Manufacturer("Jakobs", "jakobs", Some("Artifact_AllegianceD"), WILLOW2),
    Manufacturer("Maliwan", "maliwan", Some("Artifact_AllegianceE"), WILLOW2),
    Manufacturer("Scav", "s_and_s", None, {ItemCodeText.TPS}),
    Manufacturer("Tediore", "tediore", Some("Artifact_AllegianceF"), WILLOW2),
    Manufacturer("Torgue", "torgue", Some("Artifact_AllegianceG"), WILLOW2),
    Manufacturer("Vladof", "vladof", Some("Artifact_AllegianceH"), WILLOW2),
    Manufacturer("Anshin", "anshin", None, WILLOW2),
    Manufacturer("Pangolin", "pangolin", None, WILLOW2),
    Manufacturer("Eridan", "eridan", None, {ItemCodeText.BL2, ItemCodeText.AoDK})
  ]

  /** An option is hidden in every game it does not support. */
  predicate Visible(m: Manufacturer, game: Game)
  {
    game in m.supportedGames
  }

  /** The options `FLASH_LABEL_MAP` keeps, and the key it keeps them under. */
  function Shown(game: Game): Manufacturer -> bool
  {
    m => Visible(m, game)
  }

  function FlashLabel(m: Manufacturer): string
  {
    m.flashLabel
  }

  /** The options `ARTIFACT_MAP` keeps, and the key it keeps them under. */
  function ShownWithRelic(game: Game): Manufacturer -> bool
  {
    m => Visible(m, game) && m.artifact.Some?
  }

  function Relic(m: Manufacturer): Option<string>
  {
    m.artifact
  }

  /** `FLASH_LABEL_MAP`: the visible manufacturers by flash label. */
  function FlashLabelMap(game: Game): map<string, Manufacturer>
  {
    VisibleMap(ALL_MANUFACTURERS, Shown(game), FlashLabel)
  }

  /** `ARTIFACT_MAP`: the visible manufacturers that have an allegiance relic, by that relic. */
  function ArtifactMap(game: Game): map<Option<string>, Manufacturer>
  {
    VisibleMap(ALL_MANUFACTURERS, ShownWithRelic(game), Relic)
  }

  /** The values of the restriction's options: each manufacturer's by name, and the three overrides. */
  datatype AllegianceSettings = AllegianceSettings(
    allowed: string -> bool,
    allegianceRelics: bool,
    usableItems: bool,
    weaponsOnly: bool)

  /** The defaults: every manufacturer allowed, relics not allowed, usable items ignored, not weapons only. */
  function DefaultSettings(): AllegianceSettings
  {
    AllegianceSettings(_ => true, false, true, false)
  }

  /** `can_item_be_equipped` of the allegiance restriction. */
  function CanBeEquipped(item: Item, game: Game, settings: AllegianceSettings): (r: bool)
    ensures item.manufacturer.None? ==> r
    ensures (forall n :: settings.allowed(n)) ==> r
  {
    match item.manufacturer
    case None => true
    case Some(flash) =>
      if flash !in FlashLabelMap(game) then true
      else if settings.weaponsOnly && item.className != "WillowWeapon" then true
      else if settings.usableItems && item.className == "WillowUsableItem" then true
      else if settings.allegianceRelics && item.className == "WillowArtifact"
              && item.itemDefinition.Some? && item.itemDefinition in ArtifactMap(game)
      then settings.allowed(ArtifactMap(game)[item.itemDefinition].name)
      else settings.allowed(FlashLabelMap(game)[flash].name)
  }

  /** The `i`-th manufacturer is visible in `game` and set to Not Allowed. */
  predicate DisallowedVisible(game: Game, settings: AllegianceSettings, i: int)
  {
    0 <= i < |ALL_MANUFACTURERS| && Visible(ALL_MANUFACTURERS[i], game) && !settings.allowed(ALL_MANUFACTURERS[i].name)
  }

  /**
   * An item is only ever refused by a manufacturer option that is visible in
   * the current game and set to Not Allowed, and never when it has no
   * manufacturer, carries a flash label of no visible manufacturer, or one of
   * the overrides lets it through.
   */
  lemma {:induction false} RefusedOnlyByVisibleOption(item: Item, game: Game, settings: AllegianceSettings)
    requires !CanBeEquipped(item, game, settings)
    ensures item.manufacturer.Some? && item.manufacturer.value in FlashLabelMap(game)
    ensures !(settings.weaponsOnly && item.className != "WillowWeapon")
    ensures !(settings.usableItems && item.className == "WillowUsableItem")
    ensures exists i :: DisallowedVisible(game, settings, i)
  {
    VisibleMapSpec(ALL_MANUFACTURERS, Shown(game), FlashLabel);
    VisibleMapSpec(ALL_MANUFACTURERS, ShownWithRelic(game), Relic);
    var flash := item.manufacturer.value;
    if settings.allegianceRelics && item.className == "WillowArtifact"
       && item.itemDefinition.Some? && item.itemDefinition in ArtifactMap(game) {
      var i :| LastOwner(ALL_MANUFACTURERS, ShownWithRelic(game), Relic, item.itemDefinition, i)
        && ArtifactMap(game)[item.itemDefinition] == ALL_MANUFACTURERS[i];
      assert DisallowedVisible(game, settings, i);
    } else {
      var i :| LastOwner(ALL_MANUFACTURERS, Shown(game), FlashLabel, flash, i)
        && FlashLabelMap(game)[flash] == ALL_MANUFACTURERS[i];
      assert DisallowedVisible(game, settings, i);
    }
  }

  /** With every visible manufacturer allowed, nothing is refused, whatever the hidden ones say. */
  lemma {:induction false} AllVisibleAllowedAcceptsAll(item: Item, game: Game, settings: AllegianceSettings)
    requires forall i :: 0 <= i < |ALL_MANUFACTURERS| && Visible(ALL_MANUFACTURERS[i], game) ==> settings.allowed(ALL_MANUFACTURERS[i].name)
    ensures CanBeEquipped(item, game, settings)
  {
    if !CanBeEquipped(item, game, settings) {
      RefusedOnlyByVisibleOption(item, game, settings);
      assert false;
    }
  }

  /**
   * With allegiance relics allowed, a relic is judged by the visible
   * manufacturer it boosts rather than by its own flash label.
   */
  lemma {:induction false} RelicJudgedByBoostedManufacturer(item: Item, game: Game, settings: AllegianceSettings)
    requires item.manufacturer.Some? && item.manufacturer.value in FlashLabelMap(game)
    requires !settings.weaponsOnly && item.className == "WillowArtifact" && settings.allegianceRelics
    requires item.itemDefinition.Some? && item.itemDefinition in ArtifactMap(game)
    ensures var m := ArtifactMap(game)[item.itemDefinition];
      m in ALL_MANUFACTURERS && Visible(m, game) && m.artifact == item.itemDefinition
      && CanBeEquipped(item, game, settings) == settings.allowed(m.name)
  {
    VisibleMapSpec(ALL_MANUFACTURERS, ShownWithRelic(game), Relic);
  }

  /** With the options at their defaults the restriction lets every item through. */
  lemma {:induction false} DefaultsAcceptEverything(item: Item, game: Game)
    ensures CanBeEquipped(item, game, DefaultSettings())
  {
    AllVisibleAllowedAcceptsAll(item, game, DefaultSettings());
  }

  /**
   * Bandit and Scav share the flash label `s_and_s` but no game, so the label
   * belongs to Bandit in BL2, to Scav in TPS, and to nobody in AoDK.
   */
  lemma {:induction false} SharedFlashLabel(game: Game)
    ensures "s_and_s" in FlashLabelMap(game) <==> game != ItemCodeText.AoDK
    ensures game == ItemCodeText.BL2 ==> FlashLabelMap(game)["s_and_s"].name == "Bandit"
    ensures game == ItemCodeText.TPS ==> FlashLabelMap(game)["s_and_s"].name == "Scav"
  {
    var visible, key := Shown(game), FlashLabel;
    forall i | 0 <= i < |ALL_MANUFACTURERS| && key(ALL_MANUFACTURERS[i]) == "s_and_s"
      ensures i == 0 || i == 5
    {
      assert ALL_MANUFACTURERS[i].flashLabel == "s_and_s";
    }
    if game == ItemCodeText.BL2 {
      SoleOwner(ALL_MANUFACTURERS, visible, key, "s_and_s", 0);
    } else if game == ItemCodeText.TPS {
      SoleOwner(ALL_MANUFACTURERS, visible, key, "s_and_s", 5);
    } else {
      NoOwner(ALL_MANUFACTURERS, visible, key, "s_and_s");
    }
  }
}
