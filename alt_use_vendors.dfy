/**
 * Alt-use vendors (`alt_use_vendors/__init__.py`): vending machines get a
 * secondary use (sell trash, refill ammo, refill health). The mod keeps, per
 * player controller, the set of vending machines the player is near, so that
 * cost updates only go to those; the secondary use itself is a purchase
 * gated on the cost and the player's wallet.
 */
module AltUseVendors {
  import opened Wrappers

  /** `EShopType`. */
  datatype ShopType = Weapons | Items | Health | BlackMarket

  /** The parts of a `ShopInfo` the model uses; the cost and purchase functions are parameters. */
  datatype ShopInfo = ShopInfo(iconName: string, iconText: string, requiresManualPayment: bool)

  /** `SHOP_INFO_MAP`: every shop type but the black market has a secondary use. */
  function ShopInfoOf(t: ShopType): Option<ShopInfo>
  {
    match t
    case Weapons => Some(ShopInfo("Icon_SellTrash", "SELL TRASH", false))
    case Items => Some(ShopInfo("Icon_RefillAmmo", "REFILL AMMO", true))
    case Health => Some(ShopInfo("Icon_RefillHealth", "REFILL HEALTH", true))
    case BlackMarket => None
  }

  /** The keys of `SHOP_INFO_MAP`, in its order. */
  const SHOP_TYPES: seq<ShopType> := [Weapons, Items, Health]

  lemma {:induction false} ShopTypesAreTheKeys(t: ShopType)
    ensures t in SHOP_TYPES <==> ShopInfoOf(t).Some?
  {
  }

  /** Player controllers and vending machines, by identity. */
  type Controller = nat
  type Vendor = nat

  /** `ENetRole.ROLE_Authority`. */
  const ROLE_AUTHORITY: nat := 3

  /** A `Behavior_ChangeUsabilityCost` call: the vendor's secondary use now costs `cost` credits. */
  datatype CostUpdate = CostUpdate(vendor: Vendor, cost: int)

  /** An interaction icon: found under its name, or constructed from the default icon. */
  datatype Icon = Icon(name: string, constructed: bool)

  /**
   * `updates` changes the cost of each of the `nearby` vendors of shop type
   * `shopType` exactly once, to the cost `costOf` gives for the controller, and
   * touches no other vendor.
   */
  ghost predicate UpdatesNearbyOfType(updates: seq<CostUpdate>, nearby: set<Vendor>, shopType: ShopType,
                                      pc: Controller, shopTypeOf: Vendor -> ShopType, costOf: (ShopType, Controller, Vendor) -> int)
  {
    && (forall v :: v in nearby && shopTypeOf(v) == shopType <==> exists i :: 0 <= i < |updates| && updates[i].vendor == v)
    && (forall i :: 0 <= i < |updates| ==> updates[i].cost == costOf(shopType, pc, updates[i].vendor))
    && (forall i, j :: 0 <= i < j < |updates| ==> updates[i].vendor != updates[j].vendor)
  }

  /** What the `PerformedSecondaryUseAction` hook does. */
  datatype SecondaryUse =
    | NotHandled                  // the hook returns None and the engine carries on
    | Refused                     // unable to afford: blocked, returning False
    | Purchased(wallet: int)      // paid and bought: blocked, returning True; the credits after the hook's own
                                  // payment, not counting what the purchase itself adds (selling trash)

  class VendorTracker {
    /** `player_vendor_map`: the vending machines each controller is near. */
    var playerVendorMap: map<Controller, set<Vendor>>
    /** `icon_map`. */
    var iconMap: map<ShopType, Icon>

    constructor ()
      ensures playerVendorMap == map[] && iconMap == map[]
    {
      playerVendorMap := map[];
      iconMap := map[];
    }

    /** No controller is ever kept with an empty set of vendors. */
    predicate Valid()
      reads this
    {
      forall pc :: pc in playerVendorMap ==> playerVendorMap[pc] != {}
    }

    /**
     * `create_icons`: once the map has icons it is left alone; otherwise each
     * shop type with a secondary use gets the icon of its name, constructed
     * when `existing` finds none.
     */
    method CreateIcons(existing: string -> bool)
      modifies this
      ensures playerVendorMap == old(playerVendorMap)
      ensures old(iconMap) != map[] ==> iconMap == old(iconMap)
      ensures old(iconMap) == map[] ==>
        && (forall t :: t in iconMap <==> ShopInfoOf(t).Some?)
        && (forall t :: t in iconMap ==> iconMap[t] == Icon(ShopInfoOf(t).value.iconName, !existing(ShopInfoOf(t).value.iconName)))
    {
      if iconMap != map[] {
        return;
      }
      for k := 0 to |SHOP_TYPES|
        invariant playerVendorMap == old(playerVendorMap)
        invariant forall t :: t in iconMap <==> t in SHOP_TYPES[..k]
        invariant forall t :: t in iconMap ==> (ShopInfoOf(t).Some?
          && iconMap[t] == Icon(ShopInfoOf(t).value.iconName, !existing(ShopInfoOf(t).value.iconName)))
      {
        var shopType := SHOP_TYPES[k];
        var info := ShopInfoOf(shopType).value;
        var icon := Icon(info.iconName, !existing(info.iconName));
        iconMap := iconMap[shopType := icon];
      }
      assert SHOP_TYPES[..|SHOP_TYPES|] == SHOP_TYPES;
    }

    /**
     * `update_vendor_costs`: nothing for a controller with no entry;
     * otherwise a `KeyError` (`None`) for a shop type with no secondary use,
     * else one cost update per nearby vendor of that shop type.
     */
    method UpdateVendorCosts(pc: Controller, shopType: ShopType, shopTypeOf: Vendor -> ShopType,
                             costOf: (ShopType, Controller, Vendor) -> int) returns (r: Option<seq<CostUpdate>>)
      ensures pc !in playerVendorMap ==> r == Some([])
      ensures pc in playerVendorMap ==> (r.None? <==> ShopInfoOf(shopType).None?)
      ensures pc in playerVendorMap && r.Some? ==> UpdatesNearbyOfType(r.value, playerVendorMap[pc], shopType, pc, shopTypeOf, costOf)
    {
      if pc !in playerVendorMap {
        return Some([]);
      }
      var nearby := playerVendorMap[pc];
      if ShopInfoOf(shopType).None? {
        return None;
      }
      var updates := UpdateEach(nearby, pc, shopType, shopTypeOf, costOf);
      r := Some(updates);
    }

    /** The loop of `update_vendor_costs` over the nearby vendors, in whatever order the set yields them. */
    static method UpdateEach(nearby: set<Vendor>, pc: Controller, shopType: ShopType, shopTypeOf: Vendor -> ShopType,
                             costOf: (ShopType, Controller, Vendor) -> int) returns (updates: seq<CostUpdate>)
      ensures UpdatesNearbyOfType(updates, nearby, shopType, pc, shopTypeOf, costOf)
    {
      updates := [];
      var remaining := nearby;
      while remaining != {}
        invariant remaining <= nearby
        invariant forall v :: v in nearby - remaining && shopTypeOf(v) == shopType ==> exists i :: 0 <= i < |updates| && updates[i].vendor == v
        invariant forall i :: 0 <= i < |updates| ==> updates[i].vendor in nearby - remaining && shopTypeOf(updates[i].vendor) == shopType
        invariant forall i :: 0 <= i < |updates| ==> updates[i].cost == costOf(shopType, pc, updates[i].vendor)
        invariant forall i :: 0 <= i < |updates| ==> updates[i].vendor !in remaining
        invariant forall i, j :: 0 <= i < j < |updates| ==> updates[i].vendor != updates[j].vendor
        decreases remaining
      {
        ghost var some := SomeMember(remaining);
        var vendor :| vendor in remaining;
        remaining := remaining - {vendor};
        if shopTypeOf(vendor) != shopType {
          continue;
        }
        ghost var before := updates;
        updates := updates + [CostUpdate(vendor, costOf(shopType, pc, vendor))];
        forall v | v in nearby - remaining && shopTypeOf(v) == shopType
          ensures exists i :: 0 <= i < |updates| && updates[i].vendor == v
        {
          if v == vendor {
            assert updates[|before|].vendor == v;
          } else {
            var i :| 0 <= i < |before| && before[i].vendor == v;
            assert updates[i].vendor == v;
          }
        }
      }
    }

    /**
     * The `Touch` hook: a player pawn coming near a vending machine adds the
     * machine to its controller's set, creating the set if needed, and then
     * updates that controller's costs for the machine's shop type.
     */
    method Touch(isVendingMachine: bool, isPlayerPawn: bool, pc: Controller, vendor: Vendor,
                 shopTypeOf: Vendor -> ShopType, costOf: (ShopType, Controller, Vendor) -> int) returns (r: Option<seq<CostUpdate>>)
      requires Valid()
      modifies this
      ensures Valid() && iconMap == old(iconMap)
      ensures !(isVendingMachine && isPlayerPawn) ==> playerVendorMap == old(playerVendorMap) && r == Some([])
      ensures isVendingMachine && isPlayerPawn ==>
        && playerVendorMap == old(playerVendorMap)[pc := (if pc in old(playerVendorMap) then old(playerVendorMap)[pc] else {}) + {vendor}]
        && (r.None? <==> ShopInfoOf(shopTypeOf(vendor)).None?)
        && (r.Some? ==> UpdatesNearbyOfType(r.value, playerVendorMap[pc], shopTypeOf(vendor), pc, shopTypeOf, costOf))
    {
      if !isVendingMachine || !isPlayerPawn {
        return Some([]);
      }
      if pc !in playerVendorMap {
        playerVendorMap := playerVendorMap[pc := {}];
      }
      playerVendorMap := playerVendorMap[pc := playerVendorMap[pc] + {vendor}];
      r := UpdateVendorCosts(pc, shopTypeOf(vendor), shopTypeOf, costOf);
    }

    /**
     * The `UnTouch` hook: a player pawn leaving a vending machine drops it
     * from its controller's set, and the controller's entry goes when the
     * set becomes empty.
     */
    method UnTouch(isVendingMachine: bool, isPlayerPawn: bool, pc: Controller, vendor: Vendor)
      requires Valid()
      modifies this
      ensures Valid() && iconMap == old(iconMap)
      ensures !(isVendingMachine && isPlayerPawn && pc in old(playerVendorMap)) ==> playerVendorMap == old(playerVendorMap)
      ensures isVendingMachine && isPlayerPawn && pc in old(playerVendorMap) ==>
        playerVendorMap == if old(playerVendorMap)[pc] - {vendor} == {} then old(playerVendorMap) - {pc}
                           else old(playerVendorMap)[pc := old(playerVendorMap)[pc] - {vendor}]
    {
      if !isVendingMachine || !isPlayerPawn {
        return;
      }
      if pc !in playerVendorMap {
        return;
      }
      playerVendorMap := playerVendorMap[pc := playerVendorMap[pc] - {vendor}];
      if playerVendorMap[pc] == {} {
        playerVendorMap := playerVendorMap - {pc};
      }
    }

    /** The `WillowShowLoadingMovie` hook: loading a level forgets every vendor. */
    method ShowLoadingMovie()
      modifies this
      ensures Valid() && playerVendorMap == map[] && iconMap == old(iconMap)
    {
      playerVendorMap := map[];
    }

    /**
     * The `PerformedSecondaryUseAction` hook. `role` is the controller's
     * network role, `usable` its current usable object and `hasIcon` whether
     * its secondary interaction icon has a definition; `costOf` is the shop's
     * cost function before the purchase and `costAfter` the same function
     * once the purchase has run (refilling ammo or health changes what it
     * asks), and `wallet` the credits on hand.
     */
    method PerformedSecondaryUseAction(role: nat, pc: Controller, usable: Option<Vendor>, hasIcon: bool, isVendingMachine: bool,
                                       shopTypeOf: Vendor -> ShopType, costOf: (ShopType, Controller, Vendor) -> int,
                                       costAfter: (ShopType, Controller, Vendor) -> int, wallet: int)
      returns (outcome: SecondaryUse, updates: seq<CostUpdate>)
      ensures outcome == SecondaryUseOutcome(role, usable, hasIcon, isVendingMachine, shopTypeOf,
                                             if usable.Some? then costOf(shopTypeOf(usable.value), pc, usable.value) else 0, wallet)
      ensures outcome.Purchased? && pc in playerVendorMap ==>
        UpdatesNearbyOfType(updates, playerVendorMap[pc], shopTypeOf(usable.value), pc, shopTypeOf, costAfter)
      ensures !(outcome.Purchased? && pc in playerVendorMap) ==> updates == []
    {
      updates := [];
      if role < ROLE_AUTHORITY || usable.None? || !hasIcon {
        return NotHandled, updates;
      }
      var vendor := usable.value;
      if !isVendingMachine || ShopInfoOf(shopTypeOf(vendor)).None? {
        return NotHandled, updates;
      }
      var info := ShopInfoOf(shopTypeOf(vendor)).value;
      var cost := costOf(shopTypeOf(vendor), pc, vendor);
      if cost == 0 || wallet < cost {
        return Refused, updates;
      }
      var after := wallet;
      if info.requiresManualPayment {
        after := wallet - cost;
      }
      outcome := Purchased(after);
      var r := UpdateVendorCosts(pc, shopTypeOf(vendor), shopTypeOf, costAfter);
      updates := r.value;
    }
  }

  /** The decision of `PerformedSecondaryUseAction`, for a purchase that costs `cost`. */
  function SecondaryUseOutcome(role: nat, usable: Option<Vendor>, hasIcon: bool, isVendingMachine: bool,
                               shopTypeOf: Vendor -> ShopType, cost: int, wallet: int): (r: SecondaryUse)
    ensures r.Refused? ==> cost == 0 || wallet < cost
    ensures r.Purchased? ==> cost != 0 && cost <= wallet && (r.wallet == wallet || r.wallet == wallet - cost)
  {
    if role < ROLE_AUTHORITY || usable.None? || !hasIcon || !isVendingMachine then NotHandled
    else match ShopInfoOf(shopTypeOf(usable.value))
      case None => NotHandled
      case Some(info) =>
        if cost == 0 || wallet < cost then Refused
        else Purchased(if info.requiresManualPayment then wallet - cost else wallet)
  }

  /**
   * The hook acts only for a controller with authority, a usable vending
   * machine with a secondary icon and a shop type that has a secondary use;
   * it then refuses exactly the free purchases and those the wallet cannot
   * cover, and a paid purchase takes exactly the cost, so a wallet that was
   * not negative never becomes negative.
   */
  lemma {:induction false} SecondaryUseGate(role: nat, usable: Option<Vendor>, hasIcon: bool, isVendingMachine: bool,
                         shopTypeOf: Vendor -> ShopType, cost: int, wallet: int)
    ensures var o := SecondaryUseOutcome(role, usable, hasIcon, isVendingMachine, shopTypeOf, cost, wallet);
      && (!o.NotHandled? <==> (role >= ROLE_AUTHORITY && usable.Some? && hasIcon && isVendingMachine
                               && ShopInfoOf(shopTypeOf(usable.value)).Some?))
      && (!o.NotHandled? ==> (o.Refused? <==> cost == 0 || wallet < cost))
      && (o.Purchased? ==> o.wallet == wallet - cost || (o.wallet == wallet && shopTypeOf(usable.value) == Weapons))
      && (o.Purchased? && wallet >= 0 ==> o.wallet >= 0)
  {
  }
}
