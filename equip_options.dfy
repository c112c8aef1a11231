/**
 * What the equip restrictions share: the item as the restrictions see it,
 * the games an option supports, and the lookup tables each restriction builds
 * from its options with a dict comprehension that keeps only the options
 * visible in the current game (`{key(opt): opt for opt in ALL if not opt.is_hidden}`).
 */
module EquipOptions {
  import opened Wrappers
  import ItemCodeText

  type Game = ItemCodeText.Game

  /** `Game.Willow2`: every game an option supports unless it says otherwise. */
  const WILLOW2: set<Game> := {ItemCodeText.BL2, ItemCodeText.TPS, ItemCodeText.AoDK}

  /**
   * The fields of an inventory object the restrictions read: its class name,
   * the flash label of its manufacturer (`None` when it has none), the name
   * of its item definition, the enum index of its weapon type (`None` when it
   * has no weapon type definition) and its rarity level.
   */
  datatype Item = Item(
    className: string,
    manufacturer: Option<string>,
    itemDefinition: Option<string>,
    weaponType: Option<nat>,
    rarityLevel: int)

  /**
   * The dict comprehension over `opts`: every option that is `visible` is
   * stored under its `key`, a later option replacing an earlier one with the
   * same key.
   */
  function VisibleMap<K(==,!new), O>(opts: seq<O>, visible: O -> bool, key: O -> K): map<K, O>
    decreases |opts|
  {
    if opts == [] then map[]
    else
      var last := opts[|opts| - 1];
      var m := VisibleMap(opts[..|opts| - 1], visible, key);
      if visible(last) then m[key(last) := last] else m
  }

  /** A key is in the map exactly when a visible option has it, and it maps to the last such option. */
  lemma {:induction false} VisibleMapSpec<K(!new), O>(opts: seq<O>, visible: O -> bool, key: O -> K)
    ensures forall k :: k in VisibleMap(opts, visible, key) <==> exists i :: 0 <= i < |opts| && visible(opts[i]) && key(opts[i]) == k
    ensures forall k :: k in VisibleMap(opts, visible, key) ==>
      exists i :: LastOwner(opts, visible, key, k, i) && VisibleMap(opts, visible, key)[k] == opts[i]
    decreases |opts|
  {
    if opts != [] {
      var init := opts[..|opts| - 1];
      var n := |opts| - 1;
      var last := opts[n];
      var m := VisibleMap(init, visible, key);
      var r := VisibleMap(opts, visible, key);
      VisibleMapSpec(init, visible, key);
      assert forall i :: 0 <= i < |init| ==> init[i] == opts[i];
      forall k | k in r
        ensures exists i :: LastOwner(opts, visible, key, k, i) && r[k] == opts[i]
      {
        if visible(last) && key(last) == k {
          assert LastOwner(opts, visible, key, k, n);
        } else {
          var i :| LastOwner(init, visible, key, k, i) && m[k] == init[i];
          assert LastOwner(opts, visible, key, k, i);
        }
      }
      forall k | exists i :: 0 <= i < |opts| && visible(opts[i]) && key(opts[i]) == k
        ensures k in r
      {
        var i :| 0 <= i < |opts| && visible(opts[i]) && key(opts[i]) == k;
        if i < n {
          assert init[i] == opts[i];
        }
      }
    }
  }

  /** `opts[i]` is the last visible option with key `k`. */
  predicate LastOwner<K(==), O>(opts: seq<O>, visible: O -> bool, key: O -> K, k: K, i: int)
  {
    && 0 <= i < |opts| && visible(opts[i]) && key(opts[i]) == k
    && forall j :: i < j < |opts| ==> !(visible(opts[j]) && key(opts[j]) == k)
  }

  /** When exactly one visible option has a key, the map holds that option under it. */
  lemma {:induction false} SoleOwner<K(!new), O>(opts: seq<O>, visible: O -> bool, key: O -> K, k: K, owner: nat)
    requires owner < |opts| && visible(opts[owner]) && key(opts[owner]) == k
    requires forall i :: 0 <= i < |opts| && visible(opts[i]) && key(opts[i]) == k ==> i == owner
    ensures k in VisibleMap(opts, visible, key) && VisibleMap(opts, visible, key)[k] == opts[owner]
  {
    VisibleMapSpec(opts, visible, key);
  }

  /** When no visible option has a key, the map does not hold it. */
  lemma {:induction false} NoOwner<K(!new), O>(opts: seq<O>, visible: O -> bool, key: O -> K, k: K)
    requires forall i :: 0 <= i < |opts| && visible(opts[i]) ==> key(opts[i]) != k
    ensures k !in VisibleMap(opts, visible, key)
  {
    VisibleMapSpec(opts, visible, key);
  }
}
