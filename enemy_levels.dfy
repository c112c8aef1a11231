/**
 * The enemy level randomizer (`enemy_level_randomizer/__init__.py`): when a
 * pawn other than a player's is given its game stage, the stage is shifted by
 * an offset and then replaced by a random level in a range around it.
 */
module EnemyLevels {
  /** The sliders' bounds and defaults. */
  const OFFSET_MIN: int := -50
  const OFFSET_MAX: int := 50
  const CHANGE_MAX: int := 50
  const DEFAULT_OFFSET: int := 0
  const DEFAULT_DECREASE: int := 5
  const DEFAULT_INCREASE: int := 5

  /** The three sliders: the level offset, the largest decrease and the largest increase. */
  datatype Sliders = Sliders(offset: int, maxDecrease: int, maxIncrease: int)

  /** The values the sliders can take. */
  predicate InRange(s: Sliders)
  {
    OFFSET_MIN <= s.offset <= OFFSET_MAX && 0 <= s.maxDecrease <= CHANGE_MAX && 0 <= s.maxIncrease <= CHANGE_MAX
  }

  function Max(a: int, b: int): int
  {
    if a >= b then a else b
  }

  /** A draw from `randrange`, or the `ValueError` it raises for an empty range. */
  datatype Drawn = Draw(value: int) | RangeError

  /** `random.randrange(lo, hi)` for the draw `roll`: an empty range raises. */
  function RandRange(lo: int, hi: int, roll: nat): (r: Drawn)
    ensures r.Draw? <==> lo < hi
    ensures r.Draw? ==> lo <= r.value < hi
  {
    if lo < hi then Draw(lo + roll % (hi - lo)) else RangeError
  }

  /** Every value of a non-empty range is drawn for some roll. */
  lemma {:induction false} RandRangeCovers(lo: int, hi: int, v: int)
    requires lo <= v < hi
    ensures RandRange(lo, hi, (v - lo) as nat) == Draw(v)
  {
    assert (v - lo) % (hi - lo) == v - lo;
  }

  /** The range the new level is drawn from, both ends included. */
  function LevelRange(stage: int, s: Sliders): (r: (int, int))
    ensures 0 <= r.0 && 0 <= r.1
    ensures s.maxDecrease >= 0 && s.maxIncrease >= 0 ==> r.0 <= r.1
  {
    var base := Max(0, stage + s.offset);
    (Max(0, base - s.maxDecrease), Max(0, base + s.maxIncrease))
  }

  /** What the `SetGameStage` hook does with a call. */
  datatype HookResult =
    | PassThrough            // a player pawn: the call goes ahead unchanged
    | Replaced(level: int)   // blocked, and the function called once with this level instead
    | Raised                 // `randrange` refused an empty range

  /** The `SetGameStage` hook for a pawn of class `className` given `stage`, with the draw `roll`. */
  function SetGameStage(className: string, stage: int, s: Sliders, roll: nat): (r: HookResult)
    ensures r.PassThrough? <==> className == "WillowPlayerPawn"
    ensures r.Raised? <==> className != "WillowPlayerPawn" && LevelRange(stage, s).0 > LevelRange(stage, s).1
    ensures r.Replaced? ==> LevelRange(stage, s).0 <= r.level <= LevelRange(stage, s).1
  {
    if className == "WillowPlayerPawn" then PassThrough
    else
      var (lo, hi) := LevelRange(stage, s);
      match RandRange(lo, hi + 1, roll)
      case RangeError => Raised
      case Draw(v) => Replaced(v)
  }

  /**
   * The range is never below 0 and reaches from at most `max decrease` under
   * to at most `max increase` over the offset stage; with slider values it is
   * never empty.
   */
  lemma {:induction false} LevelRangeBounds(stage: int, s: Sliders)
    ensures var (lo, hi) := LevelRange(stage, s);
      var base := Max(0, stage + s.offset);
      && base >= 0 && lo >= 0 && hi >= 0
      && (s.maxDecrease >= 0 ==> lo >= base - s.maxDecrease && lo <= base)
      && (s.maxIncrease >= 0 ==> hi == base + s.maxIncrease)
      && (InRange(s) ==> lo <= hi)
  {
  }

  /**
   * Player pawns are left alone; every other pawn gets exactly one call, with
   * a level in the range; and every level of the range can come up.
   */
  lemma {:induction false} HookReplacesWithinRange(className: string, stage: int, s: Sliders, roll: nat)
    requires InRange(s)
    ensures className == "WillowPlayerPawn" <==> SetGameStage(className, stage, s, roll) == PassThrough
    ensures className != "WillowPlayerPawn" ==>
      var r := SetGameStage(className, stage, s, roll);
      var (lo, hi) := LevelRange(stage, s);
      r.Replaced? && lo <= r.level <= hi && 0 <= r.level
  {
    LevelRangeBounds(stage, s);
  }

  /** Each level of the range is the result of some draw. */
  lemma {:induction false} EveryLevelReachable(className: string, stage: int, s: Sliders, v: int)
    requires className != "WillowPlayerPawn"
    requires LevelRange(stage, s).0 <= v <= LevelRange(stage, s).1
    ensures exists roll: nat :: SetGameStage(className, stage, s, roll) == Replaced(v)
  {
    var (lo, hi) := LevelRange(stage, s);
    RandRangeCovers(lo, hi + 1, v);
    assert SetGameStage(className, stage, s, (v - lo) as nat) == Replaced(v);
  }

  /** With the default sliders a pawn at stage 10 lands between 5 and 15, and at stage 2 between 0 and 7. */
  lemma {:induction false} DefaultRanges()
    ensures LevelRange(10, Sliders(DEFAULT_OFFSET, DEFAULT_DECREASE, DEFAULT_INCREASE)) == (5, 15)
    ensures LevelRange(2, Sliders(DEFAULT_OFFSET, DEFAULT_DECREASE, DEFAULT_INCREASE)) == (0, 7)
  {
  }

  /** Outside the sliders' values the range can be empty, and the hook then raises. */
  lemma {:induction false} NegativeDecreaseRaises(className: string, roll: nat)
    requires className != "WillowPlayerPawn"
    ensures SetGameStage(className, 5, Sliders(0, -10, 0), roll) == Raised
  {
  }
}
