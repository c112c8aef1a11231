/**
 * The travel-station teleport cheat (`apples_borderlands_cheats/cheats/tp_travels.py`):
 * a keybind that teleports the player to the next travel station of the
 * current world, remembering the station names it last saw and its place
 * among them.
 */
module TpTravels {
  import opened Wrappers

  /**
   * The names of the stations that have a travel definition, in the order the
   * stations are found. Each station is given by its travel definition's name,
   * `None` when it has none.
   */
  function TravelNames(stations: seq<Option<string>>): seq<string>
  {
    if stations == [] then []
    else
      var rest := TravelNames(stations[..|stations| - 1]);
      match stations[|stations| - 1]
      case None => rest
      case Some(n) => rest + [n]
  }

  /** The list keeps exactly the defined names, and never more entries than there are stations. */
  lemma {:induction false} TravelNamesMembers(stations: seq<Option<string>>, n: string)
    ensures n in TravelNames(stations) <==> Some(n) in stations
    ensures |TravelNames(stations)| <= |stations|
  {
    if stations != [] {
      var init := stations[..|stations| - 1];
      TravelNamesMembers(init, n);
      assert stations == init + [stations[|stations| - 1]];
    }
  }

  /** Python's list indexing: negative indices count from the end; out of range raises (`None`). */
  function PyIndex(s: seq<string>, i: int): (r: Option<string>)
    ensures r.Some? <==> -|s| <= i < |s|
    ensures 0 <= i < |s| ==> r == Some(s[i])
    ensures -|s| <= i < 0 ==> r == Some(s[|s| + i])
  {
    if 0 <= i < |s| then Some(s[i])
    else if -|s| <= i < 0 then Some(s[|s| + i])
    else None
  }

  /** What a press of the keybind does: raise, nothing, or teleport to a station. */
  datatype Outcome = Raised | Stayed | Teleported(station: string)

  /** The cursor's state after a press, and what the press did. */
  datatype Step = Step(index: int, cache: seq<string>, outcome: Outcome)

  /** The state `tp_next` keeps between presses: -1 with an empty cache, or an index into the cache. */
  predicate Consistent(index: int, cache: seq<string>)
  {
    (index == -1 && cache == []) || 0 <= index < |cache|
  }

  /**
   * The advance after the world check: nothing for an empty cache, else the
   * name at `(index + 1) mod len` (Python's `%` with a positive divisor is
   * never negative), which is the next one round the cache.
   */
  function Advance(index: int, cache: seq<string>): (s: Step)
    ensures s.cache == cache
    ensures cache == [] ==> s == Step(index, cache, Stayed)
    ensures cache != [] ==> 0 <= s.index < |cache| && s.outcome == Teleported(cache[s.index])
    ensures cache != [] && -1 <= index < |cache| ==> s.index == if index == |cache| - 1 then 0 else index + 1
  {
    if cache == [] then Step(index, cache, Stayed)
    else
      var i := (index + 1) % |cache|;
      Step(i, cache, Teleported(cache[i]))
  }

  /**
   * `tp_next` as written: the cached name at the index is looked up with
   * Python indexing before the world check, so an empty cache raises.
   */
  function StepAsWritten(index: int, cache: seq<string>, current: seq<string>): (r: Step)
    ensures r.outcome == Raised <==> !(-|cache| <= index < |cache|)
    ensures r.outcome == Raised ==> r.index == index && r.cache == cache
  {
    match PyIndex(cache, index)
    case None => Step(index, cache, Raised)
    case Some(n) =>
      if n !in current then Advance(-1, current)
      else Advance(index, cache)
  }

  /**
   * `tp_next` with the evidently intended guard: a cursor that does not point
   * at a name of the current world, an empty cache included, counts as a
   * change of world.
   */
  function StepCorrected(index: int, cache: seq<string>, current: seq<string>): (r: Step)
    ensures r.outcome != Raised
    ensures r.cache == cache || r.cache == current
    ensures r.outcome.Teleported? ==> r.outcome.station in r.cache
  {
    if 0 <= index < |cache| && cache[index] in current then Advance(index, cache)
    else Advance(-1, current)
  }

  /**
   * After a press in a world with no stations the cursor is -1 over an empty
   * cache, and from there every press raises and changes nothing, whatever
   * stations the player later reaches.
   */
  lemma {:induction false} EmptyWorldBreaksKeybind(current: seq<string>)
    ensures StepAsWritten(0, ["DUMMY"], []) == Step(-1, [], Stayed)
    ensures StepAsWritten(-1, [], current) == Step(-1, [], Raised)
  {
  }

  /** The corrected press never raises, keeps the state consistent, and teleports exactly when the resulting cache is not empty. */
  lemma {:induction false} CorrectedNeverRaises(index: int, cache: seq<string>, current: seq<string>)
    ensures var s := StepCorrected(index, cache, current);
      && s.outcome != Raised
      && Consistent(s.index, s.cache)
      && (s.outcome.Stayed? <==> s.cache == [])
      && (s.outcome.Teleported? ==> s.outcome.station == s.cache[s.index] && (s.cache == cache || s.cache == current))
  {
  }

  /**
   * The correction changes only the press that raises: from any consistent
   * state where the written code does not raise, the two agree.
   */
  lemma {:induction false} CorrectedAgreesWhenNoRaise(index: int, cache: seq<string>, current: seq<string>)
    requires Consistent(index, cache)
    requires StepAsWritten(index, cache, current).outcome != Raised
    ensures StepAsWritten(index, cache, current) == StepCorrected(index, cache, current)
  {
  }

  /**
   * Changing worlds restarts at the first station of the new world; staying
   * in the world moves to the next station, wrapping after the last.
   */
  lemma {:induction false} CorrectedCursor(index: int, cache: seq<string>, current: seq<string>)
    requires Consistent(index, cache)
    ensures var s := StepCorrected(index, cache, current);
      && (index >= 0 && cache[index] in current ==>
            s.cache == cache && s.outcome == Teleported(cache[if index == |cache| - 1 then 0 else index + 1]))
      && (!(index >= 0 && cache[index] in current) ==>
            s.cache == current && (current == [] ==> s.outcome == Stayed) && (current != [] ==> s.outcome == Teleported(current[0])))
  {
  }

  /** A `TPFastTravel` keybind and its cursor over the station names. */
  class TPFastTravel {
    const name: string
    const stationClass: string
    var lastTravelIndex: int
    var cachedTravelNames: seq<string>

    /** The cursor starts at 0 over the placeholder name "DUMMY", which no world is expected to have. */
    constructor (name: string, stationClass: string)
      ensures this.name == name && this.stationClass == stationClass
      ensures lastTravelIndex == 0 && cachedTravelNames == ["DUMMY"]
      ensures Consistent(lastTravelIndex, cachedTravelNames)
    {
      this.name := name;
      this.stationClass := stationClass;
      lastTravelIndex := 0;
      cachedTravelNames := ["DUMMY"];
    }

    /** The loop of `tp_next` collecting the names of the stations that have a travel definition. */
    static method CurrentTravels(stations: seq<Option<string>>) returns (names: seq<string>)
      ensures names == TravelNames(stations)
    {
      names := [];
      for i := 0 to |stations|
        invariant names == TravelNames(stations[..i])
      {
        assert stations[..i + 1][..i] == stations[..i];
        match stations[i]
        case None =>
        case Some(n) => names := names + [n];
      }
      assert stations[..|stations|] == stations;
    }

    /** `tp_next` as written, on the stations currently in the world. */
    method TpNextAsWritten(stations: seq<Option<string>>) returns (r: Outcome)
      modifies this
      ensures Step(lastTravelIndex, cachedTravelNames, r)
        == StepAsWritten(old(lastTravelIndex), old(cachedTravelNames), TravelNames(stations))
    {
      var currentTravels := CurrentTravels(stations);
      var cached := PyIndex(cachedTravelNames, lastTravelIndex);
      if cached.None? {
        return Raised;
      }
      if cached.value !in currentTravels {
        lastTravelIndex := -1;
        cachedTravelNames := currentTravels;
      }
      if cachedTravelNames == [] {
        return Stayed;
      }
      lastTravelIndex := (lastTravelIndex + 1) % |cachedTravelNames|;
      r := Teleported(cachedTravelNames[lastTravelIndex]);
    }

    /** `tp_next` with the corrected guard. */
    method TpNext(stations: seq<Option<string>>) returns (r: Outcome)
      modifies this
      ensures Step(lastTravelIndex, cachedTravelNames, r)
        == StepCorrected(old(lastTravelIndex), old(cachedTravelNames), TravelNames(stations))
      ensures r != Raised && Consistent(lastTravelIndex, cachedTravelNames)
    {
      var currentTravels := CurrentTravels(stations);
      if !(0 <= lastTravelIndex < |cachedTravelNames| && cachedTravelNames[lastTravelIndex] in currentTravels) {
        lastTravelIndex := -1;
        cachedTravelNames := currentTravels;
      }
      if cachedTravelNames == [] {
        return Stayed;
      }
      lastTravelIndex := (lastTravelIndex + 1) % |cachedTravelNames|;
      r := Teleported(cachedTravelNames[lastTravelIndex]);
    }
  }
}
