/**
 * Hotfix bookkeeping of the text-mod loader (`text_mod_loader/hotfixes.py`):
 * once a mod that uses hotfixes has run, every other mod that needs a spark
 * service is locked for the rest of the session, and a spark service index is
 * checked against the hotfix service by its name.
 */
module Hotfixes {
  import opened Wrappers
  import opened Strings
  import opened TextModStates
  import opened TextMods

  /** The name of the hotfix service, as `is_hotfix_service` compares it. */
  const HOTFIX_SERVICE_NAME: string := "micropatch"

  /**
   * `is_hotfix_service(idx)`: index 0 is taken to be the hotfix service without
   * a lookup; otherwise `serviceName(idx)` is the `ServiceName` of the
   * `SparkServiceConfiguration` object of that index, `None` when there is
   * none, and the name must be "micropatch" up to case.
   */
  function IsHotfixService(idx: int, serviceName: int -> Option<string>): (r: bool)
    ensures idx == 0 ==> r
    ensures idx != 0 && serviceName(idx).None? ==> !r
  {
    if idx == 0 then true
    else match serviceName(idx)
      case None => false
      case Some(name) => Lower(name) == HOTFIX_SERVICE_NAME
  }

  /** Lower-casing and upper-casing identify the same characters. */
  lemma {:induction false} LowerMatchesUpper(a: char, b: char)
    ensures LowerChar(a) == LowerChar(b) <==> UpperChar(a) == UpperChar(b)
  {
  }

  /** A service other than index 0 is the hotfix service exactly when its name is "micropatch" ignoring case. */
  lemma {:induction false} HotfixServiceIgnoresCase(idx: int, serviceName: int -> Option<string>)
    requires idx != 0 && serviceName(idx).Some?
    ensures IsHotfixService(idx, serviceName) <==> EqualIgnoreCase(serviceName(idx).value, HOTFIX_SERVICE_NAME)
  {
    var name := serviceName(idx).value;
    assert Lower(HOTFIX_SERVICE_NAME) == HOTFIX_SERVICE_NAME;
    if |name| == |HOTFIX_SERVICE_NAME| {
      forall i | 0 <= i < |name|
        ensures LowerChar(name[i]) == LowerChar(HOTFIX_SERVICE_NAME[i]) <==> UpperChar(name[i]) == UpperChar(HOTFIX_SERVICE_NAME[i])
      {
        LowerMatchesUpper(name[i], HOTFIX_SERVICE_NAME[i]);
      }
      if Lower(name) == HOTFIX_SERVICE_NAME {
        assert forall i :: 0 <= i < |name| ==> LowerChar(name[i]) == LowerChar(HOTFIX_SERVICE_NAME[i]);
      }
      if EqualIgnoreCase(name, HOTFIX_SERVICE_NAME) {
        assert forall i :: 0 <= i < |name| ==> Lower(name)[i] == HOTFIX_SERVICE_NAME[i];
      }
    }
  }

  /** The state `mark_hotfixes_used` leaves a mod in: a Disabled mod that uses a spark service is locked. */
  function HotfixLocked(s: TextModState, sparkServiceIdx: Option<int>): TextModState
  {
    if s == Disabled && sparkServiceIdx.Some? then LockedHotfixes else s
  }

  /** Locking follows the documented transition from Disabled to LockedHotfixes and changes no other state. */
  lemma {:induction false} HotfixLockFollowsDiagram(s: TextModState, sparkServiceIdx: Option<int>)
    ensures Moves(s, HotfixLocked(s, sparkServiceIdx))
    ensures HotfixLocked(s, sparkServiceIdx) != s <==> s == Disabled && sparkServiceIdx.Some?
  {
    if s == Disabled && sparkServiceIdx.Some? {
      assert Step(s, OtherModWithHotfixes, LockedHotfixes);
    }
  }

  /** The module flag `any_hotfix_used`. */
  class HotfixFlag {
    var anyHotfixUsed: bool

    constructor ()
      ensures !anyHotfixUsed
    {
      anyHotfixUsed := false;
    }

    /**
     * `mark_hotfixes_used` over the loaded mods: every Disabled mod that uses
     * a spark service becomes LockedHotfixes, every other mod keeps its
     * state, and the flag is set. Nothing clears the flag again.
     */
    method MarkHotfixesUsed(mods: map<string, TextMod>)
      modifies this, mods.Values
      ensures anyHotfixUsed
      ensures forall m :: m in mods.Values ==> m.state == HotfixLocked(old(m.state), m.sparkServiceIdx)
    {
      var remaining := mods.Values;
      while remaining != {}
        invariant remaining <= mods.Values
        invariant forall m :: m in mods.Values && m !in remaining ==> m.state == HotfixLocked(old(m.state), m.sparkServiceIdx)
        invariant forall m :: m in remaining ==> m.state == old(m.state)
        decreases remaining
      {
        ghost var some := SomeMember(remaining);
        var mod: TextMod :| mod in remaining;
        if mod.state == Disabled && mod.sparkServiceIdx.Some? {
          mod.state := LockedHotfixes;
        }
        remaining := remaining - {mod};
      }
      anyHotfixUsed := true;
    }
  }
}
