/**
 * The lifecycle of a text mod (`text_mod_loader/anti_circular_import.py`):
 * seven states and the transitions the `TextModState` documentation draws
 * between them.
 */
module TextModStates {

  datatype TextModState =
    | Disabled
    | DisableOnRestart
    | Enabled
    | LockedHotfixes
    | LockedBadService
    | DeletedActive
    | DeletedInactive

  /** The events that label the documented transitions. */
  datatype Event =
    | ToggleEnabled
    | ModEnabled
    | InitWrongSparkService
    | OtherModWithHotfixes
    | ModFileDeleted

  /** Every state, once each. */
  const ALL_STATES: seq<TextModState> :=
    [Disabled, DisableOnRestart, Enabled, LockedHotfixes, LockedBadService, DeletedActive, DeletedInactive]

  /** The transition diagram of `TextModState`. */
  predicate Step(from: TextModState, event: Event, to: TextModState)
  {
    match event
    case ToggleEnabled => (from == Enabled && to == DisableOnRestart) || (from == DisableOnRestart && to == Enabled)
    case ModEnabled => from == Disabled && to == Enabled
    case InitWrongSparkService => from == Disabled && to == LockedBadService
    case OtherModWithHotfixes => from == Disabled && to == LockedHotfixes
    case ModFileDeleted =>
      ((from == Enabled || from == DisableOnRestart) && to == DeletedActive)
      || ((from == Disabled || from == LockedBadService || from == LockedHotfixes) && to == DeletedInactive)
  }

  /** No change, or one documented transition. */
  predicate Moves(from: TextModState, to: TextModState)
  {
    from == to || exists event :: Step(from, event, to)
  }

  /** Whether the mod was active this session, so that its file must stay loaded. */
  predicate IsActive(s: TextModState)
  {
    s == Enabled || s == DisableOnRestart || s == DeletedActive
  }

  /** There are exactly seven states, all distinct, and every state is one of them. */
  lemma {:induction false} SevenStates(s: TextModState)
    ensures |ALL_STATES| == 7
    ensures forall i, j :: 0 <= i < j < |ALL_STATES| ==> ALL_STATES[i] != ALL_STATES[j]
    ensures s in ALL_STATES
  {
  }

  /** Enabled and DisableOnRestart toggle into each other. */
  lemma {:induction false} ToggleIsInvolution(s: TextModState, t: TextModState)
    requires Step(s, ToggleEnabled, t)
    ensures Step(t, ToggleEnabled, s)
    ensures {s, t} == {Enabled, DisableOnRestart}
  {
  }

  /** Disabled leaves only for Enabled, LockedBadService, LockedHotfixes or, on deletion, DeletedInactive. */
  lemma {:induction false} DisabledExits(event: Event, t: TextModState)
    requires Step(Disabled, event, t)
    ensures t in {Enabled, LockedBadService, LockedHotfixes, DeletedInactive}
    ensures t == Enabled <==> event == ModEnabled
    ensures t == LockedBadService <==> event == InitWrongSparkService
    ensures t == LockedHotfixes <==> event == OtherModWithHotfixes
  {
  }

  /** A deleted file sends the active states to DeletedActive and the rest to DeletedInactive. */
  lemma {:induction false} DeletionTargets(s: TextModState, t: TextModState)
    requires Step(s, ModFileDeleted, t)
    ensures t == (if IsActive(s) then DeletedActive else DeletedInactive)
  {
  }

  /** The deleted states have no outgoing transitions. */
  lemma {:induction false} DeletedAreFinal(s: TextModState, event: Event, t: TextModState)
    requires s == DeletedActive || s == DeletedInactive
    ensures !Step(s, event, t)
  {
  }
}
