/**
 * One text mod (`text_mod_loader/text_mod.py`): its file, its lifecycle state
 * and the metadata read from the file, with the operations that move it
 * through the states of `TextModStates`.
 *
 * Whether the file exists is a parameter of each operation. What the mod
 * manager's own `Mod.enable`/`Mod.disable` do is not part of this model; the
 * console command and the message boxes are returned as effects.
 */
module TextMods {
  import opened Wrappers
  import opened TextModStates
  import opened Settings

  /** What an operation asks the game to do. */
  datatype Effect =
    /** `ConsoleCommand(command)` on the player controller. */
    | Command(command: string)
    /** A `TrainingBox` shown with this title and message. */
    | MessageBox(title: string, message: string)

  /** The console command that runs a mod file, given its path relative to the game's binaries. */
  function ExecCommand(relPath: string): string
  {
    "exec \"" + relPath + "\""
  }

  /** The title of the message box `enable` shows for a mod it cannot run. */
  function UnableTitle(name: string): string
  {
    "Unable to execute '" + name + "'"
  }

  const LOCKED_MESSAGE: string := "The mod was supposed to be locked, how did you manage this?"

  /** The message of the box `enable` shows for a deleted mod file. */
  function DeletedMessage(file: string): string
  {
    "The associated mod file has been deleted:\n" + file
  }

  /** The pieces `description` joins with newlines. */
  datatype DescriptionPart =
    | WrongGameWarning(intended: Game, current: Game)
    | DeletedWarning
    | RestartNote
    | LockedHotfixesNote
    | LockedBadServiceNote
    | InternalDescription(text: string)

  /** `check_deleted` on a state: a missing file sends the inactive states to DeletedInactive and the active ones to DeletedActive. */
  function CheckedState(s: TextModState, fileExists: bool): (t: TextModState)
    ensures fileExists ==> t == s
    ensures !fileExists ==> t == (if IsActive(s) then DeletedActive else DeletedInactive)
  {
    if fileExists then s
    else match s
      case Disabled | LockedHotfixes | LockedBadService => DeletedInactive
      case DisableOnRestart | Enabled => DeletedActive
      case DeletedActive | DeletedInactive => s
  }

  /** The state `enable` leaves: after `check_deleted`, Disabled and DisableOnRestart become Enabled, the rest stay. */
  function EnabledState(s: TextModState, fileExists: bool): TextModState
  {
    var c := CheckedState(s, fileExists);
    if c == Disabled || c == DisableOnRestart then Enabled else c
  }

  /** The state `disable` leaves: after `check_deleted`, Enabled becomes DisableOnRestart, the rest stay. */
  function DisabledState(s: TextModState, fileExists: bool): TextModState
  {
    var c := CheckedState(s, fileExists);
    if c == Enabled then DisableOnRestart else c
  }

  /**
   * The name `any_hotfix_used` as text_mod.py sees it: its own binding, copied
   * from the hotfixes module when text_mod.py is imported, before any hotfix
   * ran. `mark_hotfixes_used` rebinds only the hotfixes module's name, so this
   * copy stays False.
   */
  const IMPORTED_ANY_HOTFIX_USED: bool := false

  /** The state `__post_init__` gives a mod that starts in `s`, given the flag it reads. */
  function InitialState(s: TextModState, sparkServiceIdx: Option<int>, anyHotfixUsed: bool, isHotfixService: bool): (r: TextModState)
    ensures r == s || r == LockedHotfixes || r == LockedBadService
    ensures r != s ==> sparkServiceIdx.Some? && EnablingLocked(r)
    ensures sparkServiceIdx.Some? && anyHotfixUsed ==> r == LockedHotfixes
  {
    if sparkServiceIdx.None? then s
    else if anyHotfixUsed then LockedHotfixes
    else if !isHotfixService then LockedBadService
    else s
  }

  /** `enabling_locked`. */
  predicate EnablingLocked(s: TextModState)
  {
    match s
    case Disabled | DisableOnRestart | Enabled => false
    case LockedHotfixes | LockedBadService | DeletedActive | DeletedInactive => true
  }

  /** The label `get_status` shows for a mod in a game it supports. */
  function StatusLabel(s: TextModState): (r: string)
    ensures r != INCOMPATIBLE_LABEL
  {
    match s
    case Disabled => "<font color='#ff0000'>Disabled</font>"
    case DisableOnRestart => "<font color='#ff6060'>Disabling on Restart</font>"
    case Enabled => "<font color='#00ff00'>Enabled</font>"
    case LockedHotfixes | LockedBadService => "<font color='#ffff00'>Locked</font>"
    case DeletedActive | DeletedInactive => "<font color='#ffff00'>Deleted</font>"
  }

  const INCOMPATIBLE_LABEL: string := "<font color='#ffff00'>Incompatible</font>"

  /** Two states `get_status` does not tell apart: the same state, both locked, or both deleted. */
  predicate SameStatusGroup(a: TextModState, b: TextModState)
  {
    a == b
    || ((a == LockedHotfixes || a == LockedBadService) && (b == LockedHotfixes || b == LockedBadService))
    || ((a == DeletedActive || a == DeletedInactive) && (b == DeletedActive || b == DeletedInactive))
  }

  class TextMod {
    /** The mod's title. */
    const name: string
    const author: string
    const version: string
    /** `file`, as the resolved path the settings store. */
    const file: string
    const sparkServiceIdx: Option<int>
    const recommendedGame: Option<Game>
    /** `internal_description`. */
    const internalDescription: Option<string>
    /** The games the mod manager lists the mod as supporting. */
    const supportedGames: set<Game>
    var state: TextModState

    /**
     * The dataclass constructor, state Disabled, followed by `__post_init__`:
     * a mod that uses a spark service is locked when the flag it reads says a
     * hotfix mod already ran, or when its service is not the hotfix service
     * (`isHotfixService` is what `is_hotfix_service` says of it). As written
     * the flag read is `IMPORTED_ANY_HOTFIX_USED`; as intended it is the live
     * `HotfixFlag.anyHotfixUsed`.
     */
    constructor (name: string, author: string, version: string, file: string, sparkServiceIdx: Option<int>,
                 recommendedGame: Option<Game>, internalDescription: Option<string>, supportedGames: set<Game>,
                 anyHotfixUsed: bool, isHotfixService: bool)
      ensures this.name == name && this.author == author && this.version == version
      ensures this.file == file && this.sparkServiceIdx == sparkServiceIdx
      ensures this.recommendedGame == recommendedGame && this.internalDescription == internalDescription
      ensures this.supportedGames == supportedGames
      ensures state == InitialState(Disabled, sparkServiceIdx, anyHotfixUsed, isHotfixService)
    {
      this.name := name;
      this.author := author;
      this.version := version;
      this.file := file;
      this.sparkServiceIdx := sparkServiceIdx;
      this.recommendedGame := recommendedGame;
      this.internalDescription := internalDescription;
      this.supportedGames := supportedGames;
      state := Disabled;
      new;
      if sparkServiceIdx.Some? {
        if anyHotfixUsed {
          state := LockedHotfixes;
        } else if !isHotfixService {
          state := LockedBadService;
        }
      }
    }

    /** `check_deleted`. */
    method CheckDeleted(fileExists: bool)
      modifies this
      ensures state == CheckedState(old(state), fileExists)
    {
      if fileExists {
        return;
      }
      match state
      case Disabled | LockedHotfixes | LockedBadService =>
        state := DeletedInactive;
      case DisableOnRestart | Enabled =>
        state := DeletedActive;
      case DeletedActive | DeletedInactive =>
    }

    /**
     * `enable`: a Disabled mod is executed with `exec "<relPath>"` and becomes
     * Enabled, a DisableOnRestart one becomes Enabled without executing, and
     * both are recorded for auto-enabling; a locked or deleted mod shows a
     * message box and stays as it is.
     */
    method Enable(settings: SettingsState, fileExists: bool, relPath: string) returns (effects: seq<Effect>)
      modifies this, settings
      ensures state == EnabledState(old(state), fileExists)
      ensures CheckedState(old(state), fileExists) == Disabled <==>
        effects == [Command(ExecCommand(relPath))]
      ensures CheckedState(old(state), fileExists) == Enabled ==> effects == []
      ensures EnablingLocked(CheckedState(old(state), fileExists)) ==> |effects| == 1 && effects[0].MessageBox?
      ensures settings.autoEnable ==
        AutoEnableAfter(old(settings.autoEnable), old(settings.suppressCounter), file, true, old(state) != Enabled && state == Enabled)
      ensures settings.modInfo == old(settings.modInfo) && settings.version == old(settings.version)
      ensures settings.suppressCounter == old(settings.suppressCounter)
    {
      CheckDeleted(fileExists);
      effects := [];
      if state == Enabled {
        return;
      } else if state == LockedHotfixes || state == LockedBadService {
        effects := [MessageBox(UnableTitle(name), LOCKED_MESSAGE)];
        Disable(settings, fileExists);
      } else if state == DeletedActive || state == DeletedInactive {
        effects := [MessageBox(UnableTitle(name), DeletedMessage(file))];
        Disable(settings, fileExists);
      } else {
        if state == Disabled {
          effects := [Command(ExecCommand(relPath))];
        }
        state := Enabled;
        settings.ChangeModAutoEnable(file, true);
      }
    }

    /**
     * `disable`: an Enabled mod becomes DisableOnRestart and is dropped from
     * auto-enabling; every other state stays.
     */
    method Disable(settings: SettingsState, fileExists: bool)
      modifies this, settings
      ensures state == DisabledState(old(state), fileExists)
      ensures settings.autoEnable ==
        AutoEnableAfter(old(settings.autoEnable), old(settings.suppressCounter), file, false, old(state) == Enabled && state == DisableOnRestart)
      ensures settings.modInfo == old(settings.modInfo) && settings.version == old(settings.version)
      ensures settings.suppressCounter == old(settings.suppressCounter)
    {
      CheckDeleted(fileExists);
      if state == Enabled {
        state := DisableOnRestart;
        settings.ChangeModAutoEnable(file, false);
      }
    }

    /** `get_status` while `currentGame` is running. */
    function GetStatus(currentGame: Game): (status: string)
      reads this
      ensures currentGame !in supportedGames ==> status == INCOMPATIBLE_LABEL
      ensures currentGame in supportedGames ==> status == StatusLabel(state)
    {
      if currentGame !in supportedGames then INCOMPATIBLE_LABEL else StatusLabel(state)
    }

    /** The parts `description` joins with newlines while `currentGame` is running, in order. */
    function DescriptionParts(currentGame: Game): seq<DescriptionPart>
      reads this
    {
      GameParts(recommendedGame, currentGame) + StateParts(state) + InternalParts(internalDescription)
    }
  }

  /** The warning about a mod made for another game. */
  function GameParts(recommendedGame: Option<Game>, currentGame: Game): seq<DescriptionPart>
  {
    if recommendedGame.Some? && recommendedGame.value != currentGame
    then [WrongGameWarning(recommendedGame.value, currentGame)] else []
  }

  /** The notes about the state. */
  function StateParts(s: TextModState): seq<DescriptionPart>
  {
    (if s == DeletedActive || s == DeletedInactive then [DeletedWarning] else [])
    + match s
      case DisableOnRestart | DeletedActive => [RestartNote]
      case LockedHotfixes => [LockedHotfixesNote]
      case LockedBadService => [LockedBadServiceNote]
      case Disabled | Enabled | DeletedInactive => []
  }

  /** The description read from the file, when it is not empty. */
  function InternalParts(internalDescription: Option<string>): seq<DescriptionPart>
  {
    if internalDescription.Some? && internalDescription.value != ""
    then [InternalDescription(internalDescription.value)] else []
  }

  /** The description starts with the warning about another game exactly when the mod was made for a game other than the running one. */
  lemma {:induction false} DescriptionWarnsFirst(recommendedGame: Option<Game>, currentGame: Game, s: TextModState, internalDescription: Option<string>)
    ensures var parts := GameParts(recommendedGame, currentGame) + StateParts(s) + InternalParts(internalDescription);
      && ((parts != [] && parts[0].WrongGameWarning?) <==> recommendedGame.Some? && recommendedGame.value != currentGame)
      && (parts != [] && parts[0].WrongGameWarning? ==> parts[0] == WrongGameWarning(recommendedGame.value, currentGame))
  {
    var g, m, d := GameParts(recommendedGame, currentGame), StateParts(s), InternalParts(internalDescription);
    var parts := g + m + d;
    if g == [] {
      if m != [] {
        assert parts[0] == m[0];
      } else if d != [] {
        assert parts[0] == d[0];
      }
    }
  }

  /** The description warns about a deleted file, notes a restart and explains a lock exactly in the matching states. */
  lemma {:induction false} DescriptionNotesState(recommendedGame: Option<Game>, currentGame: Game, s: TextModState, internalDescription: Option<string>)
    ensures var parts := GameParts(recommendedGame, currentGame) + StateParts(s) + InternalParts(internalDescription);
      && (DeletedWarning in parts <==> s == DeletedActive || s == DeletedInactive)
      && (RestartNote in parts <==> s == DisableOnRestart || s == DeletedActive)
      && (LockedHotfixesNote in parts <==> s == LockedHotfixes)
      && (LockedBadServiceNote in parts <==> s == LockedBadService)
  {
    var g, m, d := GameParts(recommendedGame, currentGame), StateParts(s), InternalParts(internalDescription);
    assert forall p :: p in g + m + d <==> p in g || p in m || p in d;
  }

  /** The description ends with the file's own description exactly when that is not empty. */
  lemma {:induction false} DescriptionEndsWithOwn(recommendedGame: Option<Game>, currentGame: Game, s: TextModState, internalDescription: Option<string>)
    ensures var parts := GameParts(recommendedGame, currentGame) + StateParts(s) + InternalParts(internalDescription);
      && ((parts != [] && parts[|parts| - 1].InternalDescription?) <==> internalDescription.Some? && internalDescription.value != "")
      && (parts != [] && parts[|parts| - 1].InternalDescription? ==> parts[|parts| - 1].text == internalDescription.value)
  {
    var g, m, d := GameParts(recommendedGame, currentGame), StateParts(s), InternalParts(internalDescription);
    var parts := g + m + d;
    if d == [] {
      if m != [] {
        assert parts[|parts| - 1] == m[|m| - 1];
      } else if g != [] {
        assert parts[|parts| - 1] == g[|g| - 1];
      }
    }
  }

  // ---------------------------------------------------------------- properties

  /** `check_deleted` makes at most one documented transition (on deletion), changes nothing while the file exists, and is idempotent. */
  lemma {:induction false} CheckDeletedFollowsDiagram(s: TextModState, fileExists: bool)
    ensures Moves(s, CheckedState(s, fileExists))
    ensures fileExists ==> CheckedState(s, fileExists) == s
    ensures CheckedState(CheckedState(s, fileExists), fileExists) == CheckedState(s, fileExists)
    ensures s == DeletedActive || s == DeletedInactive ==> CheckedState(s, fileExists) == s
  {
    if !fileExists && s != DeletedActive && s != DeletedInactive {
      assert Step(s, ModFileDeleted, CheckedState(s, fileExists));
    }
  }

  /**
   * With the file present, `enable` sends Disabled and DisableOnRestart to
   * Enabled along a documented transition and leaves every other state as it
   * is; so it never changes a state whose enabling is locked.
   */
  lemma {:induction false} EnableFollowsDiagram(s: TextModState)
    ensures Moves(s, EnabledState(s, true))
    ensures EnabledState(s, true) == (if s == Disabled || s == DisableOnRestart then Enabled else s)
    ensures EnablingLocked(s) ==> EnabledState(s, true) == s
  {
    if s == Disabled {
      assert Step(s, ModEnabled, Enabled);
    } else if s == DisableOnRestart {
      assert Step(s, ToggleEnabled, Enabled);
    }
  }

  /** `disable` changes only Enabled, to DisableOnRestart, along the toggle. */
  lemma {:induction false} DisableFollowsDiagram(s: TextModState)
    ensures Moves(s, DisabledState(s, true))
    ensures DisabledState(s, true) != s <==> s == Enabled
    ensures s == Enabled ==> DisabledState(s, true) == DisableOnRestart
  {
    if s == Enabled {
      assert Step(s, ToggleEnabled, DisableOnRestart);
    }
  }

  /** With the file missing, `enable` and `disable` end where `check_deleted` does: in a deleted state. */
  lemma {:induction false} MissingFileDeletes(s: TextModState)
    ensures EnabledState(s, false) == CheckedState(s, false) == DisabledState(s, false)
    ensures EnabledState(s, false) == (if IsActive(s) then DeletedActive else DeletedInactive)
  {
  }

  /** `__post_init__` only moves a Disabled mod along a documented transition, to a locked state. */
  lemma {:induction false} InitFollowsDiagram(sparkServiceIdx: Option<int>, anyHotfixUsed: bool, isHotfixService: bool)
    ensures Moves(Disabled, InitialState(Disabled, sparkServiceIdx, anyHotfixUsed, isHotfixService))
    ensures InitialState(Disabled, sparkServiceIdx, anyHotfixUsed, isHotfixService) != Disabled <==>
      sparkServiceIdx.Some? && (anyHotfixUsed || !isHotfixService)
  {
    var t := InitialState(Disabled, sparkServiceIdx, anyHotfixUsed, isHotfixService);
    if t == LockedHotfixes {
      assert Step(Disabled, OtherModWithHotfixes, t);
    } else if t == LockedBadService {
      assert Step(Disabled, InitWrongSparkService, t);
    }
  }

  /**
   * As written, `__post_init__` reads the stale import-time copy, so it never
   * locks a mod for hotfixes: a Disabled mod with a spark service of the
   * hotfix service stays Disabled even after `mark_hotfixes_used` ran.
   */
  lemma {:induction false} StaleFlagNeverLocksHotfixes(sparkServiceIdx: Option<int>, isHotfixService: bool)
    ensures InitialState(Disabled, sparkServiceIdx, IMPORTED_ANY_HOTFIX_USED, isHotfixService) != LockedHotfixes
    ensures InitialState(Disabled, Some(0), IMPORTED_ANY_HOTFIX_USED, true) == Disabled
  {
  }

  /** As intended, a mod with a spark service created after a hotfix mod ran is LockedHotfixes, whatever its service. */
  lemma {:induction false} LiveFlagLocksHotfixes(sparkServiceIdx: Option<int>, isHotfixService: bool)
    requires sparkServiceIdx.Some?
    ensures InitialState(Disabled, sparkServiceIdx, true, isHotfixService) == LockedHotfixes
    ensures EnablingLocked(InitialState(Disabled, sparkServiceIdx, true, isHotfixService))
  {
  }

  /** `enabling_locked` holds exactly in the states from which `enable` cannot reach Enabled. */
  lemma {:induction false} EnablingLockedMeansStuck(s: TextModState, fileExists: bool)
    ensures EnablingLocked(s) <==> EnabledState(s, fileExists) != Enabled && EnabledState(s, true) != Enabled
  {
  }

  /** `get_status` gives two states the same label exactly when they are in the same group, and never the incompatibility label. */
  lemma {:induction false} StatusLabelGroups(a: TextModState, b: TextModState)
    ensures StatusLabel(a) == StatusLabel(b) <==> SameStatusGroup(a, b)
    ensures StatusLabel(a) != INCOMPATIBLE_LABEL
  {
    LabelShape(a);
    LabelShape(b);
    assert |INCOMPATIBLE_LABEL| == 41;
    if !SameStatusGroup(a, b) {
      assert |StatusLabel(a)| != |StatusLabel(b)| || StatusLabel(a)[22] != StatusLabel(b)[22];
    }
  }

  /** The labels' lengths, and the first letter of the word that tells the two labels of length 36 apart. */
  lemma {:induction false} LabelShape(s: TextModState)
    ensures |StatusLabel(s)| == match s
      case Disabled => 37
      case DisableOnRestart => 49
      case LockedHotfixes | LockedBadService => 35
      case _ => 36
    ensures s == Enabled ==> StatusLabel(s)[22] == 'E'
    ensures s == DeletedActive || s == DeletedInactive ==> StatusLabel(s)[22] == 'D'
  {
  }
}
