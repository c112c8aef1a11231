/**
 * The text-mod loader's saved settings (`text_mod_loader/settings.py`): the
 * ordered list of mod files to enable on start-up, the cached metadata per mod
 * file, the version of that cache, and the counter that suppresses updates of
 * the start-up list.
 *
 * Paths are the strings `str(path.resolve())` gives; resolving and the file
 * system checks are parameters, and saving the settings is left out.
 */
module Settings {
  import opened Wrappers

  /** A game of the mod manager's `Game` enum, known by its member name. */
  datatype Game = Game(name: string)

  /** `CURRENT_MOD_INFO_VERSION`. */
  const CURRENT_MOD_INFO_VERSION: int := 2

  /** The author a mod gets when its file names none. */
  const DEFAULT_AUTHOR: string := "Text Mod Loader"

  /** `ModInfo`: the metadata of one mod file. Times are `st_mtime` values. */
  datatype ModInfo = ModInfo(
    modifyTime: real,
    ignoreMe: bool,
    sparkServiceIdx: Option<int>,
    recommendedGame: Option<Game>,
    title: string,
    author: string,
    version: string,
    description: string)

  /**
   * What the `recommended_game` entry of a cached dictionary holds: nothing
   * (the key is missing), `None`, a member name as saved, or a `Game` value
   * written back by `get_cached_mod_info`.
   */
  datatype StoredGame = Missing | NoGame | GameName(name: string) | GameValue(game: Game)

  /** One cached dictionary of `mod_info`; a key edited out of the settings file is `None` here. */
  datatype StoredInfo = StoredInfo(
    modifyTime: Option<real>,
    ignoreMe: Option<bool>,
    sparkServiceIdx: Option<Option<int>>,
    recommendedGame: StoredGame,
    title: Option<string>,
    author: Option<string>,
    version: Option<string>,
    description: Option<string>)

  // ---------------------------------------------------------------- the start-up list

  /** `list.remove`: the list without the first occurrence of `x`, unchanged when there is none. */
  function RemoveFirst(s: seq<string>, x: string): (r: seq<string>)
    ensures multiset(r) == multiset(s) - multiset{x}
  {
    if s == [] then []
    else if s[0] == x then
      assert s == [s[0]] + s[1..];
      s[1..]
    else
      assert s == [s[0]] + s[1..];
      [s[0]] + RemoveFirst(s[1..], x)
  }

  /** The entries other than `x`, in order. */
  function OtherPaths(s: seq<string>, x: string): (r: seq<string>)
    ensures x !in r
    ensures forall y :: y in r <==> y in s && y != x
  {
    if s == [] then []
    else
      assert s == [s[0]] + s[1..];
      (if s[0] == x then [] else [s[0]]) + OtherPaths(s[1..], x)
  }

  /** The start-up list after `change_mod_auto_enable(path, enable)`: the path removed once, then appended when enabling. */
  function AutoEnableUpdated(s: seq<string>, path: string, enable: bool): seq<string>
  {
    RemoveFirst(s, path) + (if enable then [path] else [])
  }

  /**
   * The start-up list after a change that calls `change_mod_auto_enable(path,
   * enable)` when `called`: unchanged unless called while updates are not
   * suppressed.
   */
  function AutoEnableAfter(s: seq<string>, counter: int, path: string, enable: bool, called: bool): seq<string>
  {
    if called && counter <= 0 then AutoEnableUpdated(s, path, enable) else s
  }

  /** Removing the first occurrence of an entry that occurs at most once removes every occurrence. */
  lemma {:induction false} RemoveFirstOfSingle(s: seq<string>, x: string)
    requires multiset(s)[x] <= 1
    ensures RemoveFirst(s, x) == OtherPaths(s, x)
  {
    if s != [] {
      assert s == [s[0]] + s[1..];
      if s[0] == x {
        assert multiset(s[1..])[x] == 0;
        NotPresentKept(s[1..], x);
      } else {
        RemoveFirstOfSingle(s[1..], x);
      }
    }
  }

  /** Without `x`, filtering it out changes nothing. */
  lemma {:induction false} NotPresentKept(s: seq<string>, x: string)
    requires x !in s
    ensures OtherPaths(s, x) == s
  {
    if s != [] {
      assert s == [s[0]] + s[1..];
      NotPresentKept(s[1..], x);
    }
  }

  /** Filtering distributes over concatenation. */
  lemma {:induction false} OtherPathsConcat(a: seq<string>, b: seq<string>, x: string)
    ensures OtherPaths(a + b, x) == OtherPaths(a, x) + OtherPaths(b, x)
  {
    if a != [] {
      var ab := a + b;
      assert ab[1..] == a[1..] + b;
      assert ab[0] == a[0];
      OtherPathsConcat(a[1..], b, x);
      assert OtherPaths(ab, x) == (if a[0] == x then [] else [a[0]]) + OtherPaths(a[1..] + b, x);
      assert OtherPaths(a, x) == (if a[0] == x then [] else [a[0]]) + OtherPaths(a[1..], x);
    } else {
      assert a + b == b;
    }
  }

  /**
   * For a path listed at most once: afterwards it is listed exactly once, at
   * the end, when enabling, and not at all when disabling.
   */
  lemma {:induction false} AutoEnableUpdatedCount(s: seq<string>, path: string, enable: bool)
    requires multiset(s)[path] <= 1
    ensures multiset(AutoEnableUpdated(s, path, enable))[path] == (if enable then 1 else 0)
    ensures enable ==> AutoEnableUpdated(s, path, enable)[|AutoEnableUpdated(s, path, enable)| - 1] == path
  {
    var removed := RemoveFirst(s, path);
    RemoveFirstOfSingle(s, path);
    var tail: seq<string> := if enable then [path] else [];
    assert multiset(removed + tail) == multiset(removed) + multiset(tail);
  }

  /** Whatever is enabled or disabled, the other entries keep their relative order. */
  lemma {:induction false} AutoEnableKeepsOthers(s: seq<string>, path: string, enable: bool)
    requires multiset(s)[path] <= 1
    ensures OtherPaths(AutoEnableUpdated(s, path, enable), path) == OtherPaths(s, path)
  {
    var removed := RemoveFirst(s, path);
    var tail: seq<string> := if enable then [path] else [];
    assert AutoEnableUpdated(s, path, enable) == removed + tail;
    RemoveFirstOfSingle(s, path);
    OtherPathsConcat(removed, tail, path);
    NotPresentKept(removed, path);
    TailFiltered(path, enable);
    assert removed + [] == removed;
  }

  /** The appended path is filtered out again. */
  lemma {:induction false} TailFiltered(path: string, enable: bool)
    ensures OtherPaths(if enable then [path] else [], path) == []
  {
    if enable {
      assert [path][1..] == [];
    }
  }

  // ---------------------------------------------------------------- cached metadata

  /** The dictionary `update_cached_mod_info` stores: every key, and the game by its name. */
  function Stored(info: ModInfo): (raw: StoredInfo)
    ensures raw.recommendedGame != Missing
  {
    StoredInfo(
      Some(info.modifyTime), Some(info.ignoreMe), Some(info.sparkServiceIdx),
      if info.recommendedGame.None? then NoGame else GameName(info.recommendedGame.value.name),
      Some(info.title), Some(info.author), Some(info.version), Some(info.description))
  }

  /** `Game.__members__.get(value)`: a name of a member gives that member; `None` and non-names give `None`. */
  function MemberGet(members: map<string, Game>, value: StoredGame): Option<Game>
  {
    match value
    case GameName(n) => if n in members then Some(members[n]) else None
    case _ => None
  }

  /** The converted entry written back into the cached dictionary. */
  function ConvertedGame(g: Option<Game>): StoredGame
  {
    if g.None? then NoGame else GameValue(g.value)
  }

  /** The cached dictionary merged over the defaults, with the game already converted. */
  function WithDefaults(raw: StoredInfo, game: Option<Game>, fileName: string): ModInfo
  {
    ModInfo(
      raw.modifyTime.GetOr(0.0), raw.ignoreMe.GetOr(false), raw.sparkServiceIdx.GetOr(None), game,
      raw.title.GetOr(fileName), raw.author.GetOr(DEFAULT_AUTHOR), raw.version.GetOr(""), raw.description.GetOr(""))
  }

  /**
   * `get_cached_mod_info` on one cached dictionary, as written: the game is
   * converted and written back into the dictionary before anything else, a
   * missing `recommended_game` key raises `KeyError`, and a file modified
   * after the cached time gives `None`. The second component is the
   * dictionary left in the cache.
   */
  function ReadCachedAsWritten(raw: StoredInfo, fileName: string, mtime: real, members: map<string, Game>)
    : (r: (Result<Option<ModInfo>, string>, StoredInfo))
    ensures raw.recommendedGame == Missing <==> r.0.Err?
    ensures r.0.Ok? && r.0.value.Some? ==> mtime <= r.0.value.value.modifyTime
  {
    if raw.recommendedGame == Missing then (Err("KeyError: 'recommended_game'"), raw)
    else
      var game := MemberGet(members, raw.recommendedGame);
      var updated := raw.(recommendedGame := ConvertedGame(game));
      var info := WithDefaults(updated, game, fileName);
      (Ok(if mtime > info.modifyTime then None else Some(info)), updated)
  }

  /** `get_cached_mod_info` as evidently intended: the same answer, without writing the converted game back. */
  function ReadCached(raw: StoredInfo, fileName: string, mtime: real, members: map<string, Game>)
    : (r: Result<Option<ModInfo>, string>)
    ensures r == ReadCachedAsWritten(raw, fileName, mtime, members).0
  {
    if raw.recommendedGame == Missing then Err("KeyError: 'recommended_game'")
    else
      var info := WithDefaults(raw, MemberGet(members, raw.recommendedGame), fileName);
      Ok(if mtime > info.modifyTime then None else Some(info))
  }

  /** Every game is the member of its own name. */
  predicate NamesMembers(members: map<string, Game>)
  {
    forall n :: n in members ==> members[n].name == n
  }

  /** A game known to the enum. */
  predicate Known(members: map<string, Game>, g: Option<Game>)
  {
    g.Some? ==> g.value.name in members && members[g.value.name] == g.value
  }

  /**
   * What `update_cached_mod_info` stores, `get_cached_mod_info` gives back,
   * for a file not modified since and a game the enum knows.
   */
  lemma {:induction false} CachedRoundTrip(info: ModInfo, fileName: string, mtime: real, members: map<string, Game>)
    requires mtime <= info.modifyTime && Known(members, info.recommendedGame)
    ensures ReadCached(Stored(info), fileName, mtime, members) == Ok(Some(info))
  {
  }

  /** A cached entry is trusted exactly when the file is not newer than its cached time (0 when missing). */
  lemma {:induction false} CachedReadTrusted(raw: StoredInfo, fileName: string, mtime: real, members: map<string, Game>)
    ensures ReadCached(raw, fileName, mtime, members).Ok? ==>
      (ReadCached(raw, fileName, mtime, members).value.None? <==> mtime > raw.modifyTime.GetOr(0.0))
  {
  }

  /**
   * As written, the game written back is a `Game` value, which is not a member
   * name: the next read of the same entry finds no recommended game, even for
   * a game the enum knows.
   */
  lemma {:induction false} SecondReadLosesGame(info: ModInfo, fileName: string, mtime: real, members: map<string, Game>)
    requires mtime <= info.modifyTime && info.recommendedGame.Some? && Known(members, info.recommendedGame)
    ensures ReadCachedAsWritten(Stored(info), fileName, mtime, members).0 == Ok(Some(info))
    ensures ReadCachedAsWritten(ReadCachedAsWritten(Stored(info), fileName, mtime, members).1, fileName, mtime, members).0
      == Ok(Some(info.(recommendedGame := None)))
  {
  }

  /** The settings `auto_enable`, `mod_info` and `version`, and `suppress_auto_enable_update_counter`. */
  class SettingsState {
    var autoEnable: seq<string>
    var modInfo: map<string, StoredInfo>
    var version: int
    var suppressCounter: int

    /** The defaults: nothing to enable, nothing cached, version 0, no suppression. */
    constructor ()
      ensures autoEnable == [] && modInfo == map[] && version == 0 && suppressCounter == 0
    {
      autoEnable := [];
      modInfo := map[];
      version := 0;
      suppressCounter := 0;
    }

    /**
     * `sanitize_settings`: on a version change every cached entry is dropped
     * and the version becomes the current one; the start-up list keeps the
     * resolved paths of the files that still exist, and the cache is rebuilt
     * under the resolved paths of the files that still exist, a later entry
     * winning over an earlier one with the same resolved path. `order` lists
     * the cache's keys in the dictionary's insertion order.
     */
    method SanitizeSettings(order: seq<string>, isFile: string -> bool, resolve: string -> string)
      requires forall k :: k in order <==> k in modInfo
      modifies this
      ensures version == CURRENT_MOD_INFO_VERSION
      ensures old(version) != CURRENT_MOD_INFO_VERSION ==> modInfo == map[]
      ensures old(version) == CURRENT_MOD_INFO_VERSION ==> modInfo == Rekeyed(order, old(modInfo), isFile, resolve)
      ensures autoEnable == ExistingResolved(old(autoEnable), isFile, resolve)
      ensures suppressCounter == old(suppressCounter)
    {
      var keys := order;
      if version != CURRENT_MOD_INFO_VERSION {
        modInfo := map[];
        keys := [];
      }
      version := CURRENT_MOD_INFO_VERSION;
      autoEnable := ExistingResolved(autoEnable, isFile, resolve);
      modInfo := Rekeyed(keys, modInfo, isFile, resolve);
    }

    /** `change_mod_auto_enable`: nothing while updates are suppressed, otherwise the path moved to the end or removed. */
    method ChangeModAutoEnable(path: string, enable: bool)
      modifies this
      ensures autoEnable == AutoEnableAfter(old(autoEnable), old(suppressCounter), path, enable, true)
      ensures modInfo == old(modInfo) && version == old(version) && suppressCounter == old(suppressCounter)
    {
      if suppressCounter > 0 {
        return;
      }
      autoEnable := RemoveFirst(autoEnable, path);
      if enable {
        autoEnable := autoEnable + [path];
      }
    }

    /** Entering `suppress_auto_enable_updates`. */
    method BeginSuppress()
      modifies this
      ensures suppressCounter == old(suppressCounter) + 1
      ensures autoEnable == old(autoEnable) && modInfo == old(modInfo) && version == old(version)
    {
      suppressCounter := suppressCounter + 1;
    }

    /**
     * Leaving `suppress_auto_enable_updates`: the counter goes back down only
     * when the body returned normally, since there is no `finally`.
     */
    method EndSuppress(raised: bool)
      modifies this
      ensures suppressCounter == old(suppressCounter) - (if raised then 0 else 1)
      ensures autoEnable == old(autoEnable) && modInfo == old(modInfo) && version == old(version)
    {
      if !raised {
        suppressCounter := suppressCounter - 1;
      }
    }

    /** `get_cached_mod_info(path)` for the resolved path `key`, as written: the converted game is stored back. */
    method GetCachedModInfo(key: string, fileName: string, mtime: real, members: map<string, Game>)
      returns (r: Result<Option<ModInfo>, string>)
      modifies this
      ensures key !in old(modInfo) ==> r == Ok(None) && modInfo == old(modInfo)
      ensures key in old(modInfo) ==>
        r == ReadCachedAsWritten(old(modInfo)[key], fileName, mtime, members).0
        && modInfo == old(modInfo)[key := ReadCachedAsWritten(old(modInfo)[key], fileName, mtime, members).1]
      ensures autoEnable == old(autoEnable) && version == old(version) && suppressCounter == old(suppressCounter)
    {
      if key !in modInfo {
        return Ok(None);
      }
      var read := ReadCachedAsWritten(modInfo[key], fileName, mtime, members);
      modInfo := modInfo[key := read.1];
      r := read.0;
    }

    /** `update_cached_mod_info(path, info)` for the resolved path `key`. */
    method UpdateCachedModInfo(key: string, info: ModInfo)
      modifies this
      ensures modInfo == old(modInfo)[key := Stored(info)]
      ensures autoEnable == old(autoEnable) && version == old(version) && suppressCounter == old(suppressCounter)
    {
      modInfo := modInfo[key := Stored(info)];
    }
  }

  /**
   * The dictionary comprehension of `sanitize_settings` over the cache's keys
   * in `order`: each existing file's entry under its resolved path, so that
   * of several keys resolving to one path the last in `order` wins.
   */
  function Rekeyed(order: seq<string>, m: map<string, StoredInfo>, isFile: string -> bool, resolve: string -> string)
    : (r: map<string, StoredInfo>)
    requires forall k :: k in order ==> k in m
    ensures forall p :: p in r <==> exists i :: 0 <= i < |order| && isFile(order[i]) && resolve(order[i]) == p
  {
    if order == [] then map[]
    else
      var n := |order| - 1;
      var before := Rekeyed(order[..n], m, isFile, resolve);
      assert forall i :: 0 <= i < n ==> order[..n][i] == order[i];
      if isFile(order[n]) then before[resolve(order[n]) := m[order[n]]] else before
  }

  /** The entry kept for a resolved path is that of the last existing file resolving to it. */
  lemma {:induction false} RekeyedLastWins(order: seq<string>, m: map<string, StoredInfo>, isFile: string -> bool, resolve: string -> string, i: nat)
    requires forall k :: k in order ==> k in m
    requires i < |order| && isFile(order[i]) && LastResolving(order, isFile, resolve, i)
    ensures resolve(order[i]) in Rekeyed(order, m, isFile, resolve)
    ensures Rekeyed(order, m, isFile, resolve)[resolve(order[i])] == m[order[i]]
  {
    var n := |order| - 1;
    if i < n {
      assert order[..n][i] == order[i];
      forall j | i < j < n && isFile(order[..n][j])
        ensures resolve(order[..n][j]) != resolve(order[..n][i])
      {
        assert order[..n][j] == order[j];
      }
      RekeyedLastWins(order[..n], m, isFile, resolve, i);
      assert isFile(order[n]) ==> resolve(order[n]) != resolve(order[i]);
    }
  }

  /**
   * When every key is already the resolved path of its file, rebuilding the
   * cache only drops the entries of files that no longer exist.
   */
  lemma {:induction false} RekeyedResolvedKeys(order: seq<string>, m: map<string, StoredInfo>, isFile: string -> bool, resolve: string -> string)
    requires forall k :: k in order <==> k in m
    requires forall k :: k in m ==> resolve(k) == k
    ensures Rekeyed(order, m, isFile, resolve) == map k | k in m && isFile(k) :: m[k]
  {
    var r := Rekeyed(order, m, isFile, resolve);
    forall p | p in r
      ensures p in m && isFile(p) && r[p] == m[p]
    {
      RekeyedValueFrom(order, m, isFile, resolve, p);
      var i :| 0 <= i < |order| && isFile(order[i]) && resolve(order[i]) == p && r[p] == m[order[i]];
      assert order[i] in m;
    }
  }

  /** Every entry of the rebuilt cache is the entry of some existing file resolving to its key. */
  lemma {:induction false} RekeyedValueFrom(order: seq<string>, m: map<string, StoredInfo>, isFile: string -> bool, resolve: string -> string, p: string)
    requires forall k :: k in order ==> k in m
    requires p in Rekeyed(order, m, isFile, resolve)
    ensures exists i :: (0 <= i < |order| && isFile(order[i]) && resolve(order[i]) == p
                         && Rekeyed(order, m, isFile, resolve)[p] == m[order[i]])
  {
    var n := |order| - 1;
    if isFile(order[n]) && resolve(order[n]) == p {
    } else {
      RekeyedValueFrom(order[..n], m, isFile, resolve, p);
      var i :| 0 <= i < n && isFile(order[..n][i]) && resolve(order[..n][i]) == p
        && Rekeyed(order[..n], m, isFile, resolve)[p] == m[order[..n][i]];
      assert order[..n][i] == order[i];
    }
  }

  /** No existing file after position `i` of `order` resolves to the same path as the one at `i`. */
  predicate LastResolving(order: seq<string>, isFile: string -> bool, resolve: string -> string, i: int)
    requires 0 <= i < |order|
  {
    forall j :: i < j < |order| && isFile(order[j]) ==> resolve(order[j]) != resolve(order[i])
  }

  /** The start-up list with the missing files dropped and the rest resolved, in order. */
  function ExistingResolved(paths: seq<string>, isFile: string -> bool, resolve: string -> string): (r: seq<string>)
    ensures |r| <= |paths|
    ensures forall p :: p in r <==> exists q :: q in paths && isFile(q) && resolve(q) == p
  {
    if paths == [] then []
    else
      assert paths == [paths[0]] + paths[1..];
      (if isFile(paths[0]) then [resolve(paths[0])] else []) + ExistingResolved(paths[1..], isFile, resolve)
  }
}
