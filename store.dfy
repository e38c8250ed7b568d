/**
 * What StorageManager (storage.js) keeps in its key-value store and what
 * each of its operations does to it, stated as functions from the store
 * before to the store after. Values are stored as JSON text; the model
 * stores the parsed value instead, so that parsing what was written gives
 * it back, and marks text that does not parse as `Unparsable`. An empty
 * stored string reads like an absent key everywhere, so it is not
 * distinguished from one.
 */
module StorageSpec {
  import opened Wrappers
  import opened Json
  import opened Project
  import Ledger
  import Preferences
  import Analytics

  const ProjectKey := "hafis_playground_project"
  const PreferencesKey := "hafis_playground_preferences"
  const HistoryKey := "hafis_playground_history"
  const ThemeKey := "hafis_playground_theme"
  const TemplatesKey := "hafis_playground_templates"
  const SnippetsKey := "hafis_playground_snippets"
  const SettingsKey := "hafis_playground_settings"
  const BackupKey := "hafis_playground_backup"
  const AnalyticsKey := "hafis_playground_analytics"
  const AllKeys := [ProjectKey, PreferencesKey, HistoryKey, ThemeKey, TemplatesKey, SnippetsKey, SettingsKey, BackupKey, AnalyticsKey]

  /** storageQuotas.maxProjectSize: 1 MiB. */
  const MaxProjectSize := 1024 * 1024
  const AutoSaveIntervalMs := 2000

  datatype Stored = Parsed(value: Value) | Unparsable
  type Store = map<string, Stored>

  /** `getItem(key)` then `JSON.parse`, with the reader's fallbacks for an absent key and for text that does not parse. */
  function ReadOr(s: Store, key: string, absent: Value, unparsable: Value): (v: Value)
    ensures key !in s ==> v == absent
    ensures key in s && s[key].Parsed? ==> v == s[key].value
    ensures key in s && s[key].Unparsable? ==> v == unparsable
  {
    if key !in s then absent
    else match s[key]
      case Parsed(v) => v
      case Unparsable => unparsable
  }

  /** getHistory. */
  function History(s: Store): Value {
    ReadOr(s, HistoryKey, Arr([]), Arr([]))
  }

  /** getBackups. */
  function Backups(s: Store): Value {
    ReadOr(s, BackupKey, Arr([]), Arr([]))
  }

  /** getPreferences: `null` when nothing usable is stored. */
  function PreferencesOf(s: Store): Value {
    ReadOr(s, PreferencesKey, Null, Null)
  }

  /** getAnalytics. */
  function AnalyticsOf(s: Store, now: Timestamp): Value {
    ReadOr(s, AnalyticsKey, Analytics.Fresh(now), Analytics.Recovered(now))
  }

  /** The two stores agree on every key outside `keys`. */
  ghost predicate SameOutside(a: Store, b: Store, keys: set<string>) {
    forall k | k !in keys :: (k in a <==> k in b) && (k in a ==> a[k] == b[k])
  }

  /** The two stores agree on every key but `key`. */
  ghost predicate SameExcept(a: Store, b: Store, key: string) {
    SameOutside(a, b, {key})
  }

  /**
   * loadProject: the stored project, unwrapped, validated and migrated; the
   * default project when nothing is stored, when the stored text does not
   * parse or is `null` (reading `_compressed` of it throws), or when the
   * unwrapped project is invalid.
   */
  function LoadProject(s: Store, env: Env, starter: StarterBuffers): (p: Value)
    ensures ValidateProjectData(p)
  {
    DefaultProjectValid(env, starter);
    var fallback := DefaultProject(env, starter);
    if ProjectKey !in s || s[ProjectKey].Unparsable? || Nullish(s[ProjectKey].value) then fallback
    else
      var data := DecompressData(s[ProjectKey].value);
      if !ValidateProjectData(data) then fallback
      else
        MigrationKeepsValidity(data, env);
        MigrateProjectData(data, env)
  }

  /** The default project is what loading gives for an empty store. */
  lemma LoadEmpty(env: Env, starter: StarterBuffers)
    ensures LoadProject(map[], env, starter) == DefaultProject(env, starter)
  {
  }

  /**
   * Every way loadProject falls back: nothing stored, text that does not
   * parse, a stored `null`, or unwrapped data that fails validation.
   */
  lemma LoadFallsBack(s: Store, env: Env, starter: StarterBuffers)
    requires || ProjectKey !in s || s[ProjectKey].Unparsable? || Nullish(s[ProjectKey].value)
             || !ValidateProjectData(DecompressData(s[ProjectKey].value))
    ensures LoadProject(s, env, starter) == DefaultProject(env, starter)
  {
  }

  /**
   * A stored project that unwraps to a valid one loads as its migration:
   * same files, and the fields it already had kept.
   */
  lemma LoadStored(s: Store, env: Env, starter: StarterBuffers)
    requires ProjectKey in s && s[ProjectKey].Parsed? && !Nullish(s[ProjectKey].value)
    requires ValidateProjectData(DecompressData(s[ProjectKey].value))
    ensures var data := DecompressData(s[ProjectKey].value);
      && LoadProject(s, env, starter) == MigrateProjectData(data, env)
      && Files(LoadProject(s, env, starter)) == Files(data)
  {
    MigrationKeepsValidity(DecompressData(s[ProjectKey].value), env);
  }

  // ---------------------------------------------------------------------------
  // Version history and backups
  // ---------------------------------------------------------------------------

  /**
   * addToHistory: when the stored history is an array and detectChanges
   * does not throw, the entry for `p` goes in front, capped to ten entries
   * and evicted to the quota; any error leaves the store as it was.
   */
  function HistoryEffect(s: Store, p: Value, env: Env, size: Value -> nat): (r: Store)
    requires ValidateProjectData(p)
    ensures SameExcept(r, s, HistoryKey)
  {
    var history := History(s);
    if !history.Arr? then s
    else match DetectChanges(Ledger.PreviousProject(history.items), p)
      case None => s
      case Some(changes) =>
        var entry := Ledger.HistoryEntry(Ledger.NewHistoryId(env), p, env.now, size(p), changes);
        s[HistoryKey := Parsed(Arr(Ledger.PushHistory(history.items, entry, size)))]
  }

  /**
   * A successful addToHistory leaves a history of one to ten entries whose
   * first entry is a copy of the project tagged with its changes, whose
   * other entries are the newest of the previous ones in order, and which
   * fits the quota unless a single entry is left.
   */
  lemma HistoryEffectShape(s: Store, p: Value, env: Env, size: Value -> nat)
    requires ValidateProjectData(p) && History(s).Arr?
    requires DetectChanges(Ledger.PreviousProject(History(s).items), p).Some?
    ensures var before := History(s).items;
      var after := History(HistoryEffect(s, p, env, size));
      var changes := DetectChanges(Ledger.PreviousProject(before), p).value;
      && after.Arr? && 1 <= |after.items| <= Ledger.MaxHistoryVersions
      && after.items[0] == Ledger.HistoryEntry(Ledger.NewHistoryId(env), p, env.now, size(p), changes)
      && after.items[1..] == before[..|after.items| - 1]
      && (|after.items| > 1 ==> size(after) <= Ledger.MaxHistorySize)
  {
    var before := History(s).items;
    var changes := DetectChanges(Ledger.PreviousProject(before), p).value;
    Ledger.PushHistoryShape(before, Ledger.HistoryEntry(Ledger.NewHistoryId(env), p, env.now, size(p), changes), size);
  }

  /** A history that is not an array, or a previous entry without files, makes addToHistory write nothing. */
  lemma HistoryEffectFailure(s: Store, p: Value, env: Env, size: Value -> nat)
    requires ValidateProjectData(p)
    requires !History(s).Arr? || DetectChanges(Ledger.PreviousProject(History(s).items), p).None?
    ensures HistoryEffect(s, p, env, size) == s
  {
  }

  /** createBackup: when the stored backups are an array, the new backup goes in front and the five newest are kept. */
  function BackupEffect(s: Store, p: Value, reason: string, env: Env, size: Value -> nat): (r: Store)
    ensures SameExcept(r, s, BackupKey)
  {
    var backups := Backups(s);
    if !backups.Arr? then s
    else
      var backup := Ledger.BackupEntry(Ledger.NewBackupId(env), p, reason, env.now, size(p));
      s[BackupKey := Parsed(Arr(Ledger.PushBackup(backups.items, backup)))]
  }

  /** After createBackup the backup is first, at most five are kept and the rest are the newest previous ones. */
  lemma BackupEffectShape(s: Store, p: Value, reason: string, env: Env, size: Value -> nat)
    requires Backups(s).Arr?
    ensures var before := Backups(s).items;
      var after := Backups(BackupEffect(s, p, reason, env, size));
      && after.Arr? && |after.items| == (if |before| < Ledger.MaxBackups then |before| + 1 else Ledger.MaxBackups)
      && Get(after.items[0], "reason") == Str(reason) && Get(after.items[0], "project") == Copy(p)
      && after.items[1..] == before[..|after.items| - 1]
  {
  }

  // ---------------------------------------------------------------------------
  // Saving
  // ---------------------------------------------------------------------------

  /** What saveProject leaves behind: the store, its result, and its argument after stamping. */
  datatype Saved = Saved(store: Store, saved: bool, project: Value)

  /**
   * saveProject. An invalid project, or one whose envelope is over the
   * project quota, is refused with nothing written (a valid one is stamped
   * first all the same). Otherwise the envelope is written; then reading
   * `historyEnabled` of missing preferences throws, and the save reports
   * failure with the project already written. With preferences present the
   * project is added to the history when history is enabled, the save is
   * counted when analytics are enabled, and the save succeeds.
   */
  function SaveEffect(s: Store, data: Value, env: Env, size: Value -> nat): (r: Saved)
    ensures !ValidateProjectData(data) ==> r == Saved(s, false, data)
    ensures ValidateProjectData(data) ==> r.project == Stamp(data, env) && ValidateProjectData(r.project)
  {
    if !ValidateProjectData(data) then Saved(s, false, data)
    else
      var stamped := Stamp(data, env);
      StampKeepsValidity(data, env);
      var envelope := CompressData(stamped);
      if size(envelope) > MaxProjectSize then Saved(s, false, stamped)
      else AfterWrite(s[ProjectKey := Parsed(envelope)], stamped, env, size)
  }

  /**
   * The rest of saveProject once the envelope is written: it throws on
   * missing preferences, then adds to the history and counts the save as
   * the preferences say.
   */
  function AfterWrite(written: Store, stamped: Value, env: Env, size: Value -> nat): (r: Saved)
    requires ValidateProjectData(stamped)
    ensures r.project == stamped
    ensures SameOutside(r.store, written, {HistoryKey, AnalyticsKey})
    ensures r.saved <==> !Nullish(PreferencesOf(written))
    ensures !r.saved ==> r.store == written
  {
    var prefs := PreferencesOf(written);
    if Nullish(prefs) then Saved(written, false, stamped)
    else
      var withHistory := HistoryStep(written, Truthy(Get(prefs, "historyEnabled")), stamped, env, size);
      // updateAnalytics reads the preferences again; addToHistory did not change them.
      var counted := AnalyticsStep(withHistory, Truthy(Get(prefs, "analyticsEnabled")), "project_saved", EmptyObject, env.now);
      Saved(counted, true, stamped)
  }

  /** addToHistory when `enabled`, nothing otherwise. */
  function HistoryStep(s: Store, enabled: bool, p: Value, env: Env, size: Value -> nat): (r: Store)
    requires ValidateProjectData(p)
    ensures SameExcept(r, s, HistoryKey)
    ensures !enabled ==> r == s
  {
    if enabled then HistoryEffect(s, p, env, size) else s
  }

  /** The recording part of updateAnalytics when `enabled`, nothing otherwise. */
  function AnalyticsStep(s: Store, enabled: bool, action: string, metadata: Value, now: Timestamp): (r: Store)
    ensures SameExcept(r, s, AnalyticsKey)
    ensures !enabled ==> r == s
  {
    if enabled then AnalyticsRecorded(s, action, metadata, now) else s
  }

  /** A refused save writes nothing: an invalid project, or an envelope over the quota. */
  lemma SaveRefused(s: Store, data: Value, env: Env, size: Value -> nat)
    requires !ValidateProjectData(data) || size(CompressData(Stamp(data, env))) > MaxProjectSize
    ensures SaveEffect(s, data, env, size).store == s && !SaveEffect(s, data, env, size).saved
  {
  }

  /**
   * A save that passes validation and the quota writes the envelope, so
   * that loading afterwards gives the stamped project back (migrated) with
   * the files that were saved, whether or not the save reports success.
   */
  lemma SaveThenLoad(s: Store, data: Value, env: Env, size: Value -> nat, env': Env, starter: StarterBuffers)
    requires ValidateProjectData(data) && size(CompressData(Stamp(data, env))) <= MaxProjectSize
    ensures var r := SaveEffect(s, data, env, size);
      && LoadProject(r.store, env', starter) == MigrateProjectData(Stamp(data, env), env')
      && Files(LoadProject(r.store, env', starter)) == Files(data)
  {
    StampKeepsValidity(data, env);
    var store := SaveEffect(s, data, env, size).store;
    SaveWritesEnvelope(s, data, env, size);
    DecompressCompress(Stamp(data, env));
    LoadStored(store, env', starter);
  }

  /** A save that passes validation and the quota leaves the stamped project's envelope under the project key. */
  lemma SaveWritesEnvelope(s: Store, data: Value, env: Env, size: Value -> nat)
    requires ValidateProjectData(data) && size(CompressData(Stamp(data, env))) <= MaxProjectSize
    ensures var store := SaveEffect(s, data, env, size).store;
      ProjectKey in store && store[ProjectKey] == Parsed(CompressData(Stamp(data, env)))
  {
    SaveStore(s, data, env, size);
    StampKeepsValidity(data, env);
    AfterWriteKeepsProject(s[ProjectKey := Parsed(CompressData(Stamp(data, env)))], Stamp(data, env), env, size);
  }

  /** The steps after the write leave the project key as written. */
  lemma AfterWriteKeepsProject(written: Store, stamped: Value, env: Env, size: Value -> nat)
    requires ValidateProjectData(stamped) && ProjectKey in written
    ensures var after := AfterWrite(written, stamped, env, size).store;
      ProjectKey in after && after[ProjectKey] == written[ProjectKey]
  {
    assert ProjectKey !in {HistoryKey, AnalyticsKey};
  }

  /**
   * Without stored preferences a save that passes the checks writes the
   * project but reports failure, and neither the history nor the analytics
   * are touched.
   */
  lemma SaveWithoutPreferences(s: Store, data: Value, env: Env, size: Value -> nat)
    requires ValidateProjectData(data) && size(CompressData(Stamp(data, env))) <= MaxProjectSize
    requires Nullish(PreferencesOf(s))
    ensures var r := SaveEffect(s, data, env, size);
      && !r.saved
      && r.store == s[ProjectKey := Parsed(CompressData(Stamp(data, env)))]
  {
  }

  /** A save with history switched off never changes the history. */
  lemma SaveWithoutHistory(s: Store, data: Value, env: Env, size: Value -> nat)
    requires !Truthy(Get(PreferencesOf(s), "historyEnabled"))
    ensures History(SaveEffect(s, data, env, size).store) == History(s)
  {
    SaveStore(s, data, env, size);
    if ValidateProjectData(data) && size(CompressData(Stamp(data, env))) <= MaxProjectSize {
      StampKeepsValidity(data, env);
      var written := s[ProjectKey := Parsed(CompressData(Stamp(data, env)))];
      assert SameOutside(written, s, {ProjectKey});
      ReadOutside(written, s, {ProjectKey}, PreferencesKey, Null, Null);
      ReadOutside(written, s, {ProjectKey}, HistoryKey, Arr([]), Arr([]));
      AfterWriteWithoutHistory(written, Stamp(data, env), env, size);
    }
  }

  lemma AfterWriteWithoutHistory(written: Store, stamped: Value, env: Env, size: Value -> nat)
    requires ValidateProjectData(stamped)
    requires !Truthy(Get(PreferencesOf(written), "historyEnabled"))
    ensures History(AfterWrite(written, stamped, env, size).store) == History(written)
  {
    var prefs := PreferencesOf(written);
    if !Nullish(prefs) {
      var withHistory := HistoryStep(written, false, stamped, env, size);
      assert withHistory == written;
      var counted := AnalyticsStep(withHistory, Truthy(Get(prefs, "analyticsEnabled")), "project_saved", EmptyObject, env.now);
      assert AfterWrite(written, stamped, env, size).store == counted;
      ReadOutside(counted, written, {AnalyticsKey}, HistoryKey, Arr([]), Arr([]));
    }
  }

  // ---------------------------------------------------------------------------
  // Analytics
  // ---------------------------------------------------------------------------

  /** The body of updateAnalytics once enabled: a failure inside it is swallowed and writes nothing. */
  function AnalyticsRecorded(s: Store, action: string, metadata: Value, now: Timestamp): (r: Store)
    ensures SameExcept(r, s, AnalyticsKey)
  {
    match Analytics.Record(AnalyticsOf(s, now), action, metadata, now)
    case None => s
    case Some(a) => s[AnalyticsKey := Parsed(a)]
  }

  /**
   * updateAnalytics: `None` when reading `analyticsEnabled` of missing
   * preferences throws; the store unchanged when analytics are disabled.
   */
  function AnalyticsEffect(s: Store, action: string, metadata: Value, now: Timestamp): (r: Option<Store>)
    ensures r.None? <==> Nullish(PreferencesOf(s))
    ensures r.Some? && !Truthy(Get(PreferencesOf(s), "analyticsEnabled")) ==> r.value == s
  {
    match Member(PreferencesOf(s), "analyticsEnabled")
    case None => None
    case Some(enabled) => if Truthy(enabled) then Some(AnalyticsRecorded(s, action, metadata, now)) else Some(s)
  }

  /** An enabled, well-formed record gains the event at its end and bumps the action's counter. */
  lemma AnalyticsEffectRecords(s: Store, action: string, metadata: Value, now: Timestamp)
    requires Truthy(Get(PreferencesOf(s), "analyticsEnabled"))
    requires Analytics.Record(AnalyticsOf(s, now), action, metadata, now).Some?
    ensures AnalyticsEffect(s, action, metadata, now).Some?
    ensures var a := AnalyticsOf(AnalyticsEffect(s, action, metadata, now).value, now);
      var events := Get(a, "events");
      && events.Arr? && 0 < |events.items| <= Analytics.MaxEvents
      && events.items[|events.items| - 1] == Analytics.Event(action, now, metadata)
      && Get(Get(a, "stats"), action) == Analytics.Bump(Get(Get(AnalyticsOf(s, now), "stats"), action)).value
  {
    var before := AnalyticsOf(s, now);
    var recorded := Analytics.Record(before, action, metadata, now).value;
    assert AnalyticsEffect(s, action, metadata, now) == Some(s[AnalyticsKey := Parsed(recorded)]);
    assert AnalyticsOf(s[AnalyticsKey := Parsed(recorded)], now) == recorded;
    Analytics.RecordEvents(before, action, metadata, now);
    Analytics.RecordCounters(before, action, metadata, now);
  }

  // ---------------------------------------------------------------------------
  // Restoring and clearing
  // ---------------------------------------------------------------------------

  /** What a restore or clear leaves behind: the store and the value returned (`None` for `null`). */
  datatype Restored = Restored(store: Store, result: Option<Value>)

  /**
   * restoreFromHistory: find the entry (an array history is required, and
   * `find` may throw); back up `current`, the project loadProject gives, as
   * `before_restore`; copy the entry's project, stamp `lastModified` and
   * save it. The copy is returned even when the save refuses it.
   */
  function RestoreHistoryEffect(s: Store, id: string, current: Value, env: Env, size: Value -> nat): (r: Restored)
    ensures r.result.None? ==> r.store == s
  {
    var history := History(s);
    if !history.Arr? then Restored(s, None)
    else match Ledger.FindById(history.items, id)
      case Found(i) =>
        var backedUp := BackupEffect(s, current, "before_restore", env, size);
        var restored := Set(Copy(Get(history.items[i], "project")), "lastModified", Str(env.now));
        var saved := SaveEffect(backedUp, restored, env, size);
        Restored(saved.store, Some(saved.project))
      case _ => Restored(s, None)
  }

  /** An id that is not in the history restores nothing and writes nothing. */
  lemma RestoreUnknownHistory(s: Store, id: string, current: Value, env: Env, size: Value -> nat)
    requires History(s).Arr? ==> !Ledger.FindById(History(s).items, id).Found?
    ensures RestoreHistoryEffect(s, id, current, env, size) == Restored(s, None)
  {
  }

  /**
   * A successful restore from history first backs up the current project
   * as `before_restore`; the save that follows does not touch the backups.
   */
  lemma RestoreHistoryBacksUp(s: Store, id: string, current: Value, env: Env, size: Value -> nat)
    requires History(s).Arr? && Ledger.FindById(History(s).items, id).Found?
    requires Backups(s).Arr?
    ensures var after := Backups(RestoreHistoryEffect(s, id, current, env, size).store);
      && after.Arr? && |after.items| > 0
      && Get(after.items[0], "reason") == Str("before_restore")
      && Get(after.items[0], "project") == Copy(current)
  {
    var backedUp := BackupEffect(s, current, "before_restore", env, size);
    BackupEffectShape(s, current, "before_restore", env, size);
    var i := Ledger.FindById(History(s).items, id).index;
    var restored := Set(Copy(Get(History(s).items[i], "project")), "lastModified", Str(env.now));
    SaveKeepsBackups(backedUp, restored, env, size);
  }

  /**
   * Restoring a history entry whose project, copied and stamped, is valid
   * and within the quota returns it stamped, and loading afterwards gives
   * its files.
   */
  lemma RestoreHistoryThenLoad(s: Store, id: string, current: Value, env: Env, size: Value -> nat, env': Env, starter: StarterBuffers)
    requires History(s).Arr? && Ledger.FindById(History(s).items, id).Found?
    requires var entry := History(s).items[Ledger.FindById(History(s).items, id).index];
      var restored := Set(Copy(Get(entry, "project")), "lastModified", Str(env.now));
      ValidateProjectData(restored) && size(CompressData(Stamp(restored, env))) <= MaxProjectSize
    ensures var entry := History(s).items[Ledger.FindById(History(s).items, id).index];
      var restored := Set(Copy(Get(entry, "project")), "lastModified", Str(env.now));
      var r := RestoreHistoryEffect(s, id, current, env, size);
      && r.result == Some(Stamp(restored, env))
      && Files(LoadProject(r.store, env', starter)) == Files(restored)
  {
    var entry := History(s).items[Ledger.FindById(History(s).items, id).index];
    var restored := Set(Copy(Get(entry, "project")), "lastModified", Str(env.now));
    SaveThenLoad(BackupEffect(s, current, "before_restore", env, size), restored, env, size, env', starter);
  }

  /** saveProject never writes the backups. */
  lemma SaveKeepsBackups(s: Store, data: Value, env: Env, size: Value -> nat)
    ensures Backups(SaveEffect(s, data, env, size).store) == Backups(s)
  {
    SaveStore(s, data, env, size);
    if ValidateProjectData(data) && size(CompressData(Stamp(data, env))) <= MaxProjectSize {
      var written := s[ProjectKey := Parsed(CompressData(Stamp(data, env)))];
      StampKeepsValidity(data, env);
      ReadOutside(AfterWrite(written, Stamp(data, env), env, size).store, written, {HistoryKey, AnalyticsKey}, BackupKey, Arr([]), Arr([]));
    }
  }

  /** The store saveProject leaves: the store as it was when refused, otherwise the rest of the save after the write. */
  lemma SaveStore(s: Store, data: Value, env: Env, size: Value -> nat)
    ensures SaveEffect(s, data, env, size).store ==
      if ValidateProjectData(data) && size(CompressData(Stamp(data, env))) <= MaxProjectSize then
        StampKeepsValidity(data, env);
        AfterWrite(s[ProjectKey := Parsed(CompressData(Stamp(data, env)))], Stamp(data, env), env, size).store
      else s
  {
  }

  /** Stores that agree outside `keys` read the same under any other key. */
  lemma ReadOutside(a: Store, b: Store, keys: set<string>, key: string, absent: Value, unparsable: Value)
    requires SameOutside(a, b, keys) && key !in keys
    ensures ReadOr(a, key, absent, unparsable) == ReadOr(b, key, absent, unparsable)
  {
  }

  /**
   * restoreBackup: find the backup (an array is required, and `find` may
   * throw) and save its project, returning that project as the save left
   * it.
   */
  function RestoreBackupEffect(s: Store, id: string, env: Env, size: Value -> nat): (r: Restored)
    ensures r.result.None? ==> r.store == s
  {
    var backups := Backups(s);
    if !backups.Arr? then Restored(s, None)
    else match Ledger.FindById(backups.items, id)
      case Found(i) =>
        var saved := SaveEffect(s, Get(backups.items[i], "project"), env, size);
        Restored(saved.store, Some(saved.project))
      case _ => Restored(s, None)
  }

  /**
   * An id restoreBackup does not find (the backups are not an array, no
   * backup has it, or `find` throws on a nullish backup first) returns
   * `null` and writes nothing.
   */
  lemma RestoreUnknownBackup(s: Store, id: string, env: Env, size: Value -> nat)
    requires Backups(s).Arr? ==> !Ledger.FindById(Backups(s).items, id).Found?
    ensures RestoreBackupEffect(s, id, env, size) == Restored(s, None)
  {
  }

  /** A found backup's project is saved, and that project as the save left it is returned. */
  lemma RestoreBackupFound(s: Store, id: string, env: Env, size: Value -> nat)
    requires Backups(s).Arr? && Ledger.FindById(Backups(s).items, id).Found?
    ensures var backup := Backups(s).items[Ledger.FindById(Backups(s).items, id).index];
      var saved := SaveEffect(s, Get(backup, "project"), env, size);
      RestoreBackupEffect(s, id, env, size) == Restored(saved.store, Some(saved.project))
  {
  }

  /**
   * Restoring a backup whose project is valid and within the quota returns
   * it stamped, and loading afterwards gives its files.
   */
  lemma RestoreBackupThenLoad(s: Store, id: string, env: Env, size: Value -> nat, env': Env, starter: StarterBuffers)
    requires Backups(s).Arr? && Ledger.FindById(Backups(s).items, id).Found?
    requires var p := Get(Backups(s).items[Ledger.FindById(Backups(s).items, id).index], "project");
      ValidateProjectData(p) && size(CompressData(Stamp(p, env))) <= MaxProjectSize
    ensures var p := Get(Backups(s).items[Ledger.FindById(Backups(s).items, id).index], "project");
      var r := RestoreBackupEffect(s, id, env, size);
      && r.result == Some(Stamp(p, env))
      && Files(LoadProject(r.store, env', starter)) == Files(p)
  {
    var p := Get(Backups(s).items[Ledger.FindById(Backups(s).items, id).index], "project");
    RestoreBackupFound(s, id, env, size);
    SaveThenLoad(s, p, env, size, env', starter);
  }

  /** restoreBackup never creates a backup: the backups are the same afterwards. */
  lemma RestoreBackupKeepsBackups(s: Store, id: string, env: Env, size: Value -> nat)
    ensures Backups(RestoreBackupEffect(s, id, env, size).store) == Backups(s)
  {
    var backups := Backups(s);
    if backups.Arr? && Ledger.FindById(backups.items, id).Found? {
      SaveKeepsBackups(s, Get(backups.items[Ledger.FindById(backups.items, id).index], "project"), env, size);
    }
  }

  /** clearProject: back up `current`, the project loadProject gives, as `before_clear`, then remove the project key. */
  function ClearEffect(s: Store, current: Value, env: Env, size: Value -> nat): (r: Store)
    ensures ProjectKey !in r
    ensures SameOutside(r, s, {ProjectKey, BackupKey})
  {
    BackupEffect(s, current, "before_clear", env, size) - {ProjectKey}
  }

  /** After clearing, loading gives the default project. */
  lemma ClearThenLoad(s: Store, current: Value, env: Env, size: Value -> nat, starter: StarterBuffers, env': Env)
    ensures LoadProject(ClearEffect(s, current, env, size), env', starter) == DefaultProject(env', starter)
  {
  }

  /** Clearing keeps the cleared project as the newest backup, tagged `before_clear`. */
  lemma ClearBacksUp(s: Store, current: Value, env: Env, size: Value -> nat)
    requires Backups(s).Arr?
    ensures var after := Backups(ClearEffect(s, current, env, size));
      && after.Arr? && |after.items| > 0 && Get(after.items[0], "reason") == Str("before_clear")
      && Get(after.items[0], "project") == Copy(current)
  {
    var backedUp := BackupEffect(s, current, "before_clear", env, size);
    BackupEffectShape(s, current, "before_clear", env, size);
    assert Backups(backedUp - {ProjectKey}) == Backups(backedUp);
  }

  // ---------------------------------------------------------------------------
  // Auto-save
  // ---------------------------------------------------------------------------

  /**
   * What a tick of performAutoSave leaves: the store, and the callback's
   * project as the tick left it (saveProject stamps its argument in place).
   */
  datatype Ticked = Ticked(store: Store, project: Value)

  /**
   * One tick of performAutoSave with `current` the callback's result and
   * `stored` the project loadProject gives: with a callback and a truthy
   * project, save it when hasProjectChanged holds.
   */
  function AutoSaveEffect(s: Store, hasCallback: bool, current: Value, stored: Value, env: Env, size: Value -> nat): (r: Ticked)
    ensures !hasCallback || !Truthy(current) ==> r == Ticked(s, current)
  {
    if !hasCallback || !Truthy(current) then Ticked(s, current)
    else if HasProjectChanged(stored, current) then
      var saved := SaveEffect(s, current, env, size);
      Ticked(saved.store, saved.project)
    else Ticked(s, current)
  }

  /** A tick whose project has the files already stored writes nothing and leaves the project alone. */
  lemma AutoSaveSkipsUnchanged(s: Store, current: Value, stored: Value, env: Env, size: Value -> nat)
    requires Truthy(current) && Files(current) == Files(stored)
    ensures AutoSaveEffect(s, true, current, stored, env, size) == Ticked(s, current)
  {
  }

  /** A tick whose project has other files saves it, and the callback's project is left as the save stamped it. */
  lemma AutoSaveSavesChanged(s: Store, current: Value, stored: Value, env: Env, size: Value -> nat)
    requires Truthy(current) && Files(current) != Files(stored)
    ensures var saved := SaveEffect(s, current, env, size);
      AutoSaveEffect(s, true, current, stored, env, size) == Ticked(saved.store, saved.project)
  {
  }

  /**
   * Auto-save settles: after a tick that saved a valid project within the
   * quota, the next tick on the stamped project and the freshly loaded one
   * writes nothing.
   */
  lemma AutoSaveSettles(s: Store, current: Value, stored: Value, env: Env, size: Value -> nat, env': Env, starter: StarterBuffers)
    requires Truthy(current) && Files(current) != Files(stored)
    requires ValidateProjectData(current) && size(CompressData(Stamp(current, env))) <= MaxProjectSize
    ensures var r := AutoSaveEffect(s, true, current, stored, env, size);
      && r.project == Stamp(current, env)
      && AutoSaveEffect(r.store, true, r.project, LoadProject(r.store, env', starter), env', size) == Ticked(r.store, r.project)
  {
    AutoSaveSavesChanged(s, current, stored, env, size);
    var r := AutoSaveEffect(s, true, current, stored, env, size);
    StampKeepsValidity(current, env);
    SaveThenLoad(s, current, env, size, env', starter);
    AutoSaveSkipsUnchanged(r.store, r.project, LoadProject(r.store, env', starter), env', size);
  }

  // ---------------------------------------------------------------------------
  // Preferences
  // ---------------------------------------------------------------------------

  /** setPreferences: the given preferences merged over the defaults are written. */
  function PreferencesEffect(s: Store, p: Value): (r: Store)
    ensures SameExcept(r, s, PreferencesKey)
    ensures PreferencesOf(r) == Preferences.Merge(p)
  {
    s[PreferencesKey := Parsed(Preferences.Merge(p))]
  }

  /** After setPreferences every key reads as given, or as its default when not given. */
  lemma PreferencesEffectGet(s: Store, p: Value, k: string)
    requires WellFormed(p)
    ensures Get(PreferencesOf(PreferencesEffect(s, p)), k) == if k in p.props then p.props[k] else Get(Preferences.Defaults, k)
  {
    Preferences.MergeGet(p, k);
  }

  /** The preferences updatePreference starts from: the stored ones if truthy, otherwise the defaults. */
  function PreferencesBase(s: Store): (p: Value)
    ensures Truthy(p)
  {
    if Truthy(PreferencesOf(s)) then PreferencesOf(s) else Preferences.Defaults
  }

  /**
   * updatePreference: set the dotted key in the current preferences and
   * store them with setPreferences. `None` is the TypeError thrown when the
   * path runs into something that is not an object; nothing is written.
   */
  function PreferenceUpdateEffect(s: Store, key: string, value: Value): (r: Option<Store>)
    ensures r.None? <==> Preferences.SetPath(PreferencesBase(s), Preferences.Split(key), value).None?
  {
    match Preferences.SetPath(PreferencesBase(s), Preferences.Split(key), value)
    case None => None
    case Some(p) => Some(PreferencesEffect(s, p))
  }

  /** After updatePreference the dotted key reads as the value written. */
  lemma PreferenceUpdateThenGet(s: Store, key: string, value: Value)
    requires PreferenceUpdateEffect(s, key, value).Some?
    requires WellFormed(PreferencesBase(s))
    ensures Preferences.GetPath(PreferencesOf(PreferenceUpdateEffect(s, key, value).value), Preferences.Split(key)) == value
  {
    var keys := Preferences.Split(key);
    var p := Preferences.SetPath(PreferencesBase(s), keys, value).value;
    assert PreferencesOf(PreferenceUpdateEffect(s, key, value).value) == Preferences.Merge(p);
    Preferences.SetPathThenGet(PreferencesBase(s), keys, value);
    SetPathWellFormed(PreferencesBase(s), keys, value);
    SetPathHasHead(PreferencesBase(s), keys, value);
    Preferences.MergeKeepsPath(p, keys);
  }

  /**
   * updatePreference changes no other path: a path `q` whose first key is
   * among the preferences it starts from, and which leaves the dotted key
   * after its first `i` keys, reads afterwards as it read before.
   */
  lemma PreferenceUpdateKeepsOtherPaths(s: Store, key: string, value: Value, q: seq<string>, i: nat)
    requires PreferenceUpdateEffect(s, key, value).Some?
    requires WellFormed(PreferencesBase(s))
    requires var keys := Preferences.Split(key);
      i < |keys| && i < |q| && q[..i] == keys[..i] && q[i] != keys[i]
    requires q[0] in PreferencesBase(s).props
    ensures Preferences.GetPath(PreferencesOf(PreferenceUpdateEffect(s, key, value).value), q)
      == Preferences.GetPath(PreferencesBase(s), q)
  {
    var keys := Preferences.Split(key);
    var p := Preferences.SetPath(PreferencesBase(s), keys, value).value;
    assert PreferencesOf(PreferenceUpdateEffect(s, key, value).value) == Preferences.Merge(p);
    SetPathWellFormed(PreferencesBase(s), keys, value);
    assert q[0] in p.props by {
      if i == 0 {
        assert Get(p, q[0]) == Get(PreferencesBase(s), q[0]);
      } else {
        assert q[..i][0] == keys[..i][0];
        SetPathHasHead(PreferencesBase(s), keys, value);
      }
    }
    Preferences.MergeKeepsPath(p, q);
    Preferences.SetPathKeepsOtherPaths(PreferencesBase(s), keys, value, q, i);
  }

  /** The update keeps the top-level object a JavaScript object. */
  lemma SetPathWellFormed(node: Value, keys: seq<string>, value: Value)
    requires |keys| > 0 && WellFormed(node) && Preferences.SetPath(node, keys, value).Some?
    ensures WellFormed(Preferences.SetPath(node, keys, value).value)
  {
  }

  /** The update leaves the first key present at the top level. */
  lemma SetPathHasHead(node: Value, keys: seq<string>, value: Value)
    requires |keys| > 0 && Preferences.SetPath(node, keys, value).Some?
    ensures keys[0] in Preferences.SetPath(node, keys, value).value.props
  {
  }

  /** On defaults (nothing truthy stored), a key under the `notifications` group always updates. */
  lemma UpdateOnDefaults(s: Store, k: string, value: Value)
    requires !Truthy(PreferencesOf(s)) && '.' !in k
    ensures PreferenceUpdateEffect(s, "notifications." + k, value).Some?
  {
    var key := "notifications." + k;
    assert '.' !in "notifications";
    Preferences.SplitJoin(["notifications", k]);
    assert Preferences.JoinDots(["notifications", k]) == key;
    assert Preferences.Split(key) == ["notifications", k];
    assert PreferencesBase(s) == Preferences.Defaults;
    assert Get(Preferences.Defaults, "notifications") == Preferences.Notifications;
    assert Preferences.SetPath(Preferences.Notifications, [k], value).Some?;
    assert ["notifications", k][1..] == [k];
  }

  /** resetPreferences: the defaults are written. */
  function ResetEffect(s: Store): (r: Store)
    ensures SameExcept(r, s, PreferencesKey)
  {
    PreferencesEffect(s, Preferences.Defaults)
  }

  /** After a reset every key reads as its default. */
  lemma ResetGivesDefaults(s: Store, k: string)
    ensures Get(PreferencesOf(ResetEffect(s)), k) == Get(Preferences.Defaults, k)
  {
    Preferences.DefaultsWellFormed();
    Preferences.MergeGet(Preferences.Defaults, k);
  }

  // ---------------------------------------------------------------------------
  // Maintenance
  // ---------------------------------------------------------------------------

  /** What `if (list.length > n) write(list.slice(0, n))` does with a stored value. */
  datatype Trim = Throws | Keep | Write(kept: Value)

  /**
   * `null.length` throws; an array or a string longer than `n` is cut to
   * its first `n` elements; an object whose `length` is a number, or a
   * string of decimal digits, over `n` has no `slice` to call and throws;
   * anything else is kept.
   */
  function Trimmed(v: Value, n: nat): (t: Trim)
    ensures v.Arr? && |v.items| > n ==> t == Write(Arr(v.items[..n]))
    ensures v.Arr? && |v.items| <= n ==> t == Keep
    ensures t.Throws? ==> v.Null? || v.Undefined? || v.Obj?
  {
    match v
    case Null => Throws
    case Undefined => Throws
    case Arr(xs) => if |xs| > n then Write(Arr(xs[..n])) else Keep
    case Str(text) => if |text| > n then Write(Str(text[..n])) else Keep
    case Obj(_, _) =>
      var length := Get(v, "length");
      if length.Num? && length.n > n then Throws
      else if length.Str? && DecimalValue(length.s).Some? && DecimalValue(length.s).value > n then Throws
      else Keep
    case _ => Keep
  }

  /** The value of a non-empty string of decimal digits, as `>` converts it to a number. */
  function DecimalValue(text: string): (r: Option<nat>)
    ensures r.Some? ==> |text| > 0 && forall i | 0 <= i < |text| :: '0' <= text[i] <= '9'
    ensures |text| > 0 && (forall i | 0 <= i < |text| :: '0' <= text[i] <= '9') ==> r.Some?
    decreases |text|
  {
    if |text| == 0 || !('0' <= text[|text| - 1] <= '9') then None
    else
      var digit := (text[|text| - 1] as int - '0' as int) as nat;
      if |text| == 1 then Some(digit)
      else match DecimalValue(text[..|text| - 1])
        case None => None
        case Some(v) => Some(10 * v + digit)
  }

  /** `"10"` reads as ten and `"7a"` is not a decimal numeral. */
  lemma DecimalValueExamples()
    ensures DecimalValue("10") == Some(10) && DecimalValue("7a").None? && DecimalValue("").None?
  {
  }

  /** A stored history `{"length": "10"}` makes optimizeStorage throw, as `"10" > 5` holds. */
  lemma TrimmedStringLength()
    ensures Trimmed(Obj(["length"], map["length" := Str("10")]), 5) == Throws
  {
    assert DecimalValue("10") == Some(10);
  }

  const OptimizedHistory := 5
  const OptimizedBackups := 3

  /**
   * optimizeStorage: keep the five newest history entries, then the three
   * newest backups; an error stops it where it happens.
   */
  function OptimizeEffect(s: Store): (r: Store)
    ensures SameOutside(r, s, {HistoryKey, BackupKey})
  {
    match Trimmed(History(s), OptimizedHistory)
    case Throws => s
    case Keep => OptimizeBackups(s)
    case Write(kept) => OptimizeBackups(s[HistoryKey := Parsed(kept)])
  }

  /** The second half of optimizeStorage: keep the three newest backups. */
  function OptimizeBackups(s: Store): (r: Store)
    ensures SameExcept(r, s, BackupKey)
  {
    match Trimmed(Backups(s), OptimizedBackups)
    case Write(kept) => s[BackupKey := Parsed(kept)]
    case _ => s
  }

  /**
   * After optimizing, an array history has at most five entries and array
   * backups at most three, each a prefix of what was there.
   */
  lemma OptimizeBounds(s: Store)
    requires History(s).Arr? && Backups(s).Arr?
    ensures var h := History(OptimizeEffect(s));
      var b := Backups(OptimizeEffect(s));
      && h.Arr? && |h.items| <= OptimizedHistory && h.items == History(s).items[..|h.items|]
      && b.Arr? && |b.items| <= OptimizedBackups && b.items == Backups(s).items[..|b.items|]
  {
  }

  /** Optimizing twice is optimizing once. */
  lemma OptimizeIdempotent(s: Store)
    requires History(s).Arr? && Backups(s).Arr?
    ensures OptimizeEffect(OptimizeEffect(s)) == OptimizeEffect(s)
  {
    OptimizeBounds(s);
  }

  /** `events.filter(e => recent(e.timestamp))`; `recent` stands for the one-week date comparison. */
  function KeepRecent(events: seq<Value>, recent: Value -> bool): (r: seq<Value>)
    ensures |r| <= |events|
    ensures forall e | e in r :: e in events && recent(Get(e, "timestamp"))
    ensures forall e | e in events && recent(Get(e, "timestamp")) :: e in r
    decreases |events|
  {
    if events == [] then []
    else (if recent(Get(events[0], "timestamp")) then [events[0]] else []) + KeepRecent(events[1..], recent)
  }

  /**
   * cleanupOldData: drop the analytics events that are not recent and
   * write the record back (a fresh one when none was stored). It throws,
   * writing nothing, when the record or its `events` is unusable or an
   * event is `null`.
   */
  function CleanupEffect(s: Store, recent: Value -> bool, now: Timestamp): (r: Store)
    ensures SameExcept(r, s, AnalyticsKey)
  {
    var a := AnalyticsOf(s, now);
    var events := Get(a, "events");
    if !a.Obj? || !events.Arr? || exists i | 0 <= i < |events.items| :: Nullish(events.items[i]) then s
    else s[AnalyticsKey := Parsed(Set(a, "events", Arr(KeepRecent(events.items, recent))))]
  }

  /**
   * cleanupOldData on a usable record (an object whose `events` is an array
   * without nullish events) writes that record with only its recent events;
   * on any other record it throws and writes nothing.
   */
  lemma CleanupKeepsRecent(s: Store, recent: Value -> bool, now: Timestamp)
    ensures var a := AnalyticsOf(s, now);
      var events := Get(a, "events");
      var r := CleanupEffect(s, recent, now);
      if a.Obj? && events.Arr? && forall i | 0 <= i < |events.items| :: !Nullish(events.items[i]) then
        AnalyticsOf(r, now) == Set(a, "events", Arr(KeepRecent(events.items, recent)))
      else r == s
  {
  }

  /** With nothing stored, cleaning up writes a fresh record with no events. */
  lemma CleanupCreatesRecord(s: Store, recent: Value -> bool, now: Timestamp)
    requires AnalyticsKey !in s
    ensures AnalyticsOf(CleanupEffect(s, recent, now), now) == Analytics.Fresh(now)
  {
    var a := Analytics.Fresh(now);
    assert Set(a, "events", Arr([])) == a;
  }

  /**
   * init with storage available: store the defaults when the stored
   * preferences are falsy, optimize when the host reports usage near the
   * quota, then clean up old analytics.
   */
  function InitEffect(s: Store, nearLimit: bool, recent: Value -> bool, now: Timestamp): (r: Store)
    ensures Truthy(PreferencesOf(r))
  {
    var s1 := if !Truthy(PreferencesOf(s)) then PreferencesEffect(s, Preferences.Defaults) else s;
    var s2 := if nearLimit then OptimizeEffect(s1) else s1;
    CleanupEffect(s2, recent, now)
  }

  /**
   * init keeps truthy stored preferences; otherwise the defaults are what
   * the preferences read afterwards.
   */
  lemma InitPreferences(s: Store, nearLimit: bool, recent: Value -> bool, now: Timestamp)
    ensures var r := InitEffect(s, nearLimit, recent, now);
      && (Truthy(PreferencesOf(s)) ==> PreferencesOf(r) == PreferencesOf(s))
      && (!Truthy(PreferencesOf(s)) ==> PreferencesOf(r) == Preferences.Defaults)
  {
    var s1 := if !Truthy(PreferencesOf(s)) then PreferencesEffect(s, Preferences.Defaults) else s;
    var s2 := if nearLimit then OptimizeEffect(s1) else s1;
    ReadOutside(s2, s1, {HistoryKey, BackupKey}, PreferencesKey, Null, Null);
    ReadOutside(CleanupEffect(s2, recent, now), s2, {AnalyticsKey}, PreferencesKey, Null, Null);
    if !Truthy(PreferencesOf(s)) {
      Preferences.DefaultsWellFormed();
      SpreadSelf(Preferences.Defaults);
    }
  }

  /** `keys.forEach(key => removeItem(key))`. */
  function RemoveKeys(s: Store, keys: seq<string>): (r: Store)
    ensures forall k | k in keys :: k !in r
    ensures forall k | k in r :: k in s && k !in keys && r[k] == s[k]
    ensures forall k | k in s && k !in keys :: k in r
    decreases |keys|
  {
    if keys == [] then s else RemoveKeys(s - {keys[0]}, keys[1..])
  }

  /** clearAllStorage once confirmed: every key of the playground is removed and every other key kept. */
  function ClearAllEffect(s: Store): (r: Store)
    ensures forall k | k in AllKeys :: k !in r
    ensures forall k | k !in AllKeys :: (k in r <==> k in s) && (k in r ==> r[k] == s[k])
  {
    RemoveKeys(s, AllKeys)
  }

  /** After clearing everything, every reader falls back to its default. */
  lemma ClearAllReadsDefaults(s: Store, env: Env, starter: StarterBuffers)
    ensures var r := ClearAllEffect(s);
      && History(r) == Arr([]) && Backups(r) == Arr([]) && PreferencesOf(r) == Null
      && AnalyticsOf(r, env.now) == Analytics.Fresh(env.now)
      && LoadProject(r, env, starter) == DefaultProject(env, starter)
  {
    var r := ClearAllEffect(s);
    assert HistoryKey in AllKeys && BackupKey in AllKeys && PreferencesKey in AllKeys;
    assert AnalyticsKey in AllKeys && ProjectKey in AllKeys;
  }
}
