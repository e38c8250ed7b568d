/**
 * StorageManager (storage.js) as an object over its key-value store. Each
 * method performs the source's steps on `items` and is proved to leave the
 * store StorageSpec describes for that operation.
 */
module Storage {
  import opened Wrappers
  import opened Json
  import opened Project
  import Ledger
  import Preferences
  import Analytics
  import opened StorageSpec

  class StorageManager {
    /** The key-value store: localStorage, or the in-memory fallback. */
    var items: Store
    /** Whether startAutoSave has registered a callback. */
    var hasCallback: bool
    /** Whether the auto-save interval is running. */
    var timerArmed: bool
    /** Whether localStorage was unavailable at construction. */
    const inMemory: bool
    /** `calculateDataSize`: twice the length of a value's JSON text, the UTF-16 estimate. */
    const size: Value -> nat
    /** The buffers of the default project; the page's own are Boilerplate.Starter. */
    const starter: StarterBuffers

    /**
     * The constructor and init, with the buffers getDefaultProject fills in
     * (Boilerplate.Starter) as a parameter. With localStorage unavailable the manager
     * falls back to an empty in-memory store and does nothing else.
     * Otherwise it starts from what was `persisted`, stores the default
     * preferences when none are stored, optimizes when the host reports the
     * store `nearLimit`, and cleans up old analytics.
     */
    constructor(starter: StarterBuffers, available: bool, persisted: Store, nearLimit: bool, recent: Value -> bool, size: Value -> nat, now: Timestamp)
      ensures inMemory == !available && this.size == size && this.starter == starter
      ensures !hasCallback && !timerArmed
      ensures items == if available then InitEffect(persisted, nearLimit, recent, now) else map[]
    {
      inMemory := !available;
      this.size := size;
      this.starter := starter;
      hasCallback := false;
      timerArmed := false;
      // The steps of init are those of the Init method below.
      items := if available then InitEffect(persisted, nearLimit, recent, now) else map[];
    }

    /** init once localStorage is known to be available, then performMaintenance. */
    method Init(nearLimit: bool, recent: Value -> bool, now: Timestamp)
      modifies this`items
      ensures items == InitEffect(old(items), nearLimit, recent, now)
    {
      var prefs := GetPreferences();
      if !Truthy(prefs) {
        var _ := SetPreferences(Preferences.Defaults);
      }
      if nearLimit {
        OptimizeStorage();
      }
      CleanupOldData(recent, now);
    }

    // -------------------------------------------------------------------------
    // The store wrappers
    // -------------------------------------------------------------------------

    /** setItem. */
    method SetItem(key: string, value: Stored)
      modifies this`items
      ensures items == old(items)[key := value]
    {
      items := items[key := value];
    }

    /** removeItem. */
    method RemoveItem(key: string)
      modifies this`items
      ensures items == old(items) - {key}
    {
      items := items - {key};
    }

    /** clear. */
    method Clear()
      modifies this`items
      ensures items == map[]
    {
      items := map[];
    }

    // -------------------------------------------------------------------------
    // Projects
    // -------------------------------------------------------------------------

    /** loadProject. */
    method LoadProject(env: Env) returns (p: Value)
      ensures p == StorageSpec.LoadProject(items, env, starter)
      ensures ValidateProjectData(p)
    {
      DefaultProjectValid(env, starter);
      if ProjectKey !in items || items[ProjectKey].Unparsable? {
        return DefaultProject(env, starter);
      }
      var parsed := items[ProjectKey].value;
      if Nullish(parsed) {
        // Reading `_compressed` of `null` throws; the error path loads the default.
        return DefaultProject(env, starter);
      }
      parsed := DecompressData(parsed);
      if !ValidateProjectData(parsed) {
        return DefaultProject(env, starter);
      }
      MigrationKeepsValidity(parsed, env);
      p := MigrateProjectData(parsed, env);
    }

    /** saveProject: `saved` is its result and `project` its argument as the call leaves it. */
    method SaveProject(data: Value, env: Env) returns (saved: bool, project: Value)
      modifies this`items
      ensures var r := SaveEffect(old(items), data, env, size);
        items == r.store && saved == r.saved && project == r.project
    {
      saved, project := false, data;
      if !ValidateProjectData(data) {
        return;
      }
      project := Stamp(data, env);
      StampKeepsValidity(data, env);
      var envelope := CompressData(project);
      if size(envelope) > MaxProjectSize {
        return;
      }
      SetItem(ProjectKey, Parsed(envelope));
      saved := RecordSave(project, env);
    }

    /** The steps of saveProject after the write: history and analytics, as the preferences say. */
    method RecordSave(project: Value, env: Env) returns (saved: bool)
      requires ValidateProjectData(project)
      modifies this`items
      ensures var r := AfterWrite(old(items), project, env, size);
        items == r.store && saved == r.saved
    {
      var prefs := GetPreferences();
      if Nullish(prefs) {
        // Reading `historyEnabled` of `null` throws.
        return false;
      }
      var historyEnabled := Truthy(Get(prefs, "historyEnabled"));
      if historyEnabled {
        AddToHistory(project, env);
      }
      assert items == HistoryStep(old(items), historyEnabled, project, env, size);
      assert PreferencesOf(items) == prefs;
      var _ := UpdateAnalytics("project_saved", EmptyObject, env.now);
      saved := true;
    }

    /** clearProject: returns the default project. */
    method ClearProject(env: Env) returns (p: Value)
      modifies this`items
      ensures items == ClearEffect(old(items), StorageSpec.LoadProject(old(items), env, starter), env, size)
      ensures p == DefaultProject(env, starter)
    {
      var current := LoadProject(env);
      CreateBackup(current, "before_clear", env);
      RemoveItem(ProjectKey);
      p := DefaultProject(env, starter);
    }

    // -------------------------------------------------------------------------
    // Auto-save
    // -------------------------------------------------------------------------

    /**
     * startAutoSave: `completed` is false when reading `autoSave` of
     * missing preferences throws. With auto-save on, the callback is
     * registered and the interval (re)started; with it off, nothing
     * changes.
     */
    method StartAutoSave() returns (completed: bool)
      modifies this`hasCallback, this`timerArmed
      ensures completed <==> !Nullish(PreferencesOf(items))
      ensures completed && Truthy(Get(PreferencesOf(items), "autoSave")) ==> hasCallback && timerArmed
      ensures !(completed && Truthy(Get(PreferencesOf(items), "autoSave"))) ==>
        hasCallback == old(hasCallback) && timerArmed == old(timerArmed)
    {
      var prefs := GetPreferences();
      if Nullish(prefs) {
        return false;
      }
      completed := true;
      if !Truthy(Get(prefs, "autoSave")) {
        return;
      }
      hasCallback := true;
      timerArmed := true;
    }

    /** stopAutoSave. */
    method StopAutoSave()
      modifies this`timerArmed
      ensures !timerArmed
    {
      timerArmed := false;
    }

    /**
     * performAutoSave, with `current` the project the callback returns;
     * `project` is that object after the tick, stamped when it was saved.
     */
    method PerformAutoSave(current: Value, env: Env) returns (project: Value)
      modifies this`items
      ensures var r := AutoSaveEffect(old(items), hasCallback, current, StorageSpec.LoadProject(old(items), env, starter), env, size);
        items == r.store && project == r.project
    {
      project := current;
      if !hasCallback || !Truthy(current) {
        return;
      }
      var stored := LoadProject(env);
      if HasProjectChanged(stored, current) {
        var saved;
        saved, project := SaveProject(current, env);
      }
    }

    // -------------------------------------------------------------------------
    // Version history
    // -------------------------------------------------------------------------

    /** getHistory. */
    method GetHistory() returns (h: Value)
      ensures h == History(items)
      ensures HistoryKey !in items ==> h == Arr([])
    {
      h := ReadOr(items, HistoryKey, Arr([]), Arr([]));
    }

    /**
     * addToHistory. Only saveProject calls it, with a project it has just
     * validated.
     */
    method AddToHistory(projectData: Value, env: Env)
      requires ValidateProjectData(projectData)
      modifies this`items
      ensures items == HistoryEffect(old(items), projectData, env, size)
    {
      var history := GetHistory();
      if !history.Arr? {
        // `unshift` is not a function: the error is swallowed.
        return;
      }
      var changes := DetectChanges(Ledger.PreviousProject(history.items), projectData);
      if changes.None? {
        return;
      }
      var entry := Ledger.HistoryEntry(Ledger.NewHistoryId(env), projectData, env.now, size(projectData), changes.value);
      var list := [entry] + history.items;
      if |list| > Ledger.MaxHistoryVersions {
        list := list[..Ledger.MaxHistoryVersions];
      }
      assert list == Ledger.Cap([entry] + history.items, Ledger.MaxHistoryVersions);
      if size(Arr(list)) > Ledger.MaxHistorySize {
        while size(Arr(list)) > Ledger.MaxHistorySize && |list| > 1
          invariant Ledger.Evict(list, size) == Ledger.PushHistory(history.items, entry, size)
          decreases |list|
        {
          list := list[..|list| - 1];
        }
      }
      SetItem(HistoryKey, Parsed(Arr(list)));
    }

    /** restoreFromHistory: the restored project, or `None` for the `null` of an error. */
    method RestoreFromHistory(id: string, env: Env) returns (r: Option<Value>)
      modifies this`items
      ensures var e := RestoreHistoryEffect(old(items), id, StorageSpec.LoadProject(old(items), env, starter), env, size);
        items == e.store && r == e.result
    {
      var history := GetHistory();
      if !history.Arr? {
        return None;
      }
      var found := Ledger.FindById(history.items, id);
      if !found.Found? {
        return None;
      }
      var current := LoadProject(env);
      CreateBackup(current, "before_restore", env);
      var restored := Set(Copy(Get(history.items[found.index], "project")), "lastModified", Str(env.now));
      var _, project := SaveProject(restored, env);
      r := Some(project);
    }

    /** clearHistory. */
    method ClearHistory()
      modifies this`items
      ensures items == old(items) - {HistoryKey}
      ensures History(items) == Arr([])
    {
      RemoveItem(HistoryKey);
    }

    // -------------------------------------------------------------------------
    // Preferences
    // -------------------------------------------------------------------------

    /** getPreferences. */
    method GetPreferences() returns (p: Value)
      ensures p == PreferencesOf(items)
      ensures PreferencesKey !in items ==> p == Null
    {
      p := ReadOr(items, PreferencesKey, Null, Null);
    }

    /** setPreferences. */
    method SetPreferences(p: Value) returns (ok: bool)
      modifies this`items
      ensures ok && items == PreferencesEffect(old(items), p)
    {
      var merged := Spread(Spread(EmptyObject, Preferences.Defaults), p);
      Preferences.DefaultsCopy();
      SetItem(PreferencesKey, Parsed(merged));
      ok := true;
    }

    /** `this.getPreferences() || this.defaultPreferences`, where updatePreference starts. */
    method CurrentPreferences() returns (root: Value)
      ensures root == PreferencesBase(items)
    {
      var stored := GetPreferences();
      root := if Truthy(stored) then stored else Preferences.Defaults;
    }

    /**
     * updatePreference: walk the dotted key down from the current
     * preferences, creating objects for falsy steps, assign the value and
     * store the result. `completed` is false when an assignment into
     * something that is not an object throws; nothing is written then.
     */
    method UpdatePreference(key: string, value: Value) returns (completed: bool)
      modifies this`items
      ensures var r := PreferenceUpdateEffect(old(items), key, value);
        completed == r.Some? && items == if r.Some? then r.value else old(items)
    {
      var root := CurrentPreferences();
      var updated := AssignPath(root, Preferences.Split(key), value);
      if updated.None? {
        return false;
      }
      var _ := SetPreferences(updated.value);
      completed := true;
    }

    /**
     * The loop of updatePreference: walk down `keys`, replacing falsy steps
     * by `{}`, assign the last key, and reassemble the objects passed on
     * the way. `None` when an assignment into something that is not an
     * object throws.
     */
    static method AssignPath(root: Value, keys: seq<string>, value: Value) returns (r: Option<Value>)
      requires |keys| > 0
      ensures r == Preferences.SetPath(root, keys, value)
    {
      var found, spine, node := Descend(root, keys, value);
      if !found || !node.Obj? {
        return None;
      }
      var last := |keys| - 1;
      assert keys[last..] == [keys[last]];
      var rebuilt := Reassemble(spine, keys[..last], Set(node, keys[last], value));
      r := Some(rebuilt);
    }

    /**
     * The first loop of updatePreference: walk down all keys but the last,
     * replacing a falsy step by `{}`. `found` is false when a step is taken
     * from something that is not an object, where the assignment throws.
     */
    static method Descend(root: Value, keys: seq<string>, value: Value) returns (found: bool, spine: seq<Value>, node: Value)
      requires |keys| > 0
      ensures !found ==> Preferences.SetPath(root, keys, value).None?
      ensures found ==> |spine| == |keys| - 1 && (forall j | 0 <= j < |spine| :: spine[j].Obj?)
      ensures found ==> Preferences.SetPath(root, keys, value) == Preferences.Lift(spine, keys[..|keys| - 1], Preferences.SetPath(node, keys[|keys| - 1..], value))
    {
      spine, node := [], root;
      var i := 0;
      while i < |keys| - 1
        invariant 0 <= i <= |keys| - 1 && |spine| == i
        invariant forall j | 0 <= j < i :: spine[j].Obj?
        invariant Preferences.SetPath(root, keys, value) == Preferences.Lift(spine, keys[..i], Preferences.SetPath(node, keys[i..], value))
      {
        if !node.Obj? {
          return false, spine, node;
        }
        var child := Get(node, keys[i]);
        var next := if Truthy(child) then child else EmptyObject;
        Preferences.DescendStep(root, keys, value, spine, node, i);
        spine, node, i := spine + [node], next, i + 1;
      }
      found := true;
    }

    /** The assignments the walk leaves behind, innermost first: each level gets the level below it. */
    static method Reassemble(spine: seq<Value>, ks: seq<string>, bottom: Value) returns (r: Value)
      requires |spine| == |ks| && forall j | 0 <= j < |spine| :: spine[j].Obj?
      ensures r == Preferences.Rebuild(spine, ks, bottom)
    {
      r := bottom;
      var j := |spine|;
      assert spine[..j] == spine && ks[..j] == ks;
      while j > 0
        invariant 0 <= j <= |spine|
        invariant Preferences.Rebuild(spine[..j], ks[..j], r) == Preferences.Rebuild(spine, ks, bottom)
      {
        Preferences.RebuildStep(spine, ks, j, r);
        r := Set(spine[j - 1], ks[j - 1], r);
        j := j - 1;
      }
      assert spine[..0] == [] && ks[..0] == [];
    }

    /** resetPreferences. */
    method ResetPreferences() returns (ok: bool)
      modifies this`items
      ensures ok && items == ResetEffect(old(items))
    {
      ok := SetPreferences(Preferences.Defaults);
    }

    // -------------------------------------------------------------------------
    // Backups
    // -------------------------------------------------------------------------

    /** getBackups. */
    method GetBackups() returns (b: Value)
      ensures b == Backups(items)
      ensures BackupKey !in items ==> b == Arr([])
    {
      b := ReadOr(items, BackupKey, Arr([]), Arr([]));
    }

    /** createBackup. */
    method CreateBackup(projectData: Value, reason: string, env: Env)
      modifies this`items
      ensures items == BackupEffect(old(items), projectData, reason, env, size)
    {
      var backups := GetBackups();
      if !backups.Arr? {
        // `unshift` is not a function: the error is swallowed.
        return;
      }
      var backup := Ledger.BackupEntry(Ledger.NewBackupId(env), projectData, reason, env.now, size(projectData));
      var list := [backup] + backups.items;
      if |list| > Ledger.MaxBackups {
        list := list[..Ledger.MaxBackups];
      }
      SetItem(BackupKey, Parsed(Arr(list)));
    }

    /** restoreBackup: the backup's project as the save leaves it, or `None` for the `null` of an error. */
    method RestoreBackup(id: string, env: Env) returns (r: Option<Value>)
      modifies this`items
      ensures var e := RestoreBackupEffect(old(items), id, env, size);
        items == e.store && r == e.result
    {
      var backups := GetBackups();
      if !backups.Arr? {
        return None;
      }
      var found := Ledger.FindById(backups.items, id);
      if !found.Found? {
        return None;
      }
      var _, project := SaveProject(Get(backups.items[found.index], "project"), env);
      r := Some(project);
    }

    // -------------------------------------------------------------------------
    // Analytics
    // -------------------------------------------------------------------------

    /** getAnalytics. */
    method GetAnalytics(now: Timestamp) returns (a: Value)
      ensures a == AnalyticsOf(items, now)
    {
      a := ReadOr(items, AnalyticsKey, Analytics.Fresh(now), Analytics.Recovered(now));
    }

    /**
     * updateAnalytics: `completed` is false when reading
     * `analyticsEnabled` of missing preferences throws. Errors inside the
     * recording are swallowed and write nothing.
     */
    method UpdateAnalytics(action: string, metadata: Value, now: Timestamp) returns (completed: bool)
      modifies this`items
      ensures var r := AnalyticsEffect(old(items), action, metadata, now);
        completed == r.Some? && items == if r.Some? then r.value else old(items)
    {
      var prefs := GetPreferences();
      if Nullish(prefs) {
        return false;
      }
      completed := true;
      if Truthy(Get(prefs, "analyticsEnabled")) {
        RecordAnalytics(action, metadata, now);
      }
    }

    /** The body of updateAnalytics once enabled: read, record, write back. */
    method RecordAnalytics(action: string, metadata: Value, now: Timestamp)
      modifies this`items
      ensures items == AnalyticsRecorded(old(items), action, metadata, now)
    {
      var analytics := GetAnalytics(now);
      var recorded := RecordEvent(analytics, action, metadata, now);
      if recorded.Some? {
        SetItem(AnalyticsKey, Parsed(recorded.value));
      }
    }

    /**
     * The assignments of updateAnalytics on the record read from the
     * store, one at a time; `None` when one of them throws.
     */
    static method RecordEvent(analytics: Value, action: string, metadata: Value, now: Timestamp) returns (r: Option<Value>)
      ensures r == Analytics.Record(analytics, action, metadata, now)
    {
      var events := Get(analytics, "events");
      if !events.Arr? {
        // `push` of something that is not an array throws.
        return None;
      }
      var list := events.items + [Analytics.Event(action, now, metadata)];
      var pushed := Set(analytics, "events", Arr(list));
      var stats := Get(analytics, "stats");
      if !stats.Obj? {
        return None;
      }
      var count := Analytics.Bump(Get(stats, action));
      if count.None? {
        return None;
      }
      var counted := Set(pushed, "stats", Set(stats, action, count.value));
      var stamped := Set(counted, "lastUpdated", Str(now));
      if |list| > Analytics.MaxEvents {
        stamped := Set(stamped, "events", Arr(list[|list| - Analytics.MaxEvents..]));
      }
      Analytics.RecordStepwise(analytics, action, metadata, now);
      r := Some(stamped);
    }

    // -------------------------------------------------------------------------
    // Maintenance
    // -------------------------------------------------------------------------

    /** optimizeStorage. */
    method OptimizeStorage()
      modifies this`items
      ensures items == OptimizeEffect(old(items))
    {
      var history := GetHistory();
      var trim := Trimmed(history, OptimizedHistory);
      if trim.Throws? {
        return;
      }
      if trim.Write? {
        SetItem(HistoryKey, Parsed(trim.kept));
      }
      var backups := GetBackups();
      trim := Trimmed(backups, OptimizedBackups);
      if trim.Write? {
        SetItem(BackupKey, Parsed(trim.kept));
      }
    }

    /** cleanupOldData, with `recent` the one-week test on an event's timestamp. */
    method CleanupOldData(recent: Value -> bool, now: Timestamp)
      modifies this`items
      ensures items == CleanupEffect(old(items), recent, now)
    {
      var analytics := GetAnalytics(now);
      var events := Get(analytics, "events");
      if !analytics.Obj? || !events.Arr? || exists i | 0 <= i < |events.items| :: Nullish(events.items[i]) {
        return;
      }
      SetItem(AnalyticsKey, Parsed(Set(analytics, "events", Arr(KeepRecent(events.items, recent)))));
    }

    /** clearAllStorage: `confirmed` is the user's answer to the confirmation dialog. */
    method ClearAllStorage(confirmed: bool) returns (cleared: bool)
      modifies this`items
      ensures cleared == confirmed
      ensures items == if confirmed then ClearAllEffect(old(items)) else old(items)
    {
      if !confirmed {
        return false;
      }
      var k := 0;
      while k < |AllKeys|
        invariant 0 <= k <= |AllKeys|
        invariant RemoveKeys(items, AllKeys[k..]) == ClearAllEffect(old(items))
      {
        assert AllKeys[k..][1..] == AllKeys[k + 1..];
        RemoveItem(AllKeys[k]);
        k := k + 1;
      }
      cleared := true;
    }
  }
}
