# Hafis Code Playground storage layer, in Dafny

This project models two parts of the Hafis Code Playground:

- **`StorageManager` (storage.js)** keeps the editor's project, its version history, backups, user preferences and usage analytics in the browser's key-value store. When `localStorage` is unavailable it keeps them in an in-memory fallback.
- **`TemplateManager` (templates.js)** is the fixed catalogue of starter templates and code snippets.

The model is split across these modules:

- `Json` (json.dfy): the JavaScript values the layer handles. Objects keep their keys in insertion order (JavaScript's integer-key order is not modelled; see "## Left out"). The module also defines truthiness, property reads (`Get`, `Member`), property assignment (`Set`) and object spread (`Spread`).
- `Project` (project.dfy): validation, migration, the metadata a save stamps on a project, the `{_compressed, _version, d}` envelope, the default project, `detectChanges` and `hasProjectChanged`.
- `Ledger` (ledger.dfy): the history list and the backup list:
  - the history is newest first, capped to ten entries and evicted to a 2 MiB quota;
  - the backups are newest first, capped to five;
  - both are looked up with `find` by id.
- `Preferences` (preferences.dfy): the defaults, the shallow merge of `setPreferences`, and the dotted-key walk of `updatePreference`.
- `Analytics` (analytics.dfy): the analytics record. It keeps the hundred newest events and a counter per action.
- `Share` (share.dfy): share links and reading them back.
- `StorageSpec` (store.dfy): every `StorageManager` operation as a function from the store before to the store after. The store is `map<string, Stored>`. A stored value is either the parsed value or `Unparsable`.
- `Storage` (manager.dfy): `class StorageManager`. Its field `items` is the store. Each method performs the source's steps on `items` and is proved to leave exactly the store that the matching `StorageSpec` function describes. The lemmas about those functions then carry over to the methods.
- `Templates` (templates.dfy): the template and snippet catalogue and its lookups.
- `Boilerplate` (boilerplate.dfy): the text of the default project's three buffers.

Parameters stand for what the model does not compute:

- The host's clock and random ids come in as an `Env` value.
- `calculateDataSize` (the JSON text length times two) is the class constant `size`.
- `btoa(JSON.stringify(·))` and `JSON.parse(atob(·))` in share links are `encode` and `decode`.
- The one-week date test of `cleanupOldData` is `recent`.
- The near-quota flag that `getStorageInfo` gives `performMaintenance` is `nearLimit`.
- The project that the auto-save callback returns is `current`.

## Model

| member | source | states |
|---|---|---|
| Json.Truthy | storage.js:495-499 | `null` and `undefined` are falsy; every object and array, even an empty one, is truthy |
| Json.Get | storage.js:467 | a property read gives `undefined` on anything but an object, and for a key the object does not have |
| Json.Member | storage.js:467 | reading a property throws (`None`) exactly on `null`/`undefined`; otherwise it gives the property or `undefined` |
| Json.Set | storage.js:195-197 | an assignment changes only its key; an existing key keeps its place and a new key goes last; the object stays well formed |
| Json.SpreadGet | storage.js:664 | after `{...acc, ...src}`, a key holds the source's value when the source has it, else the target's |
| Json.Spread | storage.js:664 | `{...acc, ...src}` is an object that starts with `acc`'s keys, in order; a source that is not an object adds nothing |
| Json.Copy | storage.js:536 | `{...v}` is always an object; a value that is not an object copies to `{}` |
| Json.SpreadSelf | storage.js:53-55 | `{...o, ...o}` is `o` for a well-formed object, as when init merges the defaults over themselves |
| Json.CopyOfObject | storage.js:536 | `{...p}` of a well-formed object is equal to it: same keys in the same order, same values |
| Project.ValidateProjectData | storage.js:413-418 | valid exactly when the data is an object whose `files` is an object with truthy `html`, `css` and `js` |
| Project.EmptyBufferRejected | storage.js:416 | an empty buffer makes any project invalid |
| Project.MigrateProjectData | storage.js:420-435 | fills a falsy `version`, `id`, `created` (from `lastModified`, else now); every other key is untouched; all three end up truthy |
| Project.MigrationKeepsValidity | storage.js:420-435 | migration keeps a project valid and keeps its files |
| Project.MigrationIdempotent | storage.js:420-435 | migrating a migrated project changes nothing, whatever the second clock says |
| Project.Stamp | storage.js:195-197 | a save sets `lastModified` to now and `version` to 1.0.0; it keeps a truthy `id`, else generates one; nothing else changes |
| Project.StampKeepsValidity | storage.js:190-197 | stamping keeps a valid project valid, with the same files |
| Project.NewProjectId | storage.js:437-439 | a generated project id is never empty |
| Project.CompressData | storage.js:1002-1019 | the envelope carries a truthy `_compressed`, `_version` 1.0 and the data under `d` |
| Project.DecompressData | storage.js:1021-1030 | a non-envelope is returned as is; an envelope yields its `d` |
| Project.DecompressCompress | storage.js:1002-1030 | unwrapping a wrapped value gives it back |
| Project.DecompressIdempotent | storage.js:1021-1030 | unwrapping twice equals unwrapping once when the payload is not itself an envelope |
| Project.DecompressNotIdempotentOnNestedEnvelope | storage.js:1021-1030 | a doubly wrapped value shows that unwrapping is not idempotent in general |
| Project.DefaultProject | storage.js:266-411 | the default project has a fresh id, the starter buffers, version 1.0.0, and `created` = `lastModified` = now |
| Project.DefaultProjectValid | storage.js:266-418 | the default project is valid and already migrated |
| Project.ModifiedTagInjective | storage.js:628-632 | different file keys give different `<f>_modified` tags |
| Project.MetadataTagsAreNotFileTags | storage.js:622-643 | no `<f>_modified` tag equals `name_changed`, `description_changed`, `minor_changes` or `initial_version` |
| Project.FileTagsExact | storage.js:628-632 | a file key is tagged exactly when it is a key of the new files whose content is not `===` the old |
| Project.DetectChanges | storage.js:622-644 | no previous project gives `['initial_version']`; the call throws exactly when the previous project has no files; the tag list is never empty |
| Project.DetectChangesExact | storage.js:622-644 | each tag is reported exactly when its difference exists; `['minor_changes']` exactly when nothing differs |
| Project.HasProjectChanged | storage.js:515-523 | unchanged exactly when both projects are truthy and their files are equal |
| Ledger.NewHistoryId | storage.js:618-620 | a generated history id is never empty |
| Ledger.NewBackupId | storage.js:994-996 | a generated backup id is never empty |
| Ledger.HistoryEntry | storage.js:533-540 | the entry has keys id, project, timestamp, size, changes, in that order; its project is a shallow copy |
| Ledger.BackupEntry | storage.js:937-943 | the backup has keys id, project, reason, timestamp, size, in that order; its project is a shallow copy |
| Ledger.PreviousProject | storage.js:539 | `history[0]?.project`: `undefined` for an empty history and for a newest entry that is not an object, else the newest entry's project |
| Ledger.Cap | storage.js:546-548 | keeps the first `n` elements, or all of them |
| Ledger.Evict | storage.js:551-556 | pops from the tail: the result is a prefix, never empty for a non-empty input, and within the quota unless one entry is left |
| Ledger.EvictMinimal | storage.js:554-556 | eviction stops at the longest prefix within the quota: every longer prefix is over it |
| Ledger.EvictWithinQuota | storage.js:552 | a history already within the quota is left alone |
| Ledger.PushHistory | storage.js:543-556 | `unshift`, `slice(0, 10)`, then the `pop` loop: the new entry is first, and one to ten entries remain |
| Ledger.PushHistoryShape | storage.js:543-556 | the new entry is first; there are one to ten entries; the older ones are a prefix of the previous history; more than one entry fits the quota |
| Ledger.PushBackup | storage.js:945-950 | the backup is first, five at most are kept, and the rest are the newest previous ones, in order |
| Ledger.FindById | storage.js:580 | `find`: a found index is the first match; missing means no element matches; it throws when it reaches a `null` before a match |
| Ledger.FindNewest | storage.js:543 | an entry put in front is found by its id |
| Preferences.DefaultKeysDistinct | storage.js:102-132 | the default preference keys are distinct |
| Preferences.DefaultsWellFormed | storage.js:102-132 | the defaults are a well-formed object |
| Preferences.DefaultsEnableFeatures | storage.js:104-118 | the defaults turn auto-save, history and analytics on |
| Preferences.DefaultsCopy | storage.js:664 | spreading the defaults into `{}` gives the defaults |
| Preferences.Merge | storage.js:664 | `{...defaults, ...p}` is an object that starts with the default keys, in order; preferences that are not an object give the defaults |
| Preferences.MergeGet | storage.js:660-664 | after the merge, a key reads as given when given, else as its default |
| Preferences.MergeIdempotent | storage.js:660-664 | merging a merged object again changes no key |
| Preferences.MergeWellFormed | storage.js:664 | the merge yields a well-formed object |
| Preferences.Split | storage.js:680 | `split('.')` yields at least one piece, and no piece contains a dot |
| Preferences.JoinSplit | storage.js:680 | joining the pieces with dots gives the key back |
| Preferences.SplitJoin | storage.js:680 | splitting dot-free pieces joined with dots gives the pieces back |
| Preferences.SetPath | storage.js:676-690 | the walk succeeds only on an object; it changes only the first key of the top level |
| Preferences.SetPathThenGet | storage.js:676-690 | after a successful walk, reading the path gives the value |
| Preferences.SetPathKeepsOtherPaths | storage.js:676-690 | a successful walk changes no other path: one that leaves the written path after some shared prefix reads as before, including below a falsy step the walk replaced by `{}` |
| Preferences.SetPathFails | storage.js:683-688 | the walk throws exactly when a non-object is met: the root, or a truthy step; falsy steps become `{}` |
| Preferences.EmptyObjectPath | storage.js:683-688 | a walk into a fresh `{}` always succeeds |
| Preferences.MergeKeepsPath | storage.js:664-692 | merging over the defaults keeps every path whose first key the preferences have |
| Preferences.DescendStep | storage.js:683-688 | one iteration of the walk keeps the loop invariant: the update equals the lifted update below the current node |
| Preferences.RebuildStep | storage.js:690 | reassembly, one level at a time from the innermost |
| Analytics.Fresh | storage.js:1067-1072 | with nothing stored: no events, no counters, `lastUpdated` = now |
| Analytics.Recovered | storage.js:1073-1076 | on a parse error: no events, no counters, no `lastUpdated` |
| Analytics.Event | storage.js:1042-1046 | the event carries the action, the time and the metadata |
| Analytics.Bump | storage.js:1049 | `(c \|\| 0) + 1`: a falsy counter becomes 1, a number is incremented; only an array or object counter is not modelled |
| Analytics.Newest | storage.js:1053-1055 | `slice(-100)` keeps the last hundred, in order |
| Analytics.Record | storage.js:1039-1058 | recording fails exactly when `events` is not an array, `stats` is not an object, or the counter cannot be bumped |
| Analytics.RecordEvents | storage.js:1048-1055 | the new event is the newest kept; at most a hundred are kept; before it come the newest old ones, in order |
| Analytics.RecordCounters | storage.js:1049-1050 | the action's counter is bumped, `lastUpdated` is now, and every other counter and field is unchanged |
| Analytics.CountTwice | storage.js:1049 | recording the same action twice from nothing counts 2 |
| Analytics.RecordStepwise | storage.js:1048-1055 | push, count, stamp, then trim equals the record Record describes |
| Share.ShareLink | storage.js:854-883 | a link exists exactly when encoding the envelope works and stays within 2000 characters; it is then exactly the base, `#share=` and the encoded envelope |
| Share.Fragment | storage.js:887 | `location.hash` is empty or starts with `#`, and empty when the URL has no `#` |
| Share.LoadFromLink | storage.js:885-911 | without the marker, nothing; a result only from data that decodes and is not null; and data that decodes to a non-null value always loads, unwrapped |
| Share.FragmentAfterBase | storage.js:867-868 | a URL whose base has no `#` has the appended part as its hash |
| Share.ShareRoundTrip | storage.js:854-911 | a generated link opened on the page loads the project back, given that decode inverts encode |
| Templates.Find | templates.js:68-80 | `find` on either catalogue: the first element with the id, or none when no element has it |
| Templates.FindOwnId | templates.js:68-80 | with distinct ids, finding an element's own id gives its index |
| Templates.GetTemplate | templates.js:68-70 | the template returned is in the catalogue and has the id; `undefined` exactly when no template has it |
| Templates.GetSnippet | templates.js:78-80 | the snippet returned is in the catalogue and has the id; `undefined` exactly when no snippet has it |
| Templates.ListedTemplatesFound | templates.js:65-70 | every template `getAllTemplates` lists is what `getTemplate` gives for its id |
| Templates.ListedSnippetsFound | templates.js:71-80 | every snippet `getAllSnippets` lists is what `getSnippet` gives for its id |
| Templates.InCategory | templates.js:76 | `filter`: a snippet is kept exactly when it is in the list and has the category |
| Templates.InCategoryAppend | templates.js:76 | filtering keeps order: filtering a concatenation concatenates the filtered parts |
| Templates.GetSnippetsByCategory | templates.js:74-77 | `'all'` gives the whole list; any other category gives exactly the snippets with that category |
| Templates.CategoriesOfTheCatalogue | templates.js:37-62 | js, html and css each hold one snippet; an unknown category holds none |
| Templates.IdsDistinct | templates.js:7-62 | template ids are distinct, and so are snippet ids |
| Templates.FilesOf | templates.js:11-15 | a template's `files` object has exactly html, css, js |
| Templates.ProjectOf | templates.js:7-35 | a project started from a template carries its files |
| Templates.TemplateValidity | templates.js:7-35 | the blank and responsive templates (empty buffers) fail project validation; the simple page passes |
| StorageSpec.ReadOr | storage.js:567-575 | an absent key reads as the reader's absent-key fallback, text that does not parse as its parse-error fallback, and a parsed value as itself |
| StorageSpec.LoadProject | storage.js:232-264 | loading always yields a valid project |
| StorageSpec.LoadFallsBack | storage.js:234-262 | nothing stored, text that does not parse, a stored `null`, or unwrapped data that fails validation each load the default project |
| StorageSpec.LoadEmpty | storage.js:234-238 | an empty store loads the default project |
| StorageSpec.LoadStored | storage.js:240-257 | a stored project that unwraps to a valid one loads as its migration, with the same files |
| StorageSpec.HistoryEffect | storage.js:529-565 | `addToHistory` writes only the history key |
| StorageSpec.HistoryEffectShape | storage.js:529-565 | after a successful add, the history is the tagged copy in front of the newest old entries; one to ten entries; within the quota unless a single entry is left |
| StorageSpec.HistoryEffectFailure | storage.js:560-563 | a non-array history, or a previous entry without files, writes nothing |
| StorageSpec.BackupEffect | storage.js:933-959 | `createBackup` writes only the backup key |
| StorageSpec.BackupEffectShape | storage.js:933-959 | the backup with its reason and a copy of the project is first; five at most are kept; the rest are the newest old ones |
| StorageSpec.SaveEffect | storage.js:187-230 | an invalid project is refused with nothing written and is returned as given; a valid one is returned stamped |
| StorageSpec.AfterWrite | storage.js:213-224 | after the write only history and analytics change; success exactly when preferences exist; a failure leaves the written store |
| StorageSpec.HistoryStep | storage.js:214-216 | history is written only when enabled, and only the history key |
| StorageSpec.AnalyticsStep | storage.js:219 | analytics are written only when enabled, and only the analytics key |
| StorageSpec.SaveRefused | storage.js:190-208 | an invalid project or an oversize envelope writes nothing and returns false |
| StorageSpec.SaveThenLoad | storage.js:187-264 | after a save that passes the checks, loading gives the stamped project, migrated, with the saved files |
| StorageSpec.SaveWritesEnvelope | storage.js:200-211 | a save that passes the checks leaves the stamped project's envelope under the project key |
| StorageSpec.SaveWithoutPreferences | storage.js:211-214 | without stored preferences, the project is written but the save returns false, and nothing else is written |
| StorageSpec.SaveWithoutHistory | storage.js:214-216 | with history off, a save never changes the history |
| StorageSpec.SaveKeepsBackups | storage.js:187-230 | a save never changes the backups |
| StorageSpec.AnalyticsRecorded | storage.js:1039-1061 | recording writes only the analytics key |
| StorageSpec.AnalyticsEffect | storage.js:1036-1037 | `updateAnalytics` throws exactly when preferences are missing; disabled analytics write nothing |
| StorageSpec.AnalyticsEffectRecords | storage.js:1036-1058 | an enabled recording leaves the event newest, at most a hundred events, and the action's counter bumped |
| StorageSpec.RestoreHistoryEffect | storage.js:577-606 | a restore that returns `null` writes nothing |
| StorageSpec.RestoreUnknownHistory | storage.js:580-584 | an unknown id restores nothing and writes nothing |
| StorageSpec.RestoreHistoryBacksUp | storage.js:586-594 | a successful restore leaves the current project as the newest `before_restore` backup |
| StorageSpec.RestoreHistoryThenLoad | storage.js:577-606 | restoring a history entry whose copied and re-stamped project is valid and within the quota returns it stamped, and loading afterwards gives its files |
| StorageSpec.RestoreBackupEffect | storage.js:971-992 | a restore that returns `null` writes nothing |
| StorageSpec.RestoreUnknownBackup | storage.js:974-990 | backups that are not an array, an id no backup has, or a `find` that throws on a nullish backup return `null` and write nothing |
| StorageSpec.RestoreBackupFound | storage.js:974-985 | a found backup's project is saved, and the project as the save left it is returned |
| StorageSpec.RestoreBackupThenLoad | storage.js:971-992 | restoring a valid backup within the quota returns it stamped, and loading afterwards gives its files |
| StorageSpec.RestoreBackupKeepsBackups | storage.js:971-992 | restoring a backup never changes the backups |
| StorageSpec.ClearEffect | storage.js:441-459 | clearing removes the project key and writes no key other than the project and the backups |
| StorageSpec.ClearThenLoad | storage.js:441-459 | after clearing, loading gives the default project |
| StorageSpec.ClearBacksUp | storage.js:443-445 | clearing keeps the cleared project as the newest `before_clear` backup |
| StorageSpec.AutoSaveEffect | storage.js:494-498 | with no callback or a falsy project, a tick writes nothing and leaves the callback's project alone |
| StorageSpec.AutoSaveSkipsUnchanged | storage.js:499-502 | a tick whose files equal the loaded project's writes nothing and leaves the project alone |
| StorageSpec.AutoSaveSavesChanged | storage.js:499-503 | a tick whose files differ saves the project, and the callback's project is left as the save stamped it |
| StorageSpec.AutoSaveSettles | storage.js:494-503 | after a tick that saved a valid project within the quota, the next tick on the stamped project writes nothing |
| StorageSpec.PreferencesEffect | storage.js:660-674 | `setPreferences` writes only the preferences key, with the merge over the defaults |
| StorageSpec.PreferencesEffectGet | storage.js:660-674 | after `setPreferences`, every key reads as given, or as its default |
| StorageSpec.PreferencesBase | storage.js:677 | `getPreferences() \|\| defaults` is always truthy |
| StorageSpec.PreferenceUpdateEffect | storage.js:676-693 | `updatePreference` throws, writing nothing, exactly when the walk throws |
| StorageSpec.PreferenceUpdateThenGet | storage.js:676-693 | after an update, the dotted key reads as the value written |
| StorageSpec.PreferenceUpdateKeepsOtherPaths | storage.js:676-693 | after an update, every other path whose first key the preferences had reads as it did before |
| StorageSpec.SetPathWellFormed | storage.js:676-690 | the update keeps the preferences a well-formed object |
| StorageSpec.SetPathHasHead | storage.js:676-690 | the update leaves the first key present at the top level |
| StorageSpec.UpdateOnDefaults | storage.js:676-693 | on the defaults, any `notifications.<k>` key updates without error |
| StorageSpec.ResetEffect | storage.js:695-698 | a reset writes only the preferences key |
| StorageSpec.ResetGivesDefaults | storage.js:695-698 | after a reset, every key reads as its default |
| StorageSpec.Trimmed | storage.js:1146-1156 | an array longer than `n` is cut to its first `n`; a shorter one is kept; only `null`, `undefined` and objects throw |
| StorageSpec.DecimalValue | storage.js:1146 | a value exactly for a non-empty string of decimal digits, the number `>` compares |
| StorageSpec.DecimalValueExamples | storage.js:1146 | `"10"` reads as ten; `"7a"` and `""` are not decimal numerals |
| StorageSpec.TrimmedStringLength | storage.js:1146-1149 | a history `{"length": "10"}` makes the trim throw, since `"10" > 5` |
| StorageSpec.OptimizeEffect | storage.js:1142-1163 | optimizing writes only history and backups |
| StorageSpec.OptimizeBackups | storage.js:1152-1156 | the second half writes only the backups |
| StorageSpec.OptimizeBounds | storage.js:1142-1163 | afterwards, at most five history entries and three backups remain, each a prefix of what was there |
| StorageSpec.OptimizeIdempotent | storage.js:1142-1163 | optimizing twice is optimizing once |
| StorageSpec.KeepRecent | storage.js:1171-1173 | `filter`: an event is kept exactly when it is in the list and recent |
| StorageSpec.CleanupEffect | storage.js:1165-1180 | cleanup writes only the analytics key |
| StorageSpec.CleanupKeepsRecent | storage.js:1165-1180 | on an object record with an array of non-nullish events, cleanup leaves the record with only its recent events; on any other record it writes nothing |
| StorageSpec.CleanupCreatesRecord | storage.js:1165-1180 | with nothing stored, cleanup writes a fresh record with no events |
| StorageSpec.InitEffect | storage.js:44-65 | after init, the stored preferences are truthy |
| StorageSpec.InitPreferences | storage.js:52-55 | init keeps truthy stored preferences; otherwise the preferences read as the defaults afterwards |
| StorageSpec.RemoveKeys | storage.js:1185-1187 | the listed keys are removed; every other key is kept unchanged |
| StorageSpec.ClearAllEffect | storage.js:1182-1187 | every playground key is removed and every other key is kept unchanged |
| StorageSpec.ClearAllReadsDefaults | storage.js:1182-1205 | after clearing everything, every reader falls back: empty history and backups, `null` preferences, fresh analytics, default project |
| Storage.StorageManager.constructor | storage.js:8-100 | with storage unavailable, an empty in-memory store; otherwise the store init leaves; no auto-save |
| Storage.StorageManager.Init | storage.js:44-65 | `init`'s steps leave exactly the store InitEffect describes |
| Storage.StorageManager.SetItem | storage.js:1212-1223 | `setItem` writes one key |
| Storage.StorageManager.RemoveItem | storage.js:1238-1248 | `removeItem` removes one key |
| Storage.StorageManager.Clear | storage.js:1250-1260 | `clear` empties the store |
| Storage.StorageManager.LoadProject | storage.js:232-264 | `loadProject`'s steps give the project StorageSpec.LoadProject describes, which is valid |
| Storage.StorageManager.SaveProject | storage.js:187-230 | `saveProject`'s steps leave the store, result and stamped project that SaveEffect describes |
| Storage.StorageManager.RecordSave | storage.js:213-224 | the steps after the write leave what AfterWrite describes |
| Storage.StorageManager.ClearProject | storage.js:441-459 | `clearProject` leaves the store ClearEffect describes for the loaded project, and returns the default project |
| Storage.StorageManager.StartAutoSave | storage.js:465-483 | it throws exactly without preferences; with auto-save on, the callback is registered and the timer runs; otherwise nothing changes |
| Storage.StorageManager.StopAutoSave | storage.js:485-492 | the timer is stopped |
| Storage.StorageManager.PerformAutoSave | storage.js:494-513 | a tick leaves the store AutoSaveEffect describes for the loaded project, and returns the callback's project as the tick left it (stamped when saved) |
| Storage.StorageManager.GetHistory | storage.js:567-575 | the stored history, or `[]` when none is stored |
| Storage.StorageManager.AddToHistory | storage.js:529-565 | the unshift, cap and eviction loop leave the store HistoryEffect describes |
| Storage.StorageManager.RestoreFromHistory | storage.js:577-606 | leaves the store and result that RestoreHistoryEffect describes |
| Storage.StorageManager.ClearHistory | storage.js:608-616 | the history key is removed, so the history reads as `[]` |
| Storage.StorageManager.GetPreferences | storage.js:650-658 | the stored preferences, or `null` when none are stored |
| Storage.StorageManager.SetPreferences | storage.js:660-674 | the two-step spread leaves the store PreferencesEffect describes |
| Storage.StorageManager.CurrentPreferences | storage.js:677 | the stored preferences when truthy, else the defaults |
| Storage.StorageManager.UpdatePreference | storage.js:676-693 | leaves the store PreferenceUpdateEffect describes, and reports whether it threw |
| Storage.StorageManager.AssignPath | storage.js:680-690 | the two loops compute exactly SetPath |
| Storage.StorageManager.Descend | storage.js:683-688 | the walk down either fails where SetPath fails or reaches the last level with the spine of objects passed |
| Storage.StorageManager.Reassemble | storage.js:690 | reassembling the spine gives Rebuild |
| Storage.StorageManager.ResetPreferences | storage.js:695-698 | leaves the store ResetEffect describes |
| Storage.StorageManager.GetBackups | storage.js:961-969 | the stored backups, or `[]` when none are stored |
| Storage.StorageManager.CreateBackup | storage.js:933-959 | leaves the store BackupEffect describes |
| Storage.StorageManager.RestoreBackup | storage.js:971-992 | leaves the store and result that RestoreBackupEffect describes |
| Storage.StorageManager.GetAnalytics | storage.js:1064-1077 | the record AnalyticsOf reads |
| Storage.StorageManager.UpdateAnalytics | storage.js:1036-1062 | leaves the store AnalyticsEffect describes, and reports whether it threw |
| Storage.StorageManager.RecordAnalytics | storage.js:1039-1061 | leaves the store AnalyticsRecorded describes |
| Storage.StorageManager.RecordEvent | storage.js:1048-1055 | the assignments in source order compute exactly Analytics.Record |
| Storage.StorageManager.OptimizeStorage | storage.js:1142-1163 | leaves the store OptimizeEffect describes |
| Storage.StorageManager.CleanupOldData | storage.js:1165-1180 | leaves the store CleanupEffect describes |
| Storage.StorageManager.ClearAllStorage | storage.js:1182-1205 | once confirmed, the removal loop leaves the store ClearAllEffect describes; otherwise nothing changes |

## Left out

- Cross-tab synchronisation is left out: the `storage` event listener and the project, theme and preference notifications (storage.js:134-181). They only forward events to the page.
- `showNotification`, `console` logging and `logStorageInfo` are left out: they display text and change no state.
- The page reload that `clearAllStorage` schedules one second after clearing (storage.js:1193-1196) is left out: it is a browser navigation, and the model ends with the cleared store.
- Export and import are left out: `exportProject`, `exportAsJSON`, `exportAsZip`, `downloadBlob`, `importProject` and `validateImportData` (storage.js:728-848). They work on files, blobs and downloads, which are outside the store.
- `copyToClipboard` is left out: it is a browser API. `ShareLink` returns the link that would be copied.
- `getTheme`/`setTheme` are not modelled: they read and write one string key and call the page's theme code.
- `getStorageInfo` and `formatBytes` are not modelled: they are byte arithmetic over `localStorage`. `performMaintenance` gets their verdict as the `nearLimit` flag.
- `isStorageAvailable` is not modelled: it probes the host. The constructor gets its answer as `available`.
- The interval timer is two booleans, `hasCallback` and `timerArmed`. The model does not capture time or the two-second period.
- The auto-save callback is the `current` parameter of `PerformAutoSave`. `PerformAutoSave` returns that object as the tick left it; the page's own use of it is not modelled. A callback that throws is not modelled.
- The auto-save notification, which reads `notifications.autoSave`, is left out.
- `JSON.stringify`, `JSON.parse`, `btoa` and `atob` are not computed:
  - the store holds parsed values, and `Unparsable` stands for text that does not parse;
  - share links take `encode` and `decode` as parameters;
  - `calculateDataSize` is the `size` parameter.
- A `setItem` that throws because the quota is exceeded is not modelled: every write succeeds.
- An empty stored string reads like an absent key. In the source both are falsy and take the reader's fallback, so the model does not distinguish them.
- Numbers are integers. Floating point and `NaN` are not modelled.
- Prototype properties are not modelled (`toString`, a string's `length` and the like): only own keys of objects are read.
- Arrays are not walked into by `updatePreference`: `SetPath` treats an array step like any other non-object and fails.
- `Analytics.Bump`: an array or object counter is reported as failing, not computed. JavaScript would concatenate its string form.
- `Analytics.Record`: an array `stats` fails in the model; JavaScript would set a property on the array.
- `Trimmed`: an object whose `length` is over the limit throws, because it has no `slice`. The model compares a `length` that is a number or a string of decimal digits. Any other `length` (`true`, `[7]`, `" 10"`, `"1e3"`, `"0x10"`), which JavaScript converts to a number before `>`, is treated as not over the limit, and the object is kept.
- `Trimmed`: a stored string history is measured and cut in characters. JavaScript's `length` and `slice` count UTF-16 code units, so a string outside the Basic Multilingual Plane is measured and cut differently.
- `undefined` values that `JSON.stringify` would drop are kept in the stored value.
- Key order: JavaScript enumerates integer-like keys ("0", "5") first, in ascending order, then the other keys in insertion order. The model keeps every key in insertion order (`Json.Set` puts a new key last), so an object with integer-like keys, such as `updatePreference("5", v)` or a `files` object with numeric names, is ordered differently from the source.
- `Spread`: spreading a string or an array copies their index keys in JavaScript (`{...'ab'}` is `{0: 'a', 1: 'b'}`). The model copies nothing from them, so `{ ...historyEntry.project }` in `restoreFromHistory` and `createBackup`'s copy give `{}` for such a project.
- All ids generated within one operation share the same `Env` token. Distinct ids across calls are not modelled.
- `AddToHistory` requires a valid project. Its only caller, `saveProject`, validates first.
- `HasProjectChanged` compares the two `files` values, not their JSON text. It differs from the source in two ways. A property whose value is `undefined`, which `JSON.stringify` drops, still counts as a difference in the model. Two objects with the same integer-like keys added in a different order give the same text in JavaScript, which lists such keys first, but count as changed in the model.
- `Storage.StorageManager.constructor` writes the store `InitEffect` describes in one assignment. `Storage.StorageManager.Init` performs the same steps one at a time and is proved to reach that store.
- The default project's buffers are the constructor's `starter` parameter. The page's own text is `Boilerplate.Starter`.
- `cleanupOldData`'s date arithmetic is the `recent` predicate on an event's timestamp. In JavaScript an event with a missing or unparsable timestamp gives an Invalid Date, which never compares greater, so such an event is always dropped. The model leaves `recent` unconstrained, so its lemmas hold for every date test, including this one.
