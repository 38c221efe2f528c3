# Theme update manager — a Dafny model

This project models the core of Telegram-iOS's `ThemeUpdateManagerImpl`
(`submodules/TelegramUI/TelegramUI/ThemeUpdateManager.swift`). The manager keeps
the currently selected cloud theme resolved. It has four parts:

- **Registry** (`registry.dfy`). The class `ThemeUpdateManager` holds the map
  `contexts` from theme identity to task entry, and the last delivered settings
  snapshot. `PresentationThemeSettingsUpdated` reconciles the map against each new
  snapshot with the source's own set inserts and loops. Its result is tied to the
  specification function `Reconciled`. Lemmas prove the registry properties about
  that function: no churn, no replacement, cloud-only starts, targeted removals,
  the invariant (at most one entry), and any sequence of deliveries.
- **Write guard** (`write_guard.dfy`). The class `ThemeTask` holds the task's
  `currentTheme`. An emission whose reference differs from it issues a write.
  `ReceiveAll` is tied to the function `Writes`, and lemmas prove what the guard
  promises.
- **Persistence merge** (`persistence.dfy`). `UpdatedSettings` is the pure update
  closure handed to the settings transaction. It applies the chat-wallpaper
  priority and copies every other field.
- **Pipeline** (`pipeline.dfy`). `ResolveTheme` is the resolution pipeline's
  short-circuit logic. It is a decision over the results of the external
  collaborators, which are given as functions in a `Collaborators` record.

`themes.dfy` holds the shared values: theme references, wallpapers, the parsed
theme and the persisted settings.

Abstractions and parameters:

- A theme reference is `Cloud(info)` or `Other(index)`. The computation of
  `PresentationThemeReference.index` is not part of this model. A cloud theme's
  index is taken to be its remote theme id.
- `PresentationThemeSettings.defaultSettings` is not part of this model. It is a
  parameter, `defaults`.
- Int64 identities are `int`. The code does no arithmetic on them.
- Equality of theme references, as used by the guard, is structural equality of
  the datatype. `RemoteTheme` keeps the id, slug and file, and its `details` field
  stands for every other field the program's theme equality compares (title,
  access hash, settings, ...). So two server themes that the program tells apart
  stay distinct in the model.
- The parsed theme keeps only its default chat wallpaper.

One would expect the registry keys always to equal the cloud identities of the
latest snapshot. The code does not guarantee this: `previousIds` is built from the
previous theme's index whatever its kind (line 60). So a switch from a builtin or
local theme to a cloud theme with the same index makes `previousIds == validIds`,
and no task is started. `Registry.ReconciledIndexCollision` shows this.
The empty registry then persists. Later deliveries of that cloud theme are not
collisions themselves, yet the previous and valid identity sets agree for each of
them. So no task runs for as long as that cloud theme stays selected, as
`Registry.ReconciledStaysEmptyAfterCollision` shows.
`Registry.ReconciledExact` proves that, starting from an exact registry, the keys
stay exact whenever such a switch does not happen. `Registry.DeliverAllExact`
extends this to whole runs that start from an exact registry.
Whether indices of different kinds can coincide depends on the index encoding,
which is not part of this model.

## Model

| member | source | states |
|---|---|---|
| Registry.ThemeUpdateManager.constructor | submodules/TelegramUI/TelegramUI/ThemeUpdateManager.swift:31-35 | a new manager has an empty registry and no remembered snapshot, and satisfies the registry invariant |
| Registry.ThemeUpdateManager.SharedDataUpdated | submodules/TelegramUI/TelegramUI/ThemeUpdateManager.swift:41-47 | an absent shared-data entry is delivered to reconciliation as the default settings; the identities whose task starts are those of that reconciliation |
| Registry.ThemeUpdateManager.PresentationThemeSettingsUpdated | submodules/TelegramUI/TelegramUI/ThemeUpdateManager.swift:54-157 | the snapshot becomes the remembered one, the registry becomes `Reconciled` of the old registry and old snapshot, and the registry invariant is preserved; the ghost result `started` is the set of identities whose task starts (empty when the identity sets agree), none of them registered before, and every other entry is the old one unchanged |
| Registry.ThemeUpdateManager.StartMissing | submodules/TelegramUI/TelegramUI/ThemeUpdateManager.swift:71-148 | the first loop: every identity of `validIds` that is not registered and whose reference is a cloud theme gets a new entry; the ghost result is the set of those identities; nothing else changes |
| Registry.ThemeUpdateManager.DropStale | submodules/TelegramUI/TelegramUI/ThemeUpdateManager.swift:151-155 | the second loop: every identity of `previousIds` not in `validIds` is removed, and nothing else changes |
| Registry.Reconciled | submodules/TelegramUI/TelegramUI/ThemeUpdateManager.swift:58-155 | the registry after one delivery: surviving entries are the old ones, a new entry holds the snapshot's cloud reference under its index without auto-night, and only dropped identities of the previous snapshot are removed |
| Registry.ReconciledOnlyStartedAreNew | submodules/TelegramUI/TelegramUI/ThemeUpdateManager.swift:70-155 | the identities a delivery starts were not registered before and get the snapshot's reference without auto-night; every other entry afterwards is the old entry: nothing is restarted |
| Registry.ReconciledNoChurn | submodules/TelegramUI/TelegramUI/ThemeUpdateManager.swift:70 | when the previous and valid identity sets agree, the registry is unchanged whatever else the snapshot changed |
| Registry.ReconciledRedelivery | submodules/TelegramUI/TelegramUI/ThemeUpdateManager.swift:55-70 | from any registry satisfying the invariant, delivering the same snapshot again, cloud or not, leaves the registry as the first delivery left it |
| Registry.ReconciledKeepsExisting | submodules/TelegramUI/TelegramUI/ThemeUpdateManager.swift:71-72 | a registered identity that stays registered keeps its entry; it is never replaced or restarted |
| Registry.ReconciledStartsOnlyCloud | submodules/TelegramUI/TelegramUI/ThemeUpdateManager.swift:63-148 | a new entry appears only when the identity sets differ, only under the index of the snapshot's cloud theme, and holds that reference with `isAutoNight` false |
| Registry.ReconciledStartsMissing | submodules/TelegramUI/TelegramUI/ThemeUpdateManager.swift:71-148 | when the identity sets differ and the new theme is a cloud theme, its identity is registered afterwards |
| Registry.ReconciledRemovesOnlyDropped | submodules/TelegramUI/TelegramUI/ThemeUpdateManager.swift:151-155 | an entry disappears only if its identity is in `previousIds` and not in `validIds`, and when the sets differ every such identity is gone |
| Registry.ReconciledPreservesInvariant | submodules/TelegramUI/TelegramUI/ThemeUpdateManager.swift:58-155 | every key is a cloud identity of the delivered snapshot and holds a cloud reference of that index without auto-night; so at most one entry |
| Registry.ReconciledExact | submodules/TelegramUI/TelegramUI/ThemeUpdateManager.swift:58-155 | starting from an exact registry, the keys stay exactly the snapshot's cloud identities unless the delivery switches from a non-cloud theme to a cloud theme with the same index |
| Registry.ReconciledSwitch | submodules/TelegramUI/TelegramUI/ThemeUpdateManager.swift:70-155 | switching between two cloud identities drops the old entry and leaves exactly one new entry for the new reference |
| Registry.ReconciledIndexCollision | submodules/TelegramUI/TelegramUI/ThemeUpdateManager.swift:58-70 | a switch from a non-cloud theme to a cloud theme with the same index leaves the registry empty although the snapshot has a cloud identity |
| Registry.ReconciledStaysEmptyAfterCollision | submodules/TelegramUI/TelegramUI/ThemeUpdateManager.swift:58-70 | after a collision has emptied the registry, delivering the same cloud theme again is no collision, yet leaves the registry empty and not exact |
| Registry.WriteBackNoChurn | submodules/TelegramUI/TelegramUI/ThemeUpdateManager.swift:116-143 | a task's write delivered back as the next snapshot, keeping the cloud index of the stored theme, leaves the registry unchanged |
| Registry.DeliverAllInvariant | submodules/TelegramUI/TelegramUI/ThemeUpdateManager.swift:54-61 | after any sequence of deliveries the invariant holds, the registry has at most one entry, and the remembered snapshot is the last one delivered |
| Registry.DeliverAllExact | submodules/TelegramUI/TelegramUI/ThemeUpdateManager.swift:54-155 | over any run without a non-cloud-to-cloud switch at the same index, started from an exact registry, the keys are exactly the cloud identities of the last snapshot |
| WriteGuard.ThemeTask.constructor | submodules/TelegramUI/TelegramUI/ThemeUpdateManager.swift:74 | a task starts remembering the reference it was started with |
| WriteGuard.ThemeTask.Receive | submodules/TelegramUI/TelegramUI/ThemeUpdateManager.swift:116-118 | a write is issued iff the emission differs from the remembered reference, which then equals the emission's |
| WriteGuard.ThemeTask.ReceiveAll | submodules/TelegramUI/TelegramUI/ThemeUpdateManager.swift:116-145 | the writes issued for a sequence of emissions are `Writes` of the starting reference, and the remembered reference is the last emission's |
| WriteGuard.Writes | submodules/TelegramUI/TelegramUI/ThemeUpdateManager.swift:116-118 | the writes issued over a run of emissions: no more writes than emissions, and the first write differs from the starting reference |
| WriteGuard.WritesSnoc | submodules/TelegramUI/TelegramUI/ThemeUpdateManager.swift:116-118 | one more emission adds a write exactly when it differs from the remembered reference |
| WriteGuard.NoWriteOnRepeat | submodules/TelegramUI/TelegramUI/ThemeUpdateManager.swift:117-118 | re-emitting the reference just seen issues no further write |
| WriteGuard.WritesAreChanges | submodules/TelegramUI/TelegramUI/ThemeUpdateManager.swift:116-118 | writes are emissions, no more than there are emissions; the first differs from the start and consecutive writes differ |
| WriteGuard.NoWritesIff | submodules/TelegramUI/TelegramUI/ThemeUpdateManager.swift:117 | no write is issued iff every emission carries the starting reference |
| WriteGuard.LastWriteIsRemembered | submodules/TelegramUI/TelegramUI/ThemeUpdateManager.swift:117-118 | after at least one write, the last write carries the reference the task remembers |
| Persistence.UpdatedSettings | submodules/TelegramUI/TelegramUI/ThemeUpdateManager.swift:121-143 | the theme becomes the updated one; the override wins, else with a parsed theme the resolved wallpaper or the default, else the stored wallpaper; all other fields are copied; defaults are used when nothing is stored |
| Persistence.UpdatedSettingsIdempotent | submodules/TelegramUI/TelegramUI/ThemeUpdateManager.swift:121-143 | applying the same write twice gives the same settings as applying it once |
| Persistence.UpdatedSettingsOnlyThemeAndWallpaper | submodules/TelegramUI/TelegramUI/ThemeUpdateManager.swift:142 | the written settings differ from the stored ones at most in the theme and the chat wallpaper |
| Persistence.ApplyWritesPreservesUnrelated | submodules/TelegramUI/TelegramUI/ThemeUpdateManager.swift:120-144 | after any sequence of writes the unrelated fields are those first read, and the stored theme is the last write's |
| Pipeline.ResolvedWallpaper | submodules/TelegramUI/TelegramUI/ThemeUpdateManager.swift:88-96 | a wallpaper is resolved only for a file default wallpaper whose id is 0, and then it is the slug lookup's result |
| Pipeline.ResolveTheme | submodules/TelegramUI/TelegramUI/ThemeUpdateManager.swift:77-115 | the pipeline outcome: nothing is stored without an emission; an emission is a cloud reference to the actualized theme with a parsed theme; a resolved wallpaper is a file wallpaper stored under its resource |
| Pipeline.ResolveThemeEmitsIff | submodules/TelegramUI/TelegramUI/ThemeUpdateManager.swift:77-115 | the pipeline emits iff the actualized theme has a file, its data exists and parses, and a resolved file wallpaper was fetched complete with data |
| Pipeline.ResolveThemeEmissionShape | submodules/TelegramUI/TelegramUI/ThemeUpdateManager.swift:77-112 | an emission is a cloud reference to the actualized theme, with the parsed theme of its data |
| Pipeline.ResolveThemeWallpaper | submodules/TelegramUI/TelegramUI/ThemeUpdateManager.swift:88-112 | a resolved wallpaper comes only from the slug lookup of a placeholder file wallpaper; it is stored in the cache exactly when it is emitted; a non-file lookup result resolves to nothing |
| Pipeline.ResolveThemeWithoutFile | submodules/TelegramUI/TelegramUI/ThemeUpdateManager.swift:79-81 | a theme without a resource file ends the pipeline with no emission and no cache store |
| Pipeline.MergedPipelineWallpaper | submodules/TelegramUI/TelegramUI/ThemeUpdateManager.swift:109-140 | writing a pipeline emission uses the override if there is one, else the resolved wallpaper, else the parsed default; it never keeps the stored wallpaper without an override |

## Left out

- Signal plumbing (`Signal`, `mapToSignal`, `deliverOn`, `start`, `Queue`) and disposal in `deinit`: asynchrony and cancellation are not modelled. Dropping a registry entry stands for disposing of its task. "No write after disposal" is a timing property and is not stated.
- The external collaborators (`actualizedTheme`, `telegramThemeData`, `makePresentationTheme`, `cachedWallpaper`, `wallpaperDatas`) have no visible bodies. They are uninterpreted functions. Each signal is modelled as delivering one value, so a collaborator that emits several times is not captured.
- `mediaBox.storeResourceData` is a side effect. It appears as the `stored` part of the pipeline outcome.
- Building the image representation (`CGSize(width: 100.0, …)`, line 102) is floating point and irrelevant to the logic.
- The atomicity of `accountManager.transaction` is not modelled. `ApplyWrites` applies writes one after another and ignores other writers.
- The contents of `PresentationTheme` are left out. Only `chat.defaultWallpaper` is kept.
- The task entry's disposable is left out. `Context` keeps only the reference and the auto-night flag.
