# Preset management of the Philomena downloader, modelled in Dafny

The command-line downloader keeps named search presets in a store (`ConfigAccess`,
reached through the static field `configAccess`). Six handlers manage them:
`preset list`, `add`, `delete`, `rename`, `copy` and `update`. `preset list` only
reads the store and prints the preset names. Each of the five changing handlers first
looks a name up and reports a failure if the guard does not hold; otherwise it makes
exactly one call that changes the store (`UpsertPreset` or `DeletePreset`).

The model has three modules:

- `Settings` (`settings.dfy`) holds the collaborators whose code is not part of this
  model: `SearchConfig`, `SearchPreset` and the store class `ConfigAccess` over a
  `seq<SearchPreset>`. Their behaviour is ASSUMED, not verified:
  - `GetPreset(name)` returns the first preset with that name (`FindByName`).
  - `UpsertPreset` replaces the preset with the same id, or appends (`Upsert`).
  - `DeletePreset(id)` removes the presets with that id (`RemoveById`).
  - `new SearchPreset(name, config)` receives an id that no stored preset has. Id
    generation is not visible, so the id is a parameter `newId` with
    `requires IdIsFresh(...)`.
  - `args.GetSearchConfig(baseConfig)` is some total function of the command's
    overrides and an optional base config. It is a parameter of type `ConfigMerge`,
    and no precedence rule is assumed.
  - `SearchConfig` is an immutable value. Its fields mirror the command-line options,
    and the model never reads them.
- `PresetCommands` (`preset_commands.dfy`) gives each command as a pure transition on
  the sequence of presets: an `Outcome` and the new sequence. It also holds the
  lemmas: what each success changes, that each failure changes nothing, that names
  stay unique across any run of commands, and the list output.
- `Program` (`program.dfy`) holds the six handlers as methods on a `ConfigAccess`
  (`modifies configAccess`). Each is proved to perform its transition, to keep the
  store valid, and to keep names unique.

Two behaviours of the handlers are easy to misread:
- `rename x x` fails with "already exists". The handler checks `from` first and `to`
  second, and `to` is then taken. It is not a no-op.
- "There are no presets" is printed when the joined names are empty: for the empty
  store, and also for a store whose only preset has the empty name (see Findings).

## Model

| member | source | states |
|---|---|---|
| Settings.IndexOfName | Sibusten.Philomena.Downloader.Cmd/Program.cs:155 | Assumed lookup: None exactly when no preset has the name; otherwise the index of the first preset with it |
| Settings.IndexOfId | Sibusten.Philomena.Downloader.Cmd/Program.cs:164 | Assumed id lookup: None exactly when the id is fresh; otherwise the index of the first preset with it |
| Settings.FindByName | Sibusten.Philomena.Downloader.Cmd/Program.cs:155 | Assumed GetPreset, called as `ConfigAccess.GetPreset` at lines 155, 171, 186, 194, 209, 217 and 232 (`ConfigAccess.GetPresets`, at line 139, returns the stored sequence): None exactly when the name is free; otherwise the stored preset at the first position holding that name |
| Settings.Upsert | Sibusten.Philomena.Downloader.Cmd/Program.cs:164 | Assumed UpsertPreset: the preset is stored; a fresh id appends; a known id keeps the length; presets with other ids keep their places; unique ids stay unique |
| Settings.RemoveById | Sibusten.Philomena.Downloader.Cmd/Program.cs:179 | Assumed DeletePreset: keeps exactly the presets whose id differs; unique ids and unique names stay unique |
| Settings.UpsertReplaces | Sibusten.Philomena.Downloader.Cmd/Program.cs:204 | With unique ids, upserting a preset with a stored id replaces that preset in place |
| Settings.RemoveAbsent | Sibusten.Philomena.Downloader.Cmd/Program.cs:179 | Deleting an id that no preset has leaves the sequence unchanged |
| Settings.RemoveAt | Sibusten.Philomena.Downloader.Cmd/Program.cs:179 | With unique ids, deleting the id of the preset at k removes exactly that preset and keeps the others in order |
| Settings.ConfigAccess.constructor | Sibusten.Philomena.Downloader.Cmd/Program.cs:16 | The store starts with the loaded presets, whose ids are unique |
| Settings.ConfigAccess.UpsertPreset | Sibusten.Philomena.Downloader.Cmd/Program.cs:164 | The new store is the upsert of the old one; unique ids are kept |
| Settings.ConfigAccess.DeletePreset | Sibusten.Philomena.Downloader.Cmd/Program.cs:179 | The new store is the old one without that id; unique ids are kept |
| PresetCommands.AddStep | Sibusten.Philomena.Downloader.Cmd/Program.cs:153-167 | Add succeeds exactly when the name is free; otherwise it reports AlreadyExists(name) and the store is unchanged; on success the new preset has the config built from the overrides with no base |
| PresetCommands.AddEffect | Sibusten.Philomena.Downloader.Cmd/Program.cs:162-164 | A successful add with a fresh id appends exactly one preset and keeps ids and names unique |
| PresetCommands.AddTwiceFails | Sibusten.Philomena.Downloader.Cmd/Program.cs:155-160 | After a successful add, adding the same name again reports AlreadyExists and changes nothing |
| PresetCommands.DeleteStep | Sibusten.Philomena.Downloader.Cmd/Program.cs:169-182 | Delete succeeds exactly when the name exists; otherwise it reports DoesNotExist(name) and changes nothing; on success the preset found is gone and every preset with another id remains |
| PresetCommands.DeleteEffect | Sibusten.Philomena.Downloader.Cmd/Program.cs:171-179 | With unique ids, delete removes exactly the preset found by name and keeps the order of the others; with unique names the name is free afterwards |
| PresetCommands.RenameStep | Sibusten.Philomena.Downloader.Cmd/Program.cs:184-200 | Rename checks `from` before `to`: a missing `from` gives DoesNotExist, a taken `to` gives AlreadyExists (so `from == to` fails), and each failure changes nothing |
| PresetCommands.RenameEffect | Sibusten.Philomena.Downloader.Cmd/Program.cs:202-204 | A successful rename changes only the name of the preset found, in place; afterwards `to` finds it; with unique names, `from` finds nothing and names stay unique |
| PresetCommands.CopyStep | Sibusten.Philomena.Downloader.Cmd/Program.cs:207-223 | Copy has the same two guards and outcomes as rename, with no change on failure; on success a preset named `to` with the new id and the source's config is stored |
| PresetCommands.CopyEffect | Sibusten.Philomena.Downloader.Cmd/Program.cs:225-227 | A successful copy with a fresh id appends exactly that one preset; the source and every other preset stay as they were |
| PresetCommands.UpdateStep | Sibusten.Philomena.Downloader.Cmd/Program.cs:230-245 | Update succeeds exactly when the name exists; otherwise it reports DoesNotExist and changes nothing; the length is kept, and presets with another id than the one found are unchanged |
| PresetCommands.UpdateEffect | Sibusten.Philomena.Downloader.Cmd/Program.cs:239-242 | With unique ids, a successful update replaces only the found preset's config, with GetSearchConfig of the overrides on the old config; its id, name and position are kept |
| PresetCommands.CopyThenUpdateKeepsSource | Sibusten.Philomena.Downloader.Cmd/Program.cs:226 | After copying `a` to `b`, updating `b` leaves the lookup of `a` exactly as before the copy |
| PresetCommands.StepKeepsConsistent | Sibusten.Philomena.Downloader.Cmd/Program.cs:155-156 | Any one command keeps ids and names unique, given a fresh id for the preset it creates |
| PresetCommands.RunKeepsConsistent | Sibusten.Philomena.Downloader.Cmd/Program.cs:194-196 | Ids and names stay unique across any sequence of commands whose new ids are fresh |
| PresetCommands.Names | Sibusten.Philomena.Downloader.Cmd/Program.cs:140 | The projection has one name per preset, in store order |
| PresetCommands.Join | Sibusten.Philomena.Downloader.Cmd/Program.cs:141 | The joined text starts with the first part and is as long as all parts plus one separator between each pair |
| PresetCommands.Listing | Sibusten.Philomena.Downloader.Cmd/Program.cs:139-150 | As written: NoPresets exactly when the store is empty or holds one preset with the empty name; otherwise the names joined by newlines |
| PresetCommands.ListingIntended | Sibusten.Philomena.Downloader.Cmd/Program.cs:143-146 | Corrected: NoPresets exactly when the store is empty; otherwise the names joined by newlines |
| PresetCommands.ListingHidesEmptyName | Sibusten.Philomena.Downloader.Cmd/Program.cs:143 | A store with one preset named "" is listed as having no presets |
| PresetCommands.ListingAgrees | Sibusten.Philomena.Downloader.Cmd/Program.cs:143 | The as-written and corrected listings agree on every other store |
| Program.PresetListCommand | Sibusten.Philomena.Downloader.Cmd/Program.cs:137-151 | The output is the as-written listing of the store; "no presets" only for a store of at most one preset |
| Program.PresetAddCommand | Sibusten.Philomena.Downloader.Cmd/Program.cs:153-167 | Performs AddStep on the store; on success the store gains exactly the new preset at the end; unique names are kept |
| Program.PresetRemoveCommand | Sibusten.Philomena.Downloader.Cmd/Program.cs:169-182 | Performs DeleteStep; on success exactly the preset found by name is removed, the others keep their order; with unique names the name is free afterwards |
| Program.PresetRenameCommand | Sibusten.Philomena.Downloader.Cmd/Program.cs:184-205 | Performs RenameStep; on success only the found preset's name changes and GetPreset(to) returns it; with unique names GetPreset(from) is None |
| Program.PresetCopyCommand | Sibusten.Philomena.Downloader.Cmd/Program.cs:207-228 | Performs CopyStep; on success the store gains exactly one preset named `to` with the source's config; unique names are kept |
| Program.PresetUpdateCommand | Sibusten.Philomena.Downloader.Cmd/Program.cs:230-245 | Performs UpdateStep; on success only the found preset's config changes, to GetSearchConfig of the overrides on the old config; unique names are kept |

## Left out

- `Main`, the command tree, `WithSearchQueryArgs` and `WithHandler` are command-line registration and reflection-based dispatch. They have no behaviour of their own to verify.
- `GetArgsFromConsole` reads the arguments from the console in debug builds. It is console I/O.
- `DownloadCommand` is an unfinished stub: preset loading is a TODO, and it only computes `GetSearchConfig(null)` and downloads nothing.
- The internals of `ConfigAccess`, `SearchPreset`, `SearchConfig` and `GetSearchConfig` are not part of this model. That covers persistence, load and flush, the real config fields and the merge rules. They are assumed as described above.
- Console messages are modelled as an `Outcome`, so the exact texts are not modelled. Rename and copy print nothing on success. The stray quotes in the add and update confirmations are also not modelled.
- Asynchronous plumbing is left out. So is the sharing of the source's config object between a preset and its copy: configs are immutable values here.
- `Environment.NewLine` is a parameter, restricted to "\n" or "\r\n".
- Program.PresetAddCommand: the new id comes from a parameter assumed fresh, not from the unseen id generator.
- Program.PresetCopyCommand: the new id comes from a parameter assumed fresh, not from the unseen id generator.
- PresetCommands.DeleteEffect: the exact effect is stated only for stores with unique ids, which the store keeps. Without them, deleting by id could remove more than one preset.
- PresetCommands.RenameEffect: the exact effect is stated only for stores with unique ids. Without them, the upsert could replace another preset that carries the same id.
- PresetCommands.UpdateEffect: the exact effect is stated only for stores with unique ids, for the same reason as rename.

## Findings

| source | as written | input that shows it | evidently intended | confidence | as-written member | corrected member |
|---|---|---|---|---|---|---|
| Sibusten.Philomena.Downloader.Cmd/Program.cs:141-146 | "There are no presets" is chosen by testing whether the newline-joined names are empty | a store holding exactly one preset whose name is the empty string (`preset add ""`) | report "no presets" exactly when the store is empty | low, not executed (depends on the parser accepting an empty argument) | PresetCommands.ListingHidesEmptyName | PresetCommands.ListingIntended |
