# ledger-live-starter, modelled in Dafny

ledger-live-starter is a terminal tool that starts the Ledger Live mobile or desktop
development build. It reads a JSON configuration holding three things:

- the path of the Ledger Live checkout;
- a list of *parameters*: a name, a `KEY=VALUE` environment variable and a description;
- a list of *presets*: a name, a platform key (`mobile` or `desktop`) and the names of
  the parameters to launch with.

This project models the core of the tool:

- **Command builder.** `buildCommand` and `buildPresetCommand` turn selected
  parameters, or a preset, into a base command, an environment map and a working
  directory.
- **Configuration store.** The records, the default configuration, and where the
  configuration file is found. The in-place add, edit and delete operations on
  parameters and presets, with the validators that gate them. The answers of the
  interactive forms are inputs.
- **Small text utilities.** The version comparison of the update check, the line
  splitting and joining of the gradient renderer, and the ANSI styling helpers.

Layout:

| file | module | source it follows |
|---|---|---|
| `base.dfy` | `Base` | form answers, failures, `(value, error)` results |
| `text.dfy` | `Text` | Go's `strings.TrimSpace`, `strings.Index`, `strings.Split` and string `<` |
| `setup.dfy` | `Setup` | `setup/config_helpers.go`, `manual.go` |
| `lookup.dfy` | `Lookup` | the name searches, name resolution and delete filters the others share |
| `command.dfy` | `Command` | `command.go` (and its copy in `manual.go`) |
| `start.dfy` | `Start` | `start.go` |
| `parameter_rules.dfy` | `ParameterRules` | `parameters/shared.go` |
| `parameter_ops.dfy` | `ParameterOps` | `parameters/add.go`, `parameters/edit.go`, `parameters/delete.go`, `parameters.go` |
| `preset_rules.dfy` | `PresetRules` | `presets/shared.go` |
| `selection.dfy` | `Selection` | `shared.go` |
| `preset_ops.dfy` | `PresetOps` | `presets/create.go`, `presets/edit.go`, `presets/delete.go`, `presets.go` |
| `update_checker.dfy` | `UpdateChecker` | `update_checker.go` |
| `gradient.dfy` | `Gradient` | `ui/gradient.go` |
| `colors.dfy` | `Colors` | `colors.go` |

How the model is built:

- The configuration is a class, `Setup.Config`, whose fields the store operations
  change in place. Each of those operations is a method with `modifies config`.
- Each such method is proved equal to a pure function of the old lists (`ParametersAfterAdd`,
  `EditedParameters`, `NewPreset`, `EditedPresets`, `PresetsAfterDelete`, `Without`).
  The lemmas are stated about these functions.
- Loops in the source are loops here, each with the invariant that ties it to its
  specification: the env-var map, the name resolution, the filters, the padding and
  comparison of versions, and the line splitting.
- Package `main` holds an older copy of most operations. Each operation is modelled
  once. Where the older copy behaves differently (adding a parameter, editing a preset
  from a menu, deleting one preset), the difference is modelled and proved separately.

A form in the tool re-prompts until its validator accepts the input or the user
leaves. Here an answer is `Submitted(value)` or `Cancelled`. A submitted value the
validator refuses ends the operation with that validator's failure and leaves the
configuration unchanged. That is the state the tool is in while the form keeps
asking.

Two behaviours of the code are worth knowing before reading the contracts:

- **Parameter names are not kept unique.** The code checks the name *as typed* and
  stores it *trimmed*. So `" X"` passes against an existing `"X"` and is stored as a
  second `"X"`
  (`ParameterOps.AddAdmitsPaddedDuplicate`). Preset names behave the same way.
- **Renaming a preset through the old menu.** The rename (`presets.go`) uses the
  creation form, which has no exemption for the current name. So retyping the current
  name is refused (`PresetOps.LegacyRenameToCurrentName`).

## Model

| member | source | states |
|---|---|---|
| Setup.Config.Default | cmd/ledger-live/setup/config_helpers.go:110-132 | the default configuration has an empty path, the three built-in parameters and no presets |
| Setup.DefaultParameters | cmd/ledger-live/manual.go:139-161 | there are exactly three built-in parameters; each env var holds a `=`; the names are pairwise distinct |
| Setup.LedgerLiveConfigPath | cmd/ledger-live/setup/config_helpers.go:51-59 | the fallback path is the per-user directory joined with `config.json` (`.` when the home directory is unknown) |
| Setup.ResolveConfigPath | cmd/ledger-live/manual.go:33-56 | a non-empty flag wins, then a non-empty `LEDGER_LIVE_STARTER_CONFIG`, then `<home>/.ledger-live/config.json` |
| Setup.ConfigPathSetting.SetConfigPath | cmd/ledger-live/setup/config_helpers.go:32-34 | the stored override becomes the given path, `""` included |
| Setup.ConfigPathSetting.GetConfigPath | cmd/ledger-live/setup/config_helpers.go:36-49 | a stored non-empty override wins over any environment; an empty one falls back to the environment override, then to the per-user file |
| Setup.OverrideLiesOutsideEnsuredDir | cmd/ledger-live/setup/config_helpers.go:61-72 | the created directory depends on the home directory only: the per-user file lies inside it, and an override (flag or environment) not starting with the home directory lies outside it, whatever the environment holds |
| Command.SplitEnvVar | cmd/ledger-live/command.go:23-27 | there is no entry exactly when there is no `=`; otherwise the text is key + `=` + value, with no `=` in the key |
| Command.SplitEnvVarOfAssignment | cmd/ledger-live/command.go:24-27 | splitting `k=v`, where k has no `=`, gives back k and v whatever `=` v holds |
| Command.FirstEqualsSplits | cmd/ledger-live/command.go:24-27 | `FOO=bar=baz` gives FOO and `bar=baz` |
| Command.BuildCommand | cmd/ledger-live/command.go:17-36 | the base command is kept verbatim, the map is the fold of the parameters in order, and the working directory is the configured path; nothing is changed |
| Command.KeyOfParameterIsSet | cmd/ledger-live/command.go:21-29 | every parameter with a `=` puts its key into the map |
| Command.SetKeyHasParameter | cmd/ledger-live/command.go:18-29 | every key in the map comes from some parameter's text before its first `=` |
| Command.EnvVarsKeys | cmd/ledger-live/command.go:18-29 | the map's keys are exactly the first-`=` prefixes of the parameters that hold a `=` |
| Command.LaterParameterWins | cmd/ledger-live/command.go:21-28 | a key's value comes from the last parameter that sets that key |
| Command.EnvVarsSnoc | cmd/ledger-live/command.go:21-29 | appending a `KEY=VALUE` parameter sets or overwrites KEY and nothing else |
| Command.ParameterWithEqualsCounts | cmd/ledger-live/command.go:23-28 | a parameter with a `=` always makes an entry |
| Command.ParameterWithoutEqualsIgnored | cmd/ledger-live/command.go:23 | a parameter without `=` changes nothing wherever it stands, and causes no failure |
| Command.SameKeyLaterValue | cmd/ledger-live/manual.go:171-190 | in the copy in package main as well, of two parameters setting one key the later value is kept |
| Start.PlatformCommand | cmd/ledger-live/start.go:155-162 | `desktop` gives `pnpm dev:lld`; `mobile` and every other key, the empty one included, give `pnpm dev:llm` |
| Start.BuildPresetCommand | cmd/ledger-live/start.go:152-186 | the result is `buildCommand` applied to the platform's command and to the preset's names resolved against the parameters (first match, unknown names skipped); the working directory is the configured path |
| Start.ExecutePreset | cmd/ledger-live/start.go:130-150 | nothing is built exactly when no preset has the name; otherwise the first preset with that exact name is built |
| Start.DanglingNameSkipped | cmd/ledger-live/start.go:166-178 | a preset name that no parameter carries is skipped without effect, wherever it stands |
| Start.FirstOfSameNameUsed | cmd/ledger-live/start.go:167-176 | a parameter after an earlier one of the same name is never used |
| Start.FirstNamedShadowed | cmd/ledger-live/start.go:167-176 | the lookup of any single name cannot see a parameter shadowed by an earlier namesake |
| Lookup.ParameterIndex | cmd/ledger-live/parameters/shared.go:31-38 | gives the smallest index carrying the name exactly, or -1 exactly when none does |
| Lookup.PresetIndex | cmd/ledger-live/presets/shared.go:63-70 | gives the smallest index of a preset carrying the name exactly, or -1 exactly when none does |
| Lookup.ResolvedAreElements | cmd/ledger-live/shared.go:69-78 | every resolved parameter is an element of the available list |
| Lookup.ResolvedNamesAreKnownNames | cmd/ledger-live/presets/create.go:58-65 | the names of the resolved parameters are the selected names that some parameter carries, in selection order |
| Lookup.ResolveAppend | cmd/ledger-live/start.go:165-179 | resolution works name by name, so it distributes over concatenation |
| Lookup.ResolveSkipsUnknown | cmd/ledger-live/shared.go:70-78 | an unknown name is dropped wherever it stands |
| Lookup.ResolveKnownNames | cmd/ledger-live/start.go:167-176 | when every name is known, the k-th result is the first parameter carrying the k-th name |
| Lookup.WithoutMembers | cmd/ledger-live/parameters/delete.go:112-116 | an element survives the filter exactly when it was there and its name was not selected |
| Lookup.WithoutAppend | cmd/ledger-live/parameters/delete.go:110-117 | the filter works element by element, so the survivors keep their order |
| Lookup.WithoutIdempotent | cmd/ledger-live/parameters/delete.go:102-121 | deleting the same names a second time changes nothing |
| Lookup.WithoutIgnoresUnknown | cmd/ledger-live/presets/delete.go:90-104 | a selected name that no element carries is ignored |
| Lookup.WithoutCount | cmd/ledger-live/presets/delete.go:96-104 | the survivors plus the deleted count make up the old length |
| Lookup.WithoutOnlyCarrier | cmd/ledger-live/presets.go:357-359 | filtering out a name that only the element at i carries is cutting out that element |
| ParameterRules.NameTaken | cmd/ledger-live/parameters/shared.go:46-51 | the duplicate scan finds a parameter with exactly this name that is not the one being edited |
| ParameterRules.ValidateParameterName | cmd/ledger-live/parameters/shared.go:41-53 | it passes exactly when the name is not blank and either is the current name or is carried by no parameter (exact, untrimmed); blank gives the empty-name failure, otherwise the duplicate failure |
| ParameterRules.ValidateEnvironmentVariable | cmd/ledger-live/parameters/shared.go:56-64 | it passes exactly when the text holds a `=`; blank text and text without `=` give their own failures |
| ParameterRules.AcceptedEnvVarMakesEntry | cmd/ledger-live/parameters/shared.go:60-63 | an accepted env var, once trimmed, still holds a `=`, so it always makes an entry in the command map |
| ParameterRules.FindParameterByName | cmd/ledger-live/parameters/shared.go:31-38 | gives the smallest index with exactly that name, or -1 exactly when none has it; the list is only read |
| ParameterRules.KeepingCurrentNamePasses | cmd/ledger-live/parameters/edit.go:69-71 | keeping the edited parameter's own non-blank name always passes |
| ParameterRules.TakingAnotherNameFails | cmd/ledger-live/parameters.go:246-250 | taking another parameter's exact name is refused as a duplicate |
| ParameterRules.DefaultParametersPassValidation | cmd/ledger-live/setup/config_helpers.go:113-129 | each built-in parameter passes the name check against the other two, and the env-var check |
| ParameterRules.UntrimmedCheckAdmitsDuplicate | cmd/ledger-live/parameters/shared.go:46-51 | a space in front of an existing trimmed name passes the duplicate check, and trims back to that name |
| ParameterRules.ValidateTrimmedParameterName | cmd/ledger-live/parameters/add.go:39 | the same check applied to the name as it will be stored (trimmed): it passes exactly when the trimmed name is free or is the current one |
| ParameterRules.TrimmedCheckKeepsNamesUnique | cmd/ledger-live/parameters/add.go:38-44 | with the check on the stored name, appending keeps the parameter names unique |
| ParameterOps.Trimmed | cmd/ledger-live/parameters/add.go:38-42 | all three stored fields have surrounding whitespace removed |
| ParameterOps.ParametersAfterAddCharacterised | cmd/ledger-live/parameters/add.go:17-45 | the list grows exactly when all three forms are submitted, the name passes with `""` as current name, and the env var passes; it then gains the trimmed answers at its end and nothing else; a cancelled name gives the cancellation |
| ParameterOps.AppendNewParameter | cmd/ledger-live/parameters/add.go:17-45 | the form / check steps in their order, with early returns, give exactly `ParametersAfterAdd` |
| ParameterOps.AddNewParameter | cmd/ledger-live/parameters/add.go:12-56 | the parameter list becomes `ParametersAfterAdd` of the old list on success; otherwise the failure is reported and the list is unchanged; presets and path are untouched |
| ParameterOps.AddedParameterWellFormed | cmd/ledger-live/parameters/add.go:38-45 | the list keeps its old entries as a prefix, and the added parameter has a non-empty name and an env var holding `=`, so it contributes a variable at launch |
| ParameterOps.AddRefusesExactDuplicate | cmd/ledger-live/parameters/add.go:17 | an existing name typed exactly is refused before anything is appended |
| ParameterOps.AddAdmitsPaddedDuplicate | cmd/ledger-live/parameters/add.go:17-44 | an existing name typed with a leading space is accepted and stored trimmed, leaving two parameters with that name |
| ParameterOps.LegacyAddNameCheckAgrees | cmd/ledger-live/parameters.go:89-99 | the inline name check of package main agrees with `validateParameterName` called with `""` |
| ParameterOps.EditedParameters | cmd/ledger-live/parameters/edit.go:48-91 | an unknown name gives not-found; success exactly when found, submitted, the name passes (own name exempt) and the env var passes; then only the found index changes, to the trimmed answers, and the length is kept |
| ParameterOps.EditParameterList | cmd/ledger-live/parameters/edit.go:47-91 | the find / cancel / validate / overwrite steps give exactly `EditedParameters` |
| ParameterOps.EditSingleParameter | cmd/ledger-live/parameters.go:211-293 | on success the list becomes the edited list, otherwise it is unchanged with the failure reported; presets and path are untouched |
| ParameterOps.RenameLeavesReferenceDangling | cmd/ledger-live/parameters/edit.go:89-91 | after a rename (names unique) a preset entry naming the old name resolves to nothing: renames do not cascade |
| ParameterOps.DeleteMultipleParameters | cmd/ledger-live/parameters/delete.go:102-121 | the list becomes the unselected parameters in order; the count is the number removed (old length minus new); presets and path are untouched |
| ParameterOps.DeletedParameterNoLongerResolves | cmd/ledger-live/parameters.go:387-406 | a preset entry naming a deleted parameter resolves to nothing afterwards: deletes do not cascade |
| PresetRules.ConvertPlatformToKey | cmd/ledger-live/presets/shared.go:29-38 | the key is always `mobile` or `desktop`, and `desktop` exactly for `pnpm dev:lld` |
| PresetRules.PlatformKeyRoundTrip | cmd/ledger-live/presets/shared.go:29-38 | converting the command that the launcher picks for `mobile` or `desktop` gives the key back; any other key comes back as `mobile` |
| PresetRules.PlatformCommandRoundTrip | cmd/ledger-live/presets.go:37-45 | for the two commands, converting to a key and launching that key gives the command back |
| PresetRules.ExtractParameterNames | cmd/ledger-live/presets/shared.go:41-47 | the result is the parameters' names, with the same length and order |
| PresetRules.FindPresetByName | cmd/ledger-live/presets/shared.go:63-70 | gives the smallest index with exactly that name, or -1 exactly when none has it; the list is only read |
| Selection.SelectPlatform | cmd/ledger-live/shared.go:13-43 | `mobile` gives (Mobile, `pnpm dev:llm`), `desktop` gives (Desktop, `pnpm dev:lld`), anything else is refused, and leaving the form gives the cancellation |
| Selection.SelectedPlatformRoundTrip | cmd/ledger-live/presets.go:286-301 | the reported command converts back to the selected key, and the display name is never empty |
| Selection.SelectParameters | cmd/ledger-live/shared.go:45-81 | a cancelled form gives the cancellation; otherwise the result is the first available parameter for each selected name in order, with unknown names dropped |
| Selection.SelectedParametersAreAvailable | cmd/ledger-live/shared.go:69-78 | the selection is no longer than the names picked, every entry is an available parameter, and its names are the known picked names |
| Selection.BuildParameterChoices | cmd/ledger-live/shared.go:147-160 | there is one option per available parameter, in order; each is preselected exactly when its name is among the names already chosen |
| Selection.ValidatePresetName | cmd/ledger-live/shared.go:92-102 | it passes exactly when the name is not blank and no preset carries it exactly; blank gives the empty-name failure, otherwise the duplicate failure |
| Selection.ValidatePresetNameWithDefault | cmd/ledger-live/shared.go:202-215 | as above, except that the current name always passes when not blank |
| Selection.InputPresetName | cmd/ledger-live/shared.go:83-112 | an accepted name is the trimmed answer and is never empty; acceptance is exactly the validator passing; leaving gives the cancellation |
| Selection.InputPresetNameWithDefault | cmd/ledger-live/shared.go:193-226 | the same, with the current name allowed |
| Selection.CurrentPresetNameAllowedOnlyWhenEditing | cmd/ledger-live/shared.go:206-209 | the current name passes the editing form but is refused as a duplicate by the creating form |
| Selection.AcceptedPresetNameIsTrimmed | cmd/ledger-live/shared.go:111 | an accepted name is non-empty and unchanged by trimming again |
| PresetOps.NewPreset | cmd/ledger-live/presets/create.go:39-75 | a preset is made exactly when the name is accepted, the platform is valid and parameters are picked. It has the trimmed name, the key `mobile` or `desktop` that was selected, and the known picked names in order; a cancelled name gives the cancellation |
| PresetOps.ComposePreset | cmd/ledger-live/presets.go:11-68 | the steps (name form, platform select and conversion, parameter select, names) give exactly `NewPreset` |
| PresetOps.CreatePresetCore | cmd/ledger-live/presets/create.go:39-89 | on success exactly the returned preset is appended; otherwise nothing changes; parameters and path are untouched |
| PresetOps.CreatedPresetNamesResolve | cmd/ledger-live/presets/create.go:58-65 | the created preset's names resolve, at launch, to exactly the parameters that were selected |
| PresetOps.CreateRefusesExactDuplicate | cmd/ledger-live/presets/create.go:41-45 | an existing preset name typed exactly is refused |
| PresetOps.EditFormDefaults | cmd/ledger-live/presets/edit.go:117-138 | the form starts with the preset's own name, platform and parameter names |
| PresetOps.EditedPresets | cmd/ledger-live/presets/edit.go:106-183 | an unknown name gives not-found; success exactly when found, submitted and the name passes (own name exempt); then only the found index changes, to (trimmed name, platform, names), and the length is kept |
| PresetOps.EditPresetList | cmd/ledger-live/presets/edit.go:104-183 | the find / cancel / validate / overwrite steps give exactly `EditedPresets` |
| PresetOps.EditSinglePreset | cmd/ledger-live/presets/edit.go:104-196 | on success the list becomes the edited list, otherwise it is unchanged with the failure reported; parameters and path are untouched |
| PresetOps.UnchangedFormKeepsPresets | cmd/ledger-live/presets/edit.go:117-183 | when the form returns the preset's own fields (name, platform and names), the presets stay as they were, for a trimmed name |
| PresetOps.EditDropsDanglingName | cmd/ledger-live/presets/edit.go:127-138 | the multi-select offers only configured parameter names, so an answer drawn from its options drops a name no parameter carries, and the edit then changes the preset |
| PresetOps.DeleteMultiplePresets | cmd/ledger-live/presets/delete.go:88-107 | the list becomes the unselected presets in order; the count is the number removed (old length minus new); parameters and path are untouched |
| PresetOps.PresetsAfterDelete | cmd/ledger-live/presets.go:324-371 | an unknown name gives not-found; only a yes removes anything, a no declines and leaving cancels; a removal cuts exactly the first preset carrying the name, keeping those before and after it in order; the list is one shorter and holds one carrier fewer |
| PresetOps.CutOneCarrier | cmd/ledger-live/presets.go:357-359 | cutting out one preset with the name lowers that name's count by one |
| PresetOps.CutPreset | cmd/ledger-live/presets.go:326-359 | the search, confirmation and splice give exactly `PresetsAfterDelete` |
| PresetOps.DeletePreset | cmd/ledger-live/presets.go:324-360 | the list becomes the one after the confirmation, or stays with the failure reported; parameters and path are untouched |
| PresetOps.SingleDeleteIsMultiDelete | cmd/ledger-live/presets.go:328-359 | with unique names, deleting one preset by name equals the multi-delete of that single name |
| PresetOps.LaterNamesakeSurvives | cmd/ledger-live/presets.go:328-333 | with two presets of one name, the later one survives the delete, one place further up, and the name is still found |
| PresetOps.LegacyEditedPresets | cmd/ledger-live/presets.go:230-322 | an unknown name gives not-found; Back changes nothing; any success keeps the length and every other preset |
| PresetOps.LegacyRenameToCurrentName | cmd/ledger-live/presets.go:275-284 | retyping the current name is refused as a duplicate; the current name padded with spaces is accepted and renames nothing |
| PresetOps.LegacyRenameStoresTrimmedName | cmd/ledger-live/presets.go:281-283 | a rename stores the trimmed name (unless it equals the current one) and keeps platform and parameters |
| PresetOps.LegacyPlatformChangeStoresKey | cmd/ledger-live/presets.go:285-303 | changing the platform stores the selected key and nothing else |
| PresetOps.LegacyParameterEditReplacesNames | cmd/ledger-live/presets.go:304-315 | editing the parameters replaces the preset's names with the known selected names, in order |
| UpdateChecker.Pad | cmd/ledger-live/update_checker.go:85-95 | padding keeps the segments and appends `"0"` up to the longer length |
| UpdateChecker.PadWithZeros | cmd/ledger-live/update_checker.go:90-95 | the append loop gives exactly the padded list |
| UpdateChecker.IsNewerVersion | cmd/ledger-live/update_checker.go:79-107 | the split, pad and compare loops give exactly the first-difference comparison of the padded segment lists |
| UpdateChecker.NewerPartsIrreflexive | cmd/ledger-live/update_checker.go:106 | equal segment lists are never newer |
| UpdateChecker.NewerThanIrreflexive | cmd/ledger-live/update_checker.go:98-106 | no version is newer than itself |
| UpdateChecker.NewerPartsAsymmetric | cmd/ledger-live/update_checker.go:98-104 | of two segment lists at most one is newer |
| UpdateChecker.NewerThanAsymmetric | cmd/ledger-live/update_checker.go:79-104 | `isNewerVersion(a, b)` and `isNewerVersion(b, a)` are never both true |
| UpdateChecker.FirstDifferenceDecides | cmd/ledger-live/update_checker.go:98-104 | the result is decided at the first differing segment, by string order there |
| UpdateChecker.TrailingZeroSegment | cmd/ledger-live/update_checker.go:85-95 | `v` and `v.0` are neither newer than the other |
| UpdateChecker.SplitTwoSegments | cmd/ledger-live/update_checker.go:81-82 | a two-segment version splits into its two segments |
| UpdateChecker.SecondSegmentDecides | cmd/ledger-live/update_checker.go:99-103 | with the same first segment, the second segments decide as strings |
| UpdateChecker.SegmentsCompareAsStrings | cmd/ledger-live/update_checker.go:99-103 | `1.10` is not newer than `1.9`, and `1.9` is newer than `1.10` |
| UpdateChecker.TrimV | cmd/ledger-live/update_checker.go:64-65 | exactly one leading `v` is removed, if there is one |
| UpdateChecker.CheckForUpdates | cmd/ledger-live/update_checker.go:29-76 | `dev`, `unknown` and a failed request report no update; otherwise the latest version is the tag without its `v`, and there is an update exactly when it is newer than the running version without its `v` |
| UpdateChecker.SameVersionNoUpdate | cmd/ledger-live/update_checker.go:64-73 | a tag that names the running version, a leading `v` on either side aside, is no update |
| Gradient.IsBorderCharacter | cmd/ledger-live/ui/gradient.go:94-98 | true exactly for one of the ten border characters standing alone |
| Gradient.BorderCharactersAreBoxDrawing | cmd/ledger-live/ui/gradient.go:94-98 | the border characters are ten distinct box-drawing characters (U+2500 to U+257F) |
| Gradient.SplitLines | cmd/ledger-live/ui/gradient.go:101-118 | empty text gives no lines; other text gives the pieces between `\n`; no line holds `\n` |
| Gradient.JoinLines | cmd/ledger-live/ui/gradient.go:121-130 | the result is the lines with one `\n` between neighbours |
| Gradient.JoinLinesOfText | cmd/ledger-live/ui/gradient.go:101-130 | joining the lines of any text gives the text back |
| Gradient.LineCount | cmd/ledger-live/ui/gradient.go:102-117 | non-empty text has one line more than it has `\n`; empty text has none |
| Gradient.SplitJoinedLines | cmd/ledger-live/ui/gradient.go:121-129 | joining newline-free lines puts exactly one `\n` between them and none at the ends, so splitting gives them back (except the single empty line) |
| Colors.StyleText | cmd/ledger-live/colors.go:29-31 | the result is the style, then the text, then the reset sequence |
| Colors.UnstyleStyleText | cmd/ledger-live/colors.go:29-31 | the text is recovered from between the style and the reset |
| Colors.ShorthandsAreStyleText | cmd/ledger-live/colors.go:33-43 | BoldText is bold + text + reset, ColorText is StyleText, BoldColorText is bold + colour + text + reset and ends with reset |
| Colors.CombinedStylesAreBoldColor | cmd/ledger-live/colors.go:20-25 | each combined constant styles text exactly as bold followed by its colour |

## Left out

- Interactive forms, menus and navigation (huh, the management and display menus, the
  post-creation menus). Each answer is an input, and so is leaving a form. A refused
  answer ends the operation, where the tool asks again.
- The names a multi-select answer holds are an input and are not limited to the options
  it offers, nor put in the options' order. So `PresetOps.UnchangedFormKeepsPresets`
  covers the form handing back the preset's own names, which the real form can do only
  when every name is offered (see `PresetOps.EditDropsDanglingName`).
- `executeCommand`: it spawns a process, wires its standard streams and exits. Its
  display text iterates a Go map, so the order is unspecified.
- Loading and saving the configuration, `ConfigExists`, `EnsureConfigDirExists`, and
  the JSON encoding (`omitempty`, and a filtered list that becomes `null` when
  everything is deleted). Save errors after a change are not modelled: the change to
  the in-memory configuration has already happened.
- The HTTP request of the update check, its status and decoding. Their outcome is the
  `release` input of `CheckForUpdates`, `None` on any failure. The update message and
  the version display are left out too (operating-system name, lipgloss styling).
- Gradient rendering (`GetGradientColor`, `ApplyGradientToText`,
  `ApplyGradientToBorderOnly`): float64 colour interpolation and lipgloss.
- Theme, box wrapper, logo, feedback and version output, and `main.go` (cobra
  wiring). The process environment, the home directory and the `--config` flag are
  inputs.
- The setup wizards (`setup/setup.go`, `config.go`): interactive loops whose data
  effect is a default configuration plus appended parameters, which the add operation
  covers.
- `getParameterName`, `getEnvironmentVariable` and `getParameterDescription` are the
  three forms of the add operation. They are modelled by the steps of `ParametersAfterAdd`,
  not as members of their own.
- Setup.JoinPath: models `filepath.Join` only for the shapes that occur here (a home
  directory and fixed names). It does not clean `..` or repeated separators.
- Go strings are bytes; here they are sequences of Unicode characters. Text that is not
  valid UTF-8 is not modelled, and `<` on strings is code-point order, which equals
  UTF-8 byte order on valid text.
- `editSinglePreset` in package main takes the address of its loop variable, which is
  a copy of the preset, and only reads through it. So the model reads the preset by
  value.
- Setup.DefaultParameters: the three parameters are written out literally. The
  contract states their count, that every env var holds a `=` and that the names are
  distinct. It does not restate the texts themselves.
