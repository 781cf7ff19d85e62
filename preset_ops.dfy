/** Creating, editing and deleting presets (presets/create.go, presets/edit.go,
    presets/delete.go, and the older menu-driven versions in presets.go). Every form
    answer is an input; an answer the form's validator refuses ends the operation with
    that validator's failure and no change. None of these operations touches the
    parameters, so the names a preset holds are never checked against them again. */
module PresetOps {
  import opened Base
  import opened Text
  import opened Setup
  import opened Lookup
  import opened Start
  import opened PresetRules
  import opened Selection

  // ---------------------------------------------------------------------------
  // Create

  /** The preset the three creation steps yield (name, platform, parameters, in that
      order; the first step cancelled or refused decides the failure). */
  function NewPreset(parameters: seq<Parameter>, presets: seq<Preset>, name: Answer<string>,
                     platform: Answer<string>, selected: Answer<seq<string>>): (r: Result<Preset>)
    ensures r.Ok? <==> InputPresetName(presets, name).Ok? && SelectPlatform(platform).Ok? && selected.Submitted?
    ensures r.Ok? ==> r.value.name == TrimSpace(name.value) && r.value.name != ""
    ensures r.Ok? ==> r.value.platform == platform.value &&
                      (r.value.platform == "mobile" || r.value.platform == "desktop")
    ensures r.Ok? ==> r.value.parameters == KnownNames(selected.value, parameters)
    ensures name.Cancelled? ==> r == Err(InputCancelled)
  {
    match InputPresetName(presets, name)
    case Err(e) => Err(e)
    case Ok(presetName) =>
      match SelectPlatform(platform)
      case Err(e) => Err(e)
      case Ok(choice) =>
        if selected.Cancelled? then Err(InputCancelled)
        else
          SelectedPlatformRoundTrip(platform);
          ResolvedNamesAreKnownNames(selected.value, parameters);
          Ok(Preset(presetName, ConvertPlatformToKey(choice.command),
                    ParameterNames(ResolveNames(selected.value, parameters))))
  }

  /** `createPresetCore`: on success the new preset is appended and returned; otherwise
      nothing changes. */
  method CreatePresetCore(config: Config, name: Answer<string>, platform: Answer<string>,
                          selected: Answer<seq<string>>) returns (r: Result<Preset>)
    modifies config
    ensures r == NewPreset(old(config.parameters), old(config.presets), name, platform, selected)
    ensures r.Ok? ==> config.presets == old(config.presets) + [r.value]
    ensures r.Err? ==> config.presets == old(config.presets)
    ensures config.parameters == old(config.parameters)
    ensures config.ledgerLivePath == old(config.ledgerLivePath)
  {
    var presets := config.presets;
    r := ComposePreset(config.parameters, presets, name, platform, selected);
    if r.Ok? {
      var after := presets + [r.value];
      config.presets := after;
    }
  }

  /** The steps of `createPresetCore` before the append: the name form, the platform
      select, the parameter multi-select, and the conversions between them. */
  method ComposePreset(parameters: seq<Parameter>, presets: seq<Preset>, name: Answer<string>,
                       platform: Answer<string>, selected: Answer<seq<string>>) returns (r: Result<Preset>)
    ensures r == NewPreset(parameters, presets, name, platform, selected)
  {
    var presetName := InputPresetName(presets, name);
    if presetName.Err? {
      return Err(presetName.error);
    }
    var choice := SelectPlatform(platform);
    if choice.Err? {
      return Err(choice.error);
    }
    var platformKey := ConvertPlatformToKey(choice.value.command);
    var selectedParams := SelectParameters(parameters, selected);
    if selectedParams.Err? {
      return Err(selectedParams.error);
    }
    var parameterNames := ExtractParameterNames(selectedParams.value);
    r := Ok(Preset(presetName.value, platformKey, parameterNames));
  }

  /** A created preset refers only to parameters that exist when it is created: each of
      its names is carried by some parameter, and the first one carrying it is launched. */
  lemma CreatedPresetNamesResolve(parameters: seq<Parameter>, presets: seq<Preset>, name: Answer<string>,
                                  platform: Answer<string>, selected: Answer<seq<string>>)
    requires NewPreset(parameters, presets, name, platform, selected).Ok?
    ensures var p := NewPreset(parameters, presets, name, platform, selected).value;
            ResolveNames(p.parameters, parameters) == ResolveNames(selected.value, parameters)
  {
    var rs := ResolveNames(selected.value, parameters);
    forall i | 0 <= i < |rs|
      ensures FirstNamed(parameters, rs[i].name) == Some(rs[i])
    {
      ResolvedAreFirstNamed(selected.value, parameters, i);
    }
    ResolveOwnNames(rs, parameters);
    ResolvedNamesAreKnownNames(selected.value, parameters);
  }

  /** Resolving the names of resolved parameters finds those parameters again. */
  lemma {:induction false} ResolveOwnNames(rs: seq<Parameter>, parameters: seq<Parameter>)
    requires forall i :: 0 <= i < |rs| ==> FirstNamed(parameters, rs[i].name) == Some(rs[i])
    ensures ResolveNames(ParameterNames(rs), parameters) == rs
    decreases |rs|
  {
    if rs != [] {
      var init, last := rs[..|rs| - 1], rs[|rs| - 1];
      forall i | 0 <= i < |init|
        ensures FirstNamed(parameters, init[i].name) == Some(init[i])
      {
        assert init[i] == rs[i];
      }
      ResolveOwnNames(init, parameters);
      ResolveSnoc(ParameterNames(init), last.name, parameters);
      assert rs == init + [last];
    }
  }

  /** Names of resolved parameters are names the resolution maps to those very
      parameters. */
  lemma {:induction false} ResolvedAreFirstNamed(names: seq<string>, parameters: seq<Parameter>, i: nat)
    requires i < |ResolveNames(names, parameters)|
    ensures var r := ResolveNames(names, parameters); FirstNamed(parameters, r[i].name) == Some(r[i])
    decreases |names|
  {
    var init := names[..|names| - 1];
    var n := names[|names| - 1];
    if i < |ResolveNames(init, parameters)| {
      ResolvedAreFirstNamed(init, parameters, i);
    }
  }

  /** Creating refuses a name some preset already carries exactly. */
  lemma CreateRefusesExactDuplicate(parameters: seq<Parameter>, presets: seq<Preset>, k: nat,
                                    platform: Answer<string>, selected: Answer<seq<string>>)
    requires k < |presets| && !IsBlank(presets[k].name)
    ensures NewPreset(parameters, presets, Submitted(presets[k].name), platform, selected)
            == Err(DuplicateName(presets[k].name))
  {
  }

  // ---------------------------------------------------------------------------
  // Edit (presets/edit.go)

  /** The three fields of the preset edit form, as submitted. */
  datatype PresetInput = PresetInput(name: string, platform: string, parameters: seq<string>)

  /** How the form starts: the preset's own name, platform and parameter names. */
  function EditFormDefaults(preset: Preset): (input: PresetInput)
    ensures input.name == preset.name && input.platform == preset.platform
    ensures input.parameters == preset.parameters
  {
    PresetInput(preset.name, preset.platform, preset.parameters)
  }

  /** The preset list after the edit form, or the reason it is unchanged. The preset
      edited is the first carrying `presetName`; its own name is exempt from the
      duplicate check. The name is stored trimmed, platform and names as submitted. */
  function EditedPresets(presets: seq<Preset>, presetName: string, answer: Answer<PresetInput>)
    : (r: Result<seq<Preset>>)
    ensures PresetIndex(presets, presetName) == -1 ==> r == Err(NotFound(presetName))
    ensures r.Ok? <==> PresetIndex(presets, presetName) != -1 && answer.Submitted? &&
                       ValidatePresetNameWithDefault(answer.value.name, presets, presetName) == Pass
    ensures r.Ok? ==> |r.value| == |presets| &&
                      r.value[PresetIndex(presets, presetName)] ==
                        Preset(TrimSpace(answer.value.name), answer.value.platform, answer.value.parameters) &&
                      forall k :: 0 <= k < |presets| && k != PresetIndex(presets, presetName) ==> r.value[k] == presets[k]
  {
    var i := PresetIndex(presets, presetName);
    if i == -1 then Err(NotFound(presetName))
    else if answer.Cancelled? then Err(InputCancelled)
    else
      var check := ValidatePresetNameWithDefault(answer.value.name, presets, presets[i].name);
      if check.Fail? then Err(check.error)
      else Ok(presets[i := Preset(TrimSpace(answer.value.name), answer.value.platform, answer.value.parameters)])
  }

  /** `EditSinglePreset`: the preset at the found index gets the submitted fields; the
      other presets, the parameters and the path stay. */
  method EditSinglePreset(presetName: string, config: Config, answer: Answer<PresetInput>)
    returns (r: Outcome)
    modifies config
    ensures var edited := EditedPresets(old(config.presets), presetName, answer);
            (edited.Ok? ==> r == Pass && config.presets == edited.value) &&
            (edited.Err? ==> r == Fail(edited.error) && config.presets == old(config.presets))
    ensures config.parameters == old(config.parameters)
    ensures config.ledgerLivePath == old(config.ledgerLivePath)
  {
    var presets := config.presets;
    var edited := EditPresetList(presetName, presets, answer);
    var after;
    r, after := Settle(presets, edited);
    config.presets := after;
  }

  /** The steps of `EditSinglePreset` on the list: find the preset, take the form's
      answer, and overwrite the three fields at the found index. */
  method EditPresetList(presetName: string, presets: seq<Preset>, answer: Answer<PresetInput>)
    returns (r: Result<seq<Preset>>)
    ensures r == EditedPresets(presets, presetName, answer)
  {
    var presetIndex := FindPresetByName(presetName, presets);
    if presetIndex == -1 {
      return Err(NotFound(presetName));
    }
    var currentPreset := presets[presetIndex];
    if answer.Cancelled? {
      return Err(InputCancelled);
    }
    var input := answer.value;
    var check := ValidatePresetNameWithDefault(input.name, presets, currentPreset.name);
    if check.Fail? {
      return Err(check.error);
    }
    r := Ok(presets[presetIndex := Preset(TrimSpace(input.name), input.platform, input.parameters)]);
  }

  /** Submitting the form's own starting fields changes nothing, as long as the stored
      name has no surrounding whitespace (and is not blank). Whether the multi-select can
      hand the preset's names back verbatim depends on the options it offers; see
      EditDropsDanglingName. */
  lemma UnchangedFormKeepsPresets(presets: seq<Preset>, presetName: string)
    requires PresetIndex(presets, presetName) != -1
    requires presetName != "" && !IsSpace(presetName[0]) && !IsSpace(presetName[|presetName| - 1])
    ensures var p := presets[PresetIndex(presets, presetName)];
            EditedPresets(presets, presetName, Submitted(EditFormDefaults(p))) == Ok(presets)
  {
    var i := PresetIndex(presets, presetName);
    TrimSpaceKeepsTrimmed(presetName);
    assert !IsBlank(presetName) by {
      assert !IsSpace(presetName[0]);
    }
    assert presets[i := presets[i]] == presets;
  }

  /** The multi-select offers only the names of the configured parameters. An answer
      drawn from those options cannot keep a name the preset holds but no parameter
      carries, so a successful edit always changes such a preset. */
  lemma EditDropsDanglingName(presets: seq<Preset>, presetName: string, parameters: seq<Parameter>,
                              input: PresetInput, n: string)
    requires PresetIndex(presets, presetName) != -1
    requires n in presets[PresetIndex(presets, presetName)].parameters && n !in ParameterNames(parameters)
    requires forall m :: m in input.parameters ==> m in ParameterNames(parameters)
    requires EditedPresets(presets, presetName, Submitted(input)).Ok?
    ensures var after := EditedPresets(presets, presetName, Submitted(input)).value;
            n !in after[PresetIndex(presets, presetName)].parameters && after != presets
  {
  }

  // ---------------------------------------------------------------------------
  // Multi-delete (presets/delete.go)

  /** The key the delete filter compares. */
  function PresetName(p: Preset): string {
    p.name
  }

  /** `deleteMultiplePresets`: every preset whose name was selected is dropped, the others
      keep their order, and the count is the number dropped. */
  method DeleteMultiplePresets(presetNames: seq<string>, config: Config) returns (deletedCount: nat)
    modifies config
    ensures config.presets == Without(old(config.presets), PresetName, NameSet(presetNames))
    ensures deletedCount == |old(config.presets)| - |config.presets|
    ensures deletedCount == CountIn(old(config.presets), PresetName, NameSet(presetNames))
    ensures config.parameters == old(config.parameters)
    ensures config.ledgerLivePath == old(config.ledgerLivePath)
  {
    var toDelete: set<string> := {};
    for i := 0 to |presetNames|
      invariant toDelete == NameSet(presetNames[..i])
    {
      assert presetNames[..i + 1] == presetNames[..i] + [presetNames[i]];
      toDelete := toDelete + {presetNames[i]};
    }
    assert presetNames[..|presetNames|] == presetNames;

    var ps := config.presets;
    var remainingPresets: seq<Preset> := [];
    deletedCount := 0;
    for i := 0 to |ps|
      invariant remainingPresets == Without(ps[..i], PresetName, toDelete)
      invariant deletedCount == CountIn(ps[..i], PresetName, toDelete)
    {
      assert ps[..i + 1][..i] == ps[..i];
      if ps[i].name in toDelete {
        deletedCount := deletedCount + 1;
      } else {
        remainingPresets := remainingPresets + [ps[i]];
      }
    }
    assert ps[..|ps|] == ps;
    WithoutCount(ps, PresetName, toDelete);
    config.presets := remainingPresets;
  }

  // ---------------------------------------------------------------------------
  // Single delete (`deletePreset` in package main)

  /** The preset list after `deletePreset`: the first preset carrying the name is cut out
      when the confirmation is answered yes; an unknown name, a declined confirmation or
      a cancelled one leave the list as it is. */
  function PresetsAfterDelete(presets: seq<Preset>, presetName: string, confirm: Answer<bool>)
    : (r: Result<seq<Preset>>)
    ensures PresetIndex(presets, presetName) == -1 ==> r == Err(NotFound(presetName))
    ensures r.Ok? <==> PresetIndex(presets, presetName) != -1 && confirm == Submitted(true)
    ensures PresetIndex(presets, presetName) != -1 && confirm == Submitted(false) ==> r == Err(Declined)
    ensures r.Ok? ==> |r.value| == |presets| - 1 &&
                      CountIn(r.value, PresetName, {presetName}) == CountIn(presets, PresetName, {presetName}) - 1
    ensures r.Ok? ==> var i := PresetIndex(presets, presetName);
                      r.value[..i] == presets[..i] && r.value[i..] == presets[i + 1..]
  {
    var i := PresetIndex(presets, presetName);
    if i == -1 then Err(NotFound(presetName))
    else match confirm
      case Cancelled => Err(InputCancelled)
      case Submitted(yes) =>
        if !yes then Err(Declined)
        else
          CutOneCarrier(presets, presetName, i);
          Ok(presets[..i] + presets[i + 1..])
  }

  /** Cutting out one preset carrying a name lowers the count of that name by one. */
  lemma CutOneCarrier(presets: seq<Preset>, presetName: string, i: nat)
    requires i < |presets| && presets[i].name == presetName
    ensures CountIn(presets[..i] + presets[i + 1..], PresetName, {presetName})
            == CountIn(presets, PresetName, {presetName}) - 1
  {
    var names := {presetName};
    var a, x, b := presets[..i], presets[i], presets[i + 1..];
    assert presets == (a + [x]) + b;
    CountInAppend(a + [x], b, PresetName, names);
    CountInAppend(a, b, PresetName, names);
    assert (a + [x])[..|a|] == a;
    assert CountIn(a + [x], PresetName, names) == CountIn(a, PresetName, names) + 1;
  }

  /** `deletePreset`: the list after the confirmation, as `PresetsAfterDelete` gives it. */
  method DeletePreset(presetName: string, config: Config, confirm: Answer<bool>) returns (r: Outcome)
    modifies config
    ensures var after := PresetsAfterDelete(old(config.presets), presetName, confirm);
            (after.Ok? ==> r == Pass && config.presets == after.value) &&
            (after.Err? ==> r == Fail(after.error) && config.presets == old(config.presets))
    ensures config.parameters == old(config.parameters)
    ensures config.ledgerLivePath == old(config.ledgerLivePath)
  {
    var presets := config.presets;
    var remaining := CutPreset(presetName, presets, confirm);
    var after;
    r, after := Settle(presets, remaining);
    config.presets := after;
  }

  /** The search and the splice of `deletePreset`. */
  method CutPreset(presetName: string, presets: seq<Preset>, confirm: Answer<bool>)
    returns (r: Result<seq<Preset>>)
    ensures r == PresetsAfterDelete(presets, presetName, confirm)
  {
    var presetIndex := -1;
    var i := 0;
    while i < |presets|
      invariant 0 <= i <= |presets|
      invariant forall k :: 0 <= k < i ==> presets[k].name != presetName
    {
      if presets[i].name == presetName {
        PresetIndexAt(presets, presetName, i);
        presetIndex := i;
        break;
      }
      i := i + 1;
    }
    if presetIndex == -1 {
      return Err(NotFound(presetName));
    }
    if confirm.Cancelled? {
      return Err(InputCancelled);
    }
    if !confirm.value {
      return Err(Declined);
    }
    r := Ok(presets[..presetIndex] + presets[presetIndex + 1..]);
  }

  /** When preset names are unique, deleting one preset by name is the multi-delete of
      that single name. */
  lemma SingleDeleteIsMultiDelete(presets: seq<Preset>, presetName: string)
    requires UniqueNames(PresetNames(presets))
    requires PresetIndex(presets, presetName) != -1
    ensures PresetsAfterDelete(presets, presetName, Submitted(true))
            == Ok(Without(presets, PresetName, NameSet([presetName])))
  {
    var i := PresetIndex(presets, presetName);
    assert NameSet([presetName]) == {presetName};
    forall k | i < k < |presets|
      ensures presets[k].name != presetName
    {
      assert PresetNames(presets)[i] != PresetNames(presets)[k];
    }
    WithoutOnlyCarrier(presets, PresetName, presetName, i);
  }

  /** When two presets share the name, deleting by name leaves the later one, one place
      further up, so the name is still found afterwards. */
  lemma LaterNamesakeSurvives(presets: seq<Preset>, presetName: string, j: nat)
    requires j < |presets| && presets[j].name == presetName && PresetIndex(presets, presetName) < j
    ensures PresetsAfterDelete(presets, presetName, Submitted(true)).Ok?
    ensures PresetsAfterDelete(presets, presetName, Submitted(true)).value[j - 1] == presets[j]
    ensures PresetIndex(PresetsAfterDelete(presets, presetName, Submitted(true)).value, presetName) != -1
  {
    var i := PresetIndex(presets, presetName);
    var after := presets[..i] + presets[i + 1..];
    assert after[j - 1] == presets[j];
  }

  // ---------------------------------------------------------------------------
  // Menu-driven edit (`editSinglePreset` in package main)

  /** What the edit menu of package main leads to, with the answer of the form it opens. */
  datatype PresetEdit =
    | EditName(name: Answer<string>)
    | ChangePlatform(platform: Answer<string>)
    | EditParameters(selected: Answer<seq<string>>)
    | Back

  /** The preset list after one pass through the menu. The name form is the creation one,
      which allows no existing name, the current one included; the rename happens only
      when the trimmed name is non-empty and differs from the current one. */
  function LegacyEditedPresets(presets: seq<Preset>, parameters: seq<Parameter>, presetName: string,
                               choice: Answer<PresetEdit>): (r: Result<seq<Preset>>)
    ensures PresetIndex(presets, presetName) == -1 ==> r == Err(NotFound(presetName))
    ensures choice == Submitted(Back) && PresetIndex(presets, presetName) != -1 ==> r == Ok(presets)
    ensures r.Ok? ==> |r.value| == |presets| &&
                      forall k :: 0 <= k < |presets| && k != PresetIndex(presets, presetName) ==> r.value[k] == presets[k]
  {
    var i := PresetIndex(presets, presetName);
    if i == -1 then Err(NotFound(presetName))
    else
      var current := presets[i];
      match choice
      case Cancelled => Err(InputCancelled)
      case Submitted(EditName(answer)) =>
        (match InputPresetName(presets, answer)
         case Err(e) => Err(e)
         case Ok(newName) =>
           if newName != "" && newName != current.name then Ok(presets[i := current.(name := newName)])
           else Ok(presets))
      case Submitted(ChangePlatform(answer)) =>
        (match SelectPlatform(answer)
         case Err(e) => Err(e)
         case Ok(c) =>
           if c.platformName != "" then Ok(presets[i := current.(platform := ConvertPlatformToKey(c.command))])
           else Ok(presets))
      case Submitted(EditParameters(answer)) =>
        if answer.Cancelled? then Err(InputCancelled)
        else Ok(presets[i := current.(parameters := ParameterNames(ResolveNames(answer.value, parameters)))])
      case Submitted(Back) => Ok(presets)
  }

  /** Typing the current name again is refused, and typing it with surrounding spaces is
      accepted but renames nothing: after the check the two names are equal. */
  lemma LegacyRenameToCurrentName(presets: seq<Preset>, presetName: string, padded: string)
    requires PresetIndex(presets, presetName) != -1 && !IsBlank(presetName)
    requires TrimSpace(padded) == presetName
    requires forall k :: 0 <= k < |presets| ==> presets[k].name != padded
    ensures LegacyEditedPresets(presets, [], presetName, Submitted(EditName(Submitted(presetName))))
            == Err(DuplicateName(presetName))
    ensures LegacyEditedPresets(presets, [], presetName, Submitted(EditName(Submitted(padded)))) == Ok(presets)
  {
    var i := PresetIndex(presets, presetName);
    assert InputPresetName(presets, Submitted(presetName)) == Err(DuplicateName(presetName)) by {
      assert presets[i].name == presetName;
    }
    assert InputPresetName(presets, Submitted(padded)) == Ok(presetName) by {
      assert !IsBlank(padded);
    }
  }

  /** A rename through the menu stores the trimmed name, which no preset carried exactly
      when it was typed. */
  lemma LegacyRenameStoresTrimmedName(presets: seq<Preset>, presetName: string, answer: Answer<string>)
    requires PresetIndex(presets, presetName) != -1
    requires LegacyEditedPresets(presets, [], presetName, Submitted(EditName(answer))).Ok?
    ensures var r := LegacyEditedPresets(presets, [], presetName, Submitted(EditName(answer))).value;
            var i := PresetIndex(presets, presetName);
            r[i].name == (if TrimSpace(answer.value) != presetName then TrimSpace(answer.value) else presetName) &&
            r[i].platform == presets[i].platform && r[i].parameters == presets[i].parameters
  {
  }

  /** Changing the platform through the menu stores the key that was selected. */
  lemma LegacyPlatformChangeStoresKey(presets: seq<Preset>, parameters: seq<Parameter>, presetName: string, key: string)
    requires PresetIndex(presets, presetName) != -1
    requires key == "mobile" || key == "desktop"
    ensures var i := PresetIndex(presets, presetName);
            LegacyEditedPresets(presets, parameters, presetName, Submitted(ChangePlatform(Submitted(key))))
            == Ok(presets[i := presets[i].(platform := key)])
  {
    SelectedPlatformRoundTrip(Submitted(key));
  }

  /** Editing the parameters through the menu replaces the preset's names with the
      selected names that some parameter carries, in the order selected. */
  lemma LegacyParameterEditReplacesNames(presets: seq<Preset>, parameters: seq<Parameter>, presetName: string,
                                         selectedNames: seq<string>)
    requires PresetIndex(presets, presetName) != -1
    ensures var i := PresetIndex(presets, presetName);
            LegacyEditedPresets(presets, parameters, presetName, Submitted(EditParameters(Submitted(selectedNames))))
            == Ok(presets[i := presets[i].(parameters := KnownNames(selectedNames, parameters))])
  {
    ResolvedNamesAreKnownNames(selectedNames, parameters);
  }
}
