/** What the shared forms of package main hand back once they are answered
    (shared.go, reused by presets/shared.go): the platform choice, the parameters picked
    by name, the preselection of the edit form, and the preset-name checks. The form
    itself is an input; see `Answer`. */
module Selection {
  import opened Base
  import opened Text
  import opened Setup
  import opened Lookup
  import opened Start
  import opened PresetRules

  /** A platform as the select form reports it: the name shown and the launch command. */
  datatype PlatformChoice = PlatformChoice(platformName: string, command: string)

  /** `selectPlatform` and `selectPlatformWithDefault` after the form (the default only
      prefills the form): "mobile" and "desktop" give their name and command, any other
      value is refused, leaving the form gives the cancellation. */
  function SelectPlatform(answer: Answer<string>): (r: Result<PlatformChoice>)
    ensures answer.Cancelled? ==> r == Err(InputCancelled)
    ensures answer == Submitted("mobile") ==> r == Ok(PlatformChoice("Mobile", MobileCommand))
    ensures answer == Submitted("desktop") ==> r == Ok(PlatformChoice("Desktop", DesktopCommand))
    ensures answer.Submitted? && answer.value != "mobile" && answer.value != "desktop" ==>
              r == Err(InvalidPlatform)
  {
    match answer
    case Cancelled => Err(InputCancelled)
    case Submitted(selected) =>
      if selected == "mobile" then Ok(PlatformChoice("Mobile", MobileCommand))
      else if selected == "desktop" then Ok(PlatformChoice("Desktop", DesktopCommand))
      else Err(InvalidPlatform)
  }

  /** The command a successful selection reports converts back to the key that was
      selected, and its name is never empty (the `platformName != ""` test of
      `editSinglePreset` in package main always holds). */
  lemma SelectedPlatformRoundTrip(answer: Answer<string>)
    requires SelectPlatform(answer).Ok?
    ensures ConvertPlatformToKey(SelectPlatform(answer).value.command) == answer.value
    ensures PlatformCommand(answer.value) == SelectPlatform(answer).value.command
    ensures SelectPlatform(answer).value.platformName != ""
  {
    PlatformKeyRoundTrip(answer.value);
  }

  /** `selectParameters` and `selectParametersWithDefault` after the form: for every
      selected name in turn, the first available parameter carrying it; names no
      parameter carries are dropped. Leaving the form gives the cancellation (Go returns
      an empty list beside the error). */
  method SelectParameters(availableParams: seq<Parameter>, answer: Answer<seq<string>>)
    returns (r: Result<seq<Parameter>>)
    ensures answer.Cancelled? ==> r == Err(InputCancelled)
    ensures answer.Submitted? ==> r == Ok(ResolveNames(answer.value, availableParams))
  {
    if answer.Cancelled? {
      return Err(InputCancelled);
    }
    var selectedNames := answer.value;
    var selectedParams: seq<Parameter> := [];
    for i := 0 to |selectedNames|
      invariant selectedParams == ResolveNames(selectedNames[..i], availableParams)
    {
      var selectedName := selectedNames[i];
      var j := 0;
      while j < |availableParams|
        invariant 0 <= j <= |availableParams|
        invariant forall k :: 0 <= k < j ==> availableParams[k].name != selectedName
      {
        if availableParams[j].name == selectedName {
          ResolveStepFound(selectedNames, i, availableParams, j);
          selectedParams := selectedParams + [availableParams[j]];
          break;
        }
        j := j + 1;
      }
      if j == |availableParams| {
        assert FirstNamed(availableParams, selectedName).None?;
        ResolveStepSkipped(selectedNames, i, availableParams);
      }
    }
    assert selectedNames[..|selectedNames|] == selectedNames;
    return Ok(selectedParams);
  }

  /** What the selection yields: no more parameters than names were picked, each one an
      available parameter carrying a picked name, in the order the names were picked. */
  lemma SelectedParametersAreAvailable(selectedNames: seq<string>, availableParams: seq<Parameter>)
    ensures var r := ResolveNames(selectedNames, availableParams);
            |r| <= |selectedNames| &&
            (forall i :: 0 <= i < |r| ==> r[i] in availableParams) &&
            ParameterNames(r) == KnownNames(selectedNames, availableParams)
  {
    ResolvedAreElements(selectedNames, availableParams);
    ResolvedNamesAreKnownNames(selectedNames, availableParams);
  }

  /** One option of the parameter multi-select. */
  datatype Choice = Choice(name: string, preselected: bool)

  /** The options `selectParametersWithDefault` (and `EditSinglePreset`) builds: one per
      available parameter, in order, preselected exactly when its name is among the names
      already chosen. */
  method BuildParameterChoices(availableParams: seq<Parameter>, selectedParameterNames: seq<string>)
    returns (options: seq<Choice>)
    ensures |options| == |availableParams|
    ensures forall i :: 0 <= i < |options| ==>
              options[i].name == availableParams[i].name &&
              (options[i].preselected <==> availableParams[i].name in selectedParameterNames)
  {
    options := [];
    for i := 0 to |availableParams|
      invariant |options| == i
      invariant forall k :: 0 <= k < i ==>
                  options[k].name == availableParams[k].name &&
                  (options[k].preselected <==> availableParams[k].name in selectedParameterNames)
    {
      var param := availableParams[i];
      var option := Choice(param.name, false);
      var j := 0;
      while j < |selectedParameterNames|
        invariant 0 <= j <= |selectedParameterNames|
        invariant !option.preselected ==> forall k :: 0 <= k < j ==> selectedParameterNames[k] != param.name
        invariant option.preselected ==> param.name in selectedParameterNames
        invariant option.name == param.name
      {
        if param.name == selectedParameterNames[j] {
          option := option.(preselected := true);
          break;
        }
        j := j + 1;
      }
      options := options + [option];
    }
  }

  /** The validator of `inputPresetName`: blank names are refused, and so is a name some
      preset carries, compared exactly as typed. */
  function ValidatePresetName(s: string, existingPresets: seq<Preset>): (r: Outcome)
    ensures r == Pass <==> !IsBlank(s) && forall k :: 0 <= k < |existingPresets| ==> existingPresets[k].name != s
    ensures r == Fail(EmptyName) <==> IsBlank(s)
    ensures r == Pass || r == Fail(EmptyName) || r == Fail(DuplicateName(s))
  {
    if TrimSpace(s) == "" then Fail(EmptyName)
    else if PresetIndex(existingPresets, s) != -1 then Fail(DuplicateName(s))
    else Pass
  }

  /** The validator of `inputPresetNameWithDefault` (and of `EditSinglePreset`): as
      above, except that the current name itself is always allowed. */
  function ValidatePresetNameWithDefault(s: string, existingPresets: seq<Preset>, currentName: string)
    : (r: Outcome)
    ensures r == Pass <==>
              !IsBlank(s) && (s == currentName || forall k :: 0 <= k < |existingPresets| ==> existingPresets[k].name != s)
    ensures r == Fail(EmptyName) <==> IsBlank(s)
    ensures r == Pass || r == Fail(EmptyName) || r == Fail(DuplicateName(s))
  {
    if TrimSpace(s) == "" then Fail(EmptyName)
    else if s == currentName then Pass
    else ValidatePresetName(s, existingPresets)
  }

  /** `inputPresetName`: the accepted name with surrounding whitespace removed. */
  function InputPresetName(existingPresets: seq<Preset>, answer: Answer<string>): (r: Result<string>)
    ensures answer.Cancelled? ==> r == Err(InputCancelled)
    ensures answer.Submitted? ==>
              (r.Ok? <==> ValidatePresetName(answer.value, existingPresets) == Pass)
    ensures r.Ok? ==> r.value == TrimSpace(answer.value) && r.value != ""
  {
    match answer
    case Cancelled => Err(InputCancelled)
    case Submitted(name) =>
      var check := ValidatePresetName(name, existingPresets);
      if check.Fail? then Err(check.error) else Ok(TrimSpace(name))
  }

  /** `inputPresetNameWithDefault`: as `inputPresetName`, with the current name allowed. */
  function InputPresetNameWithDefault(existingPresets: seq<Preset>, currentName: string, answer: Answer<string>)
    : (r: Result<string>)
    ensures answer.Cancelled? ==> r == Err(InputCancelled)
    ensures answer.Submitted? ==>
              (r.Ok? <==> ValidatePresetNameWithDefault(answer.value, existingPresets, currentName) == Pass)
    ensures r.Ok? ==> r.value == TrimSpace(answer.value) && r.value != ""
  {
    match answer
    case Cancelled => Err(InputCancelled)
    case Submitted(name) =>
      var check := ValidatePresetNameWithDefault(name, existingPresets, currentName);
      if check.Fail? then Err(check.error) else Ok(TrimSpace(name))
  }

  /** Keeping the current name passes the editing check although a preset (the one being
      edited) carries it; the creating check refuses it. */
  lemma CurrentPresetNameAllowedOnlyWhenEditing(existingPresets: seq<Preset>, k: nat)
    requires k < |existingPresets| && !IsBlank(existingPresets[k].name)
    ensures var current := existingPresets[k].name;
            InputPresetNameWithDefault(existingPresets, current, Submitted(current)) == Ok(TrimSpace(current)) &&
            InputPresetName(existingPresets, Submitted(current)) == Err(DuplicateName(current))
  {
  }

  /** An accepted name carries no surrounding whitespace, so it is returned unchanged
      when it is typed again. */
  lemma AcceptedPresetNameIsTrimmed(existingPresets: seq<Preset>, answer: Answer<string>)
    requires InputPresetName(existingPresets, answer).Ok?
    ensures var name := InputPresetName(existingPresets, answer).value;
            name != "" && TrimSpace(name) == name
  {
    TrimSpaceIdempotent(answer.value);
  }
}
