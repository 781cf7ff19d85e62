/** Adding, editing and deleting parameters (parameters/add.go, parameters/edit.go,
    parameters/delete.go, and their older copies in parameters.go). Every form answer is
    an input; an answer the form's validator refuses ends the operation with that
    validator's failure and no change. None of these operations touches the presets. */
module ParameterOps {
  import opened Base
  import opened Text
  import opened Setup
  import opened Lookup
  import opened Command
  import opened ParameterRules

  /** The three fields of the edit form, as submitted. */
  datatype ParameterInput = ParameterInput(name: string, envVar: string, description: string)

  /** What gets stored: every field with surrounding whitespace removed. */
  function Trimmed(input: ParameterInput): (p: Parameter)
    ensures p.name == TrimSpace(input.name) && p.envVar == TrimSpace(input.envVar)
    ensures p.description == TrimSpace(input.description)
  {
    Parameter(TrimSpace(input.name), TrimSpace(input.envVar), TrimSpace(input.description))
  }

  // ---------------------------------------------------------------------------
  // Add

  /** The parameter list after the add forms, or the reason nothing is added. The forms
      come in order (name, environment variable, description) and the first one cancelled
      or refused decides the failure; the name is checked with "" as the current name.
      Otherwise the trimmed answers are appended. */
  function ParametersAfterAdd(ps: seq<Parameter>, name: Answer<string>, envVar: Answer<string>,
                              description: Answer<string>): Result<seq<Parameter>>
  {
    if name.Cancelled? then Err(InputCancelled)
    else if ValidateParameterName(name.value, ps, "").Fail? then Err(ValidateParameterName(name.value, ps, "").error)
    else if envVar.Cancelled? then Err(InputCancelled)
    else if ValidateEnvironmentVariable(envVar.value).Fail? then Err(ValidateEnvironmentVariable(envVar.value).error)
    else if description.Cancelled? then Err(InputCancelled)
    else Ok(ps + [Trimmed(ParameterInput(name.value, envVar.value, description.value))])
  }

  /** The list is extended exactly when all three forms are submitted, the name passes
      with "" as current name and the environment variable passes; it then gains the
      trimmed answers at its end and nothing else. A cancelled name form gives the
      cancellation. */
  lemma ParametersAfterAddCharacterised(ps: seq<Parameter>, name: Answer<string>, envVar: Answer<string>,
                               description: Answer<string>)
    ensures var r := ParametersAfterAdd(ps, name, envVar, description);
            (r.Ok? <==> name.Submitted? && envVar.Submitted? && description.Submitted? &&
                        ValidateParameterName(name.value, ps, "") == Pass &&
                        ValidateEnvironmentVariable(envVar.value) == Pass) &&
            (r.Ok? ==> r.value == ps + [Trimmed(ParameterInput(name.value, envVar.value, description.value))]) &&
            (name.Cancelled? ==> r == Err(InputCancelled))
  {
  }

  /** `AddNewParameter` (and `addNewParameter` in package main): on success exactly one
      parameter, the trimmed answers, is appended; otherwise nothing changes. */
  method AddNewParameter(config: Config, name: Answer<string>, envVar: Answer<string>,
                         description: Answer<string>) returns (r: Outcome)
    modifies config
    ensures var added := ParametersAfterAdd(old(config.parameters), name, envVar, description);
            (added.Ok? ==> r == Pass && config.parameters == added.value) &&
            (added.Err? ==> r == Fail(added.error) && config.parameters == old(config.parameters))
    ensures config.presets == old(config.presets)
    ensures config.ledgerLivePath == old(config.ledgerLivePath)
  {
    var ps := config.parameters;
    var appended := AppendNewParameter(ps, name, envVar, description);
    var after;
    r, after := Settle(ps, appended);
    config.parameters := after;
  }

  /** The steps of `AddNewParameter` on the list: the name form and its check (with ""
      as current name), the environment-variable form and its check, the description
      form, then the append of the trimmed answers. */
  method AppendNewParameter(ps: seq<Parameter>, name: Answer<string>, envVar: Answer<string>,
                            description: Answer<string>) returns (r: Result<seq<Parameter>>)
    ensures r == ParametersAfterAdd(ps, name, envVar, description)
  {
    if name.Cancelled? {
      return Err(InputCancelled);
    }
    var nameCheck := ValidateParameterName(name.value, ps, "");
    if nameCheck.Fail? {
      return Err(nameCheck.error);
    }
    if envVar.Cancelled? {
      return Err(InputCancelled);
    }
    var envCheck := ValidateEnvironmentVariable(envVar.value);
    if envCheck.Fail? {
      return Err(envCheck.error);
    }
    if description.Cancelled? {
      return Err(InputCancelled);
    }
    var newParam := Trimmed(ParameterInput(name.value, envVar.value, description.value));
    r := Ok(ps + [newParam]);
  }

  /** An added parameter has a non-blank name and an environment variable holding a '=',
      so it always contributes a variable when launched. */
  lemma AddedParameterWellFormed(ps: seq<Parameter>, name: Answer<string>, envVar: Answer<string>,
                                 description: Answer<string>)
    requires ParametersAfterAdd(ps, name, envVar, description).Ok?
    ensures var after := ParametersAfterAdd(ps, name, envVar, description).value;
            var p := after[|ps|];
            |after| == |ps| + 1 && after[..|ps|] == ps &&
            p.name != "" && '=' in p.envVar && KeyOf(p).Some?
  {
    ParametersAfterAddCharacterised(ps, name, envVar, description);
    var after := ParametersAfterAdd(ps, name, envVar, description).value;
    var p := Trimmed(ParameterInput(name.value, envVar.value, description.value));
    assert after == ps + [p];
    AcceptedEnvVarMakesEntry(envVar.value, p.name, p.description);
  }

  /** An exact duplicate of an existing name is refused before anything is appended. */
  lemma AddRefusesExactDuplicate(ps: seq<Parameter>, k: nat, envVar: Answer<string>,
                                 description: Answer<string>)
    requires k < |ps| && !IsBlank(ps[k].name)
    ensures ParametersAfterAdd(ps, Submitted(ps[k].name), envVar, description) == Err(DuplicateName(ps[k].name))
  {
  }

  /** The duplicate check looks at the name as typed while the trimmed name is stored:
      adding " X" next to an existing "X" succeeds and leaves two parameters named "X". */
  lemma AddAdmitsPaddedDuplicate(ps: seq<Parameter>, k: nat, envVar: string, description: string)
    requires k < |ps| && !IsBlank(ps[k].name)
    requires !IsSpace(ps[k].name[0]) && !IsSpace(ps[k].name[|ps[k].name| - 1])
    requires forall j :: 0 <= j < |ps| ==> ps[j].name != " " + ps[k].name
    requires '=' in envVar
    ensures var r := ParametersAfterAdd(ps, Submitted(" " + ps[k].name), Submitted(envVar), Submitted(description));
            r.Ok? && r.value[|ps|].name == ps[k].name && !UniqueNames(ParameterNames(r.value))
  {
    UntrimmedCheckAdmitsDuplicate(ps, k);
    var r := ParametersAfterAdd(ps, Submitted(" " + ps[k].name), Submitted(envVar), Submitted(description));
    var names := ParameterNames(r.value);
    assert names[k] == names[|ps|];
  }

  /** The check `addNewParameter` in package main writes inline: blank names and names
      some parameter carries exactly are refused, with no exemption. */
  function LegacyAddNameCheck(name: string, ps: seq<Parameter>): Outcome {
    if TrimSpace(name) == "" then Fail(EmptyName)
    else if exists k :: 0 <= k < |ps| && ps[k].name == name then Fail(DuplicateName(name))
    else Pass
  }

  /** The inline check agrees with `validateParameterName` called with "" as current name:
      a non-blank name never equals "", so the exemption never applies when adding. */
  lemma LegacyAddNameCheckAgrees(name: string, ps: seq<Parameter>)
    ensures LegacyAddNameCheck(name, ps) == ValidateParameterName(name, ps, "")
  {
    if !IsBlank(name) {
      assert name != "";
    }
  }

  // ---------------------------------------------------------------------------
  // Edit

  /** The parameter list after the edit form, or the reason it is unchanged. The
      parameter edited is the first carrying `paramName`; its own name is exempt from
      the duplicate check. */
  function EditedParameters(ps: seq<Parameter>, paramName: string, answer: Answer<ParameterInput>)
    : (r: Result<seq<Parameter>>)
    ensures ParameterIndex(ps, paramName) == -1 ==> r == Err(NotFound(paramName))
    ensures r.Ok? <==> ParameterIndex(ps, paramName) != -1 && answer.Submitted? &&
                       ValidateParameterName(answer.value.name, ps, paramName) == Pass &&
                       ValidateEnvironmentVariable(answer.value.envVar) == Pass
    ensures r.Ok? ==> |r.value| == |ps| &&
                      r.value[ParameterIndex(ps, paramName)] == Trimmed(answer.value) &&
                      forall k :: 0 <= k < |ps| && k != ParameterIndex(ps, paramName) ==> r.value[k] == ps[k]
  {
    var i := ParameterIndex(ps, paramName);
    if i == -1 then Err(NotFound(paramName))
    else if answer.Cancelled? then Err(InputCancelled)
    else if ValidateParameterName(answer.value.name, ps, ps[i].name).Fail? then
      Err(ValidateParameterName(answer.value.name, ps, ps[i].name).error)
    else if ValidateEnvironmentVariable(answer.value.envVar).Fail? then
      Err(ValidateEnvironmentVariable(answer.value.envVar).error)
    else Ok(ps[i := Trimmed(answer.value)])
  }

  /** `EditSingleParameter` (and `editSingleParameter` in package main): the element at the
      found index is overwritten with the trimmed answers; everything else stays. */
  method EditSingleParameter(paramName: string, config: Config, answer: Answer<ParameterInput>)
    returns (r: Outcome)
    modifies config
    ensures var edited := EditedParameters(old(config.parameters), paramName, answer);
            (edited.Ok? ==> r == Pass && config.parameters == edited.value) &&
            (edited.Err? ==> r == Fail(edited.error) && config.parameters == old(config.parameters))
    ensures config.presets == old(config.presets)
    ensures config.ledgerLivePath == old(config.ledgerLivePath)
  {
    var ps := config.parameters;
    var edited := EditParameterList(paramName, ps, answer);
    var after;
    r, after := Settle(ps, edited);
    config.parameters := after;
  }

  /** The steps of `EditSingleParameter` on the list: find the parameter, take the form's
      answer, check the name (its own name exempt) and the environment variable, and
      overwrite the element at the found index. */
  method EditParameterList(paramName: string, ps: seq<Parameter>, answer: Answer<ParameterInput>)
    returns (r: Result<seq<Parameter>>)
    ensures r == EditedParameters(ps, paramName, answer)
  {
    var paramIndex := FindParameterByName(paramName, ps);
    if paramIndex == -1 {
      return Err(NotFound(paramName));
    }
    var currentParam := ps[paramIndex];
    if answer.Cancelled? {
      return Err(InputCancelled);
    }
    var input := answer.value;
    var nameCheck := ValidateParameterName(input.name, ps, currentParam.name);
    if nameCheck.Fail? {
      return Err(nameCheck.error);
    }
    var envCheck := ValidateEnvironmentVariable(input.envVar);
    if envCheck.Fail? {
      return Err(envCheck.error);
    }
    r := Ok(ps[paramIndex := Trimmed(input)]);
  }

  /** A rename does not follow the old name into the presets: when the names were unique,
      a preset entry naming the old parameter afterwards resolves to nothing. */
  lemma RenameLeavesReferenceDangling(ps: seq<Parameter>, paramName: string, input: ParameterInput)
    requires UniqueNames(ParameterNames(ps))
    requires EditedParameters(ps, paramName, Submitted(input)).Ok?
    requires TrimSpace(input.name) != paramName
    ensures ResolveNames([paramName], EditedParameters(ps, paramName, Submitted(input)).value) == []
  {
    var qs := EditedParameters(ps, paramName, Submitted(input)).value;
    var i := ParameterIndex(ps, paramName);
    forall k | 0 <= k < |qs|
      ensures qs[k].name != paramName
    {
      if k != i {
        assert ParameterNames(ps)[k] != ParameterNames(ps)[i] by {
          if k < i {
          } else {
          }
        }
      }
    }
    assert [paramName][..0] == [];
  }

  // ---------------------------------------------------------------------------
  // Delete

  /** The key the delete filter compares. */
  function ParamName(p: Parameter): string {
    p.name
  }

  /** `deleteMultipleParameters` (in both packages): every parameter whose name was
      selected is dropped, the others keep their order, and the count is the number
      dropped. */
  method DeleteMultipleParameters(paramNames: seq<string>, config: Config) returns (deletedCount: nat)
    modifies config
    ensures config.parameters == Without(old(config.parameters), ParamName, NameSet(paramNames))
    ensures deletedCount == |old(config.parameters)| - |config.parameters|
    ensures deletedCount == CountIn(old(config.parameters), ParamName, NameSet(paramNames))
    ensures config.presets == old(config.presets)
    ensures config.ledgerLivePath == old(config.ledgerLivePath)
  {
    var toDelete: set<string> := {};
    for i := 0 to |paramNames|
      invariant toDelete == NameSet(paramNames[..i])
    {
      assert paramNames[..i + 1] == paramNames[..i] + [paramNames[i]];
      toDelete := toDelete + {paramNames[i]};
    }
    assert paramNames[..|paramNames|] == paramNames;

    var ps := config.parameters;
    var remaining: seq<Parameter> := [];
    deletedCount := 0;
    for i := 0 to |ps|
      invariant remaining == Without(ps[..i], ParamName, toDelete)
      invariant deletedCount == CountIn(ps[..i], ParamName, toDelete)
    {
      assert ps[..i + 1][..i] == ps[..i];
      if ps[i].name in toDelete {
        deletedCount := deletedCount + 1;
      } else {
        remaining := remaining + [ps[i]];
      }
    }
    assert ps[..|ps|] == ps;
    WithoutCount(ps, ParamName, toDelete);
    config.parameters := remaining;
  }

  /** Deleting leaves presets alone, so a preset entry naming a deleted parameter
      afterwards resolves to nothing. */
  lemma DeletedParameterNoLongerResolves(ps: seq<Parameter>, paramNames: seq<string>, n: string)
    requires n in paramNames
    ensures ResolveNames([n], Without(ps, ParamName, NameSet(paramNames))) == []
  {
    var rest := Without(ps, ParamName, NameSet(paramNames));
    assert forall k :: 0 <= k < |rest| ==> ParamName(rest[k]) != n;
    assert [n][..0] == [];
  }
}
