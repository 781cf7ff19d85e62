/** The checks that gate every change to the parameter list (parameters/shared.go):
    a parameter name must not be blank and must not already be taken, an environment
    variable must be a KEY=VALUE text, and parameters are looked up by exact name. */
module ParameterRules {
  import opened Base
  import opened Text
  import opened Setup
  import opened Lookup
  import opened Command

  /** The duplicate scan of `validateParameterName`: some listed parameter carries exactly
      `name` and that name is not the one being edited. */
  function NameTaken(name: string, ps: seq<Parameter>, current: string): (taken: bool)
    ensures taken <==> exists k :: 0 <= k < |ps| && ps[k].name == name && ps[k].name != current
    decreases |ps|
  {
    if ps == [] then false
    else if ps[0].name == name && ps[0].name != current then true
    else
      var rest := NameTaken(name, ps[1..], current);
      assert rest ==> exists k :: 0 <= k < |ps| && ps[k].name == name && ps[k].name != current by {
        if rest {
          var k :| 0 <= k < |ps[1..]| && ps[1..][k].name == name && ps[1..][k].name != current;
          assert ps[k + 1] == ps[1..][k];
        }
      }
      rest
  }

  /** `validateParameterName`: a blank name (empty or whitespace only) is refused; so is a
      name some parameter already carries, compared exactly and untrimmed, unless it is the
      name of the parameter being edited (`current`; "" when adding). */
  function ValidateParameterName(name: string, existing: seq<Parameter>, current: string): (r: Outcome)
    ensures r == Pass <==>
              !IsBlank(name) && (name == current || forall k :: 0 <= k < |existing| ==> existing[k].name != name)
    ensures r == Fail(EmptyName) <==> IsBlank(name)
    ensures r == Pass || r == Fail(EmptyName) || r == Fail(DuplicateName(name))
  {
    if TrimSpace(name) == "" then Fail(EmptyName)
    else if NameTaken(name, existing, current) then Fail(DuplicateName(name))
    else Pass
  }

  /** `validateEnvironmentVariable`: blank text and text without '=' are refused. Since '='
      is not whitespace, exactly the texts holding a '=' pass. */
  function ValidateEnvironmentVariable(envVar: string): (r: Outcome)
    ensures r == Pass <==> '=' in envVar
    ensures r == Fail(EmptyEnvVar) <==> IsBlank(envVar)
    ensures r == Fail(EnvVarWithoutEquals) <==> !IsBlank(envVar) && '=' !in envVar
  {
    if TrimSpace(envVar) == "" then Fail(EmptyEnvVar)
    else if '=' !in envVar then Fail(EnvVarWithoutEquals)
    else Pass
  }

  /** An accepted environment variable, trimmed as the store operations keep it, still
      splits into a key and a value, so the command builder always makes an entry of it. */
  lemma AcceptedEnvVarMakesEntry(envVar: string, name: string, description: string)
    requires ValidateEnvironmentVariable(envVar) == Pass
    ensures '=' in TrimSpace(envVar)
    ensures KeyOf(Parameter(name, TrimSpace(envVar), description)).Some?
    ensures EnvVarsOf([Parameter(name, TrimSpace(envVar), description)]) != map[]
  {
    TrimSpaceKeepsNonSpace(envVar, '=');
    ParameterWithEqualsCounts(Parameter(name, TrimSpace(envVar), description));
  }

  /** `findParameterByName`: the smallest index whose parameter carries exactly the name,
      or -1 when none does. The list is only read. */
  method FindParameterByName(paramName: string, parameters: seq<Parameter>) returns (index: int)
    ensures -1 <= index < |parameters|
    ensures index == -1 <==> forall k :: 0 <= k < |parameters| ==> parameters[k].name != paramName
    ensures 0 <= index ==> parameters[index].name == paramName
    ensures forall k :: 0 <= k < index ==> parameters[k].name != paramName
  {
    for i := 0 to |parameters|
      invariant forall k :: 0 <= k < i ==> parameters[k].name != paramName
    {
      if parameters[i].name == paramName {
        return i;
      }
    }
    return -1;
  }

  /** Keeping the name of the parameter being edited always passes, whoever else has it. */
  lemma KeepingCurrentNamePasses(name: string, existing: seq<Parameter>)
    requires !IsBlank(name)
    ensures ValidateParameterName(name, existing, name) == Pass
  {
  }

  /** Taking the exact name of another parameter is refused when adding, and when editing
      a parameter with a different name. */
  lemma TakingAnotherNameFails(existing: seq<Parameter>, k: nat, current: string)
    requires k < |existing| && !IsBlank(existing[k].name) && existing[k].name != current
    ensures ValidateParameterName(existing[k].name, existing, current) == Fail(DuplicateName(existing[k].name))
  {
  }

  /** In a list of distinct names, each non-blank name is free among the other entries. */
  lemma DistinctNameFreeAmongOthers(ps: seq<Parameter>, i: nat)
    requires i < |ps| && !IsBlank(ps[i].name)
    requires forall j, k :: 0 <= j < k < |ps| ==> ps[j].name != ps[k].name
    ensures ValidateParameterName(ps[i].name, ps[..i] + ps[i + 1..], "") == Pass
  {
    var others := ps[..i] + ps[i + 1..];
    forall k | 0 <= k < |others|
      ensures others[k].name != ps[i].name
    {
      if k < i {
        assert others[k] == ps[k];
      } else {
        assert others[k] == ps[k + 1];
      }
    }
  }

  /** The built-in parameters are acceptable to the validators: each name is free among the
      other two and each environment variable holds a '='. */
  lemma DefaultParametersPassValidation(i: nat)
    requires i < 3
    ensures var ps := DefaultParameters();
            ValidateParameterName(ps[i].name, ps[..i] + ps[i + 1..], "") == Pass &&
            ValidateEnvironmentVariable(ps[i].envVar) == Pass
  {
    var ps := DefaultParameters();
    assert !IsSpace(ps[i].name[0]);
    DistinctNameFreeAmongOthers(ps, i);
  }

  // ---------------------------------------------------------------------------
  // The duplicate check looks at the name as typed, while the add and edit operations
  // store the name with surrounding whitespace removed.

  /** As written: a space in front of an existing trimmed name gets past the check,
      while what gets stored is the trimmed text, that same name. */
  lemma UntrimmedCheckAdmitsDuplicate(existing: seq<Parameter>, k: nat)
    requires k < |existing| && !IsBlank(existing[k].name)
    requires !IsSpace(existing[k].name[0]) && !IsSpace(existing[k].name[|existing[k].name| - 1])
    requires forall j :: 0 <= j < |existing| ==> existing[j].name != " " + existing[k].name
    ensures var padded := " " + existing[k].name;
            ValidateParameterName(padded, existing, "") == Pass && TrimSpace(padded) == existing[k].name
  {
    var padded := " " + existing[k].name;
    TrimSpaceLeadingSpace(existing[k].name);
    assert padded[|padded| - 1] == existing[k].name[|existing[k].name| - 1];
    assert !IsBlank(padded);
  }

  /** The check as intended: the name compared is the one that will be stored. */
  function ValidateTrimmedParameterName(name: string, existing: seq<Parameter>, current: string): (r: Outcome)
    ensures r == Pass <==>
              !IsBlank(name) &&
              (TrimSpace(name) == current || forall k :: 0 <= k < |existing| ==> existing[k].name != TrimSpace(name))
  {
    TrimSpaceIdempotent(name);
    ValidateParameterName(TrimSpace(name), existing, current)
  }

  /** With the intended check, adding a parameter keeps the names unique. */
  lemma TrimmedCheckKeepsNamesUnique(ps: seq<Parameter>, name: string, envVar: string, description: string)
    requires UniqueNames(ParameterNames(ps))
    requires ValidateTrimmedParameterName(name, ps, "") == Pass
    ensures UniqueNames(ParameterNames(ps + [Parameter(TrimSpace(name), envVar, description)]))
  {
    var after := ps + [Parameter(TrimSpace(name), envVar, description)];
    var names := ParameterNames(after);
    forall i, j | 0 <= i < j < |after|
      ensures names[i] != names[j]
    {
      assert names[i] == ps[i].name;
      if j < |ps| {
        assert ParameterNames(ps)[i] != ParameterNames(ps)[j];
      } else {
        assert names[j] == TrimSpace(name);
      }
    }
  }
}
