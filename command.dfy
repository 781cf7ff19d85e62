/** The command builder: the environment-variable map derived from selected parameters
    (`buildCommand` in command.go, duplicated in manual.go). */
module Command {
  import opened Base
  import opened Text
  import opened Setup

  /** What the process launcher receives. */
  datatype CommandInfo = CommandInfo(baseCommand: string, envVars: map<string, string>, workingDir: string)

  /** The guarded `strings.SplitN(envVar, "=", 2)`: key and value around the first '=',
      or nothing when there is no '='. (After the `strings.Contains` guard SplitN always
      yields two parts, so the `len(parts) == 2` test never fails.) */
  function SplitEnvVar(e: string): (r: Option<(string, string)>)
    ensures r.None? <==> '=' !in e
    ensures r.Some? ==> e == r.value.0 + "=" + r.value.1 && '=' !in r.value.0
  {
    if '=' in e then
      var i := IndexOf(e, '=');
      assert e == e[..i] + "=" + e[i + 1..];
      Some((e[..i], e[i + 1..]))
    else None
  }

  /** Splitting a KEY=VALUE text built from a key without '=' gives that key and value
      back, however many '=' the value holds. */
  lemma SplitEnvVarOfAssignment(k: string, v: string)
    requires '=' !in k
    ensures SplitEnvVar(k + "=" + v) == Some((k, v))
  {
    var e := k + "=" + v;
    assert e[|k|] == '=';
    assert forall j :: 0 <= j < |k| ==> e[j] == k[j];
    assert IndexOf(e, '=') == |k|;
    assert e[..|k|] == k;
    assert e[|k| + 1..] == v;
  }

  /** One step of the loop: a KEY=VALUE parameter sets KEY, overwriting an earlier value;
      a parameter without '=' leaves the map as it is. */
  function Assign(m: map<string, string>, p: Parameter): map<string, string> {
    match SplitEnvVar(p.envVar)
    case None => m
    case Some(kv) => m[kv.0 := kv.1]
  }

  /** The map the loop over the parameters builds: each parameter in turn applied to the
      empty map, so later parameters overwrite earlier ones. */
  function EnvVarsOf(ps: seq<Parameter>): map<string, string>
    decreases |ps|
  {
    if ps == [] then map[] else Assign(EnvVarsOf(ps[..|ps| - 1]), ps[|ps| - 1])
  }

  /** Appending a parameter applies it to the map built so far. */
  lemma EnvVarsOfSnoc(ps: seq<Parameter>, p: Parameter)
    ensures EnvVarsOf(ps + [p]) == Assign(EnvVarsOf(ps), p)
  {
    assert (ps + [p])[..|ps|] == ps;
  }

  /** The key a parameter contributes, if any. */
  function KeyOf(p: Parameter): Option<string> {
    match SplitEnvVar(p.envVar)
    case None => None
    case Some(kv) => Some(kv.0)
  }

  /** `buildCommand`: the base command verbatim, the environment map of the parameters,
      and the configuration's Ledger Live path as working directory. Neither the list
      nor the configuration is changed. */
  method BuildCommand(baseCommand: string, parameters: seq<Parameter>, config: Config)
    returns (info: CommandInfo)
    ensures info == CommandInfo(baseCommand, EnvVarsOf(parameters), config.ledgerLivePath)
  {
    var envVars: map<string, string> := map[];
    for i := 0 to |parameters|
      invariant envVars == EnvVarsOf(parameters[..i])
    {
      assert parameters[..i + 1][..i] == parameters[..i];
      var param := parameters[i];
      if '=' in param.envVar {
        var parts := SplitEnvVar(param.envVar);
        envVars := envVars[parts.value.0 := parts.value.1];
      }
    }
    assert parameters[..|parameters|] == parameters;
    info := CommandInfo(baseCommand, envVars, config.ledgerLivePath);
  }

  /** A parameter with a '=' puts its key into the map. */
  lemma {:induction false} KeyOfParameterIsSet(ps: seq<Parameter>, i: nat, k: string)
    requires i < |ps| && KeyOf(ps[i]) == Some(k)
    ensures k in EnvVarsOf(ps)
    decreases |ps|
  {
    if i < |ps| - 1 {
      var ps' := ps[..|ps| - 1];
      assert ps'[i] == ps[i];
      KeyOfParameterIsSet(ps', i, k);
    }
  }

  /** Every key in the map comes from some parameter's first-'=' prefix. */
  lemma {:induction false} SetKeyHasParameter(ps: seq<Parameter>, k: string)
    requires k in EnvVarsOf(ps)
    ensures exists i :: 0 <= i < |ps| && KeyOf(ps[i]) == Some(k)
    decreases |ps|
  {
    var ps' := ps[..|ps| - 1];
    if KeyOf(ps[|ps| - 1]) != Some(k) {
      SetKeyHasParameter(ps', k);
      var i :| 0 <= i < |ps'| && KeyOf(ps'[i]) == Some(k);
      assert ps[i] == ps'[i];
    }
  }

  /** The keys are exactly the first-'=' prefixes of the parameters that have a '='. */
  lemma EnvVarsKeys(ps: seq<Parameter>, k: string)
    ensures k in EnvVarsOf(ps) <==> exists i :: 0 <= i < |ps| && KeyOf(ps[i]) == Some(k)
  {
    if k in EnvVarsOf(ps) {
      SetKeyHasParameter(ps, k);
    }
    if exists i :: 0 <= i < |ps| && KeyOf(ps[i]) == Some(k) {
      var i :| 0 <= i < |ps| && KeyOf(ps[i]) == Some(k);
      KeyOfParameterIsSet(ps, i, k);
    }
  }

  /** The value of a key comes from the last parameter that sets it. */
  lemma {:induction false} LaterParameterWins(ps: seq<Parameter>, i: nat, k: string, v: string)
    requires i < |ps| && SplitEnvVar(ps[i].envVar) == Some((k, v))
    requires forall j :: i < j < |ps| ==> KeyOf(ps[j]) != Some(k)
    ensures k in EnvVarsOf(ps) && EnvVarsOf(ps)[k] == v
    decreases |ps|
  {
    var ps' := ps[..|ps| - 1];
    if i < |ps| - 1 {
      LaterParameterWins(ps', i, k, v);
      assert KeyOf(ps[|ps| - 1]) != Some(k);
    }
  }

  /** Appending a parameter with a '=' sets (or overwrites) its key. */
  lemma EnvVarsSnoc(ps: seq<Parameter>, p: Parameter, k: string, v: string)
    requires SplitEnvVar(p.envVar) == Some((k, v))
    ensures EnvVarsOf(ps + [p]) == EnvVarsOf(ps)[k := v]
  {
    assert (ps + [p])[..|ps|] == ps;
  }

  /** A parameter with a '=' always makes an entry. */
  lemma ParameterWithEqualsCounts(p: Parameter)
    requires '=' in p.envVar
    ensures KeyOf(p).Some?
    ensures EnvVarsOf([p]) != map[]
  {
    var kv := SplitEnvVar(p.envVar).value;
    EnvVarsSnoc([], p, kv.0, kv.1);
    assert [] + [p] == [p];
    assert kv.0 in EnvVarsOf([p]);
  }

  /** A parameter without '=' contributes nothing wherever it stands in the list. */
  lemma {:induction false} ParameterWithoutEqualsIgnored(a: seq<Parameter>, p: Parameter, b: seq<Parameter>)
    requires '=' !in p.envVar
    ensures EnvVarsOf(a + [p] + b) == EnvVarsOf(a + b)
    decreases |b|
  {
    if b == [] {
      EnvVarsOfSnoc(a, p);
      assert a + [p] + b == a + [p];
      assert a + b == a;
    } else {
      var b' := b[..|b| - 1];
      var q := b[|b| - 1];
      ParameterWithoutEqualsIgnored(a, p, b');
      assert a + [p] + b == (a + [p] + b') + [q];
      assert a + b == (a + b') + [q];
      EnvVarsOfSnoc(a + [p] + b', q);
      EnvVarsOfSnoc(a + b', q);
    }
  }

  /** The splitting rule on the example the source documents. */
  lemma FirstEqualsSplits()
    ensures SplitEnvVar("FOO=bar=baz") == Some(("FOO", "bar=baz"))
  {
    assert "FOO" + "=" + "bar=baz" == "FOO=bar=baz";
    SplitEnvVarOfAssignment("FOO", "bar=baz");
  }

  /** Two parameters setting the same key: the later value is the one launched with. */
  lemma SameKeyLaterValue(name1: string, name2: string, k: string, v1: string, v2: string)
    requires '=' !in k
    ensures EnvVarsOf([Parameter(name1, k + "=" + v1, ""), Parameter(name2, k + "=" + v2, "")])
            == map[k := v2]
  {
    SplitEnvVarOfAssignment(k, v1);
    SplitEnvVarOfAssignment(k, v2);
    var ps := [Parameter(name1, k + "=" + v1, ""), Parameter(name2, k + "=" + v2, "")];
    assert ps[..1][..0] == [];
    assert EnvVarsOf(ps[..1]) == map[k := v1];
    assert ps[..|ps| - 1] == ps[..1];
  }
}
