/** Launching a saved preset (`executePreset` and `buildPresetCommand` in start.go):
    the platform picks the base command, the preset's parameter names are looked up in
    the configuration, and the environment map is built as `buildCommand` builds it. */
module Start {
  import opened Base
  import opened Setup
  import opened Lookup
  import opened Command

  /** The two launch commands, for the mobile and the desktop application. */
  const MobileCommand := "pnpm dev:llm"
  const DesktopCommand := "pnpm dev:lld"

  /** The platform switch of `buildPresetCommand`: "desktop" launches the desktop
      application, "mobile" and every other key (the empty one too) the mobile one. */
  function PlatformCommand(platform: string): (cmd: string)
    ensures cmd == MobileCommand || cmd == DesktopCommand
    ensures cmd == DesktopCommand <==> platform == "desktop"
  {
    if platform == "mobile" then MobileCommand
    else if platform == "desktop" then DesktopCommand
    else MobileCommand
  }

  /** `buildPresetCommand`: the command `buildCommand` would build from the platform's base
      command and the preset's names resolved against the configuration's parameters. */
  method BuildPresetCommand(preset: Preset, config: Config) returns (info: CommandInfo)
    ensures info == CommandInfo(PlatformCommand(preset.platform),
                                EnvVarsOf(ResolveNames(preset.parameters, config.parameters)),
                                config.ledgerLivePath)
  {
    var baseCommand: string;
    if preset.platform == "mobile" {
      baseCommand := MobileCommand;
    } else if preset.platform == "desktop" {
      baseCommand := DesktopCommand;
    } else {
      baseCommand := MobileCommand;
    }

    var names := preset.parameters;
    var ps := config.parameters;
    var envVars: map<string, string> := map[];
    for i := 0 to |names|
      invariant envVars == EnvVarsOf(ResolveNames(names[..i], ps))
    {
      var paramName := names[i];
      var j := 0;
      while j < |ps|
        invariant 0 <= j <= |ps|
        invariant forall k :: 0 <= k < j ==> ps[k].name != paramName
        invariant envVars == EnvVarsOf(ResolveNames(names[..i], ps))
      {
        var param := ps[j];
        if param.name == paramName {
          ResolveStepFound(names, i, ps, j);
          EnvVarsOfSnoc(ResolveNames(names[..i], ps), param);
          if '=' in param.envVar {
            var parts := SplitEnvVar(param.envVar);
            envVars := envVars[parts.value.0 := parts.value.1];
          }
          break;
        }
        j := j + 1;
      }
      if j == |ps| {
        assert FirstNamed(ps, paramName).None?;
        ResolveStepSkipped(names, i, ps);
      }
    }
    assert names[..|names|] == names;
    info := CommandInfo(baseCommand, envVars, config.ledgerLivePath);
  }

  /** `executePreset`: nothing is launched when no preset has the name; otherwise the
      first preset with exactly that name is turned into a command. The launch itself
      is not part of this model. */
  method ExecutePreset(presetName: string, config: Config) returns (cmd: Option<CommandInfo>)
    ensures cmd.None? <==> forall k :: 0 <= k < |config.presets| ==> config.presets[k].name != presetName
    ensures cmd.Some? ==>
      var p := FirstPresetNamed(config.presets, presetName).value;
      cmd.value == CommandInfo(PlatformCommand(p.platform),
                               EnvVarsOf(ResolveNames(p.parameters, config.parameters)),
                               config.ledgerLivePath)
  {
    var selected: Option<Preset> := None;
    var i := 0;
    while i < |config.presets|
      invariant 0 <= i <= |config.presets|
      invariant forall k :: 0 <= k < i ==> config.presets[k].name != presetName
      invariant selected.None?
    {
      if config.presets[i].name == presetName {
        FirstPresetNamedAt(config.presets, presetName, i);
        selected := Some(config.presets[i]);
        break;
      }
      i := i + 1;
    }

    if selected.None? {
      return None;
    }
    var info := BuildPresetCommand(selected.value, config);
    cmd := Some(info);
  }

  /** A name the configuration no longer has is skipped, wherever it stands in the preset. */
  lemma DanglingNameSkipped(a: seq<string>, n: string, b: seq<string>, ps: seq<Parameter>)
    requires forall k :: 0 <= k < |ps| ==> ps[k].name != n
    ensures EnvVarsOf(ResolveNames(a + [n] + b, ps)) == EnvVarsOf(ResolveNames(a + b, ps))
  {
    assert n !in ParameterNames(ps);
    ResolveSkipsUnknown(a, n, b, ps);
  }

  /** When two configuration parameters share a name, only the first is used: adding a
      parameter after one with the same name changes no preset name's resolution. */
  lemma {:induction false} FirstOfSameNameUsed(names: seq<string>, ps: seq<Parameter>, k: nat, p: Parameter)
    requires k < |ps| && p.name == ps[k].name
    ensures ResolveNames(names, ps[..k + 1] + [p] + ps[k + 1..]) == ResolveNames(names, ps)
    decreases |names|
  {
    if names != [] {
      FirstOfSameNameUsed(names[..|names| - 1], ps, k, p);
      FirstNamedShadowed(ps, k, p, names[|names| - 1]);
    }
  }

  /** The lookup of one name is blind to a parameter shadowed by an earlier namesake. */
  lemma {:induction false} FirstNamedShadowed(ps: seq<Parameter>, k: nat, p: Parameter, n: string)
    requires k < |ps| && p.name == ps[k].name
    ensures FirstNamed(ps[..k + 1] + [p] + ps[k + 1..], n) == FirstNamed(ps, n)
    decreases |ps|
  {
    var qs := ps[..k + 1] + [p] + ps[k + 1..];
    assert qs[0] == ps[0];
    if ps[0].name != n {
      if k == 0 {
        assert qs[2..] == ps[1..];
        assert qs[1..][1..] == qs[2..];
      } else {
        FirstNamedShadowed(ps[1..], k - 1, p, n);
        assert ps[1..][..k] == ps[1..k + 1] && ps[1..][k..] == ps[k + 1..];
        assert qs[1..] == ps[1..k + 1] + [p] + ps[k + 1..];
      }
    }
  }
}
