/** The configuration records (`setup.Config`, `setup.Parameter`, `setup.Preset`, with
    their copies in package main), the built-in default configuration, and where the
    configuration file is looked for. */
module Setup {
  import opened Base

  /** A named environment-variable assignment, `envVar` written as KEY=VALUE. */
  datatype Parameter = Parameter(name: string, envVar: string, description: string)

  /** A saved launch: a platform key ("mobile" or "desktop") and parameter names.
      The names are weak references into the configuration's parameter list. */
  datatype Preset = Preset(name: string, platform: string, parameters: seq<string>)

  /** The configuration one run of the tool loads once and then changes in place. */
  class Config {
    var ledgerLivePath: string
    var parameters: seq<Parameter>
    var presets: seq<Preset>

    constructor (ledgerLivePath: string, parameters: seq<Parameter>, presets: seq<Preset>)
      ensures this.ledgerLivePath == ledgerLivePath
      ensures this.parameters == parameters
      ensures this.presets == presets
    {
      this.ledgerLivePath := ledgerLivePath;
      this.parameters := parameters;
      this.presets := presets;
    }

    /** `GetDefaultConfig` / `getDefaultConfig`: no path, the three built-in
        parameters, no presets. */
    constructor Default()
      ensures ledgerLivePath == ""
      ensures parameters == DefaultParameters()
      ensures presets == []
    {
      ledgerLivePath := "";
      parameters := DefaultParameters();
      presets := [];
    }
  }

  /** The three built-in example parameters, in this order. */
  function DefaultParameters(): (ps: seq<Parameter>)
    ensures |ps| == 3
    ensures forall i :: 0 <= i < |ps| ==> '=' in ps[i].envVar
    ensures forall i, j :: 0 <= i < j < |ps| ==> ps[i].name != ps[j].name
  {
    [ Parameter("Skip onboarding", "SKIP_ONBOARDING=1",
                "Enable skipping the onboarding process on mobile"),
      Parameter("Disable transaction broadcast", "DISABLE_TRANSACTION_BROADCAST=1",
                "Disable broadcasting transactions and directly get success"),
      Parameter("Bypass CORS", "BYPASS_CORS=1",
                "Bypass CORS restrictions for locale development") ]
  }

  // ---------------------------------------------------------------------------
  // Where the configuration file lives.
  //
  // The process environment and the home directory are inputs: `env` is the value of
  // LEDGER_LIVE_STARTER_CONFIG ("" when unset, as `os.Getenv` reports it) and `home`
  // is what `os.UserHomeDir` returns, None when it fails.

  const ConfigFileName := "config.json"
  const ConfigDirName := ".ledger-live"

  /** `filepath.Join(dir, name)` for the shapes that occur here: an empty or "." directory
      contributes nothing, and exactly one '/' separates the parts. */
  function JoinPath(dir: string, name: string): string {
    if dir == "" || dir == "." then name
    else if dir[|dir| - 1] == '/' then dir + name
    else dir + "/" + name
  }

  /** `getLedgerLiveDir`: `<home>/.ledger-live`, or "." when the home directory is unknown. */
  function LedgerLiveDir(home: Option<string>): string {
    match home
    case None => "."
    case Some(h) => JoinPath(h, ConfigDirName)
  }

  /** `getLedgerLiveConfigPath`: `<home>/.ledger-live/config.json`, or "config.json". */
  function LedgerLiveConfigPath(home: Option<string>): (path: string)
    ensures path == JoinPath(LedgerLiveDir(home), ConfigFileName)
  {
    match home
    case None => ConfigFileName
    case Some(h) => JoinPath(JoinPath(h, ConfigDirName), ConfigFileName)
  }

  /** `getConfigPath` in package main, where `flag` is the value of the `--config` flag:
      the flag wins, then the environment override, then the per-user default. */
  function ResolveConfigPath(flag: string, env: string, home: Option<string>): (path: string)
    ensures flag != "" ==> path == flag
    ensures flag == "" && env != "" ==> path == env
    ensures flag == "" && env == "" ==> path == JoinPath(LedgerLiveDir(home), ConfigFileName)
  {
    if flag != "" then flag
    else if env != "" then env
    else LedgerLiveConfigPath(home)
  }

  /** The package-level `configPath` of package setup, written once at startup. */
  class ConfigPathSetting {
    var configPath: string

    constructor ()
      ensures configPath == ""
    {
      configPath := "";
    }

    /** `SetConfigPath`. */
    method SetConfigPath(path: string)
      modifies this
      ensures configPath == path
    {
      configPath := path;
    }

    /** `GetConfigPath`: a stored non-empty path wins whatever the environment says;
        an empty one (never set, or reset with SetConfigPath("")) falls back to the
        environment override and then to the per-user file. */
    function GetConfigPath(env: string, home: Option<string>): (path: string)
      reads this
      ensures configPath != "" ==> path == configPath
      ensures configPath == "" && env != "" ==> path == env
      ensures configPath == "" && env == "" ==> path == JoinPath(LedgerLiveDir(home), ConfigFileName)
    {
      ResolveConfigPath(configPath, env, home)
    }
  }

  /** The directory `EnsureConfigDirExists` creates depends on the home directory only:
      the per-user file lies inside it, while an override (the flag or the environment)
      that does not start with the home directory lies outside it. */
  lemma OverrideLiesOutsideEnsuredDir(overridePath: string, env: string, home: string)
    requires overridePath != "" && !(home <= overridePath)
    ensures !(LedgerLiveDir(Some(home)) + "/" <= ResolveConfigPath(overridePath, env, Some(home)))
    ensures !(LedgerLiveDir(Some(home)) + "/" <= ResolveConfigPath("", overridePath, Some(home)))
    ensures LedgerLiveDir(Some(home)) + "/" <= ResolveConfigPath("", "", Some(home))
  {
  }
}
