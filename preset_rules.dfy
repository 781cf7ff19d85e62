/** The helpers the preset operations share (presets/shared.go): turning the chosen
    launch command back into a platform key, taking the names of selected parameters,
    and finding a preset by exact name. */
module PresetRules {
  import opened Setup
  import opened Lookup
  import opened Start

  /** `convertPlatformToKey`: the desktop command gives "desktop", the mobile command
      and every other text give "mobile". The same switch is written inline in
      `createPreset` and `editSinglePreset` in package main. */
  function ConvertPlatformToKey(platformCommand: string): (key: string)
    ensures key == "mobile" || key == "desktop"
    ensures key == "desktop" <==> platformCommand == DesktopCommand
  {
    if platformCommand == MobileCommand then "mobile"
    else if platformCommand == DesktopCommand then "desktop"
    else "mobile"
  }

  /** For both platform keys, converting the command the launcher picks for the key gives
      the key back; every other key comes back as "mobile", the platform it launches. */
  lemma PlatformKeyRoundTrip(key: string)
    ensures key == "mobile" || key == "desktop" ==> ConvertPlatformToKey(PlatformCommand(key)) == key
    ensures key != "desktop" ==> ConvertPlatformToKey(PlatformCommand(key)) == "mobile"
  {
    assert MobileCommand != DesktopCommand by {
      assert MobileCommand[11] != DesktopCommand[11];
    }
  }

  /** For the two commands, converting to a key and launching that key gives the command
      back. */
  lemma PlatformCommandRoundTrip(platformCommand: string)
    requires platformCommand == MobileCommand || platformCommand == DesktopCommand
    ensures PlatformCommand(ConvertPlatformToKey(platformCommand)) == platformCommand
  {
    assert MobileCommand != DesktopCommand by {
      assert MobileCommand[11] != DesktopCommand[11];
    }
  }

  /** `extractParameterNames`: the names of the selected parameters, same length, same
      order. */
  method ExtractParameterNames(selectedParams: seq<Parameter>) returns (parameterNames: seq<string>)
    ensures parameterNames == ParameterNames(selectedParams)
  {
    parameterNames := [];
    for i := 0 to |selectedParams|
      invariant parameterNames == ParameterNames(selectedParams[..i])
    {
      assert selectedParams[..i + 1][..i] == selectedParams[..i];
      parameterNames := parameterNames + [selectedParams[i].name];
    }
    assert selectedParams[..|selectedParams|] == selectedParams;
  }

  /** `findPresetByName`: the smallest index whose preset carries exactly the name, or -1.
      The list is a value here, so it is only read. */
  method FindPresetByName(presetName: string, presets: seq<Preset>) returns (index: int)
    ensures index == PresetIndex(presets, presetName)
    ensures index == -1 <==> forall k :: 0 <= k < |presets| ==> presets[k].name != presetName
    ensures 0 <= index ==> index < |presets| && presets[index].name == presetName
  {
    for i := 0 to |presets|
      invariant forall k :: 0 <= k < i ==> presets[k].name != presetName
    {
      if presets[i].name == presetName {
        PresetIndexAt(presets, presetName, i);
        return i;
      }
    }
    return -1;
  }

  /** The first preset carrying a name is at the index PresetIndex reports. */
  lemma {:induction false} PresetIndexAt(presets: seq<Preset>, name: string, i: nat)
    requires i < |presets| && presets[i].name == name
    requires forall k :: 0 <= k < i ==> presets[k].name != name
    ensures PresetIndex(presets, name) == i
    decreases i
  {
    if i > 0 {
      PresetIndexAt(presets[1..], name, i - 1);
    }
  }
}
