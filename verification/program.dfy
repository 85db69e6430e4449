/** The preset handlers of Program.cs. The static `configAccess` field becomes the store
    handle each handler is given; each handler looks names up, and on success makes one
    call that changes the store. Every handler is proved to perform the transition of
    module PresetCommands and to keep the store's names unique. */
module Program {
  import opened Settings
  import opened PresetCommands

  /** `preset list`. `newLine` stands for Environment.NewLine. */
  method PresetListCommand(configAccess: ConfigAccess, newLine: string) returns (output: ListOutput)
    requires IsNewLine(newLine)
    ensures output == Listing(configAccess.presets, newLine)
    ensures output.NoPresets? ==> |configAccess.presets| <= 1
  {
    var presets := configAccess.GetPresets();
    var presetNames := Names(presets);
    var presetList := Join(newLine, presetNames);
    if presetList == "" {
      output := NoPresets;
    } else {
      output := PresetLines(presetList);
    }
  }

  /** `preset add`. `newId` is the id `new SearchPreset` assigns. */
  method PresetAddCommand(configAccess: ConfigAccess, name: string, overrides: SearchQueryArgs,
                          getSearchConfig: ConfigMerge, newId: PresetId)
    returns (outcome: Outcome)
    requires configAccess.Valid()
    requires IdIsFresh(configAccess.presets, newId)
    modifies configAccess
    ensures configAccess.Valid()
    ensures Transition(outcome, configAccess.presets)
         == AddStep(old(configAccess.presets), name, overrides, getSearchConfig, newId)
    ensures outcome.Success? ==>
      configAccess.presets
        == old(configAccess.presets) + [SearchPreset(newId, name, getSearchConfig(overrides, None))]
    ensures UniqueNames(old(configAccess.presets)) ==> UniqueNames(configAccess.presets)
  {
    var existingPreset := configAccess.GetPreset(name);
    if existingPreset.Some? {
      return AlreadyExists(name);
    }
    AddEffect(configAccess.presets, name, overrides, getSearchConfig, newId);
    var config := getSearchConfig(overrides, None);
    var preset := SearchPreset(newId, name, config);
    configAccess.UpsertPreset(preset);
    outcome := Success;
  }

  /** `preset delete`. */
  method PresetRemoveCommand(configAccess: ConfigAccess, name: string) returns (outcome: Outcome)
    requires configAccess.Valid()
    modifies configAccess
    ensures configAccess.Valid()
    ensures Transition(outcome, configAccess.presets) == DeleteStep(old(configAccess.presets), name)
    ensures outcome.Success? ==>
      var k := IndexOfName(old(configAccess.presets), name).value;
      configAccess.presets == old(configAccess.presets)[..k] + old(configAccess.presets)[k + 1..]
    ensures UniqueNames(old(configAccess.presets)) ==>
      UniqueNames(configAccess.presets) && NameIsFree(configAccess.presets, name)
  {
    var preset := configAccess.GetPreset(name);
    if preset.None? {
      return DoesNotExist(name);
    }
    DeleteEffect(configAccess.presets, name, IndexOfName(configAccess.presets, name).value);
    configAccess.DeletePreset(preset.value.id);
    outcome := Success;
  }

  /** `preset rename`. Renaming a preset to its own name fails: `to` is taken. */
  method PresetRenameCommand(configAccess: ConfigAccess, from: string, to: string)
    returns (outcome: Outcome)
    requires configAccess.Valid()
    modifies configAccess
    ensures configAccess.Valid()
    ensures Transition(outcome, configAccess.presets) == RenameStep(old(configAccess.presets), from, to)
    ensures outcome.Success? ==>
      var k := IndexOfName(old(configAccess.presets), from).value;
      var renamed := old(configAccess.presets)[k].(name := to);
      && configAccess.presets == old(configAccess.presets)[k := renamed]
      && configAccess.GetPreset(to) == Some(renamed)
    ensures UniqueNames(old(configAccess.presets)) ==>
      UniqueNames(configAccess.presets) && (outcome.Success? ==> configAccess.GetPreset(from).None?)
  {
    var presetFrom := configAccess.GetPreset(from);
    if presetFrom.None? {
      return DoesNotExist(from);
    }
    var presetTo := configAccess.GetPreset(to);
    if presetTo.Some? {
      return AlreadyExists(to);
    }
    RenameEffect(configAccess.presets, from, to, IndexOfName(configAccess.presets, from).value);
    var renamed := presetFrom.value.(name := to);
    configAccess.UpsertPreset(renamed);
    outcome := Success;
  }

  /** `preset copy`. `newId` is the id `new SearchPreset` assigns to the copy. */
  method PresetCopyCommand(configAccess: ConfigAccess, from: string, to: string, newId: PresetId)
    returns (outcome: Outcome)
    requires configAccess.Valid()
    requires IdIsFresh(configAccess.presets, newId)
    modifies configAccess
    ensures configAccess.Valid()
    ensures Transition(outcome, configAccess.presets)
         == CopyStep(old(configAccess.presets), from, to, newId)
    ensures outcome.Success? ==>
      var source := FindByName(old(configAccess.presets), from).value;
      configAccess.presets == old(configAccess.presets) + [SearchPreset(newId, to, source.config)]
    ensures UniqueNames(old(configAccess.presets)) ==> UniqueNames(configAccess.presets)
  {
    var presetFrom := configAccess.GetPreset(from);
    if presetFrom.None? {
      return DoesNotExist(from);
    }
    var presetTo := configAccess.GetPreset(to);
    if presetTo.Some? {
      return AlreadyExists(to);
    }
    CopyEffect(configAccess.presets, from, to, newId);
    var copy := SearchPreset(newId, to, presetFrom.value.config);
    if UniqueNames(configAccess.presets) {
      AppendKeepsUniqueNames(configAccess.presets, copy);
    }
    configAccess.UpsertPreset(copy);
    outcome := Success;
  }

  /** `preset update`: only the given options change the preset's config. */
  method PresetUpdateCommand(configAccess: ConfigAccess, name: string, overrides: SearchQueryArgs,
                             getSearchConfig: ConfigMerge)
    returns (outcome: Outcome)
    requires configAccess.Valid()
    modifies configAccess
    ensures configAccess.Valid()
    ensures Transition(outcome, configAccess.presets)
         == UpdateStep(old(configAccess.presets), name, overrides, getSearchConfig)
    ensures outcome.Success? ==>
      var k := IndexOfName(old(configAccess.presets), name).value;
      var preset := old(configAccess.presets)[k];
      configAccess.presets
        == old(configAccess.presets)[k := preset.(config := getSearchConfig(overrides, Some(preset.config)))]
    ensures UniqueNames(old(configAccess.presets)) ==> UniqueNames(configAccess.presets)
  {
    var preset := configAccess.GetPreset(name);
    if preset.None? {
      return DoesNotExist(name);
    }
    UpdateEffect(configAccess.presets, name, overrides, getSearchConfig,
                 IndexOfName(configAccess.presets, name).value);
    if UniqueNames(configAccess.presets) {
      StepKeepsConsistent(configAccess.presets, UpdateCommand(name, overrides), getSearchConfig);
    }
    var config := getSearchConfig(overrides, Some(preset.value.config));
    var updated := preset.value.(config := config);
    configAccess.UpsertPreset(updated);
    outcome := Success;
  }
}
