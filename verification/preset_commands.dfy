/** The preset commands of Program.cs as transitions on the store's sequence of presets.
    Each command checks an existence guard on a name and then makes at most one call
    that changes the store; the handlers in module Program are proved to follow these. */
module PresetCommands {
  import opened Settings

  /** What a command reports: success, or which name made its guard fail. */
  datatype Outcome = Success | AlreadyExists(name: string) | DoesNotExist(name: string)

  datatype Transition = Transition(outcome: Outcome, presets: seq<SearchPreset>)

  /** What the commands keep true of the store: ids and names both unique. */
  predicate Consistent(presets: seq<SearchPreset>)
  {
    UniqueIds(presets) && UniqueNames(presets)
  }

  // ----- preset add -----

  function AddStep(presets: seq<SearchPreset>, name: string, overrides: SearchQueryArgs,
                   getSearchConfig: ConfigMerge, newId: PresetId): (t: Transition)
    ensures t.outcome.Success? <==> NameIsFree(presets, name)
    ensures !t.outcome.Success? ==> t == Transition(AlreadyExists(name), presets)
    ensures t.outcome.Success? ==>
      SearchPreset(newId, name, getSearchConfig(overrides, None)) in t.presets
  {
    if FindByName(presets, name).Some? then
      Transition(AlreadyExists(name), presets)
    else
      var preset := SearchPreset(newId, name, getSearchConfig(overrides, None));
      Transition(Success, Upsert(presets, preset))
  }

  /** A successful add appends exactly one preset, leaves the others where they were,
      and keeps the store consistent. */
  lemma AddEffect(presets: seq<SearchPreset>, name: string, overrides: SearchQueryArgs,
                  getSearchConfig: ConfigMerge, newId: PresetId)
    requires NameIsFree(presets, name) && IdIsFresh(presets, newId)
    ensures AddStep(presets, name, overrides, getSearchConfig, newId).presets
         == presets + [SearchPreset(newId, name, getSearchConfig(overrides, None))]
    ensures Consistent(presets) ==>
      Consistent(AddStep(presets, name, overrides, getSearchConfig, newId).presets)
  {
  }

  /** Adding the same name twice: the second add reports the name and changes nothing. */
  lemma AddTwiceFails(presets: seq<SearchPreset>, name: string, first: SearchQueryArgs,
                      second: SearchQueryArgs, getSearchConfig: ConfigMerge,
                      firstId: PresetId, secondId: PresetId)
    requires AddStep(presets, name, first, getSearchConfig, firstId).outcome.Success?
    ensures var after := AddStep(presets, name, first, getSearchConfig, firstId).presets;
            AddStep(after, name, second, getSearchConfig, secondId)
              == Transition(AlreadyExists(name), after)
  {
    var after := AddStep(presets, name, first, getSearchConfig, firstId).presets;
    var added := SearchPreset(firstId, name, getSearchConfig(first, None));
    var i :| 0 <= i < |after| && after[i] == added;
    assert !NameIsFree(after, name);
  }

  // ----- preset delete -----

  function DeleteStep(presets: seq<SearchPreset>, name: string): (t: Transition)
    ensures t.outcome.Success? <==> !NameIsFree(presets, name)
    ensures !t.outcome.Success? ==> t == Transition(DoesNotExist(name), presets)
    ensures match FindByName(presets, name)
      case None => true
      case Some(found) =>
        && found !in t.presets
        && forall q :: q in presets && q.id != found.id ==> q in t.presets
    ensures forall q :: q in t.presets ==> q in presets
  {
    match FindByName(presets, name)
    case None => Transition(DoesNotExist(name), presets)
    case Some(preset) => Transition(Success, RemoveById(presets, preset.id))
  }

  /** With unique ids a successful delete removes exactly the preset found by name,
      keeps the others in order, and the name is free afterwards when names were unique. */
  lemma DeleteEffect(presets: seq<SearchPreset>, name: string, k: nat)
    requires UniqueIds(presets)
    requires IndexOfName(presets, name) == Some(k)
    ensures DeleteStep(presets, name) == Transition(Success, presets[..k] + presets[k + 1..])
    ensures UniqueNames(presets) ==> NameIsFree(DeleteStep(presets, name).presets, name)
  {
    RemoveAt(presets, k);
    if UniqueNames(presets) {
      var after := presets[..k] + presets[k + 1..];
      forall i | 0 <= i < |after| ensures after[i].name != name {
        if i < k {
          assert after[i] == presets[i];
        } else {
          assert after[i] == presets[i + 1];
        }
      }
    }
  }

  // ----- preset rename -----

  function RenameStep(presets: seq<SearchPreset>, from: string, to: string): (t: Transition)
    ensures NameIsFree(presets, from) ==> t == Transition(DoesNotExist(from), presets)
    ensures !NameIsFree(presets, from) && !NameIsFree(presets, to) ==>
      t == Transition(AlreadyExists(to), presets)
    ensures t.outcome.Success? <==> !NameIsFree(presets, from) && NameIsFree(presets, to)
    ensures from == to ==> !t.outcome.Success?
  {
    match FindByName(presets, from)
    case None => Transition(DoesNotExist(from), presets)
    case Some(presetFrom) =>
      if FindByName(presets, to).Some? then
        Transition(AlreadyExists(to), presets)
      else
        Transition(Success, Upsert(presets, presetFrom.(name := to)))
  }

  /** A successful rename keeps the preset's id, config and position and changes only
      its name: afterwards `to` finds it, and `from` finds nothing when names were unique. */
  lemma RenameEffect(presets: seq<SearchPreset>, from: string, to: string, k: nat)
    requires UniqueIds(presets)
    requires IndexOfName(presets, from) == Some(k)
    requires NameIsFree(presets, to)
    ensures var renamed := presets[k].(name := to);
            && RenameStep(presets, from, to) == Transition(Success, presets[k := renamed])
            && FindByName(presets[k := renamed], to) == Some(renamed)
            && (UniqueNames(presets) ==> NameIsFree(presets[k := renamed], from))
            && (UniqueNames(presets) ==> UniqueNames(presets[k := renamed]))
  {
    var renamed := presets[k].(name := to);
    var after := presets[k := renamed];
    UpsertReplaces(presets, k, renamed);
    assert after[k].name == to;
  }

  // ----- preset copy -----

  function CopyStep(presets: seq<SearchPreset>, from: string, to: string,
                    newId: PresetId): (t: Transition)
    ensures NameIsFree(presets, from) ==> t == Transition(DoesNotExist(from), presets)
    ensures !NameIsFree(presets, from) && !NameIsFree(presets, to) ==>
      t == Transition(AlreadyExists(to), presets)
    ensures t.outcome.Success? <==> !NameIsFree(presets, from) && NameIsFree(presets, to)
    ensures t.outcome.Success? ==>
      SearchPreset(newId, to, FindByName(presets, from).value.config) in t.presets
  {
    match FindByName(presets, from)
    case None => Transition(DoesNotExist(from), presets)
    case Some(presetFrom) =>
      if FindByName(presets, to).Some? then
        Transition(AlreadyExists(to), presets)
      else
        Transition(Success, Upsert(presets, SearchPreset(newId, to, presetFrom.config)))
  }

  /** A successful copy appends one new preset named `to` carrying the source's config;
      every existing preset, the source included, stays as it was. */
  lemma CopyEffect(presets: seq<SearchPreset>, from: string, to: string, newId: PresetId)
    requires !NameIsFree(presets, from) && NameIsFree(presets, to)
    requires IdIsFresh(presets, newId)
    ensures CopyStep(presets, from, to, newId).presets
         == presets + [SearchPreset(newId, to, FindByName(presets, from).value.config)]
    ensures FindByName(CopyStep(presets, from, to, newId).presets, from)
         == FindByName(presets, from)
  {
    var source := FindByName(presets, from).value;
    var after := presets + [SearchPreset(newId, to, source.config)];
    var k := IndexOfName(presets, from).value;
    assert forall i :: 0 <= i <= k ==> after[i] == presets[i];
    PrefixKeepsLookup(presets, after, from, k);
  }

  // ----- preset update -----

  function UpdateStep(presets: seq<SearchPreset>, name: string, overrides: SearchQueryArgs,
                      getSearchConfig: ConfigMerge): (t: Transition)
    ensures t.outcome.Success? <==> !NameIsFree(presets, name)
    ensures !t.outcome.Success? ==> t == Transition(DoesNotExist(name), presets)
    ensures |t.presets| == |presets|
    ensures match FindByName(presets, name)
      case None => true
      case Some(found) =>
        forall i :: 0 <= i < |presets| && presets[i].id != found.id ==> t.presets[i] == presets[i]
  {
    match FindByName(presets, name)
    case None => Transition(DoesNotExist(name), presets)
    case Some(preset) =>
      var config := getSearchConfig(overrides, Some(preset.config));
      Transition(Success, Upsert(presets, preset.(config := config)))
  }

  /** With unique ids a successful update replaces only the config of the preset found
      by name, with the merge of the overrides onto its old config; its id, name and
      position and every other preset are unchanged. */
  lemma UpdateEffect(presets: seq<SearchPreset>, name: string, overrides: SearchQueryArgs,
                     getSearchConfig: ConfigMerge, k: nat)
    requires UniqueIds(presets)
    requires IndexOfName(presets, name) == Some(k)
    ensures var updated := presets[k].(config := getSearchConfig(overrides, Some(presets[k].config)));
            UpdateStep(presets, name, overrides, getSearchConfig)
              == Transition(Success, presets[k := updated])
  {
    var updated := presets[k].(config := getSearchConfig(overrides, Some(presets[k].config)));
    UpsertReplaces(presets, k, updated);
  }

  /** After copying `a` to `b`, updating `b` leaves the preset named `a` as it was. */
  lemma CopyThenUpdateKeepsSource(presets: seq<SearchPreset>, a: string, b: string,
                                  newId: PresetId, overrides: SearchQueryArgs,
                                  getSearchConfig: ConfigMerge)
    requires UniqueIds(presets) && IdIsFresh(presets, newId)
    requires CopyStep(presets, a, b, newId).outcome.Success?
    ensures var copied := CopyStep(presets, a, b, newId).presets;
            FindByName(UpdateStep(copied, b, overrides, getSearchConfig).presets, a)
              == FindByName(presets, a)
  {
    var copied := CopyStep(presets, a, b, newId).presets;
    var updated := UpdateStep(copied, b, overrides, getSearchConfig).presets;
    UpdateOfCopyKeepsOthers(presets, a, b, newId, overrides, getSearchConfig);
    PrefixKeepsLookup(presets, updated, a, IndexOfName(presets, a).value);
  }

  /** Updating a fresh copy touches only the copy, which sits after every old preset. */
  lemma UpdateOfCopyKeepsOthers(presets: seq<SearchPreset>, a: string, b: string,
                                newId: PresetId, overrides: SearchQueryArgs,
                                getSearchConfig: ConfigMerge)
    requires UniqueIds(presets) && IdIsFresh(presets, newId)
    requires CopyStep(presets, a, b, newId).outcome.Success?
    ensures var updated := UpdateStep(CopyStep(presets, a, b, newId).presets, b, overrides,
                                      getSearchConfig).presets;
            |updated| == |presets| + 1 && forall i :: 0 <= i < |presets| ==> updated[i] == presets[i]
  {
    var copied := CopyStep(presets, a, b, newId).presets;
    var n := |presets|;
    CopyEffect(presets, a, b, newId);
    assert copied[n].name == b;
    assert IndexOfName(copied, b) == Some(n);
    UpdateEffect(copied, b, overrides, getSearchConfig, n);
  }

  /** Lookup of a name depends only on the presets up to its first occurrence. */
  lemma PrefixKeepsLookup(presets: seq<SearchPreset>, other: seq<SearchPreset>,
                          name: string, k: nat)
    requires IndexOfName(presets, name) == Some(k)
    requires k < |other| && forall i :: 0 <= i <= k ==> other[i] == presets[i]
    ensures IndexOfName(other, name) == Some(k)
    ensures FindByName(other, name) == FindByName(presets, name)
  {
    assert other[k].name == name;
  }

  // ----- every command together -----

  datatype Command =
    | AddCommand(name: string, overrides: SearchQueryArgs, newId: PresetId)
    | DeleteCommand(name: string)
    | RenameCommand(from: string, to: string)
    | CopyCommand(from: string, to: string, newId: PresetId)
    | UpdateCommand(name: string, overrides: SearchQueryArgs)

  function Step(presets: seq<SearchPreset>, command: Command,
                getSearchConfig: ConfigMerge): Transition
  {
    match command
    case AddCommand(name, overrides, newId) =>
      AddStep(presets, name, overrides, getSearchConfig, newId)
    case DeleteCommand(name) => DeleteStep(presets, name)
    case RenameCommand(from, to) => RenameStep(presets, from, to)
    case CopyCommand(from, to, newId) => CopyStep(presets, from, to, newId)
    case UpdateCommand(name, overrides) =>
      UpdateStep(presets, name, overrides, getSearchConfig)
  }

  /** A command that creates a preset is given an id no stored preset has. */
  predicate FreshFor(presets: seq<SearchPreset>, command: Command)
  {
    match command
    case AddCommand(_, _, newId) => IdIsFresh(presets, newId)
    case CopyCommand(_, _, newId) => IdIsFresh(presets, newId)
    case _ => true
  }

  function Run(presets: seq<SearchPreset>, commands: seq<Command>,
               getSearchConfig: ConfigMerge): seq<SearchPreset>
    decreases |commands|
  {
    if |commands| == 0 then presets
    else Run(Step(presets, commands[0], getSearchConfig).presets, commands[1..], getSearchConfig)
  }

  /** Every new id along a run of commands is fresh when its preset is created. */
  predicate FreshAlong(presets: seq<SearchPreset>, commands: seq<Command>,
                       getSearchConfig: ConfigMerge)
    decreases |commands|
  {
    |commands| == 0 ||
    (FreshFor(presets, commands[0]) &&
     FreshAlong(Step(presets, commands[0], getSearchConfig).presets, commands[1..], getSearchConfig))
  }

  /** Every command keeps ids and names unique: each name it introduces was looked up first. */
  lemma StepKeepsConsistent(presets: seq<SearchPreset>, command: Command,
                            getSearchConfig: ConfigMerge)
    requires Consistent(presets) && FreshFor(presets, command)
    ensures Consistent(Step(presets, command, getSearchConfig).presets)
  {
    var after := Step(presets, command, getSearchConfig).presets;
    match command
    case AddCommand(name, overrides, newId) =>
      if NameIsFree(presets, name) {
        AddEffect(presets, name, overrides, getSearchConfig, newId);
      }
    case DeleteCommand(name) =>
    case RenameCommand(from, to) =>
      if !NameIsFree(presets, from) && NameIsFree(presets, to) {
        RenameEffect(presets, from, to, IndexOfName(presets, from).value);
      }
    case CopyCommand(from, to, newId) =>
      if !NameIsFree(presets, from) && NameIsFree(presets, to) {
        CopyEffect(presets, from, to, newId);
        AppendKeepsUniqueNames(presets, SearchPreset(newId, to, FindByName(presets, from).value.config));
      }
    case UpdateCommand(name, overrides) =>
      if !NameIsFree(presets, name) {
        var k := IndexOfName(presets, name).value;
        UpdateEffect(presets, name, overrides, getSearchConfig, k);
        forall i, j | 0 <= i < j < |after| ensures after[i].name != after[j].name {
          assert after[i].name == presets[i].name && after[j].name == presets[j].name;
        }
      }
  }

  /** Appending a preset whose name is free keeps names unique. */
  lemma AppendKeepsUniqueNames(presets: seq<SearchPreset>, preset: SearchPreset)
    requires UniqueNames(presets) && NameIsFree(presets, preset.name)
    ensures UniqueNames(presets + [preset])
  {
    var after := presets + [preset];
    forall i, j | 0 <= i < j < |after| ensures after[i].name != after[j].name {
      assert after[i] == presets[i];
    }
  }

  /** Name uniqueness (and id uniqueness) holds across any run of commands. */
  lemma {:induction false} RunKeepsConsistent(presets: seq<SearchPreset>, commands: seq<Command>,
                                              getSearchConfig: ConfigMerge)
    requires Consistent(presets) && FreshAlong(presets, commands, getSearchConfig)
    ensures Consistent(Run(presets, commands, getSearchConfig))
    decreases |commands|
  {
    if |commands| > 0 {
      StepKeepsConsistent(presets, commands[0], getSearchConfig);
      RunKeepsConsistent(Step(presets, commands[0], getSearchConfig).presets, commands[1..],
                         getSearchConfig);
    }
  }

  // ----- preset list -----

  datatype ListOutput = NoPresets | PresetLines(text: string)

  function Names(presets: seq<SearchPreset>): (r: seq<string>)
    ensures |r| == |presets|
    ensures forall i :: 0 <= i < |presets| ==> r[i] == presets[i].name
    decreases |presets|
  {
    if |presets| == 0 then [] else [presets[0].name] + Names(presets[1..])
  }

  function TotalLength(parts: seq<string>): nat
    decreases |parts|
  {
    if |parts| == 0 then 0 else |parts[0]| + TotalLength(parts[1..])
  }

  /** string.Join: the parts with the separator between consecutive ones. */
  function Join(separator: string, parts: seq<string>): (r: string)
    ensures |parts| > 0 ==> |r| == TotalLength(parts) + (|parts| - 1) * |separator|
    ensures |parts| > 0 ==> parts[0] <= r
    decreases |parts|
  {
    if |parts| == 0 then ""
    else if |parts| == 1 then parts[0]
    else parts[0] + separator + Join(separator, parts[1..])
  }

  /** Environment.NewLine. */
  predicate IsNewLine(newLine: string)
  {
    newLine == "\n" || newLine == "\r\n"
  }

  /** The list command as written: "There are no presets" when the joined names are
      empty, the joined names otherwise. */
  function Listing(presets: seq<SearchPreset>, newLine: string): (r: ListOutput)
    requires IsNewLine(newLine)
    ensures r.NoPresets? <==> |presets| == 0 || (|presets| == 1 && presets[0].name == "")
    ensures r.PresetLines? ==> r.text == Join(newLine, Names(presets))
  {
    var presetList := Join(newLine, Names(presets));
    if presetList == "" then NoPresets else PresetLines(presetList)
  }

  /** The list command as evidently intended: "There are no presets" exactly for an
      empty store. */
  function ListingIntended(presets: seq<SearchPreset>, newLine: string): (r: ListOutput)
    requires IsNewLine(newLine)
    ensures r.NoPresets? <==> |presets| == 0
    ensures r.PresetLines? ==> r.text == Join(newLine, Names(presets))
  {
    if |presets| == 0 then NoPresets else PresetLines(Join(newLine, Names(presets)))
  }

  /** A store holding one preset with the empty name is listed as having no presets. */
  lemma ListingHidesEmptyName(config: SearchConfig, id: PresetId, newLine: string)
    requires IsNewLine(newLine)
    ensures Listing([SearchPreset(id, "", config)], newLine) == NoPresets
    ensures ListingIntended([SearchPreset(id, "", config)], newLine) == PresetLines("")
  {
  }

  /** The two agree on every store except a single preset with the empty name. */
  lemma ListingAgrees(presets: seq<SearchPreset>, newLine: string)
    requires IsNewLine(newLine)
    requires |presets| != 1 || presets[0].name != ""
    ensures Listing(presets, newLine) == ListingIntended(presets, newLine)
  {
  }
}
