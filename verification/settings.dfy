/** The collaborators the preset commands of Program.cs call but whose code is not
    part of this model: SearchConfig, SearchPreset and ConfigAccess.

    Everything here is an ASSUMPTION about that unseen code, stated once:
    - a SearchConfig is an immutable value that the commands never look inside;
    - GetSearchConfig(base?) of a command's arguments is some total function of the
      overrides and an optional base config (ConfigMerge below), with no precedence
      rules assumed;
    - ConfigAccess holds an ordered sequence of presets; GetPreset(name) returns the
      first one with that name, UpsertPreset replaces the preset with the same id or
      appends, DeletePreset(id) removes by id;
    - `new SearchPreset(name, config)` gets an id no stored preset has. */
module Settings {

  datatype Option<+T> = None | Some(value: T)

  /** One resolved set of search options. The fields mirror the search-query options
      of the command line; nothing in the model reads them. */
  datatype SearchConfig = SearchConfig(
    query: string,
    limit: Option<int>,
    filter: Option<int>,
    sortField: string,
    sortDirection: string,
    imagePath: string,
    jsonPath: string,
    skipImages: bool,
    saveJson: bool,
    updateJson: bool,
    boorus: seq<string>)

  /** The search-query options as given on the command line: None when an option
      was not supplied (a presence flag separate from the value). */
  datatype SearchQueryArgs = SearchQueryArgs(
    query: Option<string>,
    limit: Option<int>,
    filter: Option<int>,
    sortField: Option<string>,
    sortDirection: Option<string>,
    imagePath: Option<string>,
    jsonPath: Option<string>,
    skipImages: Option<bool>,
    saveJson: Option<bool>,
    updateJson: Option<bool>,
    boorus: Option<seq<string>>)

  /** `args.GetSearchConfig(baseConfig)`: uninterpreted, so it is a parameter. */
  type ConfigMerge = (SearchQueryArgs, Option<SearchConfig>) -> SearchConfig

  type PresetId = nat

  datatype SearchPreset = SearchPreset(id: PresetId, name: string, config: SearchConfig)

  predicate NameIsFree(presets: seq<SearchPreset>, name: string)
  {
    forall i :: 0 <= i < |presets| ==> presets[i].name != name
  }

  predicate IdIsFresh(presets: seq<SearchPreset>, id: PresetId)
  {
    forall i :: 0 <= i < |presets| ==> presets[i].id != id
  }

  /** The store is keyed by id. */
  predicate UniqueIds(presets: seq<SearchPreset>)
  {
    forall i, j :: 0 <= i < j < |presets| ==> presets[i].id != presets[j].id
  }

  /** The secondary constraint the commands keep: no two presets share a name. */
  predicate UniqueNames(presets: seq<SearchPreset>)
  {
    forall i, j :: 0 <= i < j < |presets| ==> presets[i].name != presets[j].name
  }

  /** Position of the first preset called `name`. */
  function IndexOfName(presets: seq<SearchPreset>, name: string): (r: Option<nat>)
    ensures r.None? <==> NameIsFree(presets, name)
    ensures r.Some? ==> r.value < |presets| && presets[r.value].name == name
    ensures r.Some? ==> forall i :: 0 <= i < r.value ==> presets[i].name != name
    decreases |presets|
  {
    if |presets| == 0 then None
    else if presets[0].name == name then Some(0)
    else match IndexOfName(presets[1..], name)
      case None => None
      case Some(i) => Some(i + 1)
  }

  /** Position of the first preset with identifier `id`. */
  function IndexOfId(presets: seq<SearchPreset>, id: PresetId): (r: Option<nat>)
    ensures r.None? <==> IdIsFresh(presets, id)
    ensures r.Some? ==> r.value < |presets| && presets[r.value].id == id
    ensures r.Some? ==> forall i :: 0 <= i < r.value ==> presets[i].id != id
    decreases |presets|
  {
    if |presets| == 0 then None
    else if presets[0].id == id then Some(0)
    else match IndexOfId(presets[1..], id)
      case None => None
      case Some(i) => Some(i + 1)
  }

  /** ConfigAccess.GetPreset: the first preset with that name, if any. */
  function FindByName(presets: seq<SearchPreset>, name: string): (r: Option<SearchPreset>)
    ensures r.None? <==> NameIsFree(presets, name)
    ensures r.Some? ==> r.value in presets && r.value.name == name
    ensures r.Some? ==> exists k :: 0 <= k < |presets| && presets[k] == r.value
                                    && NameIsFree(presets[..k], name)
  {
    match IndexOfName(presets, name)
    case None => None
    case Some(i) => Some(presets[i])
  }

  /** ConfigAccess.UpsertPreset: replace the preset with the same id, or append. */
  function Upsert(presets: seq<SearchPreset>, preset: SearchPreset): (r: seq<SearchPreset>)
    ensures preset in r
    ensures IdIsFresh(presets, preset.id) ==> r == presets + [preset]
    ensures !IdIsFresh(presets, preset.id) ==> |r| == |presets|
    ensures forall i :: 0 <= i < |presets| && presets[i].id != preset.id ==> r[i] == presets[i]
    ensures forall q :: q in r ==> q == preset || q in presets
    ensures UniqueIds(presets) ==> UniqueIds(r)
  {
    match IndexOfId(presets, preset.id)
    case None => presets + [preset]
    case Some(i) =>
      var r := presets[i := preset];
      assert r[i] == preset;
      r
  }

  /** ConfigAccess.DeletePreset: drop every preset with identifier `id`. */
  function RemoveById(presets: seq<SearchPreset>, id: PresetId): (r: seq<SearchPreset>)
    ensures forall q :: q in r <==> q in presets && q.id != id
    ensures |r| <= |presets|
    ensures UniqueIds(presets) ==> UniqueIds(r)
    ensures UniqueNames(presets) ==> UniqueNames(r)
    decreases |presets|
  {
    if |presets| == 0 then []
    else if presets[0].id == id then RemoveById(presets[1..], id)
    else [presets[0]] + RemoveById(presets[1..], id)
  }

  /** With unique ids, upserting replaces exactly the preset carrying that id, in place. */
  lemma UpsertReplaces(presets: seq<SearchPreset>, k: nat, preset: SearchPreset)
    requires UniqueIds(presets)
    requires k < |presets| && presets[k].id == preset.id
    ensures Upsert(presets, preset) == presets[k := preset]
  {
  }

  /** Deleting an id no preset has changes nothing. */
  lemma {:induction false} RemoveAbsent(presets: seq<SearchPreset>, id: PresetId)
    requires IdIsFresh(presets, id)
    ensures RemoveById(presets, id) == presets
    decreases |presets|
  {
    if |presets| > 0 {
      RemoveAbsent(presets[1..], id);
      assert presets == [presets[0]] + presets[1..];
    }
  }

  /** Dropping the first preset keeps the ids unique. */
  lemma TailKeepsUniqueIds(presets: seq<SearchPreset>)
    requires UniqueIds(presets) && |presets| > 0
    ensures UniqueIds(presets[1..])
    ensures IdIsFresh(presets[1..], presets[0].id)
  {
    var rest := presets[1..];
    forall i, j | 0 <= i < j < |rest| ensures rest[i].id != rest[j].id {
      assert rest[i] == presets[i + 1] && rest[j] == presets[j + 1];
    }
    forall i | 0 <= i < |rest| ensures rest[i].id != presets[0].id {
      assert rest[i] == presets[i + 1];
    }
  }

  /** With unique ids, deleting the id of the preset at `k` removes exactly that one
      preset and keeps the order of the others. */
  lemma {:induction false} RemoveAt(presets: seq<SearchPreset>, k: nat)
    requires UniqueIds(presets)
    requires k < |presets|
    ensures RemoveById(presets, presets[k].id) == presets[..k] + presets[k + 1..]
    decreases k
  {
    var id := presets[k].id;
    var rest := presets[1..];
    TailKeepsUniqueIds(presets);
    if k == 0 {
      RemoveAbsent(rest, id);
    } else {
      assert rest[k - 1] == presets[k];
      RemoveAt(rest, k - 1);
      DropAtCons(presets, k);
    }
  }

  /** Dropping position k > 0 keeps the head and drops position k - 1 of the tail. */
  lemma DropAtCons<T>(s: seq<T>, k: nat)
    requires 0 < k < |s|
    ensures s[..k] + s[k + 1..] == [s[0]] + (s[1..][..k - 1] + s[1..][k..])
  {
    assert s[..k] == [s[0]] + s[1..][..k - 1];
    assert s[k + 1..] == s[1..][k..];
  }

  /** The preset store: the in-memory view of the persisted collection. */
  class ConfigAccess {
    var presets: seq<SearchPreset>

    ghost predicate Valid()
      reads this
    {
      UniqueIds(presets)
    }

    /** Loading the persisted collection is I/O: the loaded presets are a parameter. */
    constructor (loaded: seq<SearchPreset>)
      requires UniqueIds(loaded)
      ensures Valid() && presets == loaded
    {
      presets := loaded;
    }

    function GetPresets(): seq<SearchPreset>
      reads this
    {
      presets
    }

    function GetPreset(name: string): Option<SearchPreset>
      reads this
    {
      FindByName(presets, name)
    }

    method UpsertPreset(preset: SearchPreset)
      requires Valid()
      modifies this
      ensures Valid()
      ensures presets == Upsert(old(presets), preset)
    {
      presets := Upsert(presets, preset);
    }

    method DeletePreset(id: PresetId)
      requires Valid()
      modifies this
      ensures Valid()
      ensures presets == RemoveById(old(presets), id)
    {
      presets := RemoveById(presets, id);
    }
  }
}
