/**
 * The older structure module: the same entities, `from_dict` constructors and filter fold as
 * Structure, but its loader returns the repositories as a plain list in stored order, without
 * sorting anything.
 */
module LegacyStructure {
  import opened Common
  import opened JsonData
  import opened Structure

  /** `load_from_json_file`: the decoded repositories, in the order the file holds them. */
  function LoadFromJson(data: Json): (r: Result<seq<Repository>>)
    ensures data.JArr? && r.Ok? ==> |r.value| == |data.items|
    ensures data.JArr? && r.Ok? ==> forall i :: 0 <= i < |data.items| ==>
      RepositoryFromJson(data.items[i]) == Ok(r.value[i])
    ensures r.Ok? <==> Structure.LoadFromJson(data).Ok?
    ensures r.Ok? ==> Structure.LoadFromJson(data).value == SortedDataset(Dataset(r.value))
  {
    RepositoryListFromJson(data)
  }

  /** Loading a saved list gives back exactly that list: nothing is reordered. */
  lemma LoadAfterSave(repositories: seq<Repository>)
    requires forall i :: 0 <= i < |repositories| ==> PathsNormal(repositories[i])
    ensures LoadFromJson(SaveToJson(repositories)) == Ok(repositories)
  {
    RepositoryListRoundTrip(repositories);
  }
}
