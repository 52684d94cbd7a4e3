/**
 * Statistics over a saved dataset: modules per project, one row per repository that the CSV
 * lists, and the restriction of a dataset to what a Pynguin project list names.
 *
 * The language shares and sizes the rows also carry are floating-point values computed from
 * GitHub's language counts; they are not modelled.
 */
module Stats {
  import opened Common
  import opened PyDict
  import opened Ordering
  import opened Structure
  import opened FlapyCsv
  import opened PynguinXml

  // ---------------------------------------------------------------------------------------
  // count_modules_per_project

  function ModuleCount(r: Repository): (string, int) {
    (r.name, |r.modules|)
  }

  /** `count_modules_per_project`: a later repository with the same name replaces an earlier one. */
  function CountModulesPerProject(d: Dataset): Dict<string, int> {
    FromPairs(Map(ModuleCount, d.repositories))
  }

  /** One entry per repository name, and nothing else. */
  lemma CountModulesKeys(d: Dataset, name: string)
    ensures UniqueKeys(CountModulesPerProject(d))
    ensures name in Keys(CountModulesPerProject(d)) <==>
      exists i :: 0 <= i < |d.repositories| && d.repositories[i].name == name
  {
    var pairs := Map(ModuleCount, d.repositories);
    FromPairsKeys(pairs);
    if exists i :: 0 <= i < |d.repositories| && d.repositories[i].name == name {
      var i :| 0 <= i < |d.repositories| && d.repositories[i].name == name;
      assert pairs[i].0 == name;
    }
  }

  /** The count under a name is the module count of the last repository with that name. */
  lemma CountModulesLast(d: Dataset, i: nat)
    requires i < |d.repositories|
    requires forall j :: i < j < |d.repositories| ==> d.repositories[j].name != d.repositories[i].name
    ensures Get(CountModulesPerProject(d), d.repositories[i].name) == Some(|d.repositories[i].modules|)
  {
    var pairs := Map(ModuleCount, d.repositories);
    FromPairsGet(pairs, d.repositories[i].name);
    LastValueAt(pairs, i);
  }

  // ---------------------------------------------------------------------------------------
  // get_project_stats

  function NamedCsvProject(p: FlaPyProject): (string, FlaPyProject) {
    (p.projectName, p)
  }

  /** The CSV projects by name; a later project with the same name replaces an earlier one. */
  function ProjectsDict(projects: seq<FlaPyProject>): Dict<string, FlaPyProject> {
    FromPairs(Map(NamedCsvProject, projects))
  }

  /** A name is in the dict exactly when some CSV project has it. */
  lemma ProjectsDictHas(projects: seq<FlaPyProject>, name: string)
    ensures Get(ProjectsDict(projects), name).Some? <==>
      exists i :: 0 <= i < |projects| && projects[i].projectName == name
  {
    var pairs := Map(NamedCsvProject, projects);
    FromPairsKeys(pairs);
    GetNone(ProjectsDict(projects), name);
    if exists i :: 0 <= i < |projects| && projects[i].projectName == name {
      var i :| 0 <= i < |projects| && projects[i].projectName == name;
      assert pairs[i].0 == name;
    }
  }

  /** The integer and text columns of a statistics row. */
  datatype StatsRow = StatsRow(projectName: string, modulesCount: int, versionTag: Option<string>)

  /** Whether the CSV lists a project under the repository's name. */
  function Matched(projectsDict: Dict<string, FlaPyProject>): Repository -> bool {
    (r: Repository) => Get(projectsDict, r.name).Some?
  }

  function RowOf(modulesCount: Dict<string, int>): Repository -> StatsRow {
    (r: Repository) => StatsRow(r.name, Get(modulesCount, r.name).GetOr(0), r.pypiTag)
  }

  /** The rows: one per repository the CSV lists, in the dataset's order. */
  function StatsSpec(d: Dataset, projects: seq<FlaPyProject>): seq<StatsRow> {
    Map(RowOf(CountModulesPerProject(d)), Select(Matched(ProjectsDict(projects)), d.repositories))
  }

  /** `get_project_stats`, with the GitHub language columns left out. */
  method GetProjectStats(d: Dataset, projects: seq<FlaPyProject>) returns (stats: seq<StatsRow>)
    ensures stats == StatsSpec(d, projects)
  {
    var projectsDict := ProjectsDict(projects);
    var modulesCount := CountModulesPerProject(d);
    stats := [];
    for i := 0 to |d.repositories|
      invariant stats == Map(RowOf(modulesCount), Select(Matched(projectsDict), d.repositories[..i]))
    {
      var repo := d.repositories[i];
      MapSelectPrefixStep(RowOf(modulesCount), Matched(projectsDict), d.repositories, i);
      var project := Get(projectsDict, repo.name);
      if project.Some? {
        var row := StatsRow(repo.name, Get(modulesCount, repo.name).GetOr(0), repo.pypiTag);
        assert row == RowOf(modulesCount)(repo);
        stats := stats + [row];
      }
    }
    assert d.repositories[..|d.repositories|] == d.repositories;
  }

  /** A row names a repository of the dataset that the CSV lists. */
  lemma StatsRowListed(d: Dataset, projects: seq<FlaPyProject>, k: nat)
    requires k < |StatsSpec(d, projects)|
    ensures exists i :: (0 <= i < |d.repositories| && d.repositories[i].name == StatsSpec(d, projects)[k].projectName &&
      d.repositories[i].pypiTag == StatsSpec(d, projects)[k].versionTag)
    ensures exists j :: 0 <= j < |projects| && projects[j].projectName == StatsSpec(d, projects)[k].projectName
  {
    var matched := Select(Matched(ProjectsDict(projects)), d.repositories);
    assert matched[k] in matched;
    var i :| 0 <= i < |d.repositories| && d.repositories[i] == matched[k];
    ProjectsDictHas(projects, matched[k].name);
  }

  /** Every repository of the dataset that the CSV lists gets a row. */
  lemma StatsRowFor(d: Dataset, projects: seq<FlaPyProject>, i: nat, j: nat)
    requires i < |d.repositories| && j < |projects| && projects[j].projectName == d.repositories[i].name
    ensures exists k :: 0 <= k < |StatsSpec(d, projects)| && StatsSpec(d, projects)[k].projectName == d.repositories[i].name
  {
    var matched := Select(Matched(ProjectsDict(projects)), d.repositories);
    ProjectsDictHas(projects, d.repositories[i].name);
    assert d.repositories[i] in matched;
    var k :| 0 <= k < |matched| && matched[k] == d.repositories[i];
    assert StatsSpec(d, projects)[k].projectName == d.repositories[i].name;
  }

  /** With one repository per name, each row counts the modules of its own repository. */
  lemma StatsOfDistinctNames(d: Dataset, projects: seq<FlaPyProject>)
    requires forall i, j :: 0 <= i < j < |d.repositories| ==> d.repositories[i].name != d.repositories[j].name
    ensures StatsSpec(d, projects) ==
      Map((r: Repository) => StatsRow(r.name, |r.modules|, r.pypiTag), Select(Matched(ProjectsDict(projects)), d.repositories))
  {
    var counts := CountModulesPerProject(d);
    var matched := Select(Matched(ProjectsDict(projects)), d.repositories);
    forall r | r in matched ensures RowOf(counts)(r) == StatsRow(r.name, |r.modules|, r.pypiTag) {
      var i :| 0 <= i < |d.repositories| && d.repositories[i] == r;
      CountModulesLast(d, i);
    }
    MapCongruent(RowOf(counts), (r: Repository) => StatsRow(r.name, |r.modules|, r.pypiTag), matched);
  }

  // ---------------------------------------------------------------------------------------
  // get_project_stats as written: the missing `github_languages` attribute

  /**
   * The loop of `get_project_stats` as written: the first repository the CSV lists reads
   * `github_languages`, which a CSV project does not have.
   */
  function StatsAsWritten(projectsDict: Dict<string, FlaPyProject>, repositories: seq<Repository>): Result<seq<StatsRow>> {
    if repositories == [] then Ok([])
    else if Get(projectsDict, repositories[0].name).Some? then
      Err("AttributeError: 'FlaPyProject' object has no attribute 'github_languages'")
    else StatsAsWritten(projectsDict, repositories[1..])
  }

  /**
   * As written, the statistics fail exactly when there would be a row to produce, and
   * otherwise produce the (empty) rows of the model.
   */
  lemma {:induction false} GithubLanguagesRaise(projectsDict: Dict<string, FlaPyProject>, repositories: seq<Repository>)
    ensures StatsAsWritten(projectsDict, repositories).Err? <==> Select(Matched(projectsDict), repositories) != []
    ensures StatsAsWritten(projectsDict, repositories).Ok? ==> StatsAsWritten(projectsDict, repositories).value == []
  {
    if repositories != [] {
      GithubLanguagesRaise(projectsDict, repositories[1..]);
      assert repositories[0] in repositories;
    }
  }

  // ---------------------------------------------------------------------------------------
  // filter_dataset_with_xml

  /** The module names the project list holds for a name; none when the name is absent. */
  function XmlModules(xml: Dict<string, Project>, name: string): seq<string> {
    match Get(xml, name)
    case Some(p) => p.modules
    case None => []
  }

  function KeepsModule(xml: Dict<string, Project>, name: string): Module -> bool {
    (m: Module) => ModuleToString(m) in XmlModules(xml, name)
  }

  /** The repository with only the modules the project list names for it. */
  function Restricted(xml: Dict<string, Project>, r: Repository): Repository {
    Repository(r.name, r.url, r.pypiTag, r.gitCommitHash, Select(KeepsModule(xml, r.name), r.modules))
  }

  function InXml(xml: Dict<string, Project>): Repository -> bool {
    (r: Repository) => r.name in Keys(xml)
  }

  function RestrictTo(xml: Dict<string, Project>): Repository -> Repository {
    (r: Repository) => Restricted(xml, r)
  }

  /** The repositories the project list names, in the dataset's order, each restricted to its listed modules. */
  function FilterSpec(d: Dataset, xml: Dict<string, Project>): Dataset {
    Dataset(Map(RestrictTo(xml), Select(InXml(xml), d.repositories)))
  }

  /** `filter_dataset_with_xml` */
  method FilterDatasetWithXml(d: Dataset, xml: Dict<string, Project>) returns (filtered: Dataset)
    ensures filtered == FilterSpec(d, xml)
  {
    var xmlProjectNames := Keys(xml);
    var filteredRepositories: seq<Repository> := [];
    for i := 0 to |d.repositories|
      invariant filteredRepositories == Map(RestrictTo(xml), Select(InXml(xml), d.repositories[..i]))
    {
      var repo := d.repositories[i];
      MapSelectPrefixStep(RestrictTo(xml), InXml(xml), d.repositories, i);
      if repo.name in xmlProjectNames {
        var filteredModules := Select(KeepsModule(xml, repo.name), repo.modules);
        var filteredRepo := Repository(repo.name, repo.url, repo.pypiTag, repo.gitCommitHash, filteredModules);
        filteredRepositories := filteredRepositories + [filteredRepo];
      }
    }
    assert d.repositories[..|d.repositories|] == d.repositories;
    filtered := Dataset(filteredRepositories);
  }

  /** A kept repository is the restriction of a dataset repository the project list names. */
  lemma KeptFrom(d: Dataset, xml: Dict<string, Project>, r: Repository) returns (i: nat)
    requires r in FilterSpec(d, xml).repositories
    ensures i < |d.repositories| && d.repositories[i].name in Keys(xml)
    ensures r == Restricted(xml, d.repositories[i])
  {
    var kept := Select(InXml(xml), d.repositories);
    var k :| 0 <= k < |kept| && RestrictTo(xml)(kept[k]) == r;
    assert kept[k] in kept;
    i :| 0 <= i < |d.repositories| && d.repositories[i] == kept[k];
  }

  /**
   * Every repository kept is named in the project list, comes from the dataset with the same
   * name, URL, tag and commit, and keeps, in order, exactly its modules the list names.
   */
  lemma FilterKeepsListed(d: Dataset, xml: Dict<string, Project>, r: Repository)
    requires r in FilterSpec(d, xml).repositories
    ensures r.name in Keys(xml)
    ensures forall m :: m in r.modules ==> ModuleToString(m) in XmlModules(xml, r.name)
    ensures exists i :: (0 <= i < |d.repositories| && r == Restricted(xml, d.repositories[i]) &&
      IsSubseq(r.modules, d.repositories[i].modules))
  {
    var i := KeptFrom(d, xml, r);
    SelectIsSubseq(KeepsModule(xml, r.name), d.repositories[i].modules);
  }

  /** Restricting a second time to the same project list changes nothing. */
  lemma FilterIdempotent(d: Dataset, xml: Dict<string, Project>)
    ensures FilterSpec(FilterSpec(d, xml), xml) == FilterSpec(d, xml)
  {
    var once := FilterSpec(d, xml).repositories;
    forall r | r in once ensures InXml(xml)(r) && RestrictTo(xml)(r) == r {
      var i := KeptFrom(d, xml, r);
      SelectIdempotent(KeepsModule(xml, r.name), d.repositories[i].modules);
    }
    SelectKeepsAll(InXml(xml), once);
    MapFixed(RestrictTo(xml), once);
  }

  /** The project list written for a dataset and read back. */
  function OwnXml(d: Dataset): Dict<string, Project> {
    ReadSpec(XmlTree(ProjectsByName(d)))
  }

  /** With one repository per name, the own project list holds a repository's project when it has modules. */
  lemma OwnXmlGet(d: Dataset, i: nat)
    requires i < |d.repositories|
    requires forall j :: i < j < |d.repositories| ==> d.repositories[j].name != d.repositories[i].name
    ensures Get(OwnXml(d), d.repositories[i].name) ==
      if d.repositories[i].modules != [] then Some(Normalized(CreatePynguinProject(d.repositories[i]))) else None
  {
    ProjectsByNameKeyed(d);
    ProjectsByNameHolds(d, i);
    ReadAfterWrite(ProjectsByName(d), d.repositories[i].name);
  }

  /** A module's dotted name is among the sorted names of its repository's modules. */
  lemma ModuleListed(r: Repository, m: Module)
    requires m in r.modules
    ensures ModuleToString(m) in SortBy(Map(ModuleToString, r.modules), Self)
  {
    var names := Map(ModuleToString, r.modules);
    var k :| 0 <= k < |r.modules| && r.modules[k] == m;
    assert names[k] in names;
    assert ModuleToString(m) in multiset(SortBy(names, Self));
  }

  /**
   * With one repository per name, the dataset's own project list names a repository exactly
   * when it has modules, and then names every one of its modules.
   */
  lemma OwnXmlEntry(d: Dataset, i: nat)
    requires i < |d.repositories|
    requires forall j :: i < j < |d.repositories| ==> d.repositories[j].name != d.repositories[i].name
    ensures InXml(OwnXml(d))(d.repositories[i]) <==> d.repositories[i].modules != []
    ensures d.repositories[i].modules != [] ==> Restricted(OwnXml(d), d.repositories[i]) == d.repositories[i]
  {
    var r := d.repositories[i];
    var xml := OwnXml(d);
    OwnXmlGet(d, i);
    GetNone(xml, r.name);
    if r.modules != [] {
      assert XmlModules(xml, r.name) == SortBy(Map(ModuleToString, r.modules), Self);
      forall m | m in r.modules ensures KeepsModule(xml, r.name)(m) {
        ModuleListed(r, m);
      }
      SelectKeepsAll(KeepsModule(xml, r.name), r.modules);
    }
  }

  function HasModules(r: Repository): bool {
    r.modules != []
  }

  lemma OwnXmlSelects(d: Dataset)
    requires forall i, j :: 0 <= i < j < |d.repositories| ==> d.repositories[i].name != d.repositories[j].name
    ensures Select(InXml(OwnXml(d)), d.repositories) == Select(HasModules, d.repositories)
  {
    forall r | r in d.repositories ensures InXml(OwnXml(d))(r) <==> HasModules(r) {
      var i :| 0 <= i < |d.repositories| && d.repositories[i] == r;
      OwnXmlEntry(d, i);
    }
    SelectCongruent(InXml(OwnXml(d)), HasModules, d.repositories);
  }

  /**
   * Filtering a dataset with one repository per name by its own Pynguin project list drops
   * the repositories without modules and changes nothing else.
   */
  lemma FilterWithOwnXml(d: Dataset)
    requires forall i, j :: 0 <= i < j < |d.repositories| ==> d.repositories[i].name != d.repositories[j].name
    ensures FilterSpec(d, OwnXml(d)).repositories == Select(HasModules, d.repositories)
  {
    OwnXmlSelects(d);
    var kept := Select(HasModules, d.repositories);
    forall r | r in kept ensures RestrictTo(OwnXml(d))(r) == r {
      var i :| 0 <= i < |d.repositories| && d.repositories[i] == r;
      OwnXmlEntry(d, i);
    }
    MapFixed(RestrictTo(OwnXml(d)), kept);
  }
}
