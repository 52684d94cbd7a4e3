/**
 * Building the dataset: each cloned project becomes a repository of the modules that parse,
 * the filters run over it, and only repositories with modules left are kept.
 *
 * Cloning, walking the directory tree and writing the JSON file are not modelled: a project
 * comes with the Python files found under its root, in the order the walk yields them.
 */
module Creation {
  import opened Common
  import opened Structure
  import opened FlapyCsv
  import opened Extraction
  import Filters

  /** A project cloned into `path` and checked out at `gitCommitHash`. */
  datatype LocalProject = LocalProject(project: FlaPyProject, path: seq<string>, gitCommitHash: string)

  /** A cloned project with the Python files found under its root. */
  datatype Checkout = Checkout(local: LocalProject, files: seq<SourceFile>)

  /** The tag recorded for a project: the matching GitHub tag unless it is blank, else PyPI's latest. */
  function PypiTag(p: FlaPyProject): (tag: Option<string>)
    ensures Truthy(p.matchingGithubTag) ==> tag == p.matchingGithubTag
    ensures !Truthy(p.matchingGithubTag) ==> tag == p.pypiLatestTag
  {
    Or(p.matchingGithubTag, p.pypiLatestTag)
  }

  /** The outcome of parsing each file, in order. */
  function ModuleResults(files: seq<SourceFile>, root: seq<string>): seq<Result<Module>> {
    Map((f: SourceFile) => ModuleSpec(f, root), files)
  }

  /** The modules of the files that parse, in order. */
  function ParsedModules(files: seq<SourceFile>, root: seq<string>): seq<Module> {
    Oks(ModuleResults(files, root))
  }

  lemma ModuleResultsSnoc(files: seq<SourceFile>, f: SourceFile, root: seq<string>)
    ensures ModuleResults(files + [f], root) == ModuleResults(files, root) + [ModuleSpec(f, root)]
  {
    MapAppend((f: SourceFile) => ModuleSpec(f, root), files, [f]);
  }

  lemma ParsedModulesSnoc(files: seq<SourceFile>, f: SourceFile, root: seq<string>)
    ensures ParsedModules(files + [f], root) == ParsedModules(files, root) + OkValue(ModuleSpec(f, root))
  {
    ModuleResultsSnoc(files, f, root);
    OksAppend(ModuleResults(files, root), [ModuleSpec(f, root)]);
    OksOne(ModuleSpec(f, root));
  }

  /** The repository a checked-out project describes. */
  function RepositorySpec(c: Checkout): Repository {
    var p := c.local.project;
    Repository(p.projectName, p.githubUrl, PypiTag(p), c.local.gitCommitHash, ParsedModules(c.files, c.local.path))
  }

  /** `parse_repository`: a file whose reading or parsing fails is logged and skipped. */
  method ParseRepository(c: Checkout) returns (r: Repository)
    ensures r == RepositorySpec(c)
  {
    var modules: seq<Module> := [];
    for i := 0 to |c.files|
      invariant modules == ParsedModules(c.files[..i], c.local.path)
    {
      var file := c.files[i];
      assert c.files[..i + 1] == c.files[..i] + [file];
      ParsedModulesSnoc(c.files[..i], file, c.local.path);
      var m := ParseModule(file, c.local.path);
      if m.Ok? {
        modules := modules + [m.value];
      }
    }
    assert c.files[..|c.files|] == c.files;
    var p := c.local.project;
    r := Repository(p.projectName, p.githubUrl, Or(p.matchingGithubTag, p.pypiLatestTag), c.local.gitCommitHash, modules);
  }

  /** A file that fails to parse leaves the repository exactly as if it were not there. */
  lemma SkipsFailingFile(c: Checkout, i: nat)
    requires i < |c.files| && ModuleSpec(c.files[i], c.local.path).Err?
    ensures RepositorySpec(c) == RepositorySpec(c.(files := c.files[..i] + c.files[i + 1..]))
  {
    var rs := ModuleResults(c.files, c.local.path);
    OksSkipErr(rs, i);
    assert ModuleResults(c.files[..i] + c.files[i + 1..], c.local.path) == rs[..i] + rs[i + 1..];
  }

  /** When every file parses, there is one module per file, in the walk's order. */
  lemma AllFilesParsed(c: Checkout)
    requires forall k :: 0 <= k < |c.files| ==> ModuleSpec(c.files[k], c.local.path).Ok?
    ensures |RepositorySpec(c).modules| == |c.files|
    ensures forall k :: 0 <= k < |c.files| ==>
      RepositorySpec(c).modules[k] == ModuleSpec(c.files[k], c.local.path).value
  {
    OksAllOk(ModuleResults(c.files, c.local.path));
  }

  /** Every module of the repository comes from one of its files. */
  lemma ModulesFromFiles(c: Checkout, m: Module)
    requires m in RepositorySpec(c).modules
    ensures exists k :: 0 <= k < |c.files| && ModuleSpec(c.files[k], c.local.path) == Ok(m)
  {
    var rs := ModuleResults(c.files, c.local.path);
    OksMember(rs, m);
    var k :| 0 <= k < |rs| && rs[k] == Ok(m);
  }

  // ---------------------------------------------------------------------------------------
  // create_dataset

  predicate HasModules(r: Repository) {
    r.modules != []
  }

  /** A project's repository after the filters. */
  function Filtered(c: Checkout, filters: seq<Filters.Filter>): Repository {
    Pipeline(filters, RepositorySpec(c), Filters.Run)
  }

  /** The repositories saved: the filtered ones that still have modules, in project order. */
  function DatasetSpec(checkouts: seq<Checkout>, filters: seq<Filters.Filter>): seq<Repository> {
    Select(HasModules, Map((c: Checkout) => Filtered(c, filters), checkouts))
  }

  lemma DatasetSpecSnoc(checkouts: seq<Checkout>, c: Checkout, filters: seq<Filters.Filter>)
    ensures DatasetSpec(checkouts + [c], filters) ==
      DatasetSpec(checkouts, filters) + (if HasModules(Filtered(c, filters)) then [Filtered(c, filters)] else [])
  {
    var f := (c: Checkout) => Filtered(c, filters);
    MapAppend(f, checkouts, [c]);
    SelectAppend(HasModules, Map(f, checkouts), Map(f, [c]));
    assert Map(f, [c]) == [Filtered(c, filters)];
    assert Map(f, [c])[1..] == [];
  }

  /** The saved repositories after one more project. */
  lemma DatasetSpecStep(checkouts: seq<Checkout>, i: nat, filters: seq<Filters.Filter>)
    requires i < |checkouts|
    ensures DatasetSpec(checkouts[..i + 1], filters) ==
      DatasetSpec(checkouts[..i], filters) +
      (if HasModules(Filtered(checkouts[i], filters)) then [Filtered(checkouts[i], filters)] else [])
  {
    assert checkouts[..i + 1] == checkouts[..i] + [checkouts[i]];
    DatasetSpecSnoc(checkouts[..i], checkouts[i], filters);
  }

  /** Every saved repository has modules. */
  lemma DatasetSpecHasModules(checkouts: seq<Checkout>, filters: seq<Filters.Filter>)
    ensures forall r :: r in DatasetSpec(checkouts, filters) ==> r.modules != []
  {
  }

  /** One project's turn in `create_dataset`: parse the repository, then apply the filters. */
  method ParseAndFilter(c: Checkout, filters: seq<Filters.Filter>) returns (r: Repository)
    ensures r == Filtered(c, filters)
  {
    r := ParseRepository(c);
    r := Apply(r, filters, Filters.Run);
  }

  /**
   * `create_dataset`, returning the repositories it saves. An absent filter list runs no
   * filter (see the findings for what the code does instead).
   */
  method CreateDataset(checkouts: seq<Checkout>, filters: Option<seq<Filters.Filter>>)
    returns (repositories: seq<Repository>)
    ensures repositories == DatasetSpec(checkouts, filters.GetOr([]))
    ensures forall r :: r in repositories ==> r.modules != []
  {
    var fs := filters.GetOr([]);
    repositories := [];
    for i := 0 to |checkouts|
      invariant repositories == DatasetSpec(checkouts[..i], fs)
    {
      DatasetSpecStep(checkouts, i, fs);
      var repository := ParseAndFilter(checkouts[i], fs);
      if repository.modules != [] {
        repositories := repositories + [repository];
      }
    }
    assert checkouts[..|checkouts|] == checkouts;
    DatasetSpecHasModules(checkouts, fs);
  }

  /** The saved repositories keep the projects' relative order. */
  lemma DatasetKeepsOrder(checkouts: seq<Checkout>, filters: seq<Filters.Filter>)
    ensures IsSubseq(DatasetSpec(checkouts, filters), Map((c: Checkout) => Filtered(c, filters), checkouts))
  {
    SelectIsSubseq(HasModules, Map((c: Checkout) => Filtered(c, filters), checkouts));
  }

  /**
   * With the command line's default filters, every saved module has content, each of its
   * functions uses `str`, and each of its classes has a method that does.
   */
  lemma DefaultDatasetUsesStr(checkouts: seq<Checkout>)
    ensures forall r, m :: (r in DatasetSpec(checkouts, [Filters.NoStringTypeFilter, Filters.EmptyFilter]) &&
      m in r.modules) ==> Filters.HasContent(m) && Filters.AllUseStr(m)
  {
    var filters := [Filters.NoStringTypeFilter, Filters.EmptyFilter];
    forall r, m | r in DatasetSpec(checkouts, filters) && m in r.modules
      ensures Filters.HasContent(m) && Filters.AllUseStr(m)
    {
      var k :| 0 <= k < |checkouts| && Map((c: Checkout) => Filtered(c, filters), checkouts)[k] == r;
      Filters.DefaultPipelinePost(RepositorySpec(checkouts[k]));
    }
  }

  // ---------------------------------------------------------------------------------------
  // The default `filters=None`, as the code runs it

  /** `Repository.apply` as written: iterating an absent list raises TypeError. */
  function ApplyAsWritten(r: Repository, filters: Option<seq<Filters.Filter>>): (out: Result<Repository>)
    ensures filters.None? <==> out.Err?
  {
    match filters
    case None => Err("TypeError: 'NoneType' object is not iterable")
    case Some(fs) => Ok(Pipeline(fs, r, Filters.Run))
  }

  /** `create_dataset` as written: the first project's `apply` raises when no filters are given. */
  function DatasetAsWritten(checkouts: seq<Checkout>, filters: Option<seq<Filters.Filter>>): Result<seq<Repository>> {
    var repositories :- AllOk((c: Checkout) => ApplyAsWritten(RepositorySpec(c), filters), checkouts);
    Ok(Select(HasModules, repositories))
  }

  /** Called with its default `filters=None`, `create_dataset` fails on any non-empty project list. */
  lemma DefaultFiltersRaise(checkouts: seq<Checkout>)
    requires checkouts != []
    ensures DatasetAsWritten(checkouts, None).Err?
  {
    assert ApplyAsWritten(RepositorySpec(checkouts[0]), None).Err?;
  }

  /**
   * Given a filter list, the code as written saves what the model saves; given none, the model
   * saves every repository that has modules, unchanged.
   */
  lemma DatasetAgrees(checkouts: seq<Checkout>, filters: seq<Filters.Filter>)
    ensures DatasetAsWritten(checkouts, Some(filters)) == Ok(DatasetSpec(checkouts, filters))
    ensures DatasetSpec(checkouts, []) == Select(HasModules, Map(RepositorySpec, checkouts))
  {
    var f := (c: Checkout) => ApplyAsWritten(RepositorySpec(c), Some(filters));
    var g := (c: Checkout) => Filtered(c, filters);
    var all := AllOk(f, checkouts);
    assert all.Ok?;
    assert all.value == Map(g, checkouts);
    assert Map((c: Checkout) => Filtered(c, []), checkouts) == Map(RepositorySpec, checkouts);
  }
}
