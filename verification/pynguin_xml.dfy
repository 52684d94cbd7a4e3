/**
 * The project list Pynguin reads: one entry per repository, naming the repository's modules
 * as dotted module names, written to and read back from an XML tree.
 *
 * The tree is kept as elements with a tag, an optional text and children; serialising it to a
 * file and parsing the file back are not modelled.
 */
module PynguinXml {
  import opened Common
  import opened Text
  import opened Ordering
  import opened PyDict
  import opened Structure
  import opened Extraction

  /** A project for Pynguin. `version` is the repository's tag, which may be absent. */
  datatype Project = Project(
    projectName: string,
    version: Option<string>,
    repositoryUrl: string,
    sources: string,
    modules: seq<string>)

  // ---------------------------------------------------------------------------------------
  // From repositories to projects

  /** `Path.with_suffix("")` on a relative path written with `/`: the last component loses its suffix. */
  function WithoutSuffix(path: string): string {
    var parts := Split(path, '/');
    Join(parts[..|parts| - 1] + [NameStem(parts[|parts| - 1])], "/")
  }

  /** A relative path without its suffix, with every `/` turned into `.`. */
  function DottedPath(filePath: string): (name: string)
    ensures '/' !in name
    ensures |name| == |WithoutSuffix(filePath)|
  {
    var r := ReplaceChar(WithoutSuffix(filePath), '/', '.');
    assert forall i :: 0 <= i < |r| ==> r[i] != '/';
    r
  }

  lemma NoSlashInPyFile(base: string)
    requires '/' !in base
    ensures '/' !in base + ".py"
  {
    var file := base + ".py";
    forall j | 0 <= j < |file| ensures file[j] != '/' {
      if j < |base| {
        assert file[j] == base[j] && base[j] in base;
      } else {
        assert file[j] == ".py"[j - |base|];
      }
    }
  }

  /** Directory names free of `/`, followed by one more such name, are all free of `/`. */
  lemma NoSlashInParts(dirs: seq<string>, last: string)
    requires forall k :: 0 <= k < |dirs| ==> '/' !in dirs[k]
    requires '/' !in last
    ensures forall k :: 0 <= k < |dirs + [last]| ==> '/' !in (dirs + [last])[k]
  {
    forall k | 0 <= k < |dirs + [last]|
      ensures '/' !in (dirs + [last])[k]
    {
      if k < |dirs| {
        assert (dirs + [last])[k] == dirs[k];
      }
    }
  }

  /** Dropping the suffix of `a/b/c.py` gives `a/b/c`. */
  lemma WithoutSuffixOfPyFile(dirs: seq<string>, base: string)
    requires forall k :: 0 <= k < |dirs| ==> '/' !in dirs[k]
    requires base != [] && '.' !in base && '/' !in base
    ensures WithoutSuffix(Join(dirs + [base + ".py"], "/")) == Join(dirs + [base], "/")
  {
    NoSlashInPyFile(base);
    var parts := dirs + [base + ".py"];
    NoSlashInParts(dirs, base + ".py");
    SplitJoin(parts, '/');
    var split := Split(Join(parts, "/"), '/');
    assert split[..|split| - 1] == dirs;
    assert split[|split| - 1] == base + ".py";
    NameStemOfPy(base);
  }

  /** The module file `a/b/c.py` is the module `a.b.c`. */
  lemma DottedPathOfPyFile(dirs: seq<string>, base: string)
    requires forall k :: 0 <= k < |dirs| ==> '/' !in dirs[k]
    requires base != [] && '.' !in base && '/' !in base
    ensures DottedPath(Join(dirs + [base + ".py"], "/")) == Join(dirs + [base], ".")
  {
    WithoutSuffixOfPyFile(dirs, base);
    NoSlashInParts(dirs, base);
    ReplaceJoin(dirs + [base], '/', '.');
  }

  /**
   * The path has a name: a last component that is neither empty nor `.`. `with_suffix` raises
   * ValueError for a path without one (`.`, `/`, `//`).
   */
  predicate HasName(path: string) {
    PathParts(path) != []
  }

  /** Without a name, the dotted path of `.` and of `/` is `.`, where Python raises ValueError. */
  lemma NamelessDottedPath()
    ensures !HasName(".") && DottedPath(".") == "."
    ensures !HasName("/") && DottedPath("/") == "."
  {
    EmptyPathForms();
    assert Split(".", '/') == ["."];
    assert NameStem(".") == ".";
    assert Split("/", '/') == [""] + Split("", '/');
    assert Split("/", '/') == ["", ""];
    assert NameStem("") == "";
    assert Join(["", ""], "/") == "/";
  }

  /**
   * A module extracted from a file strictly below the project's root, whose path components are
   * proper, has a path with a name, so its dotted name is defined in Python too.
   */
  lemma ExtractedModuleHasName(file: SourceFile, root: seq<string>, m: Module)
    requires forall k :: 0 <= k < |file.path| ==> ProperPart(file.path[k]) && '/' !in file.path[k]
    requires |root| < |file.path|
    requires ModuleSpec(file, root) == Ok(m)
    ensures HasName(m.filePath)
  {
    var rest := file.path[|root|..];
    forall k | 0 <= k < |rest| ensures ProperPart(rest[k]) && '/' !in rest[k] {
      assert rest[k] == file.path[|root| + k];
    }
    PathStrOfParts(rest);
  }

  /** `module_to_string`: the module's dotted name, from its file path. */
  function ModuleToString(m: Module): string {
    DottedPath(m.filePath)
  }

  /** `create_pynguin_project` */
  function CreatePynguinProject(r: Repository): (p: Project)
    ensures p.projectName == r.name && p.repositoryUrl == r.url && p.version == r.pypiTag
    ensures p.sources == "projects/" + r.name
    ensures |p.modules| == |r.modules|
    ensures forall i :: 0 <= i < |r.modules| ==> p.modules[i] == ModuleToString(r.modules[i])
  {
    Project(r.name, r.pypiTag, r.url, "projects/" + r.name, Map(ModuleToString, r.modules))
  }

  function NamedProject(r: Repository): (string, Project) {
    (r.name, CreatePynguinProject(r))
  }

  /** The dict `create_pynguin_xmls` builds: each repository's project under its name. */
  function ProjectsByName(d: Dataset): Dict<string, Project> {
    FromPairs(Map(NamedProject, d.repositories))
  }

  /** Each project is stored under its own name. */
  ghost predicate KeyedByName(projects: Dict<string, Project>) {
    forall e :: e in projects ==> e.0 == e.1.projectName
  }

  /** The dict has one key per repository name, and each project is stored under its own name. */
  lemma ProjectsByNameKeyed(d: Dataset)
    ensures UniqueKeys(ProjectsByName(d)) && KeyedByName(ProjectsByName(d))
  {
    var pairs := Map(NamedProject, d.repositories);
    FromPairsKeys(pairs);
    FromPairsEntries(pairs);
    forall e | e in ProjectsByName(d) ensures e.0 == e.1.projectName {
      var k :| 0 <= k < |pairs| && pairs[k] == e;
    }
  }

  /** The project stored for a name is that of the last repository with that name. */
  lemma ProjectsByNameHolds(d: Dataset, i: nat)
    requires i < |d.repositories|
    requires forall j :: i < j < |d.repositories| ==> d.repositories[j].name != d.repositories[i].name
    ensures Get(ProjectsByName(d), d.repositories[i].name) == Some(CreatePynguinProject(d.repositories[i]))
  {
    var pairs := Map(NamedProject, d.repositories);
    FromPairsGet(pairs, d.repositories[i].name);
    LastValueAt(pairs, i);
  }

  /** A name no repository has is not in the dict. */
  lemma ProjectsByNameMissing(d: Dataset, name: string)
    requires forall j :: 0 <= j < |d.repositories| ==> d.repositories[j].name != name
    ensures Get(ProjectsByName(d), name).None?
  {
    var pairs := Map(NamedProject, d.repositories);
    FromPairsKeys(pairs);
    GetNone(ProjectsByName(d), name);
  }

  // ---------------------------------------------------------------------------------------
  // The XML tree

  datatype Element = Element(tag: string, text: Option<string>, children: seq<Element>)

  function Leaf(tag: string, text: Option<string>): Element {
    Element(tag, text, [])
  }

  function ModuleElement(name: string): Element {
    Leaf("module", Some(name))
  }

  /** A project's element; its modules are listed in sorted order. */
  function ProjectElement(p: Project): Element {
    Element("project", None, [
      Leaf("name", Some(p.projectName)),
      Leaf("version", p.version),
      Leaf("repository", Some(p.repositoryUrl)),
      Leaf("sources", Some(p.sources)),
      Element("modules", None, Map(ModuleElement, SortBy(p.modules, Self)))])
  }

  predicate Listed(p: Project) {
    p.modules != []
  }

  /** The tree `write_xml` writes: the projects with modules, in the dict's order. */
  function XmlTree(projects: Dict<string, Project>): Element {
    Element("projects", None, Map(ProjectElement, Select(Listed, Values(projects))))
  }

  /** One project's element, with its modules written in sorted order. */
  method WriteProject(project: Project) returns (e: Element)
    ensures e == ProjectElement(project)
  {
    var sorted := SortBy(project.modules, Self);
    var modules: seq<Element> := [];
    for j := 0 to |sorted|
      invariant modules == Map(ModuleElement, sorted[..j])
    {
      MapPrefixStep(ModuleElement, sorted, j);
      modules := modules + [ModuleElement(sorted[j])];
    }
    assert sorted[..|sorted|] == sorted;
    e := Element("project", None, [
      Leaf("name", Some(project.projectName)),
      Leaf("version", project.version),
      Leaf("repository", Some(project.repositoryUrl)),
      Leaf("sources", Some(project.sources)),
      Element("modules", None, modules)]);
  }

  lemma XmlChildrenSnoc(values: seq<Project>, p: Project)
    ensures Map(ProjectElement, Select(Listed, values + [p])) ==
      Map(ProjectElement, Select(Listed, values)) + (if Listed(p) then [ProjectElement(p)] else [])
  {
    SelectAppend(Listed, values, [p]);
    MapAppend(ProjectElement, Select(Listed, values), Select(Listed, [p]));
    assert [p][1..] == [];
  }

  /** `write_xml`, returning the tree instead of writing it: a project without modules is skipped. */
  method WriteXml(projects: Dict<string, Project>) returns (root: Element)
    ensures root == XmlTree(projects)
  {
    var values := Values(projects);
    var children: seq<Element> := [];
    for i := 0 to |values|
      invariant children == Map(ProjectElement, Select(Listed, values[..i]))
    {
      var project := values[i];
      MapSelectPrefixStep(ProjectElement, Listed, values, i);
      if |project.modules| == 0 {
        continue;
      }
      var e := WriteProject(project);
      children := children + [e];
    }
    assert values[..|values|] == values;
    root := Element("projects", None, children);
  }

  /** `create_pynguin_xmls`, returning the tree instead of writing it. */
  method CreatePynguinXmls(d: Dataset) returns (root: Element)
    ensures root == XmlTree(ProjectsByName(d))
  {
    var projects: Dict<string, Project> := [];
    for i := 0 to |d.repositories|
      invariant projects == FromPairs(Map(NamedProject, d.repositories[..i]))
    {
      var repo := d.repositories[i];
      FromPairsMapStep(NamedProject, d.repositories, i);
      projects := Put(projects, repo.name, CreatePynguinProject(repo));
    }
    assert d.repositories[..|d.repositories|] == d.repositories;
    root := WriteXml(projects);
  }

  // ---------------------------------------------------------------------------------------
  // Reading the tree back

  /** `element.find(tag)`: the first child with the tag. */
  function Find(children: seq<Element>, tag: string): (r: Option<Element>)
    ensures r.Some? ==> r.value in children && r.value.tag == tag
  {
    if children == [] then None
    else if children[0].tag == tag then Some(children[0])
    else Find(children[1..], tag)
  }

  /** `_get_text`: the element's text, "" for an absent element or an element without text. */
  function GetText(e: Option<Element>): (text: string)
    ensures e.Some? && e.value.text.Some? ==> text == e.value.text.value
    ensures e.None? || e.value.text.None? ==> text == ""
  {
    match e
    case None => ""
    case Some(x) => x.text.GetOr("")
  }

  function ChildText(e: Element): string {
    GetText(Some(e))
  }

  /** `_parse_modules`: the texts of the children, none for an absent element. */
  function ParseModules(e: Option<Element>): (modules: seq<string>)
    ensures e.None? ==> modules == []
    ensures e.Some? ==> |modules| == |e.value.children|
    ensures e.Some? ==> forall i :: 0 <= i < |modules| ==> modules[i] == GetText(Some(e.value.children[i]))
  {
    match e
    case None => []
    case Some(x) => Map(ChildText, x.children)
  }

  /** The project one `project` element describes. */
  function ProjectFromElement(e: Element): Project {
    Project(
      GetText(Find(e.children, "name")),
      Some(GetText(Find(e.children, "version"))),
      GetText(Find(e.children, "repository")),
      GetText(Find(e.children, "sources")),
      ParseModules(Find(e.children, "modules")))
  }

  function NamedFromElement(e: Element): (string, Project) {
    (ProjectFromElement(e).projectName, ProjectFromElement(e))
  }

  /** The dict `read_xml` builds: each project under its name text, a later one replacing an earlier. */
  function ReadSpec(root: Element): Dict<string, Project> {
    FromPairs(Map(NamedFromElement, root.children))
  }

  /** One `project` element read field by field. */
  method ReadProject(e: Element) returns (p: Project)
    ensures (p.projectName, p) == NamedFromElement(e)
  {
    var projectName := GetText(Find(e.children, "name"));
    var version := GetText(Find(e.children, "version"));
    var repositoryUrl := GetText(Find(e.children, "repository"));
    var sources := GetText(Find(e.children, "sources"));
    var modulesElement := Find(e.children, "modules");
    var modules := ParseModules(modulesElement);
    p := Project(projectName, Some(version), repositoryUrl, sources, modules);
  }

  /** `read_xml`, given the parsed tree. */
  method ReadXml(root: Element) returns (projects: Dict<string, Project>)
    ensures projects == ReadSpec(root)
  {
    projects := [];
    for i := 0 to |root.children|
      invariant projects == FromPairs(Map(NamedFromElement, root.children[..i]))
    {
      var element := root.children[i];
      FromPairsMapStep(NamedFromElement, root.children, i);
      var project := ReadProject(element);
      projects := Put(projects, project.projectName, project);
    }
    assert root.children[..|root.children|] == root.children;
  }

  // ---------------------------------------------------------------------------------------
  // Writing then reading

  /** What survives the trip through the XML: an absent version reads back as "", modules come back sorted. */
  function Normalized(p: Project): Project {
    p.(version := Some(p.version.GetOr("")), modules := SortBy(p.modules, Self))
  }

  /** `find` returns the first child with the tag. */
  lemma {:induction false} FindAt(children: seq<Element>, i: nat, tag: string)
    requires i < |children| && children[i].tag == tag
    requires forall j :: 0 <= j < i ==> children[j].tag != tag
    ensures Find(children, tag) == Some(children[i])
  {
    if i > 0 {
      FindAt(children[1..], i - 1, tag);
    }
  }

  /** The tags of a project element's children, in order. */
  lemma ProjectTags(p: Project)
    ensures |ProjectElement(p).children| == 5
    ensures ProjectElement(p).children[0] == Leaf("name", Some(p.projectName))
    ensures ProjectElement(p).children[1] == Leaf("version", p.version)
    ensures ProjectElement(p).children[2] == Leaf("repository", Some(p.repositoryUrl))
    ensures ProjectElement(p).children[3] == Leaf("sources", Some(p.sources))
    ensures ProjectElement(p).children[4].tag == "modules"
  {
  }

  lemma FindName(p: Project)
    ensures Find(ProjectElement(p).children, "name") == Some(Leaf("name", Some(p.projectName)))
  {
    ProjectTags(p);
    FindAt(ProjectElement(p).children, 0, "name");
  }

  lemma FindVersion(p: Project)
    ensures Find(ProjectElement(p).children, "version") == Some(Leaf("version", p.version))
  {
    ProjectTags(p);
    var ch := ProjectElement(p).children;
    assert ch[0].tag[0] != "version"[0];
    FindAt(ch, 1, "version");
  }

  lemma FindRepository(p: Project)
    ensures Find(ProjectElement(p).children, "repository") == Some(Leaf("repository", Some(p.repositoryUrl)))
  {
    ProjectTags(p);
    var ch := ProjectElement(p).children;
    assert ch[0].tag[0] != "repository"[0] && ch[1].tag[0] != "repository"[0];
    FindAt(ch, 2, "repository");
  }

  lemma FindSources(p: Project)
    ensures Find(ProjectElement(p).children, "sources") == Some(Leaf("sources", Some(p.sources)))
  {
    ProjectTags(p);
    var ch := ProjectElement(p).children;
    assert ch[0].tag[0] != "sources"[0] && ch[1].tag[0] != "sources"[0] && ch[2].tag[0] != "sources"[0];
    FindAt(ch, 3, "sources");
  }

  lemma FindModules(p: Project)
    ensures ParseModules(Find(ProjectElement(p).children, "modules")) == SortBy(p.modules, Self)
  {
    var children := ProjectElement(p).children;
    assert "modules"[0] != "name"[0] && "modules"[0] != "version"[0];
    assert "modules"[0] != "repository"[0] && "modules"[0] != "sources"[0];
    FindAt(children, 4, "modules");
    var sorted := SortBy(p.modules, Self);
    assert Map(ChildText, Map(ModuleElement, sorted)) == sorted;
  }

  /** Reading a written project element gives the project back, normalised. */
  lemma ProjectElementRoundTrip(p: Project)
    ensures ProjectFromElement(ProjectElement(p)) == Normalized(p)
  {
    FindName(p);
    FindVersion(p);
    FindRepository(p);
    FindSources(p);
    FindModules(p);
  }

  /** The names and projects read back from the written elements of `ps`, in order. */
  function ReadBack(ps: seq<Project>): seq<(string, Project)> {
    Map(NamedFromElement, Map(ProjectElement, Select(Listed, ps)))
  }

  lemma NamedRoundTrip(p: Project)
    ensures NamedFromElement(ProjectElement(p)) == (p.projectName, Normalized(p))
  {
    ProjectElementRoundTrip(p);
  }

  lemma ReadBackSnoc(ps: seq<Project>, p: Project)
    ensures ReadBack(ps + [p]) == ReadBack(ps) + (if Listed(p) then [(p.projectName, Normalized(p))] else [])
  {
    XmlChildrenSnoc(ps, p);
    var elements := Map(ProjectElement, Select(Listed, ps));
    if Listed(p) {
      MapAppend(NamedFromElement, elements, [ProjectElement(p)]);
      NamedRoundTrip(p);
    } else {
      assert elements + [] == elements;
    }
  }

  /** What reading back finds for a project that was in the dict: the normalised project if it was written. */
  function ReadBackOf(entry: Option<Project>): Option<Project> {
    match entry
    case Some(p) => if Listed(p) then Some(Normalized(p)) else None
    case None => None
  }

  /**
   * For a dict keyed by project name, reading back what was written finds, under each name,
   * the normalised project when it has modules, and nothing when it has none or is absent.
   */
  lemma {:induction false} ReadAfterWrite(projects: Dict<string, Project>, name: string)
    requires UniqueKeys(projects) && KeyedByName(projects)
    ensures Get(ReadSpec(XmlTree(projects)), name) ==
      match Get(projects, name)
      case Some(p) => if Listed(p) then Some(Normalized(p)) else None
      case None => None
  {
    FromPairsGet(Map(NamedFromElement, XmlTree(projects).children), name);
    ReadBackLast(projects, name);
  }

  /** Reading back after one more project: it shadows its own name if it was written. */
  lemma ReadBackLastValueSnoc(init: Dict<string, Project>, last: (string, Project), name: string)
    requires last.0 == last.1.projectName
    ensures LastValue(ReadBack(Values(init + [last])), name) ==
      if Listed(last.1) && last.0 == name then Some(Normalized(last.1)) else LastValue(ReadBack(Values(init)), name)
  {
    assert Values(init + [last]) == Values(init) + [last.1];
    ReadBackSnoc(Values(init), last.1);
    var rest := ReadBack(Values(init));
    if Listed(last.1) {
      FromPairsSnoc(rest, (last.1.projectName, Normalized(last.1)));
    } else {
      assert rest + [] == rest;
    }
  }

  /** One more project, under a new name, written and read back. */
  lemma ReadBackStep(init: Dict<string, Project>, last: (string, Project), name: string)
    requires last.0 !in Keys(init) && last.0 == last.1.projectName
    requires LastValue(ReadBack(Values(init)), name) == ReadBackOf(Get(init, name))
    ensures LastValue(ReadBack(Values(init + [last])), name) == ReadBackOf(Get(init + [last], name))
  {
    ReadBackLastValueSnoc(init, last, name);
    GetSnoc(init, last, name);
    if name !in Keys(init) {
      GetNone(init, name);
    }
  }

  lemma {:induction false} ReadBackLast(projects: Dict<string, Project>, name: string)
    requires UniqueKeys(projects) && KeyedByName(projects)
    ensures LastValue(ReadBack(Values(projects)), name) == ReadBackOf(Get(projects, name))
  {
    if projects != [] {
      var n := |projects| - 1;
      var init, last := projects[..n], projects[n];
      assert projects == init + [last];
      assert UniqueKeys(init) && KeyedByName(init) by {
        assert forall e :: e in init ==> e in projects;
      }
      assert last in projects;
      ReadBackLast(init, name);
      forall i | 0 <= i < |init| ensures Keys(init)[i] != last.0 {
        KeysAt(init, i);
        assert init[i] == projects[i];
      }
      ReadBackStep(init, last, name);
    }
  }
}
