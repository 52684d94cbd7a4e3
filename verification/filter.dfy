/**
 * The filters a repository is passed through before it enters the dataset, the registry that
 * finds them by name, and the parsing of a comma-separated list of filter names.
 *
 * Each filter rewrites the repository's lists in place and returns the same object; here a
 * filter returns the rewritten repository as a new value.
 */
module Filters {
  import opened Common
  import opened Text
  import opened PyDict
  import opened Structure

  datatype Filter = EmptyFilter | NoStringTypeFilter

  // ---------------------------------------------------------------------------------------
  // EmptyFilter

  /** A class is empty if it has no methods. */
  predicate HasMethods(c: Class) {
    c.methods != []
  }

  /** A module is empty if it has no functions and no classes. */
  predicate HasContent(m: Module) {
    m.classes != [] || m.functions != []
  }

  function WithoutEmptyClasses(m: Module): Module {
    m.(classes := Select(HasMethods, m.classes))
  }

  /** What EmptyFilter makes of a repository: empty classes go first, then empty modules. */
  function DropEmpty(r: Repository): Repository {
    r.(modules := Select(HasContent, Map(WithoutEmptyClasses, r.modules)))
  }

  method ApplyEmptyFilter(r: Repository) returns (out: Repository)
    ensures out == DropEmpty(r)
  {
    var modules := r.modules;
    for i := 0 to |modules|
      invariant |modules| == |r.modules|
      invariant forall k :: 0 <= k < i ==> modules[k] == WithoutEmptyClasses(r.modules[k])
      invariant forall k :: i <= k < |modules| ==> modules[k] == r.modules[k]
    {
      modules := modules[i := modules[i].(classes := Select(HasMethods, modules[i].classes))];
    }
    assert modules == Map(WithoutEmptyClasses, r.modules);
    out := r.(modules := Select(HasContent, modules));
  }

  /**
   * After EmptyFilter every module has a function or a class and every class has a method;
   * a module is kept exactly when it still has content once its empty classes are gone.
   */
  lemma DropEmptyPost(r: Repository)
    ensures forall m :: m in DropEmpty(r).modules ==> HasContent(m)
    ensures forall m, c :: m in DropEmpty(r).modules && c in m.classes ==> HasMethods(c)
    ensures forall m :: m in DropEmpty(r).modules <==>
      m in Map(WithoutEmptyClasses, r.modules) && HasContent(m)
  {
    forall m, c | m in DropEmpty(r).modules && c in m.classes ensures HasMethods(c) {
      var i :| 0 <= i < |r.modules| && Map(WithoutEmptyClasses, r.modules)[i] == m;
    }
  }

  /** `m` is module `old_m` of `r` with the same name, path and functions, and some of its classes. */
  ghost predicate KeptFrom(m: Module, old_m: Module, r: Repository) {
    old_m in r.modules && m.name == old_m.name && m.filePath == old_m.filePath &&
    m.functions == old_m.functions && IsSubseq(m.classes, old_m.classes) &&
    forall c :: c in m.classes ==> c in old_m.classes
  }

  /**
   * EmptyFilter keeps the survivors in their order, and changes neither the repository's own
   * fields nor any module's functions nor any class that stays.
   */
  lemma DropEmptyKeeps(r: Repository)
    ensures var out := DropEmpty(r);
      out.name == r.name && out.url == r.url && out.pypiTag == r.pypiTag &&
      out.gitCommitHash == r.gitCommitHash
    ensures IsSubseq(DropEmpty(r).modules, Map(WithoutEmptyClasses, r.modules))
    ensures forall m :: m in DropEmpty(r).modules ==> exists old_m :: KeptFrom(m, old_m, r)
  {
    SelectIsSubseq(HasContent, Map(WithoutEmptyClasses, r.modules));
    forall m | m in DropEmpty(r).modules
      ensures exists old_m :: KeptFrom(m, old_m, r)
    {
      var i :| 0 <= i < |r.modules| && Map(WithoutEmptyClasses, r.modules)[i] == m;
      SelectIsSubseq(HasMethods, r.modules[i].classes);
      assert r.modules[i] in r.modules;
      assert KeptFrom(m, r.modules[i], r);
    }
  }

  /** EmptyFilter is idempotent. */
  lemma DropEmptyIdempotent(r: Repository)
    ensures DropEmpty(DropEmpty(r)) == DropEmpty(r)
  {
    var once := DropEmpty(r);
    DropEmptyPost(r);
    forall m | m in once.modules ensures WithoutEmptyClasses(m) == m {
      SelectKeepsAll(HasMethods, m.classes);
    }
    MapFixed(WithoutEmptyClasses, once.modules);
    SelectKeepsAll(HasContent, once.modules);
  }

  // ---------------------------------------------------------------------------------------
  // NoStringTypeFilter

  /** Some parameter is annotated exactly `str`, or the return type is exactly `str`. */
  predicate UsesStr(c: Callable) {
    (exists p :: p in c.parameters && p.paramType == Some("str")) || c.returnType == Some("str")
  }

  predicate MethodUsesStr(m: Method) {
    UsesStr(m.callable)
  }

  function StrMethodsOnly(c: Class): Class {
    c.(methods := Select(MethodUsesStr, c.methods))
  }

  function StrCallablesOnly(m: Module): Module {
    m.(functions := Select(UsesStr, m.functions), classes := Map(StrMethodsOnly, m.classes))
  }

  /** What NoStringTypeFilter makes of a repository. */
  function KeepStringTyped(r: Repository): Repository {
    r.(modules := Map(StrCallablesOnly, r.modules))
  }

  method ApplyNoStringTypeFilter(r: Repository) returns (out: Repository)
    ensures out == KeepStringTyped(r)
  {
    var modules := r.modules;
    for i := 0 to |modules|
      invariant |modules| == |r.modules|
      invariant forall k :: 0 <= k < i ==> modules[k] == StrCallablesOnly(r.modules[k])
      invariant forall k :: i <= k < |modules| ==> modules[k] == r.modules[k]
    {
      var mod := modules[i];
      mod := mod.(functions := Select(UsesStr, mod.functions));
      var classes := mod.classes;
      for j := 0 to |classes|
        invariant |classes| == |mod.classes|
        invariant forall k :: 0 <= k < j ==> classes[k] == StrMethodsOnly(mod.classes[k])
        invariant forall k :: j <= k < |classes| ==> classes[k] == mod.classes[k]
      {
        classes := classes[j := classes[j].(methods := Select(MethodUsesStr, classes[j].methods))];
      }
      assert classes == Map(StrMethodsOnly, mod.classes);
      modules := modules[i := mod.(classes := classes)];
    }
    assert modules == Map(StrCallablesOnly, r.modules);
    out := r.(modules := modules);
  }

  /**
   * After NoStringTypeFilter a function or method remains exactly when it uses `str`; no
   * module and no class is removed, and both keep their names and positions.
   */
  lemma KeepStringTypedPost(r: Repository)
    ensures |KeepStringTyped(r).modules| == |r.modules|
    ensures forall i :: 0 <= i < |r.modules| ==>
      var m, old_m := KeepStringTyped(r).modules[i], r.modules[i];
      m.name == old_m.name && |m.classes| == |old_m.classes| &&
      (forall f :: f in m.functions <==> f in old_m.functions && UsesStr(f)) &&
      forall j :: 0 <= j < |m.classes| ==>
        m.classes[j].name == old_m.classes[j].name &&
        forall x :: x in m.classes[j].methods <==> x in old_m.classes[j].methods && UsesStr(x.callable)
  {
  }

  lemma StrMethodsOnlyIdempotent(c: Class)
    ensures StrMethodsOnly(StrMethodsOnly(c)) == StrMethodsOnly(c)
  {
    SelectIdempotent(MethodUsesStr, c.methods);
  }

  lemma StrCallablesOnlyIdempotent(m: Module)
    ensures StrCallablesOnly(StrCallablesOnly(m)) == StrCallablesOnly(m)
  {
    var once := StrCallablesOnly(m);
    SelectIdempotent(UsesStr, m.functions);
    forall c | c in once.classes ensures StrMethodsOnly(c) == c {
      var j :| 0 <= j < |m.classes| && once.classes[j] == c;
      StrMethodsOnlyIdempotent(m.classes[j]);
    }
    MapFixed(StrMethodsOnly, once.classes);
  }

  /** NoStringTypeFilter is idempotent. */
  lemma KeepStringTypedIdempotent(r: Repository)
    ensures KeepStringTyped(KeepStringTyped(r)) == KeepStringTyped(r)
  {
    var once := KeepStringTyped(r);
    forall m | m in once.modules ensures StrCallablesOnly(m) == m {
      var i :| 0 <= i < |r.modules| && once.modules[i] == m;
      StrCallablesOnlyIdempotent(r.modules[i]);
    }
    MapFixed(StrCallablesOnly, once.modules);
  }

  // ---------------------------------------------------------------------------------------
  // Running filters

  /** What `filter.apply(repository)` returns. */
  function Run(f: Filter, r: Repository): Repository {
    match f
    case EmptyFilter => DropEmpty(r)
    case NoStringTypeFilter => KeepStringTyped(r)
  }

  method ApplyFilter(f: Filter, r: Repository) returns (out: Repository)
    ensures out == Run(f, r)
  {
    match f
    case EmptyFilter =>
      out := ApplyEmptyFilter(r);
    case NoStringTypeFilter =>
      out := ApplyNoStringTypeFilter(r);
  }

  lemma PipelineOne(f: Filter, r: Repository)
    ensures Pipeline([f], r, Run) == Run(f, r)
  {
    assert [f][..0] == [];
  }

  lemma PipelineTwo(f: Filter, g: Filter, r: Repository)
    ensures Pipeline([f, g], r, Run) == Run(g, Run(f, r))
  {
    assert [f, g][..1] == [f];
    PipelineOne(f, r);
  }

  /** Every function of `m` uses `str`, and every class of `m` has a method that does. */
  predicate AllUseStr(m: Module) {
    (forall f :: f in m.functions ==> UsesStr(f)) &&
    forall c :: c in m.classes ==> exists x :: x in c.methods && UsesStr(x.callable)
  }

  /** NoStringTypeFilter followed by EmptyFilter leaves only modules that have content and use `str` throughout. */
  lemma StrThenEmptyPost(r: Repository)
    ensures forall m :: m in DropEmpty(KeepStringTyped(r)).modules ==> HasContent(m) && AllUseStr(m)
  {
    var mid := KeepStringTyped(r);
    DropEmptyPost(mid);
    forall m | m in DropEmpty(mid).modules ensures AllUseStr(m) {
      var i :| 0 <= i < |mid.modules| && Map(WithoutEmptyClasses, mid.modules)[i] == m;
      StrThenWithoutEmpty(r.modules[i]);
    }
  }

  /** One module through NoStringTypeFilter and then EmptyFilter's class step uses `str` throughout. */
  lemma StrThenWithoutEmpty(m0: Module)
    ensures AllUseStr(WithoutEmptyClasses(StrCallablesOnly(m0)))
  {
    var mid := StrCallablesOnly(m0);
    var m := WithoutEmptyClasses(mid);
    forall c | c in m.classes ensures exists x :: x in c.methods && UsesStr(x.callable) {
      assert c in mid.classes;
      var j :| 0 <= j < |m0.classes| && mid.classes[j] == c;
      assert c.methods[0] in c.methods;
    }
  }

  /**
   * With NoStringTypeFilter first and EmptyFilter second (the command line's default), every
   * class that is left has a method that uses `str`, and every function left uses `str`.
   */
  lemma DefaultPipelinePost(r: Repository)
    ensures forall m :: m in Pipeline([NoStringTypeFilter, EmptyFilter], r, Run).modules ==>
      HasContent(m) && AllUseStr(m)
  {
    PipelineTwo(NoStringTypeFilter, EmptyFilter, r);
    StrThenEmptyPost(r);
  }

  /** EmptyFilter on its own keeps every class that has a method, whatever its types. */
  lemma EmptyFilterKeepsClassesWithMethods(r: Repository, i: nat, j: nat)
    requires i < |r.modules| && j < |r.modules[i].classes|
    requires HasMethods(r.modules[i].classes[j])
    ensures exists m :: m in Pipeline([EmptyFilter], r, Run).modules && r.modules[i].classes[j] in m.classes
  {
    PipelineOne(EmptyFilter, r);
    var m := WithoutEmptyClasses(r.modules[i]);
    assert m == Map(WithoutEmptyClasses, r.modules)[i];
    assert r.modules[i].classes[j] in m.classes;
    assert HasContent(m);
    assert m in DropEmpty(r).modules;
  }

  /** A repository whose one module holds one class whose one method does not use `str`. */
  function NoStrExample(): Repository {
    var run := Method(Callable("run", 2, 9, [Parameter("self", 2, 13, None)], None, "", "", "", Some("")), false);
    Repository("example", "https://github.com/o/example", None, "",
      [Module("example", "example.py", [], [Class("Worker", [run], [], [])])])
  }

  /**
   * Order matters: NoStringTypeFilter then EmptyFilter removes the class (and with it the
   * module), EmptyFilter then NoStringTypeFilter leaves the class behind without methods.
   */
  lemma FilterOrderMatters()
    ensures Pipeline([NoStringTypeFilter, EmptyFilter], NoStrExample(), Run).modules == []
    ensures var out := Pipeline([EmptyFilter, NoStringTypeFilter], NoStrExample(), Run);
      |out.modules| == 1 && |out.modules[0].classes| == 1 && out.modules[0].classes[0].methods == []
  {
    var r := NoStrExample();
    assert !UsesStr(r.modules[0].classes[0].methods[0].callable);
    PipelineTwo(NoStringTypeFilter, EmptyFilter, r);
    PipelineTwo(EmptyFilter, NoStringTypeFilter, r);
  }

  // ---------------------------------------------------------------------------------------
  // Registry

  /** How a class found in the filter module relates to the Filter base class. */
  datatype ClassKind = FilterBase | FilterSubclass(filter: Filter) | Unrelated

  /** The classes the filter module defines or imports, as reflection lists them (by name). */
  const ModuleClasses: seq<(string, ClassKind)> := [
    ("ABC", Unrelated),
    ("EmptyFilter", FilterSubclass(EmptyFilter)),
    ("Filter", FilterBase),
    ("NoStringTypeFilter", FilterSubclass(NoStringTypeFilter)),
    ("Repository", Unrelated)
  ]

  /** The registry built from `members`: each Filter subclass under its lower-cased name. */
  function Discover(members: seq<(string, ClassKind)>): Dict<string, Filter> {
    if members == [] then []
    else
      var d := Discover(members[..|members| - 1]);
      var (name, kind) := members[|members| - 1];
      if kind.FilterSubclass? then Put(d, ToLower(name), kind.filter) else d
  }

  /** Every Filter subclass is registered under its lower-cased name; Filter itself is not. */
  lemma {:induction false} DiscoverFindsAll(members: seq<(string, ClassKind)>, i: nat)
    requires i < |members| && members[i].1.FilterSubclass?
    ensures ToLower(members[i].0) in Keys(Discover(members))
  {
    var d := Discover(members[..|members| - 1]);
    if i < |members| - 1 {
      DiscoverFindsAll(members[..|members| - 1], i);
    }
  }

  /** `get_all_filters`: fills the dict in a loop over the module's classes. */
  method GetAllFilters(members: seq<(string, ClassKind)>) returns (filters: Dict<string, Filter>)
    ensures filters == Discover(members)
  {
    filters := [];
    for i := 0 to |members|
      invariant filters == Discover(members[..i])
    {
      assert members[..i + 1][..i] == members[..i];
      var (name, kind) := members[i];
      if kind.FilterSubclass? {
        filters := Put(filters, ToLower(name), kind.filter);
      }
    }
    assert members[..|members|] == members;
  }

  /**
   * What `get_all_filters()` returns for the filter module: the two filters, under their
   * lower-cased class names, in the order reflection lists the classes (RegistryDiscovered).
   */
  function Registry(): Dict<string, Filter> {
    [("emptyfilter", EmptyFilter), ("nostringtypefilter", NoStringTypeFilter)]
  }

  lemma EmptyFilterLowered()
    ensures ToLower("EmptyFilter") == "emptyfilter"
  {
    assert ToLower("EmptyFilter") == "emptyfilter";
  }

  lemma NoStringTypeFilterLowered()
    ensures ToLower("NoStringTypeFilter") == "nostringtypefilter"
  {
    assert ToLower("NoStringTypeFilter") == "nostringtypefilter";
  }

  // Discovery over the module's classes, one class at a time.

  lemma DiscoverAbc()
    ensures Discover(ModuleClasses[..1]) == []
  {
    assert ModuleClasses[..1][..0] == [];
  }

  lemma DiscoverEmptyFilter()
    ensures Discover(ModuleClasses[..2]) == [("emptyfilter", EmptyFilter)]
  {
    DiscoverAbc();
    assert ModuleClasses[..2][..1] == ModuleClasses[..1];
    EmptyFilterLowered();
  }

  lemma DiscoverFilter()
    ensures Discover(ModuleClasses[..3]) == [("emptyfilter", EmptyFilter)]
  {
    DiscoverEmptyFilter();
    assert ModuleClasses[..3][..2] == ModuleClasses[..2];
  }

  lemma DiscoverNoStringTypeFilter()
    ensures Discover(ModuleClasses[..4]) == Registry()
  {
    DiscoverFilter();
    assert ModuleClasses[..4][..3] == ModuleClasses[..3];
    NoStringTypeFilterLowered();
    assert Discover(ModuleClasses[..4]) == Put([("emptyfilter", EmptyFilter)], "nostringtypefilter", NoStringTypeFilter);
    assert "emptyfilter"[0] != "nostringtypefilter"[0];
  }

  /** Scanning the filter module's classes finds exactly the two filters. */
  lemma RegistryDiscovered()
    ensures Discover(ModuleClasses) == Registry()
  {
    DiscoverNoStringTypeFilter();
    assert ModuleClasses[..5][..4] == ModuleClasses[..4] && ModuleClasses[..5] == ModuleClasses;
  }

  /** `FilterFactory.from_string`: case-insensitive lookup; unknown names raise. */
  function FromString(name: string): (r: Result<Filter>)
    ensures r.Ok? <==> ToLower(name) in Keys(Registry())
    ensures r.Err? ==> r.error == "Unknown filter: " + name
  {
    GetNone(Registry(), ToLower(name));
    match Get(Registry(), ToLower(name))
    case Some(f) => Ok(f)
    case None => Err("Unknown filter: " + name)
  }

  /** Only the case of a name matters, and the two class names are the only names known. */
  lemma FromStringCases(name: string)
    ensures ToLower(name) == "emptyfilter" ==> FromString(name) == Ok(EmptyFilter)
    ensures ToLower(name) == "nostringtypefilter" ==> FromString(name) == Ok(NoStringTypeFilter)
    ensures ToLower(name) != "emptyfilter" && ToLower(name) != "nostringtypefilter" ==>
      FromString(name) == Err("Unknown filter: " + name)
  {
  }

  /** What `create_filters` is given: one comma-separated string, or a list of names. */
  datatype FilterNames = CommaSeparated(text: string) | NameList(names: seq<string>)

  function NameSeq(names: FilterNames): seq<string> {
    match names
    case CommaSeparated(text) => Split(text, ',')
    case NameList(list) => list
  }

  /** `names[i]` is the first name the registry does not know. */
  predicate FirstUnknown(names: seq<string>, i: int) {
    0 <= i < |names| && FromString(names[i]).Err? && forall j :: 0 <= j < i ==> FromString(names[j]).Ok?
  }

  /** `[FilterFactory.from_string(name) for name in names]`: the first unknown name raises. */
  function FromStrings(names: seq<string>): (r: Result<seq<Filter>>)
    ensures r.Ok? <==> forall i :: 0 <= i < |names| ==> FromString(names[i]).Ok?
    ensures r.Ok? ==> |r.value| == |names|
    ensures r.Ok? ==> forall i :: 0 <= i < |names| ==> r.value[i] == FromString(names[i]).value
    ensures r.Err? ==> exists i :: FirstUnknown(names, i) && r.error == FromString(names[i]).error
  {
    if names == [] then Ok([])
    else
      match FromString(names[0])
      case Err(e) => Err(e)
      case Ok(f) =>
        match FromStrings(names[1..])
        case Err(e) =>
          var i :| FirstUnknown(names[1..], i) && e == FromString(names[1..][i]).error;
          assert FirstUnknown(names, i + 1);
          Err(e)
        case Ok(fs) => Ok([f] + fs)
  }

  /** A known name in front of known names adds its filter in front. */
  lemma FromStringsPrepend(name: string, f: Filter, rest: seq<string>, fs: seq<Filter>)
    requires FromString(name) == Ok(f) && FromStrings(rest) == Ok(fs)
    ensures FromStrings([name] + rest) == Ok([f] + fs)
  {
    assert ([name] + rest)[1..] == rest;
  }

  /** `create_filters` */
  function CreateFilters(names: FilterNames): (r: Result<seq<Filter>>)
    ensures r == FromStrings(NameSeq(names))
  {
    FromStrings(NameSeq(names))
  }

  lemma NoCommaInNoStringTypeFilter()
    ensures ',' !in "NoStringTypeFilter"
  {
  }

  lemma NoCommaInEmptyFilter()
    ensures ',' !in "EmptyFilter"
  {
  }

  lemma DefaultSplit()
    ensures Split("NoStringTypeFilter" + "," + "EmptyFilter", ',') == ["NoStringTypeFilter", "EmptyFilter"]
  {
    NoCommaInNoStringTypeFilter();
    NoCommaInEmptyFilter();
    SplitTwo("NoStringTypeFilter", "EmptyFilter", ',');
  }

  lemma FromStringEmptyFilter()
    ensures FromString("EmptyFilter") == Ok(EmptyFilter)
  {
    FromStringCases("EmptyFilter");
    EmptyFilterLowered();
  }

  lemma FromStringNoStringTypeFilter()
    ensures FromString("NoStringTypeFilter") == Ok(NoStringTypeFilter)
  {
    FromStringCases("NoStringTypeFilter");
    NoStringTypeFilterLowered();
  }

  lemma DefaultNames()
    ensures FromStrings(["NoStringTypeFilter", "EmptyFilter"]) == Ok([NoStringTypeFilter, EmptyFilter])
  {
    FromStringEmptyFilter();
    FromStringNoStringTypeFilter();
    FromStringsPrepend("EmptyFilter", EmptyFilter, [], []);
    assert ["EmptyFilter"] + [] == ["EmptyFilter"] && [EmptyFilter] + [] == [EmptyFilter];
    FromStringsPrepend("NoStringTypeFilter", NoStringTypeFilter, ["EmptyFilter"], [EmptyFilter]);
    assert ["NoStringTypeFilter"] + ["EmptyFilter"] == ["NoStringTypeFilter", "EmptyFilter"];
    assert [NoStringTypeFilter] + [EmptyFilter] == [NoStringTypeFilter, EmptyFilter];
  }

  /**
   * The dataset command's default option value, "NoStringTypeFilter,EmptyFilter", names the two
   * filters in the order they then run.
   */
  lemma DefaultFilters()
    ensures CreateFilters(CommaSeparated("NoStringTypeFilter" + "," + "EmptyFilter")) == Ok([NoStringTypeFilter, EmptyFilter])
  {
    DefaultSplit();
    DefaultNames();
  }
}
