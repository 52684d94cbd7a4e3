/**
 * The dataset's entity model: Dataset > Repository > Module > Function / Class > Method >
 * Parameter, the `from_dict` constructors that rebuild it from decoded JSON, the `asdict`
 * encoding it is saved with, the left-to-right filter fold, and the recursive sort by name.
 *
 * The older structure module and the current one declare the same entities with the same
 * constructors and the same fold; both are modelled by the definitions below. Only the current
 * one sorts, and only its loader sorts after loading (see LegacyStructure for the older loader).
 */
module Structure {
  import opened Common
  import opened PyDict
  import opened JsonData
  import opened Ordering
  import opened Text

  datatype Parameter = Parameter(name: string, lineNumber: int, colOffset: int, paramType: Option<string>)

  /** A function or method. `annotations` is `str | None`, "" unless stated otherwise. */
  datatype Callable = Callable(
    name: string,
    lineNumber: int,
    colOffset: int,
    parameters: seq<Parameter>,
    returnType: Option<string>,
    body: string,
    signature: string,
    fullSignature: string,
    annotations: Option<string>)

  /** A standalone function adds nothing to the fields of a callable. */
  type Function = Callable

  datatype Method = Method(callable: Callable, isConstructor: bool)

  datatype Class = Class(name: string, methods: seq<Method>, superclasses: seq<string>, fields: seq<string>)

  /** `filePath` is the module's path relative to the repository root, in its string form. */
  datatype Module = Module(name: string, filePath: string, functions: seq<Function>, classes: seq<Class>)

  datatype Repository = Repository(
    name: string,
    url: string,
    pypiTag: Option<string>,
    gitCommitHash: string,
    modules: seq<Module>)

  datatype Dataset = Dataset(repositories: seq<Repository>)

  // ---------------------------------------------------------------------------------------
  // from_dict

  function ParameterFromJson(j: Json): (r: Result<Parameter>)
    ensures r.Ok? ==> j.JObj?
    ensures j.JObj? && Get(j.fields, "name").None? ==> r.Err?
    ensures r.Ok? && Get(j.fields, "type").None? ==> r.value.paramType == None
  {
    if !j.JObj? then Err("TypeError: expected an object")
    else
      var d := j.fields;
      var name :- RequiredString(d, "name");
      var line :- RequiredInt(d, "line_number");
      var col :- RequiredInt(d, "col_offset");
      var t :- OptionalString(d, "type", None);
      Ok(Parameter(name, line, col, t))
  }

  /** `Callable.from_dict`, which `Function.from_dict` reuses unchanged. */
  function CallableFromJson(j: Json): (r: Result<Callable>)
    ensures r.Ok? ==> j.JObj?
    ensures j.JObj? && Get(j.fields, "name").None? ==> r.Err?
    ensures j.JObj? && Get(j.fields, "body").None? ==> r.Err?
    ensures j.JObj? && Get(j.fields, "signature").None? ==> r.Err?
    ensures j.JObj? && Get(j.fields, "full_signature").None? ==> r.Err?
    ensures r.Ok? && Get(j.fields, "parameters").None? ==> r.value.parameters == []
    ensures r.Ok? && Get(j.fields, "return_type").None? ==> r.value.returnType == None
    ensures r.Ok? && Get(j.fields, "annotations").None? ==> r.value.annotations == Some("")
  {
    if !j.JObj? then Err("TypeError: expected an object")
    else
      var d := j.fields;
      var name :- RequiredString(d, "name");
      var line :- RequiredInt(d, "line_number");
      var col :- RequiredInt(d, "col_offset");
      var items :- ListOrEmpty(d, "parameters");
      var params :- AllOk(ParameterFromJson, items);
      var rt :- OptionalString(d, "return_type", None);
      var body :- RequiredString(d, "body");
      var sig :- RequiredString(d, "signature");
      var full :- RequiredString(d, "full_signature");
      var ann :- OptionalString(d, "annotations", Some(""));
      Ok(Callable(name, line, col, params, rt, body, sig, full, ann))
  }

  function MethodFromJson(j: Json): (r: Result<Method>)
    ensures r.Ok? <==>
      CallableFromJson(j).Ok? &&
      (Get(j.fields, "is_constructor").None? || Get(j.fields, "is_constructor").value.JBool?)
    ensures r.Ok? ==> r.value.callable == CallableFromJson(j).value
    ensures r.Ok? && Get(j.fields, "is_constructor").None? ==> !r.value.isConstructor
  {
    var c :- CallableFromJson(j);
    match Get(j.fields, "is_constructor")
    case None => Ok(Method(c, false))
    case Some(v) => if v.JBool? then Ok(Method(c, v.b)) else Err("TypeError: expected a boolean")
  }

  /** `data.get(key, [])` for a list of strings that is stored as it is. */
  function StringList(d: Dict<string, Json>, key: string): (r: Result<seq<string>>)
    ensures Get(d, key).None? ==> r == Ok([])
  {
    match Get(d, key)
    case None => Ok([])
    case Some(v) => if v.JArr? then AllOk(AsString, v.items) else Err("TypeError: expected a list")
  }

  function ClassFromJson(j: Json): (r: Result<Class>)
    ensures r.Ok? ==> j.JObj?
    ensures j.JObj? && Get(j.fields, "name").None? ==> r.Err?
    ensures r.Ok? && Get(j.fields, "methods").None? ==> r.value.methods == []
    ensures r.Ok? && Get(j.fields, "superclasses").None? ==> r.value.superclasses == []
    ensures r.Ok? && Get(j.fields, "fields").None? ==> r.value.fields == []
  {
    if !j.JObj? then Err("TypeError: expected an object")
    else
      var d := j.fields;
      var name :- RequiredString(d, "name");
      var items :- ListOrEmpty(d, "methods");
      var methods :- AllOk(MethodFromJson, items);
      var supers :- StringList(d, "superclasses");
      var fields :- StringList(d, "fields");
      Ok(Class(name, methods, supers, fields))
  }

  /** `Module.from_dict`: the stored path goes through `Path`, so it comes back in its normal form. */
  function ModuleFromJson(j: Json): (r: Result<Module>)
    ensures r.Ok? ==> j.JObj?
    ensures j.JObj? && Get(j.fields, "name").None? ==> r.Err?
    ensures j.JObj? && Get(j.fields, "file_path").None? ==> r.Err?
    ensures r.Ok? ==>
      Get(j.fields, "file_path").Some? && Get(j.fields, "file_path").value.JStr? &&
      r.value.filePath == PathStr(Get(j.fields, "file_path").value.s)
    ensures r.Ok? ==> IsPathStr(r.value.filePath)
    ensures r.Ok? && Get(j.fields, "functions").None? ==> r.value.functions == []
    ensures r.Ok? && Get(j.fields, "classes").None? ==> r.value.classes == []
  {
    if !j.JObj? then Err("TypeError: expected an object")
    else
      var d := j.fields;
      var name :- RequiredString(d, "name");
      var path :- RequiredString(d, "file_path");
      var fitems :- ListOrEmpty(d, "functions");
      var functions :- AllOk(CallableFromJson, fitems);
      var citems :- ListOrEmpty(d, "classes");
      var classes :- AllOk(ClassFromJson, citems);
      PathStrIdempotent(path);
      Ok(Module(name, PathStr(path), functions, classes))
  }

  /** Every module path of the repository is the string form of a `Path`, as decoding leaves it. */
  predicate PathsNormal(r: Repository) {
    forall k :: 0 <= k < |r.modules| ==> IsPathStr(r.modules[k].filePath)
  }

  function RepositoryFromJson(j: Json): (r: Result<Repository>)
    ensures r.Ok? ==> j.JObj?
    ensures r.Ok? ==> PathsNormal(r.value)
    ensures j.JObj? && Get(j.fields, "name").None? ==> r.Err?
    ensures j.JObj? && Get(j.fields, "pypi_tag").None? ==> r.Err?
    ensures j.JObj? && Get(j.fields, "url").None? ==> r.Err?
    ensures j.JObj? && Get(j.fields, "git_commit_hash").None? ==> r.Err?
    ensures r.Ok? && Get(j.fields, "modules").None? ==> r.value.modules == []
  {
    if !j.JObj? then Err("TypeError: expected an object")
    else
      var d := j.fields;
      var name :- RequiredString(d, "name");
      var tag :- Required(d, "pypi_tag");
      var pypiTag :- AsOptString(tag);
      var url :- RequiredString(d, "url");
      var hash :- RequiredString(d, "git_commit_hash");
      var items :- ListOrEmpty(d, "modules");
      var modules :- AllOk(ModuleFromJson, items);
      Ok(Repository(name, url, pypiTag, hash, modules))
  }

  /** `[Repository.from_dict(repo) for repo in data]` over the decoded file. */
  function RepositoryListFromJson(data: Json): (r: Result<seq<Repository>>)
    ensures data.JArr? && r.Ok? ==> |r.value| == |data.items|
    ensures data.JArr? && r.Ok? ==> forall i :: 0 <= i < |data.items| ==>
      RepositoryFromJson(data.items[i]) == Ok(r.value[i])
    ensures r.Ok? ==> forall i :: 0 <= i < |r.value| ==> PathsNormal(r.value[i])
  {
    var items :- Iterate(data);
    var r := AllOk(RepositoryFromJson, items);
    assert r.Ok? ==> forall i :: 0 <= i < |r.value| ==> RepositoryFromJson(items[i]) == Ok(r.value[i]);
    r
  }

  // ---------------------------------------------------------------------------------------
  // asdict, with the module path written as a string

  function ParameterToJson(p: Parameter): Json {
    JObj([("name", JStr(p.name)), ("line_number", JInt(p.lineNumber)),
          ("col_offset", JInt(p.colOffset)), ("type", FromOptString(p.paramType))])
  }

  function CallableToJson(c: Callable): Json {
    JObj([("name", JStr(c.name)), ("line_number", JInt(c.lineNumber)), ("col_offset", JInt(c.colOffset)),
          ("parameters", JArr(Map(ParameterToJson, c.parameters))),
          ("return_type", FromOptString(c.returnType)), ("body", JStr(c.body)),
          ("signature", JStr(c.signature)), ("full_signature", JStr(c.fullSignature)),
          ("annotations", FromOptString(c.annotations))])
  }

  /** The callable's fields followed by `is_constructor`, in declaration order. */
  function MethodToJson(m: Method): Json {
    var c := m.callable;
    JObj([("name", JStr(c.name)), ("line_number", JInt(c.lineNumber)), ("col_offset", JInt(c.colOffset)),
          ("parameters", JArr(Map(ParameterToJson, c.parameters))),
          ("return_type", FromOptString(c.returnType)), ("body", JStr(c.body)),
          ("signature", JStr(c.signature)), ("full_signature", JStr(c.fullSignature)),
          ("annotations", FromOptString(c.annotations)), ("is_constructor", JBool(m.isConstructor))])
  }

  function StrToJson(s: string): Json {
    JStr(s)
  }

  function ClassToJson(c: Class): Json {
    JObj([("name", JStr(c.name)), ("methods", JArr(Map(MethodToJson, c.methods))),
          ("superclasses", JArr(Map(StrToJson, c.superclasses))),
          ("fields", JArr(Map(StrToJson, c.fields)))])
  }

  function ModuleToJson(m: Module): Json {
    JObj([("name", JStr(m.name)), ("file_path", JStr(m.filePath)),
          ("functions", JArr(Map(CallableToJson, m.functions))),
          ("classes", JArr(Map(ClassToJson, m.classes)))])
  }

  function RepositoryToJson(r: Repository): Json {
    JObj([("name", JStr(r.name)), ("url", JStr(r.url)), ("pypi_tag", FromOptString(r.pypiTag)),
          ("git_commit_hash", JStr(r.gitCommitHash)),
          ("modules", JArr(Map(ModuleToJson, r.modules)))])
  }

  /** What `save_to_json_file` writes: a bare list of repositories, not a Dataset object. */
  function SaveToJson(repositories: seq<Repository>): Json {
    JArr(Map(RepositoryToJson, repositories))
  }

  // ---------------------------------------------------------------------------------------
  // from_dict inverts asdict

  lemma ParameterRoundTrip(p: Parameter)
    ensures ParameterFromJson(ParameterToJson(p)) == Ok(p)
  {
    var d := ParameterToJson(p).fields;
    assert UniqueKeys(d);
    GetUnique(d, 0);
    GetUnique(d, 1);
    GetUnique(d, 2);
    GetUnique(d, 3);
  }

  /** A dict that holds a callable's encoded fields under their keys decodes to that callable. */
  lemma CallableDecode(c: Callable, d: Dict<string, Json>)
    requires Get(d, "name") == Some(JStr(c.name))
    requires Get(d, "line_number") == Some(JInt(c.lineNumber))
    requires Get(d, "col_offset") == Some(JInt(c.colOffset))
    requires Get(d, "parameters") == Some(JArr(Map(ParameterToJson, c.parameters)))
    requires Get(d, "return_type") == Some(FromOptString(c.returnType))
    requires Get(d, "body") == Some(JStr(c.body))
    requires Get(d, "signature") == Some(JStr(c.signature))
    requires Get(d, "full_signature") == Some(JStr(c.fullSignature))
    requires Get(d, "annotations") == Some(FromOptString(c.annotations))
    ensures CallableFromJson(JObj(d)) == Ok(c)
  {
    ParametersRoundTrip(c.parameters);
  }

  lemma CallableRoundTrip(c: Callable)
    ensures CallableFromJson(CallableToJson(c)) == Ok(c)
  {
    var d := CallableToJson(c).fields;
    assert UniqueKeys(d);
    GetUnique(d, 0);
    GetUnique(d, 1);
    GetUnique(d, 2);
    GetUnique(d, 3);
    GetUnique(d, 4);
    GetUnique(d, 5);
    GetUnique(d, 6);
    GetUnique(d, 7);
    GetUnique(d, 8);
    CallableDecode(c, d);
  }

  lemma MethodRoundTrip(m: Method)
    ensures MethodFromJson(MethodToJson(m)) == Ok(m)
  {
    var d := MethodToJson(m).fields;
    assert UniqueKeys(d);
    GetUnique(d, 0);
    GetUnique(d, 1);
    GetUnique(d, 2);
    GetUnique(d, 3);
    GetUnique(d, 4);
    GetUnique(d, 5);
    GetUnique(d, 6);
    GetUnique(d, 7);
    GetUnique(d, 8);
    GetUnique(d, 9);
    CallableDecode(m.callable, d);
  }

  lemma ClassRoundTrip(c: Class)
    ensures ClassFromJson(ClassToJson(c)) == Ok(c)
  {
    var d := ClassToJson(c).fields;
    assert UniqueKeys(d);
    assert RequiredString(d, "name") == Ok(c.name) by {
      GetUnique(d, 0);
    }
    assert ListOrEmpty(d, "methods") == Ok(Map(MethodToJson, c.methods)) by {
      GetUnique(d, 1);
    }
    MethodsRoundTrip(c.methods);
    assert StringList(d, "superclasses") == Ok(c.superclasses) by {
      GetUnique(d, 2);
      AllOkRoundTrip(AsString, StrToJson, c.superclasses);
    }
    assert StringList(d, "fields") == Ok(c.fields) by {
      GetUnique(d, 3);
      AllOkRoundTrip(AsString, StrToJson, c.fields);
    }
  }

  lemma ModuleRoundTrip(m: Module)
    requires IsPathStr(m.filePath)
    ensures ModuleFromJson(ModuleToJson(m)) == Ok(m)
  {
    var d := ModuleToJson(m).fields;
    assert UniqueKeys(d);
    assert RequiredString(d, "name") == Ok(m.name) by {
      GetUnique(d, 0);
    }
    assert RequiredString(d, "file_path") == Ok(m.filePath) by {
      GetUnique(d, 1);
    }
    assert ListOrEmpty(d, "functions") == Ok(Map(CallableToJson, m.functions)) by {
      GetUnique(d, 2);
    }
    FunctionsRoundTrip(m.functions);
    assert ListOrEmpty(d, "classes") == Ok(Map(ClassToJson, m.classes)) by {
      GetUnique(d, 3);
    }
    ClassesRoundTrip(m.classes);
  }

  lemma RepositoryRoundTrip(r: Repository)
    requires PathsNormal(r)
    ensures RepositoryFromJson(RepositoryToJson(r)) == Ok(r)
  {
    RepositoryFieldsRead(r);
    ModulesRoundTrip(r.modules);
    RepositoryFromFields(RepositoryToJson(r), r, Map(ModuleToJson, r.modules));
  }

  /** Each field of an encoded repository reads back as the repository's own. */
  lemma RepositoryFieldsRead(r: Repository)
    ensures var d := RepositoryToJson(r).fields;
      RequiredString(d, "name") == Ok(r.name) &&
      Required(d, "pypi_tag") == Ok(FromOptString(r.pypiTag)) &&
      RequiredString(d, "url") == Ok(r.url) &&
      RequiredString(d, "git_commit_hash") == Ok(r.gitCommitHash) &&
      ListOrEmpty(d, "modules") == Ok(Map(ModuleToJson, r.modules))
  {
    var d := RepositoryToJson(r).fields;
    assert UniqueKeys(d);
    assert RequiredString(d, "name") == Ok(r.name) by {
      GetUnique(d, 0);
    }
    assert Required(d, "pypi_tag") == Ok(FromOptString(r.pypiTag)) by {
      GetUnique(d, 2);
    }
    assert RequiredString(d, "url") == Ok(r.url) by {
      GetUnique(d, 1);
    }
    assert RequiredString(d, "git_commit_hash") == Ok(r.gitCommitHash) by {
      GetUnique(d, 3);
    }
    assert ListOrEmpty(d, "modules") == Ok(Map(ModuleToJson, r.modules)) by {
      GetUnique(d, 4);
    }
  }

  /** A repository object whose fields each decode to the repository's own decodes to it. */
  lemma RepositoryFromFields(j: Json, r: Repository, items: seq<Json>)
    requires j.JObj?
    requires RequiredString(j.fields, "name") == Ok(r.name)
    requires Required(j.fields, "pypi_tag") == Ok(FromOptString(r.pypiTag))
    requires RequiredString(j.fields, "url") == Ok(r.url)
    requires RequiredString(j.fields, "git_commit_hash") == Ok(r.gitCommitHash)
    requires ListOrEmpty(j.fields, "modules") == Ok(items)
    requires AllOk(ModuleFromJson, items) == Ok(r.modules)
    ensures RepositoryFromJson(j) == Ok(r)
  {
  }

  lemma ParametersRoundTrip(ps: seq<Parameter>)
    ensures AllOk(ParameterFromJson, Map(ParameterToJson, ps)) == Ok(ps)
  {
    forall i | 0 <= i < |ps| ensures ParameterFromJson(ParameterToJson(ps[i])) == Ok(ps[i]) {
      ParameterRoundTrip(ps[i]);
    }
    AllOkRoundTrip(ParameterFromJson, ParameterToJson, ps);
  }

  lemma MethodsRoundTrip(ms: seq<Method>)
    ensures AllOk(MethodFromJson, Map(MethodToJson, ms)) == Ok(ms)
  {
    forall i | 0 <= i < |ms| ensures MethodFromJson(MethodToJson(ms[i])) == Ok(ms[i]) {
      MethodRoundTrip(ms[i]);
    }
    AllOkRoundTrip(MethodFromJson, MethodToJson, ms);
  }

  lemma FunctionsRoundTrip(fs: seq<Function>)
    ensures AllOk(CallableFromJson, Map(CallableToJson, fs)) == Ok(fs)
  {
    forall i | 0 <= i < |fs| ensures CallableFromJson(CallableToJson(fs[i])) == Ok(fs[i]) {
      CallableRoundTrip(fs[i]);
    }
    AllOkRoundTrip(CallableFromJson, CallableToJson, fs);
  }

  lemma ClassesRoundTrip(cs: seq<Class>)
    ensures AllOk(ClassFromJson, Map(ClassToJson, cs)) == Ok(cs)
  {
    forall i | 0 <= i < |cs| ensures ClassFromJson(ClassToJson(cs[i])) == Ok(cs[i]) {
      ClassRoundTrip(cs[i]);
    }
    AllOkRoundTrip(ClassFromJson, ClassToJson, cs);
  }

  lemma ModulesRoundTrip(ms: seq<Module>)
    requires forall k :: 0 <= k < |ms| ==> IsPathStr(ms[k].filePath)
    ensures AllOk(ModuleFromJson, Map(ModuleToJson, ms)) == Ok(ms)
  {
    forall i | 0 <= i < |ms| ensures ModuleFromJson(ModuleToJson(ms[i])) == Ok(ms[i]) {
      ModuleRoundTrip(ms[i]);
    }
    AllOkRoundTrip(ModuleFromJson, ModuleToJson, ms);
  }

  /** Loading what was saved gives back the same repositories, in the order they were saved. */
  lemma RepositoryListRoundTrip(repositories: seq<Repository>)
    requires forall i :: 0 <= i < |repositories| ==> PathsNormal(repositories[i])
    ensures RepositoryListFromJson(SaveToJson(repositories)) == Ok(repositories)
  {
    forall i | 0 <= i < |repositories|
      ensures RepositoryFromJson(RepositoryToJson(repositories[i])) == Ok(repositories[i])
    {
      RepositoryRoundTrip(repositories[i]);
    }
    AllOkRoundTrip(RepositoryFromJson, RepositoryToJson, repositories);
  }

  /** Whatever a file decodes to saves and decodes back unchanged: decoding leaves every path normal. */
  lemma SaveAfterLoad(data: Json)
    requires RepositoryListFromJson(data).Ok?
    ensures RepositoryListFromJson(SaveToJson(RepositoryListFromJson(data).value)) == RepositoryListFromJson(data)
  {
    RepositoryListRoundTrip(RepositoryListFromJson(data).value);
  }

  // ---------------------------------------------------------------------------------------
  // Repository.apply

  /**
   * The repository after running `filters` in list order, each on the previous one's output;
   * `run(f, r)` is what filter `f` returns for `r`.
   */
  function Pipeline<F>(filters: seq<F>, r: Repository, run: (F, Repository) -> Repository): Repository {
    if filters == [] then r
    else run(filters[|filters| - 1], Pipeline(filters[..|filters| - 1], r, run))
  }

  /** `Repository.apply`: rebinds the repository to each filter's result in turn. */
  method Apply<F>(r: Repository, filters: seq<F>, run: (F, Repository) -> Repository) returns (out: Repository)
    ensures out == Pipeline(filters, r, run)
  {
    out := r;
    for i := 0 to |filters|
      invariant out == Pipeline(filters[..i], r, run)
    {
      assert filters[..i + 1][..i] == filters[..i];
      out := run(filters[i], out);
    }
    assert filters[..|filters|] == filters;
  }

  /** Running two lists of filters one after the other is running their concatenation. */
  lemma {:induction false} PipelineAppend<F>(a: seq<F>, b: seq<F>, r: Repository, run: (F, Repository) -> Repository)
    ensures Pipeline(a + b, r, run) == Pipeline(b, Pipeline(a, r, run), run)
    decreases |b|
  {
    if b == [] {
      assert a + b == a;
    } else {
      assert (a + b)[..|a + b| - 1] == a + b[..|b| - 1];
      PipelineAppend(a, b[..|b| - 1], r, run);
    }
  }

  /** The first filter sees the original repository; the rest see its output. */
  lemma PipelineFirst<F>(f: F, rest: seq<F>, r: Repository, run: (F, Repository) -> Repository)
    ensures Pipeline([f] + rest, r, run) == Pipeline(rest, run(f, r), run)
  {
    PipelineAppend([f], rest, r, run);
    assert [f][..0] == [];
  }

  // ---------------------------------------------------------------------------------------
  // sort: every `__lt__` compares names only

  function ParamName(p: Parameter): string { p.name }
  function CallableName(c: Callable): string { c.name }
  function MethodName(m: Method): string { m.callable.name }
  function ClassName(c: Class): string { c.name }
  function ModuleName(m: Module): string { m.name }
  function RepositoryName(r: Repository): string { r.name }
  /** Superclass and field names sort as plain strings. */
  function Self(s: string): string { s }

  function SortedCallable(c: Callable): Callable {
    c.(parameters := SortBy(c.parameters, ParamName))
  }

  function SortedMethod(m: Method): Method {
    m.(callable := SortedCallable(m.callable))
  }

  function SortedClass(c: Class): Class {
    c.(methods := SortBy(Map(SortedMethod, c.methods), MethodName),
       superclasses := SortBy(c.superclasses, Self),
       fields := SortBy(c.fields, Self))
  }

  function SortedModule(m: Module): Module {
    m.(functions := SortBy(Map(SortedCallable, m.functions), CallableName),
       classes := SortBy(Map(SortedClass, m.classes), ClassName))
  }

  function SortedRepository(r: Repository): Repository {
    r.(modules := SortBy(Map(SortedModule, r.modules), ModuleName))
  }

  function SortedDataset(d: Dataset): Dataset {
    d.(repositories := SortBy(Map(SortedRepository, d.repositories), RepositoryName))
  }

  /** `Callable.sort`, which methods inherit. */
  method SortCallable(c: Callable) returns (s: Callable)
    ensures s == SortedCallable(c)
  {
    s := c.(parameters := SortBy(c.parameters, ParamName));
  }

  method SortClass(c: Class) returns (s: Class)
    ensures s == SortedClass(c)
  {
    var methods := c.methods;
    MapInPlaceEnds(SortedMethod, c.methods);
    for i := 0 to |methods|
      invariant methods == Map(SortedMethod, c.methods[..i]) + c.methods[i..]
    {
      MapInPlaceStep(SortedMethod, c.methods, i);
      var sorted := SortCallable(methods[i].callable);
      methods := methods[i := methods[i].(callable := sorted)];
    }
    MapInPlaceEnds(SortedMethod, c.methods);
    s := c.(methods := SortBy(methods, MethodName),
            superclasses := SortBy(c.superclasses, Self),
            fields := SortBy(c.fields, Self));
  }

  method SortModule(m: Module) returns (s: Module)
    ensures s == SortedModule(m)
  {
    var functions := m.functions;
    MapInPlaceEnds(SortedCallable, m.functions);
    for i := 0 to |functions|
      invariant functions == Map(SortedCallable, m.functions[..i]) + m.functions[i..]
    {
      MapInPlaceStep(SortedCallable, m.functions, i);
      var f := SortCallable(functions[i]);
      functions := functions[i := f];
    }
    MapInPlaceEnds(SortedCallable, m.functions);
    var classes := m.classes;
    MapInPlaceEnds(SortedClass, m.classes);
    for i := 0 to |classes|
      invariant classes == Map(SortedClass, m.classes[..i]) + m.classes[i..]
    {
      MapInPlaceStep(SortedClass, m.classes, i);
      var c := SortClass(classes[i]);
      classes := classes[i := c];
    }
    MapInPlaceEnds(SortedClass, m.classes);
    s := m.(functions := SortBy(functions, CallableName), classes := SortBy(classes, ClassName));
  }

  method SortRepository(r: Repository) returns (s: Repository)
    ensures s == SortedRepository(r)
  {
    var modules := r.modules;
    MapInPlaceEnds(SortedModule, r.modules);
    for i := 0 to |modules|
      invariant modules == Map(SortedModule, r.modules[..i]) + r.modules[i..]
    {
      MapInPlaceStep(SortedModule, r.modules, i);
      var m := SortModule(modules[i]);
      modules := modules[i := m];
    }
    MapInPlaceEnds(SortedModule, r.modules);
    s := r.(modules := SortBy(modules, ModuleName));
  }

  method SortDataset(d: Dataset) returns (s: Dataset)
    ensures s == SortedDataset(d)
  {
    var repositories := d.repositories;
    MapInPlaceEnds(SortedRepository, d.repositories);
    for i := 0 to |repositories|
      invariant repositories == Map(SortedRepository, d.repositories[..i]) + d.repositories[i..]
    {
      MapInPlaceStep(SortedRepository, d.repositories, i);
      var r := SortRepository(repositories[i]);
      repositories := repositories[i := r];
    }
    MapInPlaceEnds(SortedRepository, d.repositories);
    s := d.(repositories := SortBy(repositories, RepositoryName));
  }

  /** `load_from_json_file`: the decoded repositories, sorted at every level. */
  function LoadFromJson(data: Json): (r: Result<Dataset>)
    ensures r.Ok? <==> RepositoryListFromJson(data).Ok?
    ensures r.Ok? ==> DatasetSorted(r.value)
    ensures r.Ok? ==> r.value == SortedDataset(Dataset(RepositoryListFromJson(data).value))
  {
    var repositories :- RepositoryListFromJson(data);
    DatasetSortIsSorted(Dataset(repositories));
    Ok(SortedDataset(Dataset(repositories)))
  }

  /** Loading a saved list gives the sorted dataset of that list. */
  lemma LoadAfterSave(repositories: seq<Repository>)
    requires forall i :: 0 <= i < |repositories| ==> PathsNormal(repositories[i])
    ensures LoadFromJson(SaveToJson(repositories)) == Ok(SortedDataset(Dataset(repositories)))
  {
    RepositoryListRoundTrip(repositories);
  }

  // ---------------------------------------------------------------------------------------
  // Sortedness at every level

  ghost predicate CallableSorted(c: Callable) {
    SortedBy(c.parameters, ParamName)
  }

  ghost predicate ClassSorted(c: Class) {
    SortedBy(c.methods, MethodName) &&
    (forall m :: m in c.methods ==> CallableSorted(m.callable)) &&
    SortedBy(c.superclasses, Self) && SortedBy(c.fields, Self)
  }

  ghost predicate ModuleSorted(m: Module) {
    SortedBy(m.functions, CallableName) && (forall f :: f in m.functions ==> CallableSorted(f)) &&
    SortedBy(m.classes, ClassName) && (forall c :: c in m.classes ==> ClassSorted(c))
  }

  ghost predicate RepositorySorted(r: Repository) {
    SortedBy(r.modules, ModuleName) && forall m :: m in r.modules ==> ModuleSorted(m)
  }

  ghost predicate DatasetSorted(d: Dataset) {
    SortedBy(d.repositories, RepositoryName) && forall r :: r in d.repositories ==> RepositorySorted(r)
  }

  /** Every element of `SortBy(Map(f, s))` is `f` of an element of `s`. */
  lemma SortedMapElement<T>(f: T -> T, s: seq<T>, key: T -> string, y: T)
    requires y in SortBy(Map(f, s), key)
    ensures exists x :: x in s && y == f(x)
  {
    assert y in multiset(SortBy(Map(f, s), key));
    var i :| 0 <= i < |Map(f, s)| && Map(f, s)[i] == y;
    assert s[i] in s;
  }

  lemma ClassSortIsSorted(c: Class)
    ensures ClassSorted(SortedClass(c))
  {
    var s := SortedClass(c);
    SortByIsSorted(Map(SortedMethod, c.methods), MethodName);
    SortByIsSorted(c.superclasses, Self);
    SortByIsSorted(c.fields, Self);
    forall m | m in s.methods ensures CallableSorted(m.callable) {
      SortedMapElement(SortedMethod, c.methods, MethodName, m);
      var x :| x in c.methods && m == SortedMethod(x);
      SortByIsSorted(x.callable.parameters, ParamName);
    }
  }

  lemma ModuleSortIsSorted(m: Module)
    ensures ModuleSorted(SortedModule(m))
  {
    var s := SortedModule(m);
    SortByIsSorted(Map(SortedCallable, m.functions), CallableName);
    SortByIsSorted(Map(SortedClass, m.classes), ClassName);
    forall f | f in s.functions ensures CallableSorted(f) {
      SortedMapElement(SortedCallable, m.functions, CallableName, f);
      var x :| x in m.functions && f == SortedCallable(x);
      SortByIsSorted(x.parameters, ParamName);
    }
    forall c | c in s.classes ensures ClassSorted(c) {
      SortedMapElement(SortedClass, m.classes, ClassName, c);
      var x :| x in m.classes && c == SortedClass(x);
      ClassSortIsSorted(x);
    }
  }

  lemma RepositorySortIsSorted(r: Repository)
    ensures RepositorySorted(SortedRepository(r))
  {
    SortByIsSorted(Map(SortedModule, r.modules), ModuleName);
    forall m | m in SortedRepository(r).modules ensures ModuleSorted(m) {
      SortedMapElement(SortedModule, r.modules, ModuleName, m);
      var x :| x in r.modules && m == SortedModule(x);
      ModuleSortIsSorted(x);
    }
  }

  /** After `Dataset.sort` every list at every level is non-decreasing by name. */
  lemma DatasetSortIsSorted(d: Dataset)
    ensures DatasetSorted(SortedDataset(d))
  {
    SortByIsSorted(Map(SortedRepository, d.repositories), RepositoryName);
    forall r | r in SortedDataset(d).repositories ensures RepositorySorted(r) {
      SortedMapElement(SortedRepository, d.repositories, RepositoryName, r);
      var x :| x in d.repositories && r == SortedRepository(x);
      RepositorySortIsSorted(x);
    }
  }

  lemma ClassSortFixesSorted(c: Class)
    requires ClassSorted(c)
    ensures SortedClass(c) == c
  {
    forall m | m in c.methods ensures SortedMethod(m) == m {
      SortBySortedIsIdentity(m.callable.parameters, ParamName);
    }
    MapFixed(SortedMethod, c.methods);
    SortBySortedIsIdentity(c.methods, MethodName);
    SortBySortedIsIdentity(c.superclasses, Self);
    SortBySortedIsIdentity(c.fields, Self);
  }

  lemma ModuleSortFixesSorted(m: Module)
    requires ModuleSorted(m)
    ensures SortedModule(m) == m
  {
    forall f | f in m.functions ensures SortedCallable(f) == f {
      SortBySortedIsIdentity(f.parameters, ParamName);
    }
    forall c | c in m.classes ensures SortedClass(c) == c {
      ClassSortFixesSorted(c);
    }
    MapFixed(SortedCallable, m.functions);
    MapFixed(SortedClass, m.classes);
    SortBySortedIsIdentity(m.functions, CallableName);
    SortBySortedIsIdentity(m.classes, ClassName);
  }

  lemma RepositorySortFixesSorted(r: Repository)
    requires RepositorySorted(r)
    ensures SortedRepository(r) == r
  {
    forall m | m in r.modules ensures SortedModule(m) == m {
      ModuleSortFixesSorted(m);
    }
    MapFixed(SortedModule, r.modules);
    SortBySortedIsIdentity(r.modules, ModuleName);
  }

  /** A dataset that is already sorted at every level is left as it is. */
  lemma DatasetSortFixesSorted(d: Dataset)
    requires DatasetSorted(d)
    ensures SortedDataset(d) == d
  {
    forall r | r in d.repositories ensures SortedRepository(r) == r {
      RepositorySortFixesSorted(r);
    }
    MapFixed(SortedRepository, d.repositories);
    SortBySortedIsIdentity(d.repositories, RepositoryName);
  }

  /** Sorting twice is sorting once. */
  lemma DatasetSortIdempotent(d: Dataset)
    ensures SortedDataset(SortedDataset(d)) == SortedDataset(d)
  {
    DatasetSortIsSorted(d);
    DatasetSortFixesSorted(SortedDataset(d));
  }

  /**
   * At the top level the sort is a stable permutation of the (recursively sorted)
   * repositories: same elements, and equally named ones keep their relative order. The same
   * holds at every lower level (modules, functions, classes, methods, parameters), because
   * each of those lists is also sorted by SortBy: its own ensures gives the same multiset,
   * and Ordering.SortByIsStable keeps equally named elements in their relative order.
   */
  lemma DatasetSortPermutes(d: Dataset, name: string)
    ensures multiset(SortedDataset(d).repositories) == multiset(Map(SortedRepository, d.repositories))
    ensures KeyFilter(SortedDataset(d).repositories, RepositoryName, name)
         == KeyFilter(Map(SortedRepository, d.repositories), RepositoryName, name)
  {
    SortByIsStable(Map(SortedRepository, d.repositories), RepositoryName, name);
  }

  /** Sorting never changes a repository's own fields, only the order inside its lists. */
  lemma RepositorySortKeepsMetadata(r: Repository)
    ensures var s := SortedRepository(r);
      s.name == r.name && s.url == r.url && s.pypiTag == r.pypiTag &&
      s.gitCommitHash == r.gitCommitHash && |s.modules| == |r.modules|
  {
  }
}
