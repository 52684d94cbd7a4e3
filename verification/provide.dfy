/**
 * Providing the dataset's code: one file per method and per function, named after the
 * repository, module, class and callable, plus a requirements file per repository.
 *
 * Writing files is modelled as producing the list of writes in the order they happen. The
 * concrete-syntax rewriter that strips type annotations is a parameter: it either yields the
 * rewritten text or fails to parse.
 */
module Provide {
  import opened Common
  import opened Text
  import opened Structure
  import opened PynguinXml

  /** One file written: its path below the output directory and its text. */
  datatype Write = Write(path: string, code: string)

  // ---------------------------------------------------------------------------------------
  // Paths

  /** `method_path`: the `Path` of `repo/module/class/method.py`, printed in its normal form. */
  function MethodPath(repo: Repository, mod: Module, cls: Class, m: Method): string {
    PathStr(repo.name + "/" + mod.name + "/" + cls.name + "/" + (m.callable.name + ".py"))
  }

  /** `function_path`: the `Path` of `repo/module/function.py`, printed in its normal form. */
  function FunctionPath(repo: Repository, mod: Module, f: Function): string {
    PathStr(repo.name + "/" + mod.name + "/" + (f.name + ".py"))
  }

  /** A name that stands for exactly one path component: not empty, not `.`, and free of `/`. */
  predicate OneComponent(name: string) {
    ProperPart(name) && '/' !in name
  }

  /** A callable's file name is always one component when its name is free of `/`. */
  lemma PyFileComponent(name: string)
    requires '/' !in name
    ensures OneComponent(name + ".py")
  {
    NoSlashInPyFile(name);
    assert |name + ".py"| >= 3;
  }

  /** With one-component names, a method's file sits three directories deep: repository, module, class. */
  lemma MethodPathParts(repo: Repository, mod: Module, cls: Class, m: Method)
    requires OneComponent(repo.name) && OneComponent(mod.name) && OneComponent(cls.name)
    requires '/' !in m.callable.name
    ensures MethodPath(repo, mod, cls, m) == repo.name + "/" + mod.name + "/" + cls.name + "/" + (m.callable.name + ".py")
    ensures Split(MethodPath(repo, mod, cls, m), '/') == [repo.name, mod.name, cls.name, m.callable.name + ".py"]
  {
    PyFileComponent(m.callable.name);
    FourComponents(repo.name, mod.name, cls.name, m.callable.name + ".py");
  }

  /** With one-component names, a function's file sits two directories deep: repository, module. */
  lemma FunctionPathParts(repo: Repository, mod: Module, f: Function)
    requires OneComponent(repo.name) && OneComponent(mod.name) && '/' !in f.name
    ensures FunctionPath(repo, mod, f) == repo.name + "/" + mod.name + "/" + (f.name + ".py")
    ensures Split(FunctionPath(repo, mod, f), '/') == [repo.name, mod.name, f.name + ".py"]
  {
    PyFileComponent(f.name);
    ThreeComponents(repo.name, mod.name, f.name + ".py");
  }

  /** With one-component names, a method's file and a function's file never coincide. */
  lemma MethodAndFunctionPathsDiffer(repo: Repository, mod: Module, cls: Class, m: Method,
                                     repo': Repository, mod': Module, f: Function)
    requires OneComponent(repo.name) && OneComponent(mod.name) && OneComponent(cls.name)
    requires '/' !in m.callable.name
    requires OneComponent(repo'.name) && OneComponent(mod'.name) && '/' !in f.name
    ensures MethodPath(repo, mod, cls, m) != FunctionPath(repo', mod', f)
  {
    MethodPathParts(repo, mod, cls, m);
    FunctionPathParts(repo', mod', f);
  }

  /**
   * A module named `.` (the stem of a file named `..py`) adds no directory: the method `m` of
   * class `C` in it is saved to the same file as the function `m` of a module named `C`.
   */
  lemma DotModuleSharesFile(repo: Repository, mod: Module, cls: Class, m: Method, mod': Module, f: Function)
    requires OneComponent(repo.name) && OneComponent(cls.name) && '/' !in m.callable.name
    requires mod.name == "." && mod'.name == cls.name && f.name == m.callable.name
    ensures MethodPath(repo, mod, cls, m) == FunctionPath(repo, mod', f)
  {
    PyFileComponent(m.callable.name);
    DotComponentDropped(repo.name, cls.name, m.callable.name + ".py");
    FunctionPathParts(repo, mod', f);
  }

  /** With one-component names, two methods share a file only when all four names agree. */
  lemma MethodPathInjective(repo: Repository, mod: Module, cls: Class, m: Method,
                            repo': Repository, mod': Module, cls': Class, m': Method)
    requires OneComponent(repo.name) && OneComponent(mod.name) && OneComponent(cls.name)
    requires '/' !in m.callable.name
    requires OneComponent(repo'.name) && OneComponent(mod'.name) && OneComponent(cls'.name)
    requires '/' !in m'.callable.name
    requires MethodPath(repo, mod, cls, m) == MethodPath(repo', mod', cls', m')
    ensures repo.name == repo'.name && mod.name == mod'.name && cls.name == cls'.name
    ensures m.callable.name == m'.callable.name
  {
    MethodPathParts(repo, mod, cls, m);
    MethodPathParts(repo', mod', cls', m');
    var a, b := m.callable.name + ".py", m'.callable.name + ".py";
    assert a[..|a| - 3] == m.callable.name && b[..|b| - 3] == m'.callable.name;
  }

  // ---------------------------------------------------------------------------------------
  // Saving

  /**
   * `remove_type_annotations`: the rewriter's output, or the code unchanged when the
   * rewriter fails (the failure is only reported on the console).
   */
  function RemoveTypeAnnotations(code: string, rewrite: string -> Result<string>): (r: string)
    ensures rewrite(code).Err? ==> r == code
    ensures rewrite(code).Ok? ==> r == rewrite(code).value
  {
    match rewrite(code)
    case Ok(stripped) => stripped
    case Err(_) => code
  }

  /** `save_callable`: the text written is the code itself unless annotations are to be removed. */
  function SaveCallable(code: string, filePath: string, withoutTypeAnnotations: bool,
                        rewrite: string -> Result<string>): (w: Write)
    ensures w.path == filePath
    ensures !withoutTypeAnnotations ==> w.code == code
    ensures withoutTypeAnnotations ==> w.code == RemoveTypeAnnotations(code, rewrite)
  {
    var text := if withoutTypeAnnotations then RemoveTypeAnnotations(code, rewrite) else code;
    Write(filePath, text)
  }

  // ---------------------------------------------------------------------------------------
  // extract_callables

  function MethodWrite(repo: Repository, mod: Module, cls: Class, without: bool,
                       rewrite: string -> Result<string>): Method -> Write {
    (m: Method) => SaveCallable(m.callable.body, MethodPath(repo, mod, cls, m), without, rewrite)
  }

  function FunctionWrite(repo: Repository, mod: Module, without: bool,
                         rewrite: string -> Result<string>): Function -> Write {
    (f: Function) => SaveCallable(f.body, FunctionPath(repo, mod, f), without, rewrite)
  }

  /** A class's methods, in order. */
  function ClassWrites(repo: Repository, mod: Module, without: bool,
                       rewrite: string -> Result<string>): Class -> seq<Write> {
    (c: Class) => Map(MethodWrite(repo, mod, c, without, rewrite), c.methods)
  }

  /** A module's writes: every class's methods, class by class, then the functions. */
  function ModuleWrites(repo: Repository, without: bool, rewrite: string -> Result<string>): Module -> seq<Write> {
    (m: Module) => FlatMap(ClassWrites(repo, m, without, rewrite), m.classes) +
      Map(FunctionWrite(repo, m, without, rewrite), m.functions)
  }

  function RepositoryWrites(without: bool, rewrite: string -> Result<string>): Repository -> seq<Write> {
    (r: Repository) => FlatMap(ModuleWrites(r, without, rewrite), r.modules)
  }

  /** Every write of `extract_callables`, repository by repository, module by module. */
  function CallableWrites(d: Dataset, without: bool, rewrite: string -> Result<string>): seq<Write> {
    FlatMap(RepositoryWrites(without, rewrite), d.repositories)
  }

  /** The inner loop over a class's methods. */
  method ExtractClass(repo: Repository, mod: Module, cls: Class, without: bool,
                      rewrite: string -> Result<string>) returns (writes: seq<Write>)
    ensures writes == ClassWrites(repo, mod, without, rewrite)(cls)
  {
    writes := [];
    for k := 0 to |cls.methods|
      invariant writes == Map(MethodWrite(repo, mod, cls, without, rewrite), cls.methods[..k])
    {
      var m := cls.methods[k];
      MapPrefixStep(MethodWrite(repo, mod, cls, without, rewrite), cls.methods, k);
      var code := m.callable.body;
      var filePath := MethodPath(repo, mod, cls, m);
      writes := writes + [SaveCallable(code, filePath, without, rewrite)];
    }
    assert cls.methods[..|cls.methods|] == cls.methods;
  }

  /** The loop over a module's classes. */
  method ExtractClasses(repo: Repository, mod: Module, without: bool,
                        rewrite: string -> Result<string>) returns (writes: seq<Write>)
    ensures writes == FlatMap(ClassWrites(repo, mod, without, rewrite), mod.classes)
  {
    writes := [];
    for j := 0 to |mod.classes|
      invariant writes == FlatMap(ClassWrites(repo, mod, without, rewrite), mod.classes[..j])
    {
      var classWrites := ExtractClass(repo, mod, mod.classes[j], without, rewrite);
      FlatMapPrefixStep(ClassWrites(repo, mod, without, rewrite), mod.classes, j);
      writes := writes + classWrites;
    }
    assert mod.classes[..|mod.classes|] == mod.classes;
  }

  /** The loop over a module's functions. */
  method ExtractFunctions(repo: Repository, mod: Module, without: bool,
                          rewrite: string -> Result<string>) returns (writes: seq<Write>)
    ensures writes == Map(FunctionWrite(repo, mod, without, rewrite), mod.functions)
  {
    writes := [];
    for k := 0 to |mod.functions|
      invariant writes == Map(FunctionWrite(repo, mod, without, rewrite), mod.functions[..k])
    {
      var f := mod.functions[k];
      MapPrefixStep(FunctionWrite(repo, mod, without, rewrite), mod.functions, k);
      var code := f.body;
      var filePath := FunctionPath(repo, mod, f);
      writes := writes + [SaveCallable(code, filePath, without, rewrite)];
    }
    assert mod.functions[..|mod.functions|] == mod.functions;
  }

  /** One module's turn: the classes' methods, then the functions. */
  method ExtractModule(repo: Repository, mod: Module, without: bool,
                       rewrite: string -> Result<string>) returns (writes: seq<Write>)
    ensures writes == ModuleWrites(repo, without, rewrite)(mod)
  {
    var methodWrites := ExtractClasses(repo, mod, without, rewrite);
    var functionWrites := ExtractFunctions(repo, mod, without, rewrite);
    writes := methodWrites + functionWrites;
  }

  /** One repository's turn: its modules in order. */
  method ExtractRepository(repo: Repository, without: bool, rewrite: string -> Result<string>)
    returns (writes: seq<Write>)
    ensures writes == RepositoryWrites(without, rewrite)(repo)
  {
    writes := [];
    for j := 0 to |repo.modules|
      invariant writes == FlatMap(ModuleWrites(repo, without, rewrite), repo.modules[..j])
    {
      var moduleWrites := ExtractModule(repo, repo.modules[j], without, rewrite);
      FlatMapPrefixStep(ModuleWrites(repo, without, rewrite), repo.modules, j);
      writes := writes + moduleWrites;
    }
    assert repo.modules[..|repo.modules|] == repo.modules;
  }

  /** `extract_callables`, returning the writes in the order they happen. */
  method ExtractCallables(d: Dataset, without: bool, rewrite: string -> Result<string>)
    returns (writes: seq<Write>)
    ensures writes == CallableWrites(d, without, rewrite)
  {
    writes := [];
    for i := 0 to |d.repositories|
      invariant writes == FlatMap(RepositoryWrites(without, rewrite), d.repositories[..i])
    {
      var repoWrites := ExtractRepository(d.repositories[i], without, rewrite);
      FlatMapPrefixStep(RepositoryWrites(without, rewrite), d.repositories, i);
      writes := writes + repoWrites;
    }
    assert d.repositories[..|d.repositories|] == d.repositories;
  }

  /** Whether `w` saves one of the module's class methods under its path. */
  ghost predicate IsMethodWrite(r: Repository, m: Module, without: bool, rewrite: string -> Result<string>, w: Write) {
    exists c, me :: c in m.classes && me in c.methods &&
      w == SaveCallable(me.callable.body, MethodPath(r, m, c, me), without, rewrite)
  }

  /** Whether `w` saves one of the module's functions under its path. */
  ghost predicate IsFunctionWrite(r: Repository, m: Module, without: bool, rewrite: string -> Result<string>, w: Write) {
    exists f :: f in m.functions && w == SaveCallable(f.body, FunctionPath(r, m, f), without, rewrite)
  }

  lemma MethodWritesAreMethodSaves(r: Repository, m: Module, without: bool, rewrite: string -> Result<string>, w: Write)
    requires w in FlatMap(ClassWrites(r, m, without, rewrite), m.classes)
    ensures IsMethodWrite(r, m, without, rewrite, w)
  {
    var cw := ClassWrites(r, m, without, rewrite);
    FlatMapMember(cw, m.classes, w);
    var i :| 0 <= i < |m.classes| && w in cw(m.classes[i]);
    var c := m.classes[i];
    var q :| 0 <= q < |c.methods| && w == MethodWrite(r, m, c, without, rewrite)(c.methods[q]);
    assert c in m.classes && c.methods[q] in c.methods;
  }

  lemma MethodSavesAreWritten(r: Repository, m: Module, without: bool, rewrite: string -> Result<string>, w: Write)
    requires IsMethodWrite(r, m, without, rewrite, w)
    ensures w in FlatMap(ClassWrites(r, m, without, rewrite), m.classes)
  {
    var cw := ClassWrites(r, m, without, rewrite);
    var c, me :| c in m.classes && me in c.methods &&
      w == SaveCallable(me.callable.body, MethodPath(r, m, c, me), without, rewrite);
    var i :| 0 <= i < |m.classes| && m.classes[i] == c;
    var q :| 0 <= q < |c.methods| && c.methods[q] == me;
    assert w in cw(m.classes[i]) by {
      var ws := Map(MethodWrite(r, m, c, without, rewrite), c.methods);
      assert ws[q] == MethodWrite(r, m, c, without, rewrite)(me) == w;
      assert cw(c) == ws;
    }
    FlatMapMember(cw, m.classes, w);
  }

  lemma MethodWritesMember(r: Repository, m: Module, without: bool, rewrite: string -> Result<string>, w: Write)
    ensures w in FlatMap(ClassWrites(r, m, without, rewrite), m.classes) <==> IsMethodWrite(r, m, without, rewrite, w)
  {
    if w in FlatMap(ClassWrites(r, m, without, rewrite), m.classes) {
      MethodWritesAreMethodSaves(r, m, without, rewrite, w);
    }
    if IsMethodWrite(r, m, without, rewrite, w) {
      MethodSavesAreWritten(r, m, without, rewrite, w);
    }
  }

  lemma FunctionWritesMember(r: Repository, m: Module, without: bool, rewrite: string -> Result<string>, w: Write)
    ensures w in Map(FunctionWrite(r, m, without, rewrite), m.functions) <==> IsFunctionWrite(r, m, without, rewrite, w)
  {
    var ws := Map(FunctionWrite(r, m, without, rewrite), m.functions);
    if w in ws {
      var q :| 0 <= q < |ws| && ws[q] == w;
      assert m.functions[q] in m.functions;
    }
    if IsFunctionWrite(r, m, without, rewrite, w) {
      var f :| f in m.functions && w == SaveCallable(f.body, FunctionPath(r, m, f), without, rewrite);
      var q :| 0 <= q < |m.functions| && m.functions[q] == f;
      assert w == ws[q];
    }
  }

  /** Whether `w` saves one of the module's callables under its path. */
  ghost predicate IsModuleWrite(r: Repository, m: Module, without: bool, rewrite: string -> Result<string>, w: Write) {
    IsMethodWrite(r, m, without, rewrite, w) || IsFunctionWrite(r, m, without, rewrite, w)
  }

  /** A module's writes are exactly the saves of its class methods and of its functions. */
  lemma ModuleWriteMember(r: Repository, m: Module, without: bool, rewrite: string -> Result<string>, w: Write)
    ensures w in ModuleWrites(r, without, rewrite)(m) <==> IsModuleWrite(r, m, without, rewrite, w)
  {
    MethodWritesMember(r, m, without, rewrite, w);
    FunctionWritesMember(r, m, without, rewrite, w);
  }

  /** With one-component names, a method's save is three directories deep. */
  lemma MethodWriteDepth(r: Repository, m: Module, without: bool, rewrite: string -> Result<string>, w: Write)
    requires OneComponent(r.name) && OneComponent(m.name)
    requires forall c :: c in m.classes ==> OneComponent(c.name) && forall me :: me in c.methods ==> '/' !in me.callable.name
    requires IsMethodWrite(r, m, without, rewrite, w)
    ensures |Split(w.path, '/')| == 4
  {
    var c, me :| c in m.classes && me in c.methods &&
      w == SaveCallable(me.callable.body, MethodPath(r, m, c, me), without, rewrite);
    MethodPathParts(r, m, c, me);
  }

  /**
   * A module's writes are one per class method and one per function; with one-component
   * names, all the method files (three directories deep) come before all the function files
   * (two directories deep), and the functions keep their order.
   */
  lemma ModuleWritesOrder(repo: Repository, mod: Module, without: bool, rewrite: string -> Result<string>)
    requires OneComponent(repo.name) && OneComponent(mod.name)
    requires forall c :: c in mod.classes ==> OneComponent(c.name) && forall m :: m in c.methods ==> '/' !in m.callable.name
    requires forall f :: f in mod.functions ==> '/' !in f.name
    ensures var ws := ModuleWrites(repo, without, rewrite)(mod);
      var n := |FlatMap(ClassWrites(repo, mod, without, rewrite), mod.classes)|;
      |ws| == n + |mod.functions| &&
      (forall k :: 0 <= k < n ==> |Split(ws[k].path, '/')| == 4) &&
      (forall k :: n <= k < |ws| ==> (|Split(ws[k].path, '/')| == 3 &&
        ws[k] == FunctionWrite(repo, mod, without, rewrite)(mod.functions[k - n])))
  {
    var methodWrites := FlatMap(ClassWrites(repo, mod, without, rewrite), mod.classes);
    var ws := ModuleWrites(repo, without, rewrite)(mod);
    var n := |methodWrites|;
    forall k | 0 <= k < n ensures |Split(ws[k].path, '/')| == 4 {
      assert ws[k] == methodWrites[k];
      MethodWritesMember(repo, mod, without, rewrite, ws[k]);
      MethodWriteDepth(repo, mod, without, rewrite, ws[k]);
    }
    forall k | n <= k < |ws| ensures |Split(ws[k].path, '/')| == 3 {
      var f := mod.functions[k - n];
      assert f in mod.functions;
      FunctionPathParts(repo, mod, f);
    }
  }

  /** A write belongs to a repository's output exactly when it saves a callable of one of its modules. */
  lemma RepositoryWriteMember(r: Repository, without: bool, rewrite: string -> Result<string>, w: Write)
    ensures w in RepositoryWrites(without, rewrite)(r) <==>
      exists m :: m in r.modules && IsModuleWrite(r, m, without, rewrite, w)
  {
    FlatMapMember(ModuleWrites(r, without, rewrite), r.modules, w);
    forall m | m in r.modules
      ensures w in ModuleWrites(r, without, rewrite)(m) <==> IsModuleWrite(r, m, without, rewrite, w)
    {
      ModuleWriteMember(r, m, without, rewrite, w);
    }
  }

  // ---------------------------------------------------------------------------------------
  // Requirements

  /** Python's `str` of an optional tag: an absent tag prints as `None`. */
  function TagText(tag: Option<string>): string {
    match tag
    case Some(t) => t
    case None => "None"
  }

  /** `create_requirements_file`: the content pins the repository's package at its tag. */
  function RequirementsText(repo: Repository): string {
    repo.name + "==" + TagText(repo.pypiTag)
  }

  /** For a name without `=`, the name, the `==` and the tag can be read back off the content. */
  lemma RequirementsParts(repo: Repository)
    requires '=' !in repo.name
    ensures var text := RequirementsText(repo);
      IndexOf(text, '=') == |repo.name| &&
      text[..|repo.name|] == repo.name &&
      text[|repo.name|..|repo.name| + 2] == "==" &&
      text[|repo.name| + 2..] == TagText(repo.pypiTag)
  {
    IndexOfAfter(repo.name, '=', "=" + TagText(repo.pypiTag));
    assert RequirementsText(repo) == repo.name + ['='] + ("=" + TagText(repo.pypiTag));
  }

  /**
   * `save_all_code` for one cloned repository, given the Python files found under its clone:
   * each file is rewritten in place when annotations are to be removed, then the requirements
   * file is written.
   */
  method SaveRepository(repo: Repository, files: seq<Write>, without: bool, rewrite: string -> Result<string>)
    returns (writes: seq<Write>)
    ensures without ==> |writes| == |files| + 1
    ensures without ==> forall k :: 0 <= k < |files| ==>
      writes[k] == Write(files[k].path, RemoveTypeAnnotations(files[k].code, rewrite))
    ensures !without ==> writes == [Write("requirements.txt", RequirementsText(repo))]
    ensures writes[|writes| - 1] == Write("requirements.txt", RequirementsText(repo))
  {
    writes := [];
    if without {
      for k := 0 to |files|
        invariant |writes| == k
        invariant forall q :: 0 <= q < k ==> writes[q] == Write(files[q].path, RemoveTypeAnnotations(files[q].code, rewrite))
      {
        var code := RemoveTypeAnnotations(files[k].code, rewrite);
        writes := writes + [Write(files[k].path, code)];
      }
    }
    writes := writes + [Write("requirements.txt", RequirementsText(repo))];
  }
}
