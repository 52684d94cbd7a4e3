/**
 * Turning one parsed Python file into a `Module` of the dataset: parameters, functions,
 * methods and classes, each with its position, its source text and a crafted signature.
 *
 * Reading the file and parsing it are not modelled: a `SourceFile` carries the text and the
 * statements the parser produced, or the error reading or parsing raised.
 */
module Extraction {
  import opened Common
  import opened Text
  import opened Syntax
  import opened Structure

  // ---------------------------------------------------------------------------------------
  // Positions: editor cursor positions, 1-based in both line and column

  /** The 1-based column of a parameter's first character. */
  function ColOffsetParam(a: Arg): int {
    a.colOffset + 1
  }

  /** The 1-based column of a function's name, just after the `def ` keyword. */
  function ColOffsetCallable(n: FunctionNode): int {
    n.colOffset + 1 + |"def "|
  }

  /** `text` starts at 1-based column `col` of `line`. */
  predicate CursorAt(line: string, col: int, text: string) {
    1 <= col <= |line| + 1 && StartsWith(line[col - 1..], text)
  }

  /**
   * A parameter whose name starts at character `k` of its line, so that the parser's offset
   * is the byte length of the first `k` characters: the column reported is `k + 1` exactly
   * when those characters are ASCII, and then the name is found at the cursor.
   */
  lemma ParameterCursor(line: string, k: nat, a: Arg)
    requires k <= |line| && StartsWith(line[k..], a.arg)
    requires a.colOffset == Utf8Len(line[..k])
    ensures ColOffsetParam(a) >= k + 1
    ensures ColOffsetParam(a) == k + 1 <==> IsAscii(line[..k])
    ensures IsAscii(line[..k]) ==> CursorAt(line, ColOffsetParam(a), a.arg)
  {
    Utf8LenAscii(line[..k]);
  }

  /**
   * A `def`, blanks `gap` and then the name, starting at character `k` of its line. The
   * column reported is at least that of the character after `def `, and with an ASCII prefix
   * the name is found at the cursor exactly when `def` is followed by a single blank.
   */
  lemma CallableCursor(line: string, k: nat, gap: string, n: FunctionNode)
    requires k <= |line| && StartsWith(line[k..], "def" + gap + n.name)
    requires n.colOffset == Utf8Len(line[..k])
    requires gap != [] && forall i :: 0 <= i < |gap| ==> gap[i] == ' ' || gap[i] == '\t'
    requires n.name != [] && n.name[0] != ' ' && n.name[0] != '\t'
    ensures ColOffsetCallable(n) >= k + 5
    ensures IsAscii(line[..k]) ==> (CursorAt(line, ColOffsetCallable(n), n.name) <==> |gap| == 1)
  {
    Utf8LenAscii(line[..k]);
    if IsAscii(line[..k]) {
      var head := "def" + gap + n.name;
      var rest := line[k..];
      assert rest[..|head|] == head;
      assert line[k + 4..] == rest[4..];
      if |gap| == 1 {
        assert rest[4..][..|n.name|] == head[4..];
      } else {
        assert line[k + 4] == head[4] == gap[1];
      }
    }
  }

  // ---------------------------------------------------------------------------------------
  // Parameters and signatures

  /** `parse_parameter`: the type is the annotation's text, absent when there is none. */
  function ParseParameter(a: Arg): Parameter {
    Parameter(a.arg, a.lineno, ColOffsetParam(a), a.annotation)
  }

  /** One parameter in a signature: `name: type`, or just `name` when the type is absent or empty. */
  function ParamText(p: Parameter): string {
    if Truthy(p.paramType) then p.name + ": " + p.paramType.value else p.name
  }

  /** The parameters of a signature, separated by `, `. */
  function ParamsText(ps: seq<Parameter>): string {
    Join(Map(ParamText, ps), ", ")
  }

  /** The signature text `name(params) -> type`, the arrow only when there is a return type. */
  function Signature(name: string, ps: seq<Parameter>, returnType: Option<string>): string {
    name + "(" + ParamsText(ps) + ")" + (if Truthy(returnType) then " -> " + returnType.value else "")
  }

  /** One more parameter is appended after a separator, unless it is the first. */
  lemma ParamsTextSnoc(ps: seq<Parameter>, p: Parameter)
    ensures ParamsText(ps + [p]) == if ps == [] then ParamText(p) else ParamsText(ps) + ", " + ParamText(p)
  {
    MapAppend(ParamText, ps, [p]);
    assert Map(ParamText, [p]) == [ParamText(p)];
    if ps != [] {
      JoinSnoc(Map(ParamText, ps), ParamText(p), ", ");
    }
  }

  /** The loop step of `craft_signature`: the next parameter's text completes the next prefix. */
  lemma CraftStep(ps: seq<Parameter>, i: nat)
    requires i < |ps|
    ensures "(" + ParamsText(ps[..i]) + (if 0 < i then ", " else "") + ParamText(ps[i]) ==
            "(" + ParamsText(ps[..i + 1])
  {
    assert ps[..i + 1] == ps[..i] + [ps[i]];
    ParamsTextSnoc(ps[..i], ps[i]);
  }

  /** `craft_signature` */
  method CraftSignature(name: string, parameters: seq<Parameter>, returnType: Option<string>)
    returns (signature: string)
    ensures signature == Signature(name, parameters, returnType)
  {
    var s := "(";
    if |parameters| > 0 {
      for i := 0 to |parameters|
        invariant s == "(" + ParamsText(parameters[..i]) + (if 0 < i < |parameters| then ", " else "")
      {
        var param := parameters[i];
        var text;
        if Truthy(param.paramType) {
          text := param.name + ": " + param.paramType.value;
        } else {
          text := param.name;
        }
        CraftStep(parameters, i);
        s := s + text;
        if i < |parameters| - 1 {
          s := s + ", ";
        }
      }
      assert parameters[..|parameters|] == parameters;
    }
    s := s + ")";
    if Truthy(returnType) {
      s := s + " -> " + returnType.value;
    }
    signature := name + s;
  }

  /**
   * The signature starts with the name and an opening parenthesis, and ends with the closing
   * parenthesis or, when there is a return type, with `) -> ` and that type.
   */
  lemma SignatureShape(name: string, ps: seq<Parameter>, returnType: Option<string>)
    ensures StartsWith(Signature(name, ps, returnType), name + "(")
    ensures Truthy(returnType) ==> EndsWith(Signature(name, ps, returnType), ") -> " + returnType.value)
    ensures !Truthy(returnType) ==> EndsWith(Signature(name, ps, returnType), ")")
  {
    var sig := Signature(name, ps, returnType);
    assert sig == (name + "(") + (ParamsText(ps) + ")" + (if Truthy(returnType) then " -> " + returnType.value else ""));
    if Truthy(returnType) {
      assert sig == (name + "(" + ParamsText(ps)) + (") -> " + returnType.value);
    } else {
      assert sig == (name + "(" + ParamsText(ps)) + ")";
    }
  }

  /** When the name has no parenthesis, it is exactly the text before the first `(`. */
  lemma SignatureName(name: string, ps: seq<Parameter>, returnType: Option<string>)
    requires '(' !in name
    ensures IndexOf(Signature(name, ps, returnType), '(') == |name|
    ensures Signature(name, ps, returnType)[..|name|] == name
  {
    var rest := ParamsText(ps) + ")" + (if Truthy(returnType) then " -> " + returnType.value else "");
    assert Signature(name, ps, returnType) == name + ['('] + rest;
    IndexOfAfter(name, '(', rest);
  }

  /**
   * Splitting `pre` followed by the pieces joined with `, ` at every comma gives `pre` glued to
   * the first piece, then each further piece after its separating space.
   */
  lemma {:induction false} SplitCommaSpace(pre: string, parts: seq<string>)
    requires |parts| >= 1
    requires ',' !in pre
    requires forall k :: 0 <= k < |parts| ==> ',' !in parts[k]
    ensures Split(pre + Join(parts, ", "), ',') == [pre + parts[0]] + Map(s => " " + s, parts[1..])
    decreases |parts|
  {
    var first := pre + parts[0];
    assert forall j :: 0 <= j < |first| ==> first[j] != ',' by {
      forall j | 0 <= j < |first| ensures first[j] != ',' {
        if j < |pre| {
          assert first[j] == pre[j] && pre[j] in pre;
        } else {
          assert first[j] == parts[0][j - |pre|] && parts[0][j - |pre|] in parts[0];
        }
      }
    }
    assert ',' !in first;
    if |parts| == 1 {
      assert pre + Join(parts, ", ") == first;
      assert IndexOf(first, ',') == |first|;
    } else {
      var rest := Join(parts[1..], ", ");
      assert pre + Join(parts, ", ") == first + [','] + (" " + rest);
      IndexOfAfter(first, ',', " " + rest);
      assert (first + [','] + (" " + rest))[..|first|] == first;
      assert (first + [','] + (" " + rest))[|first| + 1..] == " " + rest;
      SplitCommaSpace(" ", parts[1..]);
      assert Map(s => " " + s, parts[1..]) == [" " + parts[1]] + Map(s => " " + s, parts[2..]) by {
        assert parts[1..][1..] == parts[2..];
      }
    }
  }

  /**
   * When no parameter's text holds a comma, the parameter list splits at its commas into one
   * piece per parameter, in order: the separators are exactly those between parameters.
   */
  lemma ParamsSplit(ps: seq<Parameter>)
    requires |ps| >= 1
    requires forall k :: 0 <= k < |ps| ==> ',' !in ParamText(ps[k])
    ensures |Split(ParamsText(ps), ',')| == |ps|
    ensures Split(ParamsText(ps), ',')[0] == ParamText(ps[0])
    ensures forall k :: 1 <= k < |ps| ==> Split(ParamsText(ps), ',')[k] == " " + ParamText(ps[k])
  {
    var texts := Map(ParamText, ps);
    SplitCommaSpace("", texts);
    assert "" + ParamsText(ps) == ParamsText(ps);
    assert "" + texts[0] == texts[0];
  }

  // ---------------------------------------------------------------------------------------
  // Functions and methods

  /** `ast.get_source_segment(...) or ""`: the text the node spans, empty when it has no span. */
  function Segment(source: string, span: Option<(int, int)>): (body: string)
    ensures span.Some? && 0 <= span.value.0 <= span.value.1 <= |source| ==>
              body == source[span.value.0..span.value.1]
    ensures !(span.Some? && 0 <= span.value.0 <= span.value.1 <= |source|) ==> body == ""
  {
    if span.Some? && 0 <= span.value.0 <= span.value.1 <= |source| then
      source[span.value.0..span.value.1]
    else ""
  }

  /** What a function node yields, before it becomes a function or a method. */
  datatype Info = Info(body: string, parameters: seq<Parameter>, returnType: Option<string>, signature: string)

  /** `extract_info`: only the plain positional parameters (`args.args`) are read. */
  function ExtractInfo(source: string, n: FunctionNode): Info {
    var parameters := Map(ParseParameter, n.args.args);
    Info(Segment(source, n.span), parameters, n.returnAnnotation,
         Signature(n.name, parameters, n.returnAnnotation))
  }

  /**
   * The parameters are the node's positional parameters in order, with names, lines and
   * annotations copied; positional-only, keyword-only and star parameters are never read.
   */
  lemma ExtractInfoParameters(source: string, n: FunctionNode)
    ensures var ps := ExtractInfo(source, n).parameters;
      |ps| == |n.args.args| &&
      forall k :: 0 <= k < |ps| ==>
        ps[k].name == n.args.args[k].arg && ps[k].lineNumber == n.args.args[k].lineno &&
        ps[k].paramType == n.args.args[k].annotation
    ensures ExtractInfo(source, n) ==
      ExtractInfo(source, n.(args := Arguments([], n.args.args, None, [], None)))
  {
  }

  /** `parse_function`: the full signature is the signature; annotations keep their default "". */
  function ParseFunction(source: string, n: FunctionNode): Function {
    var info := ExtractInfo(source, n);
    Callable(n.name, n.lineno, ColOffsetCallable(n), info.parameters, info.returnType, info.body,
             info.signature, info.signature, Some(""))
  }

  /** `parse_method`: both signatures are qualified by the class name; `__init__` is the constructor. */
  function ParseMethod(source: string, n: FunctionNode, className: string): Method {
    var info := ExtractInfo(source, n);
    var qualified := className + "." + info.signature;
    Method(Callable(n.name, n.lineno, ColOffsetCallable(n), info.parameters, info.returnType,
                    info.body, qualified, qualified, Some("")),
           n.name == "__init__")
  }

  /**
   * A method is the function the same node would give, with both signatures prefixed by the
   * class name and a dot; it is a constructor exactly when it is named `__init__`.
   */
  lemma MethodIsQualifiedFunction(source: string, n: FunctionNode, className: string)
    ensures var f := ParseFunction(source, n);
      var m := ParseMethod(source, n, className);
      f.fullSignature == f.signature &&
      m.callable == f.(signature := className + "." + f.signature,
                       fullSignature := className + "." + f.signature) &&
      (m.isConstructor <==> n.name == "__init__")
  {
  }

  /** A function's signature starts with its name, its column points at that name, and its line is the node's. */
  lemma FunctionSignatureNamesIt(source: string, n: FunctionNode)
    ensures StartsWith(ParseFunction(source, n).signature, n.name + "(")
    ensures ParseFunction(source, n).colOffset == n.colOffset + 5
    ensures ParseFunction(source, n).lineNumber == n.lineno
  {
    var info := ExtractInfo(source, n);
    SignatureShape(n.name, info.parameters, info.returnType);
  }

  // ---------------------------------------------------------------------------------------
  // Classes

  /** The `def` statement's node, if the statement is one (an `async def` is not). */
  function DefNode(s: Stmt): seq<FunctionNode> {
    if s.FunctionDef? then [s.def] else []
  }

  /** The class node, if the statement is a class definition. */
  function ClassNodeOf(s: Stmt): seq<ClassNode> {
    if s.ClassDef? then [s.classDef] else []
  }

  /** The identifier, if the expression is a bare name. */
  function NameOf(e: Expr): seq<string> {
    if e.Name? then [e.id] else []
  }

  /** The bare names an assignment statement assigns to (an annotated assignment assigns none). */
  function AssignedNames(s: Stmt): seq<string> {
    if s.Assign? then FlatMap(NameOf, s.targets) else []
  }

  /** The methods of the class `className` for the `def`s among `body`, in order. */
  function MethodsOf(source: string, className: string, body: seq<Stmt>): seq<Method> {
    Map((n: FunctionNode) => ParseMethod(source, n, className), FlatMap(DefNode, body))
  }

  lemma MethodsOfSnoc(source: string, className: string, body: seq<Stmt>, s: Stmt)
    ensures MethodsOf(source, className, body + [s]) ==
      MethodsOf(source, className, body) + (if s.FunctionDef? then [ParseMethod(source, s.def, className)] else [])
  {
    FlatMapSnoc(DefNode, body, s);
    MapAppend((n: FunctionNode) => ParseMethod(source, n, className), FlatMap(DefNode, body), DefNode(s));
  }

  /** The class a class node describes. */
  function ClassSpec(source: string, c: ClassNode): Class {
    Class(c.name, MethodsOf(source, c.name, c.body), FlatMap(NameOf, c.bases), FlatMap(AssignedNames, c.body))
  }

  /** `parse_class` */
  method ParseClass(source: string, node: ClassNode) returns (c: Class)
    ensures c == ClassSpec(source, node)
  {
    var methods: seq<Method> := [];
    var fields: seq<string> := [];
    for i := 0 to |node.body|
      invariant methods == MethodsOf(source, node.name, node.body[..i])
      invariant fields == FlatMap(AssignedNames, node.body[..i])
    {
      var item := node.body[i];
      assert node.body[..i + 1] == node.body[..i] + [item];
      MethodsOfSnoc(source, node.name, node.body[..i], item);
      FlatMapSnoc(AssignedNames, node.body[..i], item);
      if item.FunctionDef? {
        methods := methods + [ParseMethod(source, item.def, node.name)];
      } else if item.Assign? {
        fields := fields + FlatMap(NameOf, item.targets);
      }
    }
    assert node.body[..|node.body|] == node.body;
    c := Class(node.name, methods, FlatMap(NameOf, node.bases), fields);
  }

  /**
   * A class has one method per `def` directly in its body, none for an `async def` or for
   * nested definitions; its superclasses are the bases written as bare names, and its fields
   * the bare names assigned directly in its body.
   */
  lemma ClassMembers(source: string, c: ClassNode)
    ensures |ClassSpec(source, c).methods| == |FlatMap(DefNode, c.body)|
    ensures forall n :: n in FlatMap(DefNode, c.body) <==> FunctionDef(n) in c.body
    ensures forall x :: x in ClassSpec(source, c).superclasses <==> Name(x) in c.bases
    ensures forall x :: x in ClassSpec(source, c).fields <==>
      exists k :: 0 <= k < |c.body| && c.body[k].Assign? && Name(x) in c.body[k].targets
  {
    DefNodes(c.body);
    forall x ensures x in ClassSpec(source, c).superclasses <==> Name(x) in c.bases {
      FlatMapMember(NameOf, c.bases, x);
      if Name(x) in c.bases {
        var k :| 0 <= k < |c.bases| && c.bases[k] == Name(x);
        assert x in NameOf(c.bases[k]);
      }
    }
    forall x ensures x in ClassSpec(source, c).fields <==>
      exists k :: 0 <= k < |c.body| && c.body[k].Assign? && Name(x) in c.body[k].targets
    {
      FlatMapMember(AssignedNames, c.body, x);
      forall k | 0 <= k < |c.body| && c.body[k].Assign?
        ensures x in AssignedNames(c.body[k]) <==> Name(x) in c.body[k].targets
      {
        var ts := c.body[k].targets;
        FlatMapMember(NameOf, ts, x);
        if Name(x) in ts {
          var j :| 0 <= j < |ts| && ts[j] == Name(x);
          assert x in NameOf(ts[j]);
        }
      }
    }
  }

  // ---------------------------------------------------------------------------------------
  // Modules

  /** A file found under the repository root: its path components, text and parse outcome. */
  datatype SourceFile = SourceFile(path: seq<string>, source: string, tree: Result<seq<Stmt>>)

  /** `PurePath.relative_to` in string form: "." for the root itself, ValueError outside it. */
  function RelativeTo(path: seq<string>, root: seq<string>): (r: Result<string>)
    ensures r.Ok? <==> |root| <= |path| && path[..|root|] == root
  {
    if |root| <= |path| && path[..|root|] == root then
      Ok(if |path| == |root| then "." else Join(path[|root|..], "/"))
    else Err("ValueError: path is not in the subpath of root")
  }

  /**
   * Below the root, the relative path splits at its slashes back into the components that
   * follow the root, when no component holds a slash.
   */
  lemma RelativeToRoundTrip(root: seq<string>, rest: seq<string>)
    requires |rest| >= 1
    requires forall k :: 0 <= k < |rest| ==> '/' !in rest[k]
    ensures RelativeTo(root + rest, root).Ok?
    ensures Split(RelativeTo(root + rest, root).value, '/') == rest
  {
    assert (root + rest)[..|root|] == root;
    assert (root + rest)[|root|..] == rest;
    SplitJoin(rest, '/');
  }

  /**
   * A path's components are never empty nor `.`, so the relative path a module records is
   * already in the form `Path` prints, and it survives saving and loading unchanged.
   */
  lemma RelativeToIsPathStr(path: seq<string>, root: seq<string>)
    requires forall k :: 0 <= k < |path| ==> ProperPart(path[k]) && '/' !in path[k]
    requires RelativeTo(path, root).Ok?
    ensures IsPathStr(RelativeTo(path, root).value)
  {
    if |path| == |root| {
      EmptyPathForms();
    } else {
      var rest := path[|root|..];
      forall k | 0 <= k < |rest| ensures ProperPart(rest[k]) && '/' !in rest[k] {
        assert rest[k] == path[|root| + k];
      }
      PathStrOfParts(rest);
    }
  }

  /** `PurePath.stem` of one file name: the name without its last suffix. */
  function NameStem(name: string): (stem: string)
    ensures StartsWith(name, stem)
    ensures stem != name ==>
      0 < |stem| < |name| - 1 && name[|stem|] == '.' && '.' !in name[|stem| + 1..]
  {
    var i := RFind(name, '.');
    if 0 < i < |name| - 1 then name[..i] else name
  }

  /** `PurePath.stem`: the stem of the last component, empty for the empty path. */
  function Stem(path: seq<string>): string {
    if path == [] then "" else NameStem(path[|path| - 1])
  }

  /** The stem of `base.py` is `base`. */
  lemma NameStemOfPy(base: string)
    requires base != [] && '.' !in base
    ensures NameStem(base + ".py") == base
  {
    var name := base + ".py";
    var i := RFind(name, '.');
    assert name[|base|] == '.';
    assert name[|base| + 1] == 'p' && name[|base| + 2] == 'y';
    assert i == |base|;
    assert name[..|base|] == base;
  }

  /** A module file named `base.py` is called `base`. */
  lemma StemOfPyFile(dir: seq<string>, base: string)
    requires base != [] && '.' !in base
    ensures Stem(dir + [base + ".py"]) == base
  {
    assert (dir + [base + ".py"])[|dir + [base + ".py"]| - 1] == base + ".py";
    NameStemOfPy(base);
  }

  /** The functions for the top-level `def`s among `stmts`, in order. */
  function FunctionsOf(source: string, stmts: seq<Stmt>): seq<Function> {
    Map((n: FunctionNode) => ParseFunction(source, n), FlatMap(DefNode, stmts))
  }

  /** The classes for the top-level class definitions among `stmts`, in order. */
  function ClassesOf(source: string, stmts: seq<Stmt>): seq<Class> {
    Map((c: ClassNode) => ClassSpec(source, c), FlatMap(ClassNodeOf, stmts))
  }

  lemma FunctionsOfSnoc(source: string, stmts: seq<Stmt>, s: Stmt)
    ensures FunctionsOf(source, stmts + [s]) ==
      FunctionsOf(source, stmts) + (if s.FunctionDef? then [ParseFunction(source, s.def)] else [])
  {
    FlatMapSnoc(DefNode, stmts, s);
    MapAppend((n: FunctionNode) => ParseFunction(source, n), FlatMap(DefNode, stmts), DefNode(s));
  }

  lemma ClassesOfSnoc(source: string, stmts: seq<Stmt>, s: Stmt)
    ensures ClassesOf(source, stmts + [s]) ==
      ClassesOf(source, stmts) + (if s.ClassDef? then [ClassSpec(source, s.classDef)] else [])
  {
    FlatMapSnoc(ClassNodeOf, stmts, s);
    MapAppend((c: ClassNode) => ClassSpec(source, c), FlatMap(ClassNodeOf, stmts), ClassNodeOf(s));
  }

  /** The module a parsed file describes; the error of reading or parsing it otherwise. */
  function ModuleSpec(file: SourceFile, root: seq<string>): (r: Result<Module>)
    ensures file.tree.Err? ==> r == Err(file.tree.error)
    ensures r.Ok? ==> r.value.name == Stem(file.path) && RelativeTo(file.path, root) == Ok(r.value.filePath)
  {
    match file.tree
    case Err(e) => Err(e)
    case Ok(stmts) =>
      var relative :- RelativeTo(file.path, root);
      Ok(Module(Stem(file.path), relative, FunctionsOf(file.source, stmts), ClassesOf(file.source, stmts)))
  }

  /** `parse_module`, given the file's text and parse outcome instead of reading it. */
  method ParseModule(file: SourceFile, root: seq<string>) returns (r: Result<Module>)
    ensures r == ModuleSpec(file, root)
  {
    if file.tree.Err? {
      return Err(file.tree.error);
    }
    var stmts := file.tree.value;
    var functions: seq<Function> := [];
    var classes: seq<Class> := [];
    for i := 0 to |stmts|
      invariant functions == FunctionsOf(file.source, stmts[..i])
      invariant classes == ClassesOf(file.source, stmts[..i])
    {
      var node := stmts[i];
      assert stmts[..i + 1] == stmts[..i] + [node];
      FunctionsOfSnoc(file.source, stmts[..i], node);
      ClassesOfSnoc(file.source, stmts[..i], node);
      if node.FunctionDef? {
        functions := functions + [ParseFunction(file.source, node.def)];
      } else if node.ClassDef? {
        var c := ParseClass(file.source, node.classDef);
        classes := classes + [c];
      }
    }
    assert stmts[..|stmts|] == stmts;
    var relative := RelativeTo(file.path, root);
    if relative.Err? {
      return Err(relative.error);
    }
    r := Ok(Module(Stem(file.path), relative.value, functions, classes));
  }

  /** The nodes `DefNode` collects are exactly the `def` statements among `stmts`. */
  lemma DefNodes(stmts: seq<Stmt>)
    ensures forall n :: n in FlatMap(DefNode, stmts) <==> FunctionDef(n) in stmts
  {
    forall n ensures n in FlatMap(DefNode, stmts) <==> FunctionDef(n) in stmts {
      FlatMapMember(DefNode, stmts, n);
      if FunctionDef(n) in stmts {
        var k :| 0 <= k < |stmts| && stmts[k] == FunctionDef(n);
        assert n in DefNode(stmts[k]);
      }
    }
  }

  /** The nodes `ClassNodeOf` collects are exactly the class definitions among `stmts`. */
  lemma ClassNodes(stmts: seq<Stmt>)
    ensures forall c :: c in FlatMap(ClassNodeOf, stmts) <==> ClassDef(c) in stmts
  {
    forall c ensures c in FlatMap(ClassNodeOf, stmts) <==> ClassDef(c) in stmts {
      FlatMapMember(ClassNodeOf, stmts, c);
      if ClassDef(c) in stmts {
        var k :| 0 <= k < |stmts| && stmts[k] == ClassDef(c);
        assert c in ClassNodeOf(stmts[k]);
      }
    }
  }

  /** A module gets a function for each top-level `def`, and for nothing else. */
  lemma ModuleFunctions(file: SourceFile, root: seq<string>)
    requires ModuleSpec(file, root).Ok?
    ensures forall n :: FunctionDef(n) in file.tree.value ==>
      ParseFunction(file.source, n) in ModuleSpec(file, root).value.functions
    ensures forall k :: 0 <= k < |ModuleSpec(file, root).value.functions| ==>
      exists n :: FunctionDef(n) in file.tree.value &&
        ModuleSpec(file, root).value.functions[k] == ParseFunction(file.source, n)
  {
    assert ModuleSpec(file, root).value.functions == FunctionsOf(file.source, file.tree.value);
    FunctionsOfMembers(file.source, file.tree.value);
  }

  /** The functions read from a list of statements: one per `def` among them, and no more. */
  lemma FunctionsOfMembers(source: string, stmts: seq<Stmt>)
    ensures forall n :: FunctionDef(n) in stmts ==> ParseFunction(source, n) in FunctionsOf(source, stmts)
    ensures forall k :: 0 <= k < |FunctionsOf(source, stmts)| ==>
      exists n :: FunctionDef(n) in stmts && FunctionsOf(source, stmts)[k] == ParseFunction(source, n)
  {
    var functions := FunctionsOf(source, stmts);
    DefNodes(stmts);
    var defs := FlatMap(DefNode, stmts);
    forall n | FunctionDef(n) in stmts ensures ParseFunction(source, n) in functions {
      var k :| 0 <= k < |defs| && defs[k] == n;
      assert functions[k] == ParseFunction(source, n);
    }
    forall k | 0 <= k < |functions|
      ensures exists n :: FunctionDef(n) in stmts && functions[k] == ParseFunction(source, n)
    {
      assert defs[k] in defs;
      assert functions[k] == ParseFunction(source, defs[k]);
    }
  }

  /** The classes read from a list of statements: one per class definition among them, and no more. */
  lemma ClassesOfMembers(source: string, stmts: seq<Stmt>)
    ensures forall c :: ClassDef(c) in stmts ==> ClassSpec(source, c) in ClassesOf(source, stmts)
    ensures forall k :: 0 <= k < |ClassesOf(source, stmts)| ==>
      exists c :: ClassDef(c) in stmts && ClassesOf(source, stmts)[k] == ClassSpec(source, c)
  {
    var classes := ClassesOf(source, stmts);
    ClassNodes(stmts);
    var cls := FlatMap(ClassNodeOf, stmts);
    forall c | ClassDef(c) in stmts ensures ClassSpec(source, c) in classes {
      var k :| 0 <= k < |cls| && cls[k] == c;
      assert classes[k] == ClassSpec(source, c);
    }
    forall k | 0 <= k < |classes|
      ensures exists c :: ClassDef(c) in stmts && classes[k] == ClassSpec(source, c)
    {
      assert cls[k] in cls;
      assert classes[k] == ClassSpec(source, cls[k]);
    }
  }

  /** A module gets a class for each top-level class definition, and for nothing else. */
  lemma ModuleClasses(file: SourceFile, root: seq<string>)
    requires ModuleSpec(file, root).Ok?
    ensures forall c :: ClassDef(c) in file.tree.value ==>
      ClassSpec(file.source, c) in ModuleSpec(file, root).value.classes
    ensures forall k :: 0 <= k < |ModuleSpec(file, root).value.classes| ==>
      exists c :: ClassDef(c) in file.tree.value &&
        ModuleSpec(file, root).value.classes[k] == ClassSpec(file.source, c)
  {
    assert ModuleSpec(file, root).value.classes == ClassesOf(file.source, file.tree.value);
    ClassesOfMembers(file.source, file.tree.value);
  }
}
