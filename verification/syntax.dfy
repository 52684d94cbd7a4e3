/**
 * The part of Python's abstract syntax tree the extraction reads.
 *
 * Line numbers are 1-based and columns 0-based, as the parser reports them. Annotations are
 * kept as the text the unparser would print for them. A function's source span is given as
 * character offsets into the file's text; it is absent when the parser recorded no position.
 */
module Syntax {
  import opened Common

  datatype Expr = Name(id: string) | OtherExpr

  /** One parameter (`ast.arg`). */
  datatype Arg = Arg(arg: string, lineno: int, colOffset: int, annotation: Option<string>)

  /** A function's parameter list (`ast.arguments`), by kind. */
  datatype Arguments = Arguments(
    posonlyargs: seq<Arg>,
    args: seq<Arg>,
    vararg: Option<Arg>,
    kwonlyargs: seq<Arg>,
    kwarg: Option<Arg>)

  /** A `def` (plain or `async`). */
  datatype FunctionNode = FunctionNode(
    name: string,
    lineno: int,
    colOffset: int,
    args: Arguments,
    returnAnnotation: Option<string>,
    span: Option<(int, int)>)

  datatype ClassNode = ClassNode(name: string, bases: seq<Expr>, body: seq<Stmt>)

  /** A statement; `async def` is a statement kind of its own, distinct from `def`. */
  datatype Stmt =
    | FunctionDef(def: FunctionNode)
    | AsyncFunctionDef(asyncDef: FunctionNode)
    | ClassDef(classDef: ClassNode)
    | Assign(targets: seq<Expr>)
    | AnnAssign(target: Expr)
    | OtherStmt
}
