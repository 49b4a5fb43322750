/** `computil.tree`: the syntax tree built by the parser and read by the
    checkers, the generator and the transpiler. A child that Java leaves
    `null` is `MissingExpr` / `MissingStmt`; `TreeScanner.scan(null)` visits
    nothing and yields `null`, and the models of the visitors treat these
    constructors the same way. */
module Ast {
  import opened Wrappers
  import opened Diags
  import opened Types
  import opened Operations

  datatype Expr =
    | MissingExpr
    | NullLit(loc: Loc)
    | IntLit(ival: int, loc: Loc)
    | /** A float literal; its value is kept as an opaque bit pattern. */
      FloatLit(bits: int, loc: Loc)
    | StrLit(sval: string, loc: Loc)
    | BoolLit(bval: bool, loc: Loc)
    | Var(name: string, loc: Loc)
    | Not(operand: Expr, loc: Loc)
    | Negation(operand: Expr, loc: Loc)
    | NullCheck(operand: Expr, loc: Loc)
    | ArrayLit(content: seq<Expr>, loc: Loc)
    | ContainerAccess(operand: Expr, key: Expr, loc: Loc)
    | FieldAccess(operand: Expr, field: string, loc: Loc)
    | Assign(left: Expr, right: Expr, loc: Loc)
    | BinOp(op: Operation, left: Expr, right: Expr, loc: Loc)
    | GlobalCall(name: string, args: seq<Expr>, loc: Loc)
    | MethodCall(name: string, operand: Expr, args: seq<Expr>, loc: Loc)
    | StructInit(ty: Ty, args: seq<Expr>, loc: Loc)
    | Cast(operand: Expr, castType: Ty, loc: Loc)

  datatype Stmt =
    | MissingStmt
    | /** `BasicBlockTree`; its location is always `null`. */
      Block(stmts: seq<Stmt>)
    | ExprStmt(expr: Expr, loc: Loc)
    | Return(expr: Expr, loc: Loc)
    | /** `let [mut] name [: type] = init;`; `type` is `null` when omitted. */
      VarDec(name: string, mutable: bool, ty: Option<Ty>, init: Expr, loc: Loc)
    | IfElse(cond: Expr, ifBody: Stmt, elseBody: Stmt, loc: Loc)
    | WhileDo(cond: Expr, body: Stmt, loc: Loc)
    | DoWhile(body: Stmt, cond: Expr, loc: Loc)
    | Free(expr: Expr, loc: Loc)

  datatype Param = Param(name: string, mutable: bool, ty: Ty, loc: Loc)

  datatype Field = Field(name: string, mutable: bool, ty: Ty, loc: Loc)

  datatype Callable =
    | Function(name: string, params: seq<Param>, ret: Ty, body: Stmt, loc: Loc)
    | Native(name: string, params: seq<Param>, ret: Ty, loc: Loc)

  datatype TemplateMethod = TemplateMethod(name: string, params: seq<Param>, ret: Ty, loc: Loc)

  datatype Template = Template(name: string, methods: seq<TemplateMethod>, loc: Loc)

  /** `impl name for forType [as objectName] { callables }` */
  datatype Impl = Impl(name: string, forType: string, objectName: Option<string>, impls: seq<Callable>, loc: Loc)

  datatype StructDecl = StructDecl(name: string, fields: seq<Field>, loc: Loc)

  /** `BasicRootTree`: the four declaration lists in source order. */
  datatype Root = Root(structs: seq<StructDecl>, callables: seq<Callable>, templates: seq<Template>, impls: seq<Impl>)

  /** `Tree.getLocation()` of an expression; `null` for a missing one. */
  function ExprLoc(e: Expr): Option<Loc> {
    if e.MissingExpr? then None else Some(e.loc)
  }

  /** Is the expression a literal (`LiteralTree`)? */
  predicate IsLiteral(e: Expr) {
    e.NullLit? || e.IntLit? || e.FloatLit? || e.StrLit? || e.BoolLit?
  }
}
