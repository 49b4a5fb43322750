/** `computil.transpile.CTranspiler`: prints a syntax tree as C text.
    Every `visit*` method appends to the output stream; each one is proved
    against a function that spells out the text it appends. The transpiler
    owns a type checker, the resolver, which it never gives a logger: the
    root visit first runs the resolver over the whole tree, and a variable
    declaration without a type asks the resolver for its initializer's type
    with a `null` scope. Both throw when the resolver logs an error or
    dereferences the `null` scope, so statement texts are printouts that may
    stop half-way. */
module Transpile {
  import opened Wrappers
  import opened Types
  import opened Ast
  import opened Operations
  import opened Printing
  import opened Diags
  import TR = TypeRules
  import TC = TypeChecking
  import Decimal

  // ---- types -----------------------------------------------------------------

  /** The names `isPrimitive` accepts. */
  predicate IsPrimitiveName(n: string) {
    n == "int" || n == "float" || n == "bool" || n == "str" || n == "void"
  }

  /** `visitTypeTree`: `str` becomes `char*`, any other name is printed as it
      is, and a type outside the primitive names gets a pointer star. The
      generics are never printed. */
  function TypeText(t: Ty): string {
    (if Name(t) == "str" then "char*" else Name(t)) + (if IsPrimitiveName(Name(t)) then "" else "*")
  }

  /** Scanning a type that may be `null`: nothing for `null`. */
  function OptTypeText(t: Option<Ty>): string {
    if t.Some? then TypeText(t.value) else ""
  }

  // ---- expressions -------------------------------------------------------------

  /** What `visitBinaryOperationTree` writes between the operands. */
  function Infix(op: Operation): string {
    " " + Encoding(op) + " "
  }

  /** What `visitNullCheckTree` writes after its operand, in one write:
      `) == NULL) {`, a line calling `fprintf` and a closing brace. It is
      spelled here in the pieces the balance proof below works with. */
  const NullCheckTail: string := ")" + " == NULL" + ")" + NullReport

  const NullReport: string := " {\nfprintf" + ("(" + ReportArgs + ")") + ";\n}\n"

  const ReportArgs: string := "stderr, %s, \"NullPointerException\""

  /** The C text of an expression. A float literal is printed by the
      parameter `ft` (`Double.toString` of its bits). String literals are
      printed without escaping; a struct initialisation and an array literal
      drop their contents, and a cast prints only its operand. */
  function ExprText(e: Expr, ft: int -> string): string
    decreases e, 1
  {
    match e
    case MissingExpr => ""
    case NullLit(_) => "NULL"
    case IntLit(v, _) => Decimal.IntText(v)
    case FloatLit(b, _) => ft(b)
    case StrLit(s, _) => "\"" + s + "\""
    case BoolLit(b, _) => if b then "true" else "false"
    case Var(n, _) => n
    case Not(x, _) => "(!" + ExprText(x, ft) + ")"
    case Negation(x, _) => "(" + "-" + ExprText(x, ft) + ")"
    case NullCheck(x, _) => "if ((" + ExprText(x, ft) + NullCheckTail
    case ArrayLit(_, _) => ""
    case ContainerAccess(x, k, _) => ExprText(x, ft) + "[" + ExprText(k, ft) + "]"
    case FieldAccess(x, f, _) => ExprText(x, ft) + ("->" + f)
    case Assign(l, r, _) => "(" + ExprText(l, ft) + " = " + ExprText(r, ft) + ")"
    case BinOp(op, l, r, _) => "(" + ExprText(l, ft) + Infix(op) + ExprText(r, ft) + ")"
    case GlobalCall(n, xs, _) => n + ArgsText(xs, ft)
    case MethodCall(n, x, xs, _) => ExprText(x, ft) + ("->" + n) + ArgsText(xs, ft)
    case StructInit(t, _, _) => "malloc(sizeof(" + Name(t) + "))"
    case Cast(x, _, _) => ExprText(x, ft)
  }

  /** `writeArguments`: the arguments inside parentheses. */
  function ArgsText(xs: seq<Expr>, ft: int -> string): string
    decreases xs, 1
  {
    "(" + ArgList(xs, ft) + ")"
  }

  /** The arguments' texts separated by `, `, built the way the iterator
      loop writes them: the first one, then a separator before each next. */
  function ArgList(xs: seq<Expr>, ft: int -> string): string
    decreases xs, 0
  {
    if xs == [] then ""
    else if |xs| == 1 then ExprText(xs[0], ft)
    else ArgList(xs[..|xs| - 1], ft) + ", " + ExprText(xs[|xs| - 1], ft)
  }

  /** Read from the front, the list is the first argument followed by a
      separator and the list of the others. */
  lemma {:induction false} ArgListCons(x: Expr, xs: seq<Expr>, ft: int -> string)
    requires xs != []
    ensures ArgList([x] + xs, ft) == ExprText(x, ft) + ", " + ArgList(xs, ft)
    decreases |xs|
  {
    var ys := [x] + xs;
    var n := |xs| - 1;
    assert ys[..|ys| - 1] == [x] + xs[..n];
    assert ys[|ys| - 1] == xs[n];
    if n == 0 {
      assert ys[..|ys| - 1] == [x];
    } else {
      ArgListCons(x, xs[..n], ft);
      AppendAssoc(ExprText(x, ft) + ", ", ArgList(xs[..n], ft), ", " + ExprText(xs[n], ft));
      AppendAssoc(ExprText(x, ft) + ", " + ArgList(xs[..n], ft), ", ", ExprText(xs[n], ft));
      AppendAssoc(ArgList(xs[..n], ft), ", ", ExprText(xs[n], ft));
    }
  }

  // ---- statements ----------------------------------------------------------------

  /** The C text of a statement, up to the point where it throws. A nested
      block prints its statements without braces. The do-while form prints
      its condition between the braces and its body inside `while(...)`,
      the two parts swapped. */
  function StmtText(s: Stmt, env: TR.Env, ft: int -> string): Printed
    decreases s, 1
  {
    match s
    case MissingStmt => Whole("")
    case Block(ss) => BlockText(ss, env, ft)
    case ExprStmt(e, _) => Whole(ExprText(e, ft) + ";\n")
    case Return(e, _) => Whole("return " + ExprText(e, ft) + ";\n")
    case VarDec(n, _, t, init, _) => VarDecText(n, t, init, env, ft)
    case IfElse(c, a, b, _) =>
      var ifPart := Then(Then(Whole("if(" + ExprText(c, ft) + "){\n"), StmtText(a, env, ft)), Whole("}\n"));
      if b.MissingStmt? then ifPart
      else Then(Then(Then(ifPart, Whole("else{\n")), StmtText(b, env, ft)), Whole("}\n"))
    case WhileDo(c, b, _) =>
      Then(Then(Whole("while(" + ExprText(c, ft) + ") {\n"), StmtText(b, env, ft)), Whole("}\n"))
    case DoWhile(b, c, _) =>
      Then(Then(Whole("do{\n" + ExprText(c, ft) + "}\n" + "while("), StmtText(b, env, ft)), Whole(");"))
    case Free(e, _) => Whole("free(" + ExprText(e, ft) + ");\n")
  }

  /** The statements of a block, one after the other, up to the first that
      throws. */
  function BlockText(ss: seq<Stmt>, env: TR.Env, ft: int -> string): Printed
    decreases ss, 0
  {
    if ss == [] then Whole("") else Then(BlockText(ss[..|ss| - 1], env, ft), StmtText(ss[|ss| - 1], env, ft))
  }

  /** `visitVarDecTree`: the declared type, or else the type the resolver
      gives the initializer (nothing when it answers `null`), then the name
      and the initializer or `NULL`. When the resolver throws, nothing is
      written and the visit throws. */
  function VarDecText(n: string, t: Option<Ty>, init: Expr, env: TR.Env, ft: int -> string): Printed {
    if t.None? && Resolve(env, init).Fail? then Printed("", false)
    else
      var ty := if t.Some? then TypeText(t.value) else OptTypeText(Resolve(env, init).value);
      Whole(ty + (" " + n) + (if init.MissingExpr? then " = NULL;\n" else " = " + ExprText(init, ft) + ";\n"))
  }

  /** `init.accept(typeResolver, null)`: the type checker's visit of the
      initializer with a `null` scope, after its `visitRootTree`. A missing
      initializer is dereferenced and throws; a variable anywhere the visit
      reaches looks itself up in the `null` scope and throws; and because
      the resolver was never given a logger, any error it logs throws too. */
  function Resolve(env: TR.Env, init: Expr): Result<Option<Ty>> {
    if init.MissingExpr? then Fail(Thrown("NullPointerException"))
    else
      var t :- TR.TypeOf(env, None, init);
      if t.diags != [] then Fail(Thrown("NullPointerException")) else Ok(t.ty)
  }

  /** `do { x; } while (y)` prints the condition `y` between the braces and
      the body statement `x;`, with its semicolon, inside `while(...)`. */
  lemma {:induction false} DoWhileSwapped(x: string, y: string, loc: Loc, env: TR.Env, ft: int -> string)
    ensures var s := DoWhile(ExprStmt(Var(x, loc), loc), Var(y, loc), loc);
      StmtText(s, env, ft) == Whole("do{\n" + y + "}\n" + "while(" + (x + ";\n") + ");")
      && DoWhileIntended(s.body, s.cond, env, ft) == Whole("do{\n" + (x + ";\n") + ("}\nwhile(" + y + ");"))
  {
    var s := DoWhile(ExprStmt(Var(x, loc), loc), Var(y, loc), loc);
    assert ExprText(s.cond, ft) == y;
    assert StmtText(s.body, env, ft) == Whole(x + ";\n");
  }

  /** The do-while text with the body between the braces and the condition
      inside `while(...)`. */
  function DoWhileIntended(b: Stmt, c: Expr, env: TR.Env, ft: int -> string): Printed {
    Then(Then(Whole("do{\n"), StmtText(b, env, ft)), Whole("}\nwhile(" + ExprText(c, ft) + ");"))
  }

  /** The corrected do-while is the while-do of the same body and condition
      turned around: the while-do is its `while(c)` clause, a blank and the
      braced body; the corrected do-while is `do`, the same braced body and
      the same clause closed by a semicolon. Both print completely exactly
      when the body does. */
  lemma {:induction false} DoWhileIntendedMirrorsWhileDo(b: Stmt, c: Expr, loc: Loc, env: TR.Env, ft: int -> string)
    ensures var body, w, d := StmtText(b, env, ft), StmtText(WhileDo(c, b, loc), env, ft), DoWhileIntended(b, c, env, ft);
      var clause, braced := "while(" + ExprText(c, ft) + ")", "{\n" + body.text + "}\n";
      d.complete == w.complete == body.complete
      && (body.complete ==> w.text == clause + " " + braced && d.text == "do" + braced + clause + ";")
  {
    var body := StmtText(b, env, ft);
    if body.complete {
      LoopTextsRegrouped(ExprText(c, ft), body.text);
    }
  }

  lemma LoopTextsRegrouped(e: string, t: string)
    ensures ("while(" + e + ") {\n") + t + "}\n" == ("while(" + e + ")" + " ") + ("{\n" + t + "}\n")
    ensures "do{\n" + t + ("}\nwhile(" + e + ");") == "do" + ("{\n" + t + "}\n") + ("while(" + e + ")") + ";"
  {
    calc {
      ("while(" + e + ") {\n") + t + "}\n";
      { assert ") {\n" == ")" + " " + "{\n"; }
      ("while(" + e + ")" + " " + "{\n") + t + "}\n";
      { AppendAssoc3("while(" + e + ")" + " ", "{\n", t, "}\n"); }
      ("while(" + e + ")" + " ") + ("{\n" + t + "}\n");
    }
    calc {
      "do{\n" + t + ("}\nwhile(" + e + ");");
      { assert "do{\n" == "do" + "{\n"; assert "}\nwhile(" == "}\n" + "while("; }
      ("do" + "{\n") + t + ("}\n" + "while(" + e + ");");
      { AppendAssoc4("do", "{\n", t, "}\n", "while(" + e + ");"); }
      "do" + ("{\n" + t + "}\n" + ("while(" + e + ");"));
      { assert "while(" + e + ");" == ("while(" + e + ")") + ";"; }
      "do" + ("{\n" + t + "}\n") + ("while(" + e + ")") + ";";
    }
  }

  /** A declared type is printed as it is; the resolver is not asked. */
  lemma TypedDeclarationPrints(n: string, m: bool, t: Ty, init: Expr, loc: Loc, env: TR.Env, ft: int -> string)
    ensures StmtText(VarDec(n, m, Some(t), init, loc), env, ft).complete
    ensures StmtText(VarDec(n, m, Some(t), init, loc), env, ft).text
      == TypeText(t) + " " + n + (if init.MissingExpr? then " = NULL;\n" else " = " + ExprText(init, ft) + ";\n")
  {
    AppendAssoc(TypeText(t), " ", n);
  }

  /** `let y = x;`: the resolver looks `x` up in the `null` scope, so the
      declaration prints nothing and throws. So does `let y;`, whose
      missing initializer is dereferenced. */
  lemma UntypedDeclarationThrows(n: string, m: bool, init: Expr, loc: Loc, env: TR.Env, ft: int -> string)
    requires init.MissingExpr? || init.Var?
    ensures StmtText(VarDec(n, m, None, init, loc), env, ft) == Printed("", false)
  {
    if init.Var? {
      assert TR.TypeOf(env, None, init).Fail?;
    }
  }

  /** `let y = 5;`: the resolver types the literal as `int` without a
      scope, so the declaration prints as `int y = 5;`. */
  lemma UntypedLiteralDeclaration(n: string, m: bool, v: int, at: Loc, loc: Loc, env: TR.Env, ft: int -> string)
    ensures StmtText(VarDec(n, m, None, IntLit(v, at), loc), env, ft)
      == Whole("int " + n + " = " + Decimal.IntText(v) + ";\n")
  {
    assert Resolve(env, IntLit(v, at)) == Ok(Some(IntType));
    assert TypeText(IntType) == "int";
    AppendAssoc("int", " ", n);
    AppendAssoc3("int " + n, " = ", Decimal.IntText(v), ";\n");
  }

  /** A block prints completely exactly when each of its statements does. */
  lemma {:induction false} BlockComplete(ss: seq<Stmt>, env: TR.Env, ft: int -> string)
    ensures BlockText(ss, env, ft).complete <==> forall j :: 0 <= j < |ss| ==> StmtText(ss[j], env, ft).complete
    decreases |ss|
  {
    if ss != [] {
      var front := ss[..|ss| - 1];
      BlockComplete(front, env, ft);
      assert forall j :: 0 <= j < |front| ==> front[j] == ss[j];
    }
  }

  /** Once a prefix of a block throws, nothing after it is printed. */
  lemma {:induction false} BlockStops(ss: seq<Stmt>, n: nat, env: TR.Env, ft: int -> string)
    requires n <= |ss| && !BlockText(ss[..n], env, ft).complete
    ensures BlockText(ss, env, ft) == BlockText(ss[..n], env, ft)
    decreases |ss| - n
  {
    if n == |ss| {
      assert ss[..n] == ss;
    } else {
      assert ss[..|ss| - 1][..n] == ss[..n];
      BlockStops(ss[..|ss| - 1], n, env, ft);
    }
  }

  lemma BlockNext(ss: seq<Stmt>, i: nat, env: TR.Env, ft: int -> string)
    requires i < |ss|
    ensures BlockText(ss[..i + 1], env, ft) == Then(BlockText(ss[..i], env, ft), StmtText(ss[i], env, ft))
  {
    assert ss[..i + 1][..i] == ss[..i];
  }

  lemma ArgListNext(xs: seq<Expr>, i: nat, ft: int -> string)
    requires 0 < i < |xs|
    ensures ArgList(xs[..i + 1], ft) == ArgList(xs[..i], ft) + ", " + ExprText(xs[i], ft)
  {
    assert xs[..i + 1][..i] == xs[..i];
  }

  // ---- declarations ----------------------------------------------------------------

  /** `visitParameterTree`. Parameters are scanned one after the other with
      no separator between them. */
  function ParamText(p: Param): string {
    TypeText(p.ty) + (" " + p.name)
  }

  /** `visitFieldTree`. */
  function FieldText(f: Field): string {
    TypeText(f.ty) + (" " + f.name + "; ")
  }

  /** `genAbstractTypeDefs`, one struct. */
  function TypedefText(sd: StructDecl): string {
    "typedef __" + sd.name + " " + sd.name + ";\n"
  }

  /** `visitStructTree`. */
  function StructText(sd: StructDecl): string {
    "typedef struct __" + sd.name + " { " + Concat(sd.fields, FieldText) + ("} " + sd.name + ";\n")
  }

  /** `int` for `main` while in global scope, the declared return type
      otherwise. */
  function ReturnTypeText(global: bool, name: string, ret: Ty): string {
    if global && name == "main" then "int" else TypeText(ret)
  }

  /** A callable's return type, name and parameters, up to the closing
      parenthesis. */
  function Signature(c: Callable, global: bool): string {
    ReturnTypeText(global, c.name, c.ret) + (" " + c.name + "(") + Concat(c.params, ParamText)
  }

  /** `genAbstractFunctionDefs`, one callable; natives are declared too. */
  function PrototypeText(c: Callable, global: bool): string {
    Signature(c, global) + ");\n"
  }

  function Prototypes(cs: seq<Callable>, global: bool): string {
    if cs == [] then "" else Prototypes(cs[..|cs| - 1], global) + PrototypeText(cs[|cs| - 1], global)
  }

  /** `visitFunctionTree`: the signature, the body between braces and, for
      `main` in global scope, `return 0;` before the closing brace.
      `visitNativeFunctionTree` writes nothing. */
  function CallableText(c: Callable, global: bool, env: TR.Env, ft: int -> string): Printed {
    if c.Native? then Whole("")
    else
      Then(Then(Whole(Signature(c, global) + "){\n"), StmtText(c.body, env, ft)),
           Whole((if global && c.name == "main" then "return 0;\n" else "") + "}\n"))
  }

  function CallablesText(cs: seq<Callable>, global: bool, env: TR.Env, ft: int -> string): Printed {
    if cs == [] then Whole("") else Then(CallablesText(cs[..|cs| - 1], global, env, ft), CallableText(cs[|cs| - 1], global, env, ft))
  }

  lemma {:induction false} CallablesStop(cs: seq<Callable>, n: nat, global: bool, env: TR.Env, ft: int -> string)
    requires n <= |cs| && !CallablesText(cs[..n], global, env, ft).complete
    ensures CallablesText(cs, global, env, ft) == CallablesText(cs[..n], global, env, ft)
    decreases |cs| - n
  {
    if n == |cs| {
      assert cs[..n] == cs;
    } else {
      assert cs[..|cs| - 1][..n] == cs[..n];
      CallablesStop(cs[..|cs| - 1], n, global, env, ft);
    }
  }

  lemma PrototypesNext(cs: seq<Callable>, i: nat, global: bool)
    requires i < |cs|
    ensures Prototypes(cs[..i + 1], global) == Prototypes(cs[..i], global) + PrototypeText(cs[i], global)
  {
    assert cs[..i + 1][..i] == cs[..i];
  }

  lemma CallablesNext(cs: seq<Callable>, i: nat, global: bool, env: TR.Env, ft: int -> string)
    requires i < |cs|
    ensures CallablesText(cs[..i + 1], global, env, ft) == Then(CallablesText(cs[..i], global, env, ft), CallableText(cs[i], global, env, ft))
  {
    assert cs[..i + 1][..i] == cs[..i];
  }

  const IncludeLine: string := "#include \"stdio.h\"\n"
  const BoolDefines: string := "#define true 1\n#define false 0\n"
  const BoolTypedef: string := "typedef int bool;\n"
  const Header: string := IncludeLine + BoolDefines + BoolTypedef

  /** `visitRootTree`: the include and the boolean definitions, a typedef
      per struct, a prototype per callable, the struct definitions, then the
      functions. Templates and implementations are not printed. */
  function RootText(r: Root, global: bool, env: TR.Env, ft: int -> string): Printed {
    Then(Whole(Header + Concat(r.structs, TypedefText) + Prototypes(r.callables, global) + Concat(r.structs, StructText)),
         CallablesText(r.callables, global, env, ft))
  }

  // ---- properties of the text ----------------------------------------------------------

  /** The pointer star marks exactly the non-primitive types, and `str` is a
      `char*`. */
  lemma TypeTextShape(t: Ty)
    ensures Name(t) == "str" ==> TypeText(t) == "char*"
    ensures IsPrimitiveName(Name(t)) && Name(t) != "str" ==> TypeText(t) == Name(t)
    ensures !IsPrimitiveName(Name(t)) ==> TypeText(t) == Name(t) + "*"
  {
  }

  /** In global scope `main` is declared and defined returning `int`, its
      definition ends with `return 0;`, and the definition repeats the
      prototype's signature. Any other function keeps its declared type and
      gets no extra return. */
  lemma MainReturnsInt(c: Callable, env: TR.Env, ft: int -> string)
    requires c.Function?
    ensures var head := Signature(c, true); var body := StmtText(c.body, env, ft);
      && PrototypeText(c, true) == head + ");\n"
      && CallableText(c, true, env, ft).text[..|head|] == head
      && (c.name == "main" ==> head[..4] == "int " && (body.complete ==>
            CallableText(c, true, env, ft).text == head + "){\n" + body.text + "return 0;\n}\n"))
      && (c.name != "main" ==> head[..|TypeText(c.ret)|] == TypeText(c.ret) && (body.complete ==>
            CallableText(c, true, env, ft).text == head + "){\n" + body.text + "}\n"))
  {
    var head := Signature(c, true);
    var body := StmtText(c.body, env, ft);
    var text := CallableText(c, true, env, ft).text;
    assert text == head + "){\n" + body.text + (if body.complete then (if c.name == "main" then "return 0;\n" else "") + "}\n" else "");
    assert text[..|head|] == head;
    if c.name == "main" {
      assert head == "int" + (" " + c.name + "(") + Concat(c.params, ParamText);
      assert head[..4] == "int ";
    }
  }

  // ---- grouping: every operator node is wrapped in its own parentheses ---------------------

  function Weight(c: char): int {
    if c == '(' then 1 else if c == ')' then -1 else 0
  }

  /** Opening minus closing parentheses. */
  function Depth(s: string): int {
    if s == [] then 0 else Depth(s[..|s| - 1]) + Weight(s[|s| - 1])
  }

  /** No prefix closes more parentheses than it opens, and the whole closes
      all it opens. */
  predicate Balanced(s: string) {
    Depth(s) == 0 && forall k :: 0 <= k <= |s| ==> Depth(s[..k]) >= 0
  }

  /** A parenthesised text whose first parenthesis is closed only by its
      last character: C reads it as one operand, whatever the operators
      inside. */
  predicate Grouped(s: string) {
    && |s| >= 2 && s[0] == '(' && s[|s| - 1] == ')' && Balanced(s)
    && forall k :: 1 <= k < |s| ==> Depth(s[..k]) >= 1
  }

  predicate ParenFree(s: string) {
    forall i :: 0 <= i < |s| ==> s[i] != '(' && s[i] != ')'
  }

  /** The expressions whose names, string literals and float spellings hold
      no parentheses (identifiers never do). */
  predicate Plain(e: Expr, ft: int -> string)
    decreases e, 1
  {
    match e
    case FloatLit(b, _) => ParenFree(ft(b))
    case StrLit(s, _) => ParenFree(s)
    case Var(n, _) => ParenFree(n)
    case Not(x, _) => Plain(x, ft)
    case Negation(x, _) => Plain(x, ft)
    case NullCheck(x, _) => Plain(x, ft)
    case ContainerAccess(x, k, _) => Plain(x, ft) && Plain(k, ft)
    case FieldAccess(x, f, _) => Plain(x, ft) && ParenFree(f)
    case Assign(l, r, _) => Plain(l, ft) && Plain(r, ft)
    case BinOp(_, l, r, _) => Plain(l, ft) && Plain(r, ft)
    case GlobalCall(n, xs, _) => ParenFree(n) && AllPlain(xs, ft)
    case MethodCall(n, x, xs, _) => ParenFree(n) && Plain(x, ft) && AllPlain(xs, ft)
    case StructInit(t, _, _) => ParenFree(Name(t))
    case Cast(x, _, _) => Plain(x, ft)
    case _ => true
  }

  predicate AllPlain(xs: seq<Expr>, ft: int -> string)
    decreases xs, 0
  {
    forall k :: 0 <= k < |xs| ==> Plain(xs[k], ft)
  }

  lemma {:induction false} DepthAppend(a: string, b: string)
    ensures Depth(a + b) == Depth(a) + Depth(b)
    decreases |b|
  {
    if b == [] {
      assert a + b == a;
    } else {
      var n := |b| - 1;
      assert (a + b)[..|a + b| - 1] == a + b[..n];
      DepthAppend(a, b[..n]);
    }
  }

  lemma BalancedAppend(a: string, b: string)
    requires Balanced(a) && Balanced(b)
    ensures Balanced(a + b)
  {
    DepthAppend(a, b);
    forall k | 0 <= k <= |a + b|
      ensures Depth((a + b)[..k]) >= 0
    {
      if k <= |a| {
        assert (a + b)[..k] == a[..k];
      } else {
        assert (a + b)[..k] == a + b[..k - |a|];
        DepthAppend(a, b[..k - |a|]);
      }
    }
  }

  lemma BalancedAppend3(a: string, b: string, c: string)
    requires Balanced(a) && Balanced(b) && Balanced(c)
    ensures Balanced(a + b + c)
  {
    BalancedAppend(a, b);
    BalancedAppend(a + b, c);
  }

  lemma {:induction false} ParenFreeDepth(s: string)
    requires ParenFree(s)
    ensures Depth(s) == 0
    decreases |s|
  {
    if s != [] {
      ParenFreeDepth(s[..|s| - 1]);
    }
  }

  lemma ParenFreeBalanced(s: string)
    requires ParenFree(s)
    ensures Balanced(s)
  {
    ParenFreeDepth(s);
    forall k | 0 <= k <= |s|
      ensures Depth(s[..k]) >= 0
    {
      ParenFreeDepth(s[..k]);
    }
  }

  /** Parentheses around a balanced text group it. */
  lemma Wrap(s: string)
    requires Balanced(s)
    ensures Grouped("(" + s + ")")
  {
    var t := "(" + s + ")";
    DepthAppend("(", s);
    DepthAppend("(" + s, ")");
    forall k | 1 <= k < |t|
      ensures Depth(t[..k]) >= 1
    {
      assert t[..k] == "(" + s[..k - 1];
      DepthAppend("(", s[..k - 1]);
    }
    assert t[..0] == [];
    assert t[..|t|] == t;
  }


  lemma InfixParenFree(op: Operation)
    ensures ParenFree(Infix(op))
  {
  }

  lemma IntTextParenFree(v: int)
    ensures ParenFree(Decimal.IntText(v))
  {
    Decimal.IntTextChars(v);
  }

  /** The C text of a plain expression is balanced. */
  lemma {:induction false} ExprBalanced(e: Expr, ft: int -> string)
    requires Plain(e, ft)
    ensures Balanced(ExprText(e, ft))
    decreases e, 1
  {
    match e
    case MissingExpr => ParenFreeBalanced("");
    case NullLit(_) => ParenFreeBalanced("NULL");
    case IntLit(v, _) =>
      IntTextParenFree(v);
      ParenFreeBalanced(Decimal.IntText(v));
    case FloatLit(b, _) => ParenFreeBalanced(ft(b));
    case StrLit(s, _) =>
      ParenFreeBalanced("\"");
      ParenFreeBalanced(s);
      BalancedAppend3("\"", s, "\"");
    case BoolLit(b, _) =>
      ParenFreeBalanced("true");
      ParenFreeBalanced("false");
    case Var(n, _) => ParenFreeBalanced(n);
    case ArrayLit(_, _) => ParenFreeBalanced("");
    case StructInit(t, _, _) => StructInitBalanced(Name(t));
    case Cast(x, _, _) => ExprBalanced(x, ft);
    case Not(_, _) => OperatorGrouped(e, ft);
    case Negation(_, _) => OperatorGrouped(e, ft);
    case Assign(_, _, _) => OperatorGrouped(e, ft);
    case BinOp(_, _, _, _) => OperatorGrouped(e, ft);
    case NullCheck(x, _) =>
      ExprBalanced(x, ft);
      NullCheckBalanced(ExprText(x, ft));
    case ContainerAccess(x, k, _) =>
      ExprBalanced(x, ft);
      ExprBalanced(k, ft);
      ParenFreeBalanced("[");
      ParenFreeBalanced("]");
      BalancedAppend(ExprText(x, ft), "[");
      BalancedAppend(ExprText(x, ft) + "[", ExprText(k, ft));
      BalancedAppend(ExprText(x, ft) + "[" + ExprText(k, ft), "]");
    case FieldAccess(x, f, _) =>
      ExprBalanced(x, ft);
      assert ParenFree("->" + f);
      ParenFreeBalanced("->" + f);
      BalancedAppend(ExprText(x, ft), "->" + f);
    case GlobalCall(n, xs, _) =>
      ArgsBalanced(e, xs, ft);
      ParenFreeBalanced(n);
      BalancedAppend(n, ArgsText(xs, ft));
    case MethodCall(n, x, xs, _) =>
      ArgsBalanced(e, xs, ft);
      ExprBalanced(x, ft);
      assert ParenFree("->" + n);
      ParenFreeBalanced("->" + n);
      BalancedAppend3(ExprText(x, ft), "->" + n, ArgsText(xs, ft));
  }

  /** The four operator forms print grouped: `(!x)`, `(-x)`, `(l = r)` and
      `(l op r)`. So the C compiler groups the operands as the tree does,
      whatever C's own precedence rules say. */
  lemma {:induction false} OperatorGrouped(e: Expr, ft: int -> string)
    requires Plain(e, ft) && (e.Not? || e.Negation? || e.Assign? || e.BinOp?)
    ensures Grouped(ExprText(e, ft))
    decreases e, 0
  {
    if e.Not? || e.Negation? {
      ExprBalanced(e.operand, ft);
      UnaryGrouped(if e.Not? then "!" else "-", ExprText(e.operand, ft));
    } else {
      ExprBalanced(e.left, ft);
      ExprBalanced(e.right, ft);
      if e.BinOp? {
        InfixParenFree(e.op);
      }
      InfixGrouped(if e.Assign? then " = " else Infix(e.op), ExprText(e.left, ft), ExprText(e.right, ft));
    }
  }

  lemma UnaryGrouped(sign: string, x: string)
    requires ParenFree(sign) && Balanced(x)
    ensures Grouped("(" + sign + x + ")")
    ensures sign == "!" ==> Grouped("(!" + x + ")")
  {
    ParenFreeBalanced(sign);
    BalancedAppend(sign, x);
    Wrap(sign + x);
    assert "(" + sign + x + ")" == "(" + (sign + x) + ")";
    assert "(!" == "(" + "!";
  }

  lemma InfixGrouped(mid: string, l: string, r: string)
    requires ParenFree(mid) && Balanced(l) && Balanced(r)
    ensures Grouped("(" + l + mid + r + ")")
  {
    ParenFreeBalanced(mid);
    BalancedAppend3(l, mid, r);
    Wrap(l + mid + r);
    assert "(" + l + mid + r + ")" == "(" + (l + mid + r) + ")";
  }

  /** `malloc(sizeof(T))` is balanced when `T` holds no parenthesis. */
  lemma StructInitBalanced(n: string)
    requires ParenFree(n)
    ensures Balanced("malloc(sizeof(" + n + "))")
  {
    ParenFreeBalanced(n);
    Wrap(n);
    ParenFreeBalanced("sizeof");
    BalancedAppend("sizeof", "(" + n + ")");
    Wrap("sizeof" + ("(" + n + ")"));
    ParenFreeBalanced("malloc");
    BalancedAppend("malloc", "(" + ("sizeof" + ("(" + n + ")")) + ")");
    assert "malloc(sizeof(" + n + "))" == "malloc" + ("(" + ("sizeof" + ("(" + n + ")")) + ")");
  }

  /** The null check's `if ((x) == NULL) {...}` is balanced when `x` is. */
  lemma NullCheckBalanced(x: string)
    requires Balanced(x)
    ensures Balanced("if ((" + x + NullCheckTail)
  {
    Wrap(x);
    var inner := "(" + x + ")" + " == NULL";
    ParenFreeBalanced(" == NULL");
    BalancedAppend("(" + x + ")", " == NULL");
    Wrap(inner);
    ReportBalanced();
    ParenFreeBalanced("if ");
    BalancedAppend3("if ", "(" + inner + ")", NullReport);
    NullCheckShape(x, NullReport);
  }

  lemma ReportBalanced()
    ensures Balanced(NullReport)
  {
    ParenFreeBalanced(ReportArgs);
    Wrap(ReportArgs);
    ParenFreeBalanced(" {\nfprintf");
    ParenFreeBalanced(";\n}\n");
    BalancedAppend3(" {\nfprintf", "(" + ReportArgs + ")", ";\n}\n");
  }

  lemma NullCheckShape(x: string, report: string)
    ensures "if ((" + x + (")" + " == NULL" + ")" + report) == "if " + ("(" + ("(" + x + ")" + " == NULL") + ")") + report
  {
    assert "if ((" == "if " + "(" + "(";
  }

  /** An argument list in parentheses is balanced when every argument is. */
  lemma ArgsBalanced(parent: Expr, xs: seq<Expr>, ft: int -> string)
    requires AllPlain(xs, ft) && forall k :: 0 <= k < |xs| ==> xs[k] < parent
    ensures Balanced(ArgsText(xs, ft))
    decreases parent, 0
  {
    ArgListBalanced(parent, xs, ft);
    Wrap(ArgList(xs, ft));
  }

  lemma {:induction false} ArgListBalanced(parent: Expr, xs: seq<Expr>, ft: int -> string)
    requires AllPlain(xs, ft) && forall k :: 0 <= k < |xs| ==> xs[k] < parent
    ensures Balanced(ArgList(xs, ft))
    decreases parent, 0, |xs|
  {
    if xs == [] {
      ParenFreeBalanced("");
    } else if |xs| == 1 {
      ExprBalanced(xs[0], ft);
    } else {
      var n := |xs| - 1;
      assert forall k :: 0 <= k < n ==> xs[..n][k] == xs[k];
      ArgListBalanced(parent, xs[..n], ft);
      ExprBalanced(xs[n], ft);
      SeparatedBalanced(ArgList(xs[..n], ft), ExprText(xs[n], ft));
    }
  }

  lemma SeparatedBalanced(a: string, b: string)
    requires Balanced(a) && Balanced(b)
    ensures Balanced(a + ", " + b)
  {
    ParenFreeBalanced(", ");
    BalancedAppend3(a, ", ", b);
  }

  // ---- the transpiler ------------------------------------------------------------------

  /** The leaves: one write each, or nothing for a `null` child and for an
      array literal. */
  predicate IsLeaf(e: Expr) {
    e.MissingExpr? || e.NullLit? || e.IntLit? || e.FloatLit? || e.StrLit? || e.BoolLit? || e.Var? || e.ArrayLit? || e.StructInit?
  }

  /** `CTranspiler`: the output stream, as the text written to it so far,
      the `inGlobalScope` flag and the type checker it asks for the type of
      an untyped declaration's initializer. `floatText` stands for
      `Double.toString`. */
  class CTranspiler {
    var out: string
    var inGlobalScope: bool
    const typeResolver: TC.TypeChecker
    const floatText: int -> string

    constructor (floatText: int -> string)
      ensures out == "" && inGlobalScope && this.floatText == floatText
      ensures fresh(typeResolver) && typeResolver.CurrentEnv() == TR.Env(map[], map[], map[])
      ensures typeResolver.diags == []
    {
      out := "";
      inGlobalScope := true;
      typeResolver := new TC.TypeChecker();
      this.floatText := floatText;
    }

    /** What the resolver's expression visits read. */
    function ResolverEnv(): TR.Env
      reads typeResolver
    {
      typeResolver.CurrentEnv()
    }

    /** `write(s)`. */
    method Write(s: string)
      modifies this`out
      ensures out == old(out) + s
    {
      out := out + s;
    }

    method VisitType(t: Ty)
      modifies this`out
      ensures out == old(out) + TypeText(t)
    {
      if Name(t) == "str" {
        Write("char*");
      } else {
        Write(Name(t));
      }
      if !IsPrimitiveName(Name(t)) {
        Write("*");
      }
    }

    // ---- expressions

    method WriteExpr(e: Expr)
      modifies this`out
      ensures out == old(out) + ExprText(e, floatText)
      decreases e, 2
    {
      if IsLeaf(e) {
        WriteLeaf(e);
      } else if e.Not? || e.Negation? {
        WriteSigned(e);
      } else if e.NullCheck? {
        WriteNullCheck(e);
      } else if e.Cast? {
        WriteExpr(e.operand);
      } else if e.Assign? || e.BinOp? || e.ContainerAccess? {
        WriteBinary(e);
      } else {
        WriteAccess(e);
      }
    }

    method WriteLeaf(e: Expr)
      requires IsLeaf(e)
      modifies this`out
      ensures out == old(out) + ExprText(e, floatText)
    {
      match e
      case NullLit(_) => Write("NULL");
      case IntLit(v, _) => Write(Decimal.IntText(v));
      case FloatLit(b, _) => Write(floatText(b));
      case StrLit(s, _) => Write("\"" + s + "\"");
      case BoolLit(b, _) => Write(if b then "true" else "false");
      case Var(n, _) => Write(n);
      case StructInit(t, _, _) => Write("malloc(sizeof(" + Name(t) + "))");
      case _ =>
    }

    /** `visitNotTree` and `visitNegationTree`. */
    method WriteSigned(e: Expr)
      requires e.Not? || e.Negation?
      modifies this`out
      ensures out == old(out) + ExprText(e, floatText)
      decreases e, 1
    {
      ghost var o := out;
      if e.Not? {
        Write("(!");
        WriteExpr(e.operand);
        Write(")");
        AppendAssoc3(o, "(!", ExprText(e.operand, floatText), ")");
      } else {
        Write("(");
        Write("-");
        WriteExpr(e.operand);
        Write(")");
        AppendAssoc4(o, "(", "-", ExprText(e.operand, floatText), ")");
      }
    }

    method WriteNullCheck(e: Expr)
      requires e.NullCheck?
      modifies this`out
      ensures out == old(out) + ExprText(e, floatText)
      decreases e, 1
    {
      ghost var o := out;
      Write("if ((");
      WriteExpr(e.operand);
      Write(NullCheckTail);
      AppendAssoc3(o, "if ((", ExprText(e.operand, floatText), NullCheckTail);
    }

    method WriteBinary(e: Expr)
      requires e.Assign? || e.BinOp? || e.ContainerAccess?
      modifies this`out
      ensures out == old(out) + ExprText(e, floatText)
      decreases e, 1
    {
      ghost var o := out;
      if e.ContainerAccess? {
        WriteExpr(e.operand);
        Write("[");
        WriteExpr(e.key);
        Write("]");
        AppendAssoc4(o, ExprText(e.operand, floatText), "[", ExprText(e.key, floatText), "]");
      } else {
        Write("(");
        WriteExpr(e.left);
        var mid := if e.Assign? then " = " else Infix(e.op);
        Write(mid);
        WriteExpr(e.right);
        Write(")");
        AppendAssoc5(o, "(", ExprText(e.left, floatText), mid, ExprText(e.right, floatText), ")");
      }
    }

    method WriteAccess(e: Expr)
      requires e.FieldAccess? || e.MethodCall? || e.GlobalCall?
      modifies this`out
      ensures out == old(out) + ExprText(e, floatText)
      decreases e, 1
    {
      ghost var o := out;
      if e.FieldAccess? {
        WriteExpr(e.operand);
        Write("->" + e.field);
        AppendAssoc(o, ExprText(e.operand, floatText), "->" + e.field);
      } else if e.MethodCall? {
        WriteExpr(e.operand);
        Write("->" + e.name);
        WriteArguments(e, e.args);
        AppendAssoc3(o, ExprText(e.operand, floatText), "->" + e.name, ArgsText(e.args, floatText));
      } else {
        Write(e.name);
        WriteArguments(e, e.args);
        AppendAssoc(o, e.name, ArgsText(e.args, floatText));
      }
    }

    /** `writeArguments`: the iterator loop writes the first argument, then
        a separator before each further one. */
    method WriteArguments(parent: Expr, xs: seq<Expr>)
      requires forall k :: 0 <= k < |xs| ==> xs[k] < parent
      modifies this`out
      ensures out == old(out) + ArgsText(xs, floatText)
      decreases parent, 0
    {
      ghost var o := out;
      Write("(");
      if |xs| > 0 {
        WriteExpr(xs[0]);
        assert xs[..1] == [xs[0]];
        var i := 1;
        while i < |xs|
          invariant 1 <= i <= |xs|
          invariant out == o + "(" + ArgList(xs[..i], floatText)
        {
          Write(", ");
          WriteExpr(xs[i]);
          ArgListNext(xs, i, floatText);
          AppendAssoc3(o + "(", ArgList(xs[..i], floatText), ", ", ExprText(xs[i], floatText));
          i := i + 1;
        }
        assert xs[..i] == xs;
      }
      Write(")");
      AppendAssoc3(o, "(", ArgList(xs, floatText), ")");
    }

    // ---- statements

    method WriteStmt(s: Stmt) returns (st: Status)
      modifies this`out
      ensures out == old(out) + StmtText(s, ResolverEnv(), floatText).text
      ensures st.Completed? <==> StmtText(s, ResolverEnv(), floatText).complete
      decreases s, 2
    {
      if s.Block? {
        st := WriteBlock(s, s.stmts);
      } else if s.VarDec? {
        st := WriteVarDec(s);
      } else if s.IfElse? {
        st := WriteIfElse(s);
      } else if s.WhileDo? || s.DoWhile? {
        st := WriteLoop(s);
      } else {
        WriteSimple(s);
        st := Completed;
      }
    }

    method WriteSimple(s: Stmt)
      requires s.MissingStmt? || s.ExprStmt? || s.Return? || s.Free?
      modifies this`out
      ensures out == old(out) + StmtText(s, ResolverEnv(), floatText).text
      ensures StmtText(s, ResolverEnv(), floatText).complete
    {
      ghost var o := out;
      if s.ExprStmt? {
        WriteExpr(s.expr);
        Write(";\n");
      } else if s.Return? {
        Write("return ");
        WriteExpr(s.expr);
        Write(";\n");
        AppendAssoc3(o, "return ", ExprText(s.expr, floatText), ";\n");
      } else if s.Free? {
        Write("free(");
        WriteExpr(s.expr);
        Write(");\n");
        AppendAssoc3(o, "free(", ExprText(s.expr, floatText), ");\n");
      }
    }

    method WriteVarDec(s: Stmt) returns (st: Status)
      requires s.VarDec?
      modifies this`out
      ensures out == old(out) + StmtText(s, ResolverEnv(), floatText).text
      ensures st.Completed? <==> StmtText(s, ResolverEnv(), floatText).complete
      decreases s, 1
    {
      ghost var o := out;
      var typed, ty := WriteDeclaredType(s.ty, s.init);
      if typed.Threw? {
        return typed;
      }
      Write(" " + s.name);
      ghost var init := WriteInitializer(s.init);
      AppendAssoc3(o, ty, " " + s.name, init);
      st := Completed;
    }

    /** The declared type, or the one the resolver gives the initializer. */
    method WriteDeclaredType(t: Option<Ty>, init: Expr) returns (st: Status, ghost text: string)
      modifies this`out
      ensures st.Completed? <==> t.Some? || Resolve(ResolverEnv(), init).Ok?
      ensures st.Threw? ==> out == old(out)
      ensures st.Completed? ==>
        text == (if t.Some? then TypeText(t.value) else OptTypeText(Resolve(ResolverEnv(), init).value))
        && out == old(out) + text
    {
      text := "";
      if t.Some? {
        VisitType(t.value);
        text := TypeText(t.value);
      } else {
        var r := Resolve(ResolverEnv(), init);
        if r.Fail? {
          return Threw(r.failure), "";
        }
        if r.value.Some? {
          VisitType(r.value.value);
        }
        text := OptTypeText(r.value);
      }
      st := Completed;
    }

    method WriteInitializer(init: Expr) returns (ghost text: string)
      modifies this`out
      ensures text == if init.MissingExpr? then " = NULL;\n" else " = " + ExprText(init, floatText) + ";\n"
      ensures out == old(out) + text
    {
      ghost var o := out;
      if init.MissingExpr? {
        Write(" = NULL;\n");
      } else {
        Write(" = ");
        WriteExpr(init);
        Write(";\n");
        AppendAssoc3(o, " = ", ExprText(init, floatText), ";\n");
      }
      text := if init.MissingExpr? then " = NULL;\n" else " = " + ExprText(init, floatText) + ";\n";
    }

    method WriteIfElse(s: Stmt) returns (st: Status)
      requires s.IfElse?
      modifies this`out
      ensures out == old(out) + StmtText(s, ResolverEnv(), floatText).text
      ensures st.Completed? <==> StmtText(s, ResolverEnv(), floatText).complete
      decreases s, 1
    {
      ghost var o := out;
      st := WriteIfPart(s);
      if st.Threw? || s.elseBody.MissingStmt? {
        return;
      }
      ghost var ifPart := Then(Then(Whole("if(" + ExprText(s.cond, floatText) + "){\n"), StmtText(s.ifBody, ResolverEnv(), floatText)), Whole("}\n"));
      Write("else{\n");
      ThenStep(o, ifPart, Whole("else{\n"));
      ghost var withElse := Then(ifPart, Whole("else{\n"));
      st := WriteStmt(s.elseBody);
      ThenStep(o, withElse, StmtText(s.elseBody, ResolverEnv(), floatText));
      if st.Threw? {
        return;
      }
      Write("}\n");
      ThenStep(o, Then(withElse, StmtText(s.elseBody, ResolverEnv(), floatText)), Whole("}\n"));
    }

    /** The condition, the branch taken and its closing brace. */
    method WriteIfPart(s: Stmt) returns (st: Status)
      requires s.IfElse?
      modifies this`out
      ensures var p := Then(Then(Whole("if(" + ExprText(s.cond, floatText) + "){\n"), StmtText(s.ifBody, ResolverEnv(), floatText)), Whole("}\n"));
        out == old(out) + p.text && (st.Completed? <==> p.complete)
      decreases s, 0
    {
      ghost var o := out;
      Write("if(");
      WriteExpr(s.cond);
      Write("){\n");
      var head := "if(" + ExprText(s.cond, floatText) + "){\n";
      AppendAssoc3(o, "if(", ExprText(s.cond, floatText), "){\n");
      st := WriteStmt(s.ifBody);
      ThenStep(o, Whole(head), StmtText(s.ifBody, ResolverEnv(), floatText));
      if st.Threw? {
        return;
      }
      Write("}\n");
      ThenStep(o, Then(Whole(head), StmtText(s.ifBody, ResolverEnv(), floatText)), Whole("}\n"));
    }

    /** `visitWhileDoTree` and `visitDoWhileTree`; the latter writes its
        condition where the body belongs and its body where the condition
        belongs. */
    method WriteLoop(s: Stmt) returns (st: Status)
      requires s.WhileDo? || s.DoWhile?
      modifies this`out
      ensures out == old(out) + StmtText(s, ResolverEnv(), floatText).text
      ensures st.Completed? <==> StmtText(s, ResolverEnv(), floatText).complete
      decreases s, 1
    {
      ghost var o := out;
      var head;
      if s.WhileDo? {
        Write("while(");
        WriteExpr(s.cond);
        Write(") {\n");
        head := "while(" + ExprText(s.cond, floatText) + ") {\n";
        AppendAssoc3(o, "while(", ExprText(s.cond, floatText), ") {\n");
      } else {
        Write("do{\n");
        WriteExpr(s.cond);
        Write("}\n");
        Write("while(");
        head := "do{\n" + ExprText(s.cond, floatText) + "}\n" + "while(";
        AppendAssoc4(o, "do{\n", ExprText(s.cond, floatText), "}\n", "while(");
      }
      st := WriteStmt(s.body);
      ThenStep(o, Whole(head), StmtText(s.body, ResolverEnv(), floatText));
      if st.Threw? {
        return;
      }
      var tail := if s.WhileDo? then "}\n" else ");";
      Write(tail);
      ThenStep(o, Then(Whole(head), StmtText(s.body, ResolverEnv(), floatText)), Whole(tail));
    }

    /** `visitBlockTree`: the statements in order, no braces; an exception
        leaves the rest unwritten. */
    method WriteBlock(parent: Stmt, ss: seq<Stmt>) returns (st: Status)
      requires forall k :: 0 <= k < |ss| ==> ss[k] < parent
      modifies this`out
      ensures out == old(out) + BlockText(ss, ResolverEnv(), floatText).text
      ensures st.Completed? <==> BlockText(ss, ResolverEnv(), floatText).complete
      decreases parent, 1
    {
      ghost var o := out;
      var i := 0;
      while i < |ss|
        invariant 0 <= i <= |ss|
        invariant out == o + BlockText(ss[..i], ResolverEnv(), floatText).text
        invariant BlockText(ss[..i], ResolverEnv(), floatText).complete
      {
        st := WriteStmt(ss[i]);
        BlockNext(ss, i, ResolverEnv(), floatText);
        ThenStep(o, BlockText(ss[..i], ResolverEnv(), floatText), StmtText(ss[i], ResolverEnv(), floatText));
        if st.Threw? {
          BlockStops(ss, i + 1, ResolverEnv(), floatText);
          return;
        }
        i := i + 1;
      }
      assert ss[..i] == ss;
      st := Completed;
    }

    // ---- declarations

    method VisitParameter(p: Param)
      modifies this`out
      ensures out == old(out) + ParamText(p)
    {
      ghost var o := out;
      VisitType(p.ty);
      Write(" " + p.name);
      AppendAssoc(o, TypeText(p.ty), " " + p.name);
    }

    /** Scanning a parameter list: the parameters back to back. */
    method WriteParams(ps: seq<Param>)
      modifies this`out
      ensures out == old(out) + Concat(ps, ParamText)
    {
      ghost var o := out;
      var i := 0;
      while i < |ps|
        invariant 0 <= i <= |ps|
        invariant out == o + Concat(ps[..i], ParamText)
      {
        VisitParameter(ps[i]);
        assert ps[..i + 1] == ps[..i] + [ps[i]];
        ConcatNext(ps[..i], ps[i], ParamText);
        AppendAssoc(o, Concat(ps[..i], ParamText), ParamText(ps[i]));
        i := i + 1;
      }
      assert ps[..i] == ps;
    }

    method VisitField(f: Field)
      modifies this`out
      ensures out == old(out) + FieldText(f)
    {
      ghost var o := out;
      VisitType(f.ty);
      Write(" " + f.name + "; ");
      AppendAssoc(o, TypeText(f.ty), " " + f.name + "; ");
    }

    method WriteFields(fs: seq<Field>)
      modifies this`out
      ensures out == old(out) + Concat(fs, FieldText)
    {
      ghost var o := out;
      var i := 0;
      while i < |fs|
        invariant 0 <= i <= |fs|
        invariant out == o + Concat(fs[..i], FieldText)
      {
        VisitField(fs[i]);
        assert fs[..i + 1] == fs[..i] + [fs[i]];
        ConcatNext(fs[..i], fs[i], FieldText);
        AppendAssoc(o, Concat(fs[..i], FieldText), FieldText(fs[i]));
        i := i + 1;
      }
      assert fs[..i] == fs;
    }

    method VisitStruct(sd: StructDecl)
      modifies this`out
      ensures out == old(out) + StructText(sd)
    {
      ghost var o := out;
      Write("typedef struct __" + sd.name + " { ");
      WriteFields(sd.fields);
      Write("} " + sd.name + ";\n");
      AppendAssoc3(o, "typedef struct __" + sd.name + " { ", Concat(sd.fields, FieldText), "} " + sd.name + ";\n");
    }

    method ScanStructs(structs: seq<StructDecl>)
      modifies this`out
      ensures out == old(out) + Concat(structs, StructText)
    {
      ghost var o := out;
      var i := 0;
      while i < |structs|
        invariant 0 <= i <= |structs|
        invariant out == o + Concat(structs[..i], StructText)
      {
        VisitStruct(structs[i]);
        assert structs[..i + 1] == structs[..i] + [structs[i]];
        ConcatNext(structs[..i], structs[i], StructText);
        AppendAssoc(o, Concat(structs[..i], StructText), StructText(structs[i]));
        i := i + 1;
      }
      assert structs[..i] == structs;
    }

    /** `genAbstractTypeDefs`. */
    method GenAbstractTypeDefs(structs: seq<StructDecl>)
      modifies this`out
      ensures out == old(out) + Concat(structs, TypedefText)
    {
      ghost var o := out;
      var i := 0;
      while i < |structs|
        invariant 0 <= i <= |structs|
        invariant out == o + Concat(structs[..i], TypedefText)
      {
        var n := structs[i].name;
        Write("typedef __" + n + " " + n + ";\n");
        assert structs[..i + 1] == structs[..i] + [structs[i]];
        ConcatNext(structs[..i], structs[i], TypedefText);
        AppendAssoc(o, Concat(structs[..i], TypedefText), TypedefText(structs[i]));
        i := i + 1;
      }
      assert structs[..i] == structs;
    }

    /** The return type, the name and the parameters of a callable. */
    method WriteSignature(c: Callable)
      modifies this`out
      ensures out == old(out) + Signature(c, inGlobalScope)
    {
      ghost var o := out;
      if inGlobalScope && c.name == "main" {
        Write("int");
      } else {
        VisitType(c.ret);
      }
      Write(" " + c.name + "(");
      WriteParams(c.params);
      AppendAssoc3(o, ReturnTypeText(inGlobalScope, c.name, c.ret), " " + c.name + "(", Concat(c.params, ParamText));
    }

    /** `genAbstractFunctionDefs`. */
    method GenAbstractFunctionDefs(cs: seq<Callable>)
      modifies this`out
      ensures out == old(out) + Prototypes(cs, inGlobalScope)
    {
      ghost var o := out;
      var i := 0;
      while i < |cs|
        invariant 0 <= i <= |cs|
        invariant out == o + Prototypes(cs[..i], inGlobalScope)
      {
        ghost var before := out;
        WriteSignature(cs[i]);
        Write(");\n");
        AppendAssoc(before, Signature(cs[i], inGlobalScope), ");\n");
        PrototypesNext(cs, i, inGlobalScope);
        AppendAssoc(o, Prototypes(cs[..i], inGlobalScope), PrototypeText(cs[i], inGlobalScope));
        i := i + 1;
      }
      assert cs[..i] == cs;
    }

    /** `visitFunctionTree`, and nothing for a native. */
    method VisitCallable(c: Callable) returns (st: Status)
      modifies this`out
      ensures out == old(out) + CallableText(c, inGlobalScope, ResolverEnv(), floatText).text
      ensures st.Completed? <==> CallableText(c, inGlobalScope, ResolverEnv(), floatText).complete
    {
      if c.Native? {
        return Completed;
      }
      ghost var o := out;
      ghost var head := WriteFunctionHead(c);
      st := WriteStmt(c.body);
      ThenStep(o, Whole(head), StmtText(c.body, ResolverEnv(), floatText));
      if st.Threw? {
        return;
      }
      var tail := WriteFunctionEnd(c.name);
      ThenStep(o, Then(Whole(head), StmtText(c.body, ResolverEnv(), floatText)), Whole(tail));
    }

    method WriteFunctionHead(c: Callable) returns (ghost head: string)
      modifies this`out
      ensures head == Signature(c, inGlobalScope) + "){\n"
      ensures out == old(out) + head
    {
      ghost var o := out;
      WriteSignature(c);
      Write("){\n");
      head := Signature(c, inGlobalScope) + "){\n";
      AppendAssoc(o, Signature(c, inGlobalScope), "){\n");
    }

    /** `return 0;` for `main` in global scope, then the closing brace. */
    method WriteFunctionEnd(name: string) returns (ghost tail: string)
      modifies this`out
      ensures tail == (if inGlobalScope && name == "main" then "return 0;\n" else "") + "}\n"
      ensures out == old(out) + tail
    {
      tail := (if inGlobalScope && name == "main" then "return 0;\n" else "") + "}\n";
      if inGlobalScope && name == "main" {
        Write("return 0;\n");
      }
      Write("}\n");
    }

    method ScanCallables(cs: seq<Callable>) returns (st: Status)
      modifies this`out
      ensures out == old(out) + CallablesText(cs, inGlobalScope, ResolverEnv(), floatText).text
      ensures st.Completed? <==> CallablesText(cs, inGlobalScope, ResolverEnv(), floatText).complete
    {
      ghost var o := out;
      var i := 0;
      while i < |cs|
        invariant 0 <= i <= |cs|
        invariant out == o + CallablesText(cs[..i], inGlobalScope, ResolverEnv(), floatText).text
        invariant CallablesText(cs[..i], inGlobalScope, ResolverEnv(), floatText).complete
      {
        st := VisitCallable(cs[i]);
        CallablesNext(cs, i, inGlobalScope, ResolverEnv(), floatText);
        ThenStep(o, CallablesText(cs[..i], inGlobalScope, ResolverEnv(), floatText), CallableText(cs[i], inGlobalScope, ResolverEnv(), floatText));
        if st.Threw? {
          CallablesStop(cs, i + 1, inGlobalScope, ResolverEnv(), floatText);
          return;
        }
        i := i + 1;
      }
      assert cs[..i] == cs;
      st := Completed;
    }

    /** `visitRootTree`: the resolver first checks the whole root; as it
        has no logger, an error it logs throws like any exception it raises,
        and then nothing is written. Otherwise the declarations and the
        functions are written. The scope flag drops only when the whole
        root was written. */
    method VisitRoot(r: Root) returns (st: Status, checked: Result<()>)
      modifies this, typeResolver
      ensures checked.Fail? || typeResolver.diags != old(typeResolver.diags) ==>
        st.Threw? && out == old(out) && inGlobalScope == old(inGlobalScope)
      ensures checked.Ok? && typeResolver.diags == old(typeResolver.diags) ==>
        out == old(out) + RootText(r, old(inGlobalScope), ResolverEnv(), floatText).text
        && (st.Completed? <==> RootText(r, old(inGlobalScope), ResolverEnv(), floatText).complete)
        && inGlobalScope == (old(inGlobalScope) && st.Threw?)
    {
      var d0 := typeResolver.diags;
      checked := typeResolver.VisitRoot(r);
      if checked.Fail? {
        return Threw(checked.failure), checked;
      }
      if typeResolver.diags != d0 {
        return Threw(Thrown("NullPointerException")), checked;
      }
      st := WriteRoot(r);
    }

    /** The writing part of `visitRootTree`, once the resolver has checked
        the root. */
    method WriteRoot(r: Root) returns (st: Status)
      modifies this`out, this`inGlobalScope
      ensures out == old(out) + RootText(r, old(inGlobalScope), ResolverEnv(), floatText).text
      ensures st.Completed? <==> RootText(r, old(inGlobalScope), ResolverEnv(), floatText).complete
      ensures inGlobalScope == (old(inGlobalScope) && st.Threw?)
    {
      ghost var o := out;
      ghost var decls := WriteDeclarations(r);
      st := ScanCallables(r.callables);
      ThenStep(o, Whole(decls), CallablesText(r.callables, inGlobalScope, ResolverEnv(), floatText));
      if st.Threw? {
        return;
      }
      inGlobalScope := false;
    }

    /** Everything before the function definitions: the header, the
        typedefs, the prototypes and the struct definitions. */
    method WriteDeclarations(r: Root) returns (ghost decls: string)
      modifies this`out
      ensures decls == Header + Concat(r.structs, TypedefText) + Prototypes(r.callables, inGlobalScope) + Concat(r.structs, StructText)
      ensures out == old(out) + decls
    {
      ghost var o := out;
      Write(IncludeLine);
      Write(BoolDefines);
      Write(BoolTypedef);
      AppendAssoc3(o, IncludeLine, BoolDefines, BoolTypedef);
      GenAbstractTypeDefs(r.structs);
      GenAbstractFunctionDefs(r.callables);
      ScanStructs(r.structs);
      decls := Header + Concat(r.structs, TypedefText) + Prototypes(r.callables, inGlobalScope) + Concat(r.structs, StructText);
      AppendAssoc4(o, Header, Concat(r.structs, TypedefText), Prototypes(r.callables, inGlobalScope), Concat(r.structs, StructText));
    }
  }
}
