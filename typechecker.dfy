/** The stateful half of `computil.check.TypeChecker`: registration of
    structs, templates, impls and functions, and the statement visits, which
    keep the `requiredReturnType`/`returned` pair of the function being
    checked. The checker never opens a block scope: every statement of a
    body is checked in the one function scope, which `let` extends. */
module TypeChecking {
  import opened Wrappers
  import opened Diags
  import opened Types
  import opened Ast
  import opened Scopes
  import opened TypeRules
  import EM = ErrorMessages

  function ParamEntry(p: Param): TypeEntry { TypeEntry(p.name, Some(p.ty), p.mutable, None) }

  function ParamEntries(ps: seq<Param>): (r: seq<TypeEntry>)
    ensures |r| == |ps| && forall i :: 0 <= i < |ps| ==> r[i] == ParamEntry(ps[i])
  {
    seq(|ps|, i requires 0 <= i < |ps| => ParamEntry(ps[i]))
  }

  function FieldEntries(fs: seq<Field>): (r: seq<TypeEntry>)
    ensures |r| == |fs| && forall i :: 0 <= i < |fs| ==> r[i] == TypeEntry(fs[i].name, Some(fs[i].ty), fs[i].mutable, None)
  {
    seq(|fs|, i requires 0 <= i < |fs| => TypeEntry(fs[i].name, Some(fs[i].ty), fs[i].mutable, None))
  }

  function ParamTypes(ps: seq<Param>): (r: seq<Ty>)
    ensures |r| == |ps| && forall i :: 0 <= i < |ps| ==> r[i] == ps[i].ty
  {
    seq(|ps|, i requires 0 <= i < |ps| => ps[i].ty)
  }

  /** A template method's entry: its return type and parameter types. */
  function MethodEntries(ms: seq<TemplateMethod>): (r: seq<TypeEntry>)
    ensures |r| == |ms| && forall i :: 0 <= i < |ms| ==>
      r[i] == TypeEntry(ms[i].name, Some(ms[i].ret), false, Some(ParamTypes(ms[i].params)))
  {
    seq(|ms|, i requires 0 <= i < |ms| => TypeEntry(ms[i].name, Some(ms[i].ret), false, Some(ParamTypes(ms[i].params))))
  }

  /** A callable's global entry, as `registerFunctions` builds it. */
  function CallableEntry(c: Callable): TypeEntry {
    TypeEntry(c.name, Some(c.ret), false, Some(ParamTypes(c.params)))
  }

  function CallableEntries(cs: seq<Callable>): (r: seq<TypeEntry>)
    ensures |r| == |cs| && forall i :: 0 <= i < |cs| ==> r[i] == CallableEntry(cs[i])
  {
    seq(|cs|, i requires 0 <= i < |cs| => CallableEntry(cs[i]))
  }

  /** The parameters the native callables of a list add to the scope they
      are visited in, in order. */
  function NativeParams(cs: seq<Callable>): seq<TypeEntry> {
    if cs == [] then []
    else (if cs[0].Native? then ParamEntries(cs[0].params) else []) + NativeParams(cs[1..])
  }

  const EmptyStruct: StructTable := StructScope(map[], [], [])

  /** `add` of each entry in turn. */
  function AddAll(s: Scope<TypeEntry>, es: seq<TypeEntry>): (r: Scope<TypeEntry>)
    ensures r.GlobalScope? == s.GlobalScope? && r.BlockScope? == s.BlockScope?
    ensures r.FunctionScope? == s.FunctionScope? && r.StructScope? == s.StructScope?
    ensures s.FunctionScope? ==> r.fparent == s.fparent
    ensures s.StructScope? ==> r.ordered == s.ordered + es && r.impls == s.impls
  {
    if es == [] then s
    else Add(AddAll(s, es[..|es| - 1]), es[|es| - 1].name, es[|es| - 1])
  }

  /** The last entry of a list with a given name. */
  function LastNamed(es: seq<TypeEntry>, n: string): (r: Option<TypeEntry>)
    ensures r.Some? ==> r.value in es && r.value.name == n
    ensures r.None? <==> forall e :: e in es ==> e.name != n
  {
    if es == [] then None
    else if es[|es| - 1].name == n then Some(es[|es| - 1])
    else
      assert forall e :: e in es ==> e in es[..|es| - 1] || e == es[|es| - 1];
      LastNamed(es[..|es| - 1], n)
  }

  /** After adding a list of entries, a name maps to the last entry of that
      name in the list, or to what it mapped to before. */
  lemma {:induction false} AddAllEntries(s: Scope<TypeEntry>, es: seq<TypeEntry>, n: string)
    ensures n in AddAll(s, es).entries <==> LastNamed(es, n).Some? || n in s.entries
    ensures LastNamed(es, n).Some? ==> AddAll(s, es).entries[n] == LastNamed(es, n).value
    ensures LastNamed(es, n).None? && n in s.entries ==> AddAll(s, es).entries[n] == s.entries[n]
  {
    if es != [] {
      AddAllEntries(s, es[..|es| - 1], n);
    }
  }

  lemma AddAllSnoc(s: Scope<TypeEntry>, es: seq<TypeEntry>, i: nat)
    requires i < |es|
    ensures AddAll(s, es[..i + 1]) == Add(AddAll(s, es[..i]), es[i].name, es[i])
  {
    assert es[..i + 1][..i] == es[..i];
  }

  /** Adding entries to a scope one after the other, as the loops over
      parameters, fields and template methods do. */
  method DeclareAll(scope: Scope<TypeEntry>, es: seq<TypeEntry>) returns (r: Scope<TypeEntry>)
    ensures r == AddAll(scope, es)
  {
    r := scope;
    var i := 0;
    while i < |es|
      invariant 0 <= i <= |es|
      invariant r == AddAll(scope, es[..i])
    {
      AddAllSnoc(scope, es, i);
      r := Add(r, es[i].name, es[i]);
      i := i + 1;
    }
    assert es[..i] == es;
  }

  /** Does a statement visit keep every entry of the function scope? */
  predicate Extends(s: Scope<TypeEntry>, s': Scope<TypeEntry>) {
    s'.FunctionScope? == s.FunctionScope? && (s.FunctionScope? ==> s'.fparent == s.fparent)
    && forall n :: n in s.entries ==> n in s'.entries && s'.entries[n] == s.entries[n]
  }

  // ---- what checking a statement does ----------------------------------------

  /** The state the statement visits carry: the function scope, the
      `returned` flag and the errors logged so far. */
  datatype Checked = Checked(scope: Scope<TypeEntry>, returned: bool, diags: seq<Diagnostic>)

  /** The part of `checkCondition` after the condition was typed as `t`:
      the errors logged after `diags`. A condition of `null` type throws once
      its mismatch check has passed. */
  function TypedConditionCheck(impls: map<string, set<string>>, e: Expr, t: Typing, diags: seq<Diagnostic>)
    : (r: Result<seq<Diagnostic>>)
    ensures r.Ok? ==> t.ty.Some? && !e.MissingExpr? && diags <= r.value
    ensures r.Ok? && IsNullable(t.ty.value) ==>
      |r.value| > 0 && r.value[|r.value| - 1] == Error("branch condition required null safety", e.loc)
    ensures r.Ok? && !IsNullable(t.ty.value) ==>
      (r.value == diags <==> Matches(impls, BoolType, t.ty.value) == Ok(true))
  {
    var at :- LocOf(e);
    var d :- CheckTypesMatches(impls, Some(BoolType), t.ty, at);
    if t.ty.None? then NPE()
    else Ok(diags + d + (if IsNullable(t.ty.value) then [Error("branch condition required null safety", at)] else []))
  }

  /** `checkCondition` in `scope`: the condition's own errors, then the
      typed part. */
  function ConditionCheck(env: Env, e: Expr, scope: Scope<TypeEntry>, diags: seq<Diagnostic>): (r: Result<seq<Diagnostic>>)
    ensures r.Ok? ==> TypeOf(env, Some(scope), e).Ok? && TypeOf(env, Some(scope), e).value.ty.Some?
    ensures r.Ok? ==> diags + TypeOf(env, Some(scope), e).value.diags <= r.value
  {
    var t :- TypeOf(env, Some(scope), e);
    TypedConditionCheck(env.impls, e, t, diags + t.diags)
  }

  /** The part of `visitReturnTree` after the value was typed as `t`: one
      return-type error on a mismatch, and `returned` set in a function
      scope. */
  function ReportCheck(impls: map<string, set<string>>, required: Option<Ty>, e: Expr, t: Typing, c: Checked)
    : (r: Result<Checked>)
    requires t.ty.Some? && !e.MissingExpr?
    ensures r.Ok? ==> r.value.scope == c.scope && (r.value.returned <==> c.returned || c.scope.FunctionScope?)
    ensures r.Ok? ==> c.diags <= r.value.diags
    ensures r.Ok? ==> (|r.value.diags| == |c.diags| + 1 <==> TypeMatches(impls, required, t.ty) == Ok(false))
  {
    var m :- TypeMatches(impls, required, t.ty);
    var d :- if m then Ok([]) else (var x :- EM.InvalidReturnType(required.value, t.ty.value, e.loc); Ok([x]));
    Ok(Checked(c.scope, c.returned || c.scope.FunctionScope?, c.diags + d))
  }

  /** `visitReturnTree`. */
  function ReturnCheck(env: Env, required: Option<Ty>, e: Expr, c: Checked): (r: Result<Checked>)
    ensures r.Ok? ==> TypeOf(env, Some(c.scope), e).Ok? && r.value.scope == c.scope
    ensures r.Ok? ==> (r.value.returned <==> c.returned || (c.scope.FunctionScope? && TypeOf(env, Some(c.scope), e).value.ty.Some?))
    ensures r.Ok? ==> c.diags + TypeOf(env, Some(c.scope), e).value.diags <= r.value.diags
    ensures r.Ok? ==> var t := TypeOf(env, Some(c.scope), e).value;
      (|r.value.diags| == |c.diags| + |t.diags| + 1 <==> t.ty.Some? && TypeMatches(env.impls, required, t.ty) == Ok(false))
  {
    var t :- TypeOf(env, Some(c.scope), e);
    if t.ty.None? then Ok(c.(diags := c.diags + t.diags))
    else ReportCheck(env.impls, required, e, t, c.(diags := c.diags + t.diags))
  }

  /** The part of `visitVarDecTree` after the initializer was typed as `t`. */
  function DeclareCheck(impls: map<string, set<string>>, name: string, mutable: bool, ty: Option<Ty>, init: Expr,
                        t: Typing, c: Checked): (r: Result<Checked>)
    requires t.ty.Some? ==> !init.MissingExpr?
    ensures r.Ok? ==> r.value.returned == c.returned && c.diags <= r.value.diags
    ensures r.Ok? && TypeFind(c.scope, name).Some? ==> r.value.scope == c.scope
    ensures r.Ok? && TypeFind(c.scope, name).None? ==>
      r.value.scope == Add(c.scope, name, TypeEntry(name, if ty.Some? then ty else t.ty, mutable, None))
    ensures r.Ok? && ty.Some? && t.ty.Some? ==> (r.value.diags == c.diags <==> Matches(impls, ty.value, t.ty.value) == Ok(true))
  {
    var d :- if ty.Some? && t.ty.Some? then CheckTypesMatches(impls, ty, t.ty, init.loc) else Ok([]);
    var required := if ty.Some? then ty else t.ty;
    var scope := if TypeFind(c.scope, name).None? then Add(c.scope, name, TypeEntry(name, required, mutable, None)) else c.scope;
    Ok(Checked(scope, c.returned, c.diags + d))
  }

  /** `visitVarDecTree`: the initializer's own errors, then the
      declaration. */
  function VarDecCheck(env: Env, name: string, mutable: bool, ty: Option<Ty>, init: Expr, c: Checked): (r: Result<Checked>)
    ensures r.Ok? ==> TypeOf(env, Some(c.scope), init).Ok? && r.value.returned == c.returned
    ensures r.Ok? ==> c.diags + TypeOf(env, Some(c.scope), init).value.diags <= r.value.diags
  {
    var t :- TypeOf(env, Some(c.scope), init);
    DeclareCheck(env.impls, name, mutable, ty, init, t, c.(diags := c.diags + t.diags))
  }

  /** A statement visit ended as `spec` says: it throws exactly when `spec`
      fails, and otherwise leaves the scope, the flag and the log `spec`
      gives. */
  predicate Ends(spec: Result<Checked>, r: Result<Scope<TypeEntry>>, returned: bool, diags: seq<Diagnostic>) {
    && (r.Ok? <==> spec.Ok?)
    && (r.Ok? ==> r.value == spec.value.scope && returned == spec.value.returned && diags == spec.value.diags)
  }

  /** The part of `visitFreeTree` after the value was typed as `t`: the
      value's errors, then one error for a primitive type other than NULL;
      a value of `null` type throws. */
  function TypedFreeCheck(t: Typing, loc: Loc, diags: seq<Diagnostic>): (r: Result<seq<Diagnostic>>)
    ensures r.Ok? <==> t.ty.Some?
    ensures r.Ok? ==>
      r.value == diags + t.diags
        + (if t.ty != Some(VoidType) && IsPrimitiveName(Name(t.ty.value)) then [Error("ca not release primitive type", loc)] else [])
  {
    if t.ty == Some(VoidType) then Ok(diags + t.diags)
    else
      var n :- NameOf(t.ty);
      Ok(diags + t.diags + (if IsPrimitiveName(n) then [Error("ca not release primitive type", loc)] else []))
  }

  /** `visitFreeTree`. */
  function FreeCheck(env: Env, e: Expr, loc: Loc, c: Checked): (r: Result<Checked>)
    ensures r.Ok? ==> TypeOf(env, Some(c.scope), e).Ok? && TypeOf(env, Some(c.scope), e).value.ty.Some?
    ensures r.Ok? ==> var t := TypeOf(env, Some(c.scope), e).value;
      r.value == c.(diags := c.diags + t.diags
        + (if t.ty != Some(VoidType) && IsPrimitiveName(Name(t.ty.value)) then [Error("ca not release primitive type", loc)] else []))
  {
    var t :- TypeOf(env, Some(c.scope), e);
    var d :- TypedFreeCheck(t, loc, c.diags);
    Ok(c.(diags := d))
  }

  /** What visiting a statement in a function scope does: the scope it
      leaves, the `returned` flag and the errors logged, or the exception
      that ends the visit. Sub-statements are visited in source order, each
      in the scope the previous one left. */
  function StmtCheck(env: Env, required: Option<Ty>, s: Stmt, c: Checked): (r: Result<Checked>)
    requires c.scope.FunctionScope?
    ensures r.Ok? ==> Extends(c.scope, r.value.scope) && (c.returned ==> r.value.returned) && c.diags <= r.value.diags
    decreases s, 1
  {
    match s
    case Block(stmts) => StmtsCheck(env, required, s, stmts, 0, c)
    case IfElse(_, _, _, _) => IfElseCheck(env, required, s, c)
    case WhileDo(_, _, _) => WhileDoCheck(env, required, s, c)
    case DoWhile(_, _, _) => DoWhileCheck(env, required, s, c)
    case ExprStmt(e, _) =>
      var t :- TypeOf(env, Some(c.scope), e);
      Ok(c.(diags := c.diags + t.diags))
    case Return(e, _) => ReturnCheck(env, required, e, c)
    case VarDec(name, mutable, ty, init, _) => VarDecCheck(env, name, mutable, ty, init, c)
    case Free(e, loc) => FreeCheck(env, e, loc, c)
    case MissingStmt => Ok(c)
  }

  /** An `if`: the condition, then the `if` body, then the `else` body in
      the scope the `if` body left. */
  function IfElseCheck(env: Env, required: Option<Ty>, s: Stmt, c: Checked): (r: Result<Checked>)
    requires s.IfElse? && c.scope.FunctionScope?
    ensures r.Ok? ==> Extends(c.scope, r.value.scope) && (c.returned ==> r.value.returned) && c.diags <= r.value.diags
    decreases s, 0
  {
    var d :- ConditionCheck(env, s.cond, c.scope, c.diags);
    var c1 :- StmtCheck(env, required, s.ifBody, c.(diags := d));
    StmtCheck(env, required, s.elseBody, c1)
  }

  /** A `while`: the condition, then the body once. */
  function WhileDoCheck(env: Env, required: Option<Ty>, s: Stmt, c: Checked): (r: Result<Checked>)
    requires s.WhileDo? && c.scope.FunctionScope?
    ensures r.Ok? ==> Extends(c.scope, r.value.scope) && (c.returned ==> r.value.returned) && c.diags <= r.value.diags
    decreases s, 0
  {
    var d :- ConditionCheck(env, s.cond, c.scope, c.diags);
    StmtCheck(env, required, s.body, c.(diags := d))
  }

  /** A `do ... while`: the body, then the condition in the scope the body
      left. */
  function DoWhileCheck(env: Env, required: Option<Ty>, s: Stmt, c: Checked): (r: Result<Checked>)
    requires s.DoWhile? && c.scope.FunctionScope?
    ensures r.Ok? ==> Extends(c.scope, r.value.scope) && (c.returned ==> r.value.returned) && c.diags <= r.value.diags
    decreases s, 0
  {
    var c1 :- StmtCheck(env, required, s.body, c);
    var d :- ConditionCheck(env, s.cond, c1.scope, c1.diags);
    Ok(c1.(diags := d))
  }

  /** `scan(statements)` from the `i`-th statement on: each statement in
      the state the previous one left. */
  function StmtsCheck(env: Env, required: Option<Ty>, owner: Stmt, ss: seq<Stmt>, i: nat, c: Checked): (r: Result<Checked>)
    requires c.scope.FunctionScope? && i <= |ss| && forall x :: x in ss ==> x < owner
    ensures r.Ok? ==> Extends(c.scope, r.value.scope) && (c.returned ==> r.value.returned) && c.diags <= r.value.diags
    decreases owner, 0, |ss| - i
  {
    if i == |ss| then Ok(c)
    else
      assert ss[i] in ss;
      var c1 :- StmtCheck(env, required, ss[i], c);
      StmtsCheck(env, required, owner, ss, i + 1, c1)
  }

  /** Checking statements `i` to the end is checking those before `k` and
      then, from the state they leave, those from `k` on. */
  lemma {:induction false} StmtsCheckSplit(env: Env, required: Option<Ty>, owner: Stmt, ss: seq<Stmt>, i: nat, k: nat, c: Checked)
    requires c.scope.FunctionScope? && i <= k <= |ss| && forall x :: x in ss ==> x < owner
    ensures forall x :: x in ss[..k] ==> x < owner
    ensures var front := StmtsCheck(env, required, owner, ss[..k], i, c);
      StmtsCheck(env, required, owner, ss, i, c)
      == if front.Fail? then front else StmtsCheck(env, required, owner, ss, k, front.value)
    decreases k - i
  {
    assert forall x :: x in ss[..k] ==> x in ss;
    if i < k {
      assert ss[..k][i] == ss[i] && ss[i] in ss;
      var first := StmtCheck(env, required, ss[i], c);
      if first.Ok? {
        StmtsCheckSplit(env, required, owner, ss, i + 1, k, first.value);
      }
    }
  }

  /** A block in which statement `k` is a `return` whose value has a type in
      the scope the statements before it left ends, when it completes, with
      `returned` set: the flag is set by that return and never cleared. */
  lemma ReturnInBlockSetsReturned(env: Env, required: Option<Ty>, b: Stmt, k: nat, c: Checked)
    requires c.scope.FunctionScope? && b.Block? && k < |b.stmts| && b.stmts[k].Return?
    requires var before := StmtsCheck(env, required, b, b.stmts[..k], 0, c);
      before.Ok? && TypeOf(env, Some(before.value.scope), b.stmts[k].expr).Ok?
      && TypeOf(env, Some(before.value.scope), b.stmts[k].expr).value.ty.Some?
    requires StmtCheck(env, required, b, c).Ok?
    ensures StmtCheck(env, required, b, c).value.returned
  {
    StmtsCheckSplit(env, required, b, b.stmts, 0, k, c);
    var before := StmtsCheck(env, required, b, b.stmts[..k], 0, c).value;
    assert b.stmts[k] in b.stmts;
    var after := StmtCheck(env, required, b.stmts[k], before);
    assert after.Ok? && after.value.returned;
  }

  /** A function whose body block holds such a `return` at top level gets no
      missing-return error: its check logs exactly what its body logs. */
  lemma ReturningFunctionNeedsNoVoid(env: Env, f: Callable, scope: Scope<TypeEntry>, diags: seq<Diagnostic>, k: nat)
    requires f.Function? && f.body.Block? && k < |f.body.stmts| && f.body.stmts[k].Return?
    requires var before := StmtsCheck(env, Some(f.ret), f.body, f.body.stmts[..k], 0, Checked(FunctionEntry(scope, f), false, diags));
      before.Ok? && TypeOf(env, Some(before.value.scope), f.body.stmts[k].expr).Ok?
      && TypeOf(env, Some(before.value.scope), f.body.stmts[k].expr).value.ty.Some?
    requires FunctionCheck(env, f, scope, diags).Ok?
    ensures FunctionCheck(env, f, scope, diags).value
      == StmtCheck(env, Some(f.ret), f.body, Checked(FunctionEntry(scope, f), false, diags)).value.diags
  {
    ReturnInBlockSetsReturned(env, Some(f.ret), f.body, k, Checked(FunctionEntry(scope, f), false, diags));
  }

  // ---- what checking functions and implementations does ---------------------

  /** `visitFunctionTree` in `scope`: the body is checked in a fresh function
      scope holding the parameters, with `returned` cleared; when nothing
      returned and the declared type does not accept NULL, an
      invalid-return-type error follows the body's errors. */
  function FunctionCheck(env: Env, f: Callable, scope: Scope<TypeEntry>, diags: seq<Diagnostic>): (r: Result<seq<Diagnostic>>)
    requires f.Function?
    ensures r.Ok? ==> diags <= r.value
  {
    var body :- StmtCheck(env, Some(f.ret), f.body, Checked(FunctionEntry(scope, f), false, diags));
    if body.returned then Ok(body.diags)
    else
      var m :- Matches(env.impls, f.ret, VoidType);
      if m then Ok(body.diags)
      else
        var d :- EM.InvalidReturnType(f.ret, VoidType, f.loc);
        Ok(body.diags + [d])
  }

  /** A function's check adds something after its body's errors exactly
      when the body did not return and the declared type does not accept
      NULL (`void` does not match it). */
  lemma FunctionCheckMissingReturn(env: Env, f: Callable, scope: Scope<TypeEntry>, diags: seq<Diagnostic>)
    requires f.Function? && FunctionCheck(env, f, scope, diags).Ok?
    ensures var body := StmtCheck(env, Some(f.ret), f.body, Checked(FunctionEntry(scope, f), false, diags));
      var r := FunctionCheck(env, f, scope, diags).value;
      body.Ok? && body.value.diags <= r
      && (r != body.value.diags <==> !body.value.returned && Matches(env.impls, f.ret, VoidType) == Ok(false))
  {
  }

  /** After `registerFunctions` every callable's name is a global. */
  lemma CallablesDeclared(g: map<string, TypeEntry>, cs: seq<Callable>)
    ensures forall c :: c in cs ==> c.name in AddAll(GlobalScope(g), CallableEntries(cs)).entries
  {
    forall c | c in cs
      ensures c.name in AddAll(GlobalScope(g), CallableEntries(cs)).entries
    {
      var k :| 0 <= k < |cs| && cs[k] == c;
      assert CallableEntries(cs)[k] in CallableEntries(cs);
      AddAllEntries(GlobalScope(g), CallableEntries(cs), c.name);
    }
  }

  /** The function scope a callable's body is checked in. */
  function FunctionEntry(scope: Scope<TypeEntry>, f: Callable): (r: Scope<TypeEntry>)
    ensures r.FunctionScope? && r.fparent == Some(scope)
  {
    AddAll(FunctionScope(Some(scope), map[]), ParamEntries(f.params))
  }

  /** The loop of `visitRootTree` over the callables: a function is checked
      in the global scope as it stands; a native callable's parameters are
      added to the global scope itself. The result is the global entries
      and the log afterwards. */
  function CallablesCheck(env: Env, cs: seq<Callable>, diags: seq<Diagnostic>)
    : (r: Result<(map<string, TypeEntry>, seq<Diagnostic>)>)
    ensures r.Ok? ==> diags <= r.value.1
    decreases |cs|
  {
    if cs == [] then Ok((env.globals, diags))
    else if cs[0].Function? then
      var d :- FunctionCheck(env, cs[0], GlobalScope(env.globals), diags);
      CallablesCheck(env, cs[1..], d)
    else
      CallablesCheck(env.(globals := AddAll(GlobalScope(env.globals), ParamEntries(cs[0].params)).entries), cs[1..], diags)
  }

  /** `scan(implTree.getImplementations(), structScope)`: a function is
      checked with the struct scope of `forType` as it stands; a native
      callable's parameters are added to that struct scope. The result is
      the struct scopes and the log afterwards. */
  function ImplCheck(env: Env, forType: string, cs: seq<Callable>, diags: seq<Diagnostic>)
    : (r: Result<(map<string, StructTable>, seq<Diagnostic>)>)
    requires forType in env.types
    ensures r.Ok? ==> diags <= r.value.1
    ensures r.Ok? ==> r.value.0 == env.types[forType := ImplScope(env.types[forType], cs)]
    decreases |cs|
  {
    if cs == [] then
      assert env.types[forType := env.types[forType]] == env.types;
      Ok((env.types, diags))
    else if cs[0].Function? then
      var d :- FunctionCheck(env, cs[0], env.types[forType], diags);
      ImplCheck(env, forType, cs[1..], d)
    else
      var scope: StructTable := AddAll(env.types[forType], ParamEntries(cs[0].params));
      ImplCheck(env.(types := env.types[forType := scope]), forType, cs[1..], diags)
  }

  /** The struct scope an impl's callables leave: each native callable's
      parameters are added in turn. */
  function ImplScope(s: StructTable, cs: seq<Callable>): StructTable
    decreases |cs|
  {
    if cs == [] then s
    else if cs[0].Native? then ImplScope(AddAll(s, ParamEntries(cs[0].params)), cs[1..])
    else ImplScope(s, cs[1..])
  }

  /** The struct scope an impl leaves holds the parameters of all its native
      callables, in order, added to the scope it started from. */
  lemma {:induction false} ImplScopeAddsNativeParams(s: StructTable, cs: seq<Callable>)
    ensures ImplScope(s, cs) == AddAll(s, NativeParams(cs))
    decreases |cs|
  {
    if cs == [] {
    } else if cs[0].Native? {
      var ps := ParamEntries(cs[0].params);
      ImplScopeAddsNativeParams(AddAll(s, ps), cs[1..]);
      AddAllAppend(s, ps, NativeParams(cs[1..]));
    } else {
      ImplScopeAddsNativeParams(s, cs[1..]);
      assert NativeParams(cs) == NativeParams(cs[1..]);
    }
  }

  /** One step of `ImplCheck`: the first callable is checked or declared,
      then the rest follow. */
  lemma ImplCheckStep(env: Env, forType: string, cs: seq<Callable>, diags: seq<Diagnostic>)
    requires forType in env.types && cs != []
    ensures cs[0].Function? ==> var d := FunctionCheck(env, cs[0], env.types[forType], diags);
      ImplCheck(env, forType, cs, diags) == if d.Fail? then Fail(d.failure) else ImplCheck(env, forType, cs[1..], d.value)
    ensures cs[0].Native? ==>
      ImplCheck(env, forType, cs, diags)
      == ImplCheck(env.(types := env.types[forType := AddAll(env.types[forType], ParamEntries(cs[0].params))]), forType, cs[1..], diags)
  {
  }

  /** `visitImplementationTree`: the template joins the target's impl set
      when the target is a struct, then the callables are checked when the
      target has a struct scope. */
  function ImplVisit(env: Env, im: Impl, diags: seq<Diagnostic>): (r: Result<(Env, seq<Diagnostic>)>)
    ensures r.Ok? ==> diags <= r.value.1 && r.value.0.globals == env.globals && r.value.0.types.Keys == env.types.Keys
  {
    var env1 := if im.forType in env.impls then env.(impls := env.impls[im.forType := env.impls[im.forType] + {im.name}]) else env;
    if im.forType !in env1.types then Ok((env1, diags))
    else
      var checked :- ImplCheck(env1, im.forType, im.impls, diags);
      Ok((env1.(types := checked.0), checked.1))
  }

  /** The impl loop of `registerTypes`. */
  function ImplsVisit(env: Env, ims: seq<Impl>, diags: seq<Diagnostic>): (r: Result<(Env, seq<Diagnostic>)>)
    ensures r.Ok? ==> diags <= r.value.1 && r.value.0.globals == env.globals && r.value.0.types.Keys == env.types.Keys
    decreases |ims|
  {
    if ims == [] then Ok((env, diags))
    else
      var next :- ImplVisit(env, ims[0], diags);
      ImplsVisit(next.0, ims[1..], next.1)
  }

  class TypeChecker {
    var impls: map<string, set<string>>
    var types: map<string, StructTable>
    /** The entries of `globalScope`. */
    var globals: map<string, TypeEntry>
    var requiredReturnType: Option<Ty>
    var returned: bool
    /** The errors passed to the logger, in order. */
    var diags: seq<Diagnostic>

    constructor()
      ensures impls == map[] && types == map[] && globals == map[]
      ensures requiredReturnType.None? && !returned && diags == []
    {
      impls := map[];
      types := map[];
      globals := map[];
      requiredReturnType := None;
      returned := false;
      diags := [];
    }

    function CurrentEnv(): Env reads this`impls, this`types, this`globals { Env(impls, types, globals) }

    // ---- registration ------------------------------------------------------

    /** `visitStructTree`: a fresh, empty impl set and a struct scope with
        the fields in declaration order. */
    method VisitStruct(s: StructDecl)
      modifies this`impls, this`types
      ensures impls == old(impls)[s.name := {}]
      ensures types == old(types)[s.name := AddAll(EmptyStruct, FieldEntries(s.fields))]
    {
      impls := impls[s.name := {}];
      var scope := DeclareAll(EmptyStruct, FieldEntries(s.fields));
      types := types[s.name := scope];
    }

    /** `visitTemplateTree`: a struct scope with one entry per method; the
        impl sets are left alone. */
    method VisitTemplate(t: Template)
      modifies this`types
      ensures types == old(types)[t.name := AddAll(EmptyStruct, MethodEntries(t.methods))]
    {
      var scope := DeclareAll(EmptyStruct, MethodEntries(t.methods));
      types := types[t.name := scope];
    }

    /** `visitImplementationTree`: records the template in the target's impl
        set (when the target is a struct), then checks each callable with
        the target's struct scope. A native callable's parameters land in
        that struct scope, as if they were fields. */
    method VisitImpl(im: Impl) returns (r: Result<()>)
      modifies this
      ensures var spec := ImplVisit(old(CurrentEnv()), im, old(diags));
        (r.Ok? <==> spec.Ok?) && (r.Ok? ==> CurrentEnv() == spec.value.0 && diags == spec.value.1)
      ensures im.forType in old(impls) ==> impls == old(impls)[im.forType := old(impls)[im.forType] + {im.name}]
      ensures im.forType !in old(impls) ==> impls == old(impls)
      ensures globals == old(globals) && old(diags) <= diags && types.Keys == old(types).Keys
      ensures im.forType !in old(types) ==> r.Ok? && types == old(types) && diags == old(diags)
      ensures im.forType in old(types) && r.Ok? ==>
        types == old(types)[im.forType := AddAll(old(types)[im.forType], NativeParams(im.impls))]
    {
      if im.forType in impls {
        impls := impls[im.forType := impls[im.forType] + {im.name}];
      }
      if im.forType !in types {
        return Ok(());
      }
      r := ImplCallables(im.forType, im.impls);
    }

    /** `scan(implTree.getImplementations(), structScope)`. */
    method ImplCallables(forType: string, cs: seq<Callable>) returns (r: Result<()>)
      requires forType in types
      modifies this`types, this`requiredReturnType, this`returned, this`diags
      ensures var spec := ImplCheck(old(CurrentEnv()), forType, cs, old(diags));
        (r.Ok? <==> spec.Ok?) && (r.Ok? ==> types == spec.value.0 && diags == spec.value.1)
      ensures old(diags) <= diags && types.Keys == old(types).Keys
      ensures r.Ok? ==> types == old(types)[forType := AddAll(old(types)[forType], NativeParams(cs))]
    {
      var scope: StructTable := types[forType];
      var k := 0;
      while k < |cs|
        invariant 0 <= k <= |cs|
        invariant types.Keys == old(types).Keys && scope == types[forType]
        invariant old(diags) <= diags
        invariant ImplCheck(old(CurrentEnv()), forType, cs, old(diags)) == ImplCheck(CurrentEnv(), forType, cs[k..], diags)
      {
        scope :- ImplStep(forType, cs, k, scope);
        k := k + 1;
      }
      assert cs[k..] == [];
      ImplScopeAddsNativeParams(old(types)[forType], cs);
      return Ok(());
    }

    /** One callable of an impl, `cs[k]`: a function is checked with the
        struct scope of `forType`; a native callable's parameters are added
        to that scope, which is written back to `types`. What is left of
        `ImplCheck` is then the check of the callables after `k`. */
    method ImplStep(forType: string, cs: seq<Callable>, k: nat, scope: StructTable) returns (r: Result<StructTable>)
      requires k < |cs| && forType in types && types[forType] == scope
      modifies this`types, this`requiredReturnType, this`returned, this`diags
      ensures r.Ok? ==> types == old(types)[forType := r.value]
      ensures r.Fail? ==> types == old(types)
      ensures var before := ImplCheck(old(CurrentEnv()), forType, cs[k..], old(diags));
        (r.Fail? ==> before.Fail?) && (r.Ok? ==> before == ImplCheck(CurrentEnv(), forType, cs[k + 1..], diags))
      ensures old(diags) <= diags
      ensures cs[k].Native? ==> r == Ok(AddAll(scope, ParamEntries(cs[k].params)))
      ensures cs[k].Function? && r.Ok? ==> r.value == scope
    {
      ghost var env0 := CurrentEnv();
      ImplCheckStep(env0, forType, cs[k..], diags);
      assert cs[k..][0] == cs[k] && cs[k..][1..] == cs[k + 1..];
      var c := cs[k];
      if c.Function? {
        var _, _ :- VisitFunction(c, scope);
        assert types == env0.types;
        return Ok(scope);
      } else {
        var next := DeclareAll(scope, ParamEntries(c.params));
        types := types[forType := next];
        assert CurrentEnv() == env0.(types := env0.types[forType := next]);
        return Ok(next);
      }
    }

    /** `registerFunctions`: one global entry per callable, later ones
        overwriting earlier ones of the same name. */
    method RegisterFunctions(cs: seq<Callable>)
      modifies this`globals
      ensures globals == AddAll(GlobalScope(old(globals)), CallableEntries(cs)).entries
    {
      var i := 0;
      while i < |cs|
        invariant 0 <= i <= |cs|
        invariant globals == AddAll(GlobalScope(old(globals)), CallableEntries(cs)[..i]).entries
        invariant AddAll(GlobalScope(old(globals)), CallableEntries(cs)[..i]).GlobalScope?
      {
        AddAllSnoc(GlobalScope(old(globals)), CallableEntries(cs), i);
        globals := globals[cs[i].name := CallableEntry(cs[i])];
        i := i + 1;
      }
      assert CallableEntries(cs)[..i] == CallableEntries(cs);
    }

    /** `visitRootTree`: structs, templates and impls are registered first,
        then every callable's signature, then each callable is checked in
        the global scope; a native callable's parameters are added to the
        global scope itself. */
    method VisitRoot(root: Root) returns (r: Result<()>)
      modifies this
      ensures r.Ok? ==> forall s :: s in root.structs ==> s.name in impls && s.name in types
      ensures r.Ok? ==> forall t :: t in root.templates ==> t.name in types
      ensures r.Ok? ==> forall c :: c in root.callables ==> c.name in globals
      ensures old(diags) <= diags
    {
      RegisterStructs(root.structs);
      RegisterTemplates(root.templates);
      var _ :- RegisterImpls(root.impls);
      CallablesDeclared(globals, root.callables);
      RegisterFunctions(root.callables);
      r := VisitCallables(root.callables);
    }

    /** The struct loop of `registerTypes`. */
    method RegisterStructs(ss: seq<StructDecl>)
      modifies this`impls, this`types
      ensures forall s :: s in ss ==> s.name in impls && s.name in types
      ensures old(impls).Keys <= impls.Keys && old(types).Keys <= types.Keys
    {
      var i := 0;
      while i < |ss|
        invariant 0 <= i <= |ss|
        invariant forall s :: s in ss[..i] ==> s.name in impls && s.name in types
        invariant old(impls).Keys <= impls.Keys && old(types).Keys <= types.Keys
      {
        VisitStruct(ss[i]);
        i := i + 1;
      }
      assert ss[..i] == ss;
    }

    /** The template loop of `registerTypes`. */
    method RegisterTemplates(ts: seq<Template>)
      modifies this`types
      ensures forall t :: t in ts ==> t.name in types
      ensures old(types).Keys <= types.Keys
    {
      var i := 0;
      while i < |ts|
        invariant 0 <= i <= |ts|
        invariant forall t :: t in ts[..i] ==> t.name in types
        invariant old(types).Keys <= types.Keys
      {
        VisitTemplate(ts[i]);
        i := i + 1;
      }
      assert ts[..i] == ts;
    }

    /** The impl loop of `registerTypes`: no struct or template is added. */
    method RegisterImpls(ims: seq<Impl>) returns (r: Result<()>)
      modifies this
      ensures var spec := ImplsVisit(old(CurrentEnv()), ims, old(diags));
        (r.Ok? <==> spec.Ok?) && (r.Ok? ==> CurrentEnv() == spec.value.0 && diags == spec.value.1)
      ensures impls.Keys == old(impls).Keys && types.Keys == old(types).Keys
      ensures globals == old(globals) && old(diags) <= diags
    {
      var i := 0;
      while i < |ims|
        invariant 0 <= i <= |ims|
        invariant impls.Keys == old(impls).Keys && types.Keys == old(types).Keys
        invariant globals == old(globals) && old(diags) <= diags
        invariant ImplsVisit(old(CurrentEnv()), ims, old(diags)) == ImplsVisit(CurrentEnv(), ims[i..], diags)
      {
        assert ims[i..][0] == ims[i] && ims[i..][1..] == ims[i + 1..];
        var _ :- VisitImpl(ims[i]);
        i := i + 1;
      }
      assert ims[i..] == [];
      return Ok(());
    }

    /** The loop of `visitRootTree` over the callables. */
    method VisitCallables(cs: seq<Callable>) returns (r: Result<()>)
      modifies this
      ensures var spec := CallablesCheck(old(CurrentEnv()), cs, old(diags));
        (r.Ok? <==> spec.Ok?) && (r.Ok? ==> globals == spec.value.0 && diags == spec.value.1)
      ensures types == old(types) && impls == old(impls) && old(diags) <= diags
      ensures old(globals).Keys <= globals.Keys
    {
      var i := 0;
      while i < |cs|
        invariant 0 <= i <= |cs|
        invariant types == old(types) && impls == old(impls) && old(diags) <= diags
        invariant old(globals).Keys <= globals.Keys
        invariant CallablesCheck(old(CurrentEnv()), cs, old(diags)) == CallablesCheck(CurrentEnv(), cs[i..], diags)
      {
        var c := cs[i];
        assert cs[i..][0] == c && cs[i..][1..] == cs[i + 1..];
        if c.Function? {
          var _, _ :- VisitFunction(c, GlobalScope(globals));
        } else {
          var g := DeclareAll(GlobalScope(globals), ParamEntries(c.params));
          forall n | n in globals ensures n in g.entries {
            AddAllEntries(GlobalScope(globals), ParamEntries(c.params), n);
          }
          globals := g.entries;
        }
        i := i + 1;
      }
      assert cs[i..] == [];
      return Ok(());
    }

    // ---- functions and statements ------------------------------------------

    /** `visitFunctionTree`: the declared return type becomes the required
        one, `returned` is cleared, the parameters go into a fresh function
        scope and the body is checked. When nothing returned and the declared
        type does not accept NULL, an invalid-return-type error follows. */
    method VisitFunction(f: Callable, scope: Scope<TypeEntry>) returns (r: Result<()>, ghost bodyDiags: seq<Diagnostic>)
      requires f.Function?
      modifies this`requiredReturnType, this`returned, this`diags
      ensures var spec := FunctionCheck(CurrentEnv(), f, scope, old(diags));
        (r.Ok? <==> spec.Ok?) && (r.Ok? ==> diags == spec.value)
      ensures requiredReturnType == Some(f.ret)
      ensures old(diags) <= diags
      ensures r.Ok? ==> old(diags) <= bodyDiags <= diags
      ensures r.Ok? ==> (diags != bodyDiags <==> !returned && Matches(impls, f.ret, VoidType) == Ok(false))
      ensures r.Ok? && diags != bodyDiags ==>
        EM.InvalidReturnType(f.ret, VoidType, f.loc).Ok? && diags == bodyDiags + [EM.InvalidReturnType(f.ret, VoidType, f.loc).value]
    {
      bodyDiags := diags;
      requiredReturnType := Some(f.ret);
      returned := false;
      var fscope := DeclareAll(FunctionScope(Some(scope), map[]), ParamEntries(f.params));
      assert fscope == FunctionEntry(scope, f);
      var _ :- VisitStmt(f.body, fscope);
      bodyDiags := diags;
      if !returned {
        var m :- TypeMatches(impls, requiredReturnType, Some(VoidType));
        if !m {
          var d :- EM.InvalidReturnType(f.ret, VoidType, f.loc);
          diags := diags + [d];
        }
      }
      return Ok(()), bodyDiags;
    }

    /** The statement visits. The scope only ever gains names; `returned`
        never goes back to false; errors are only appended. */
    method VisitStmt(s: Stmt, scope: Scope<TypeEntry>) returns (r: Result<Scope<TypeEntry>>)
      requires scope.FunctionScope?
      modifies this`returned, this`diags
      ensures Ends(StmtCheck(CurrentEnv(), requiredReturnType, s, Checked(scope, old(returned), old(diags))), r, returned, diags)
      ensures r.Ok? ==> Extends(scope, r.value)
      ensures old(returned) ==> returned
      ensures old(diags) <= diags
      decreases s, 1
    {
      match s
      case Block(stmts) =>
        r := VisitStmts(s, stmts, scope);
      case IfElse(_, _, _, _) =>
        r := VisitIfElse(s, scope);
      case WhileDo(_, _, _) =>
        r := VisitWhileDo(s, scope);
      case DoWhile(_, _, _) =>
        r := VisitDoWhile(s, scope);
      case _ =>
        r := VisitSimpleStmt(s, scope);
    }

    /** `visitIfElseTree`: the condition, then both branches, the else branch
        in the scope the if branch left. */
    method VisitIfElse(s: Stmt, scope: Scope<TypeEntry>) returns (r: Result<Scope<TypeEntry>>)
      requires s.IfElse? && scope.FunctionScope?
      modifies this`returned, this`diags
      ensures Ends(StmtCheck(CurrentEnv(), requiredReturnType, s, Checked(scope, old(returned), old(diags))), r, returned, diags)
      ensures r.Ok? ==> Extends(scope, r.value)
      ensures old(returned) ==> returned
      ensures old(diags) <= diags
      decreases s, 0
    {
      var _ :- CheckCondition(s.cond, scope);
      var s1 :- VisitStmt(s.ifBody, scope);
      var s2 :- VisitStmt(s.elseBody, s1);
      r := Ok(s2);
    }

    /** `visitWhileDoTree`: the condition, then the body. */
    method VisitWhileDo(s: Stmt, scope: Scope<TypeEntry>) returns (r: Result<Scope<TypeEntry>>)
      requires s.WhileDo? && scope.FunctionScope?
      modifies this`returned, this`diags
      ensures Ends(StmtCheck(CurrentEnv(), requiredReturnType, s, Checked(scope, old(returned), old(diags))), r, returned, diags)
      ensures r.Ok? ==> Extends(scope, r.value)
      ensures old(returned) ==> returned
      ensures old(diags) <= diags
      decreases s, 0
    {
      var _ :- CheckCondition(s.cond, scope);
      r := VisitStmt(s.body, scope);
    }

    /** `visitDoWhileTree`: the body, then the condition in the scope the
        body left. */
    method VisitDoWhile(s: Stmt, scope: Scope<TypeEntry>) returns (r: Result<Scope<TypeEntry>>)
      requires s.DoWhile? && scope.FunctionScope?
      modifies this`returned, this`diags
      ensures Ends(StmtCheck(CurrentEnv(), requiredReturnType, s, Checked(scope, old(returned), old(diags))), r, returned, diags)
      ensures r.Ok? ==> Extends(scope, r.value)
      ensures old(returned) ==> returned
      ensures old(diags) <= diags
      decreases s, 0
    {
      var s1 :- VisitStmt(s.body, scope);
      var _ :- CheckCondition(s.cond, s1);
      r := Ok(s1);
    }

    /** The statements without nested statements. */
    method VisitSimpleStmt(s: Stmt, scope: Scope<TypeEntry>) returns (r: Result<Scope<TypeEntry>>)
      requires scope.FunctionScope? && !s.Block? && !s.IfElse? && !s.WhileDo? && !s.DoWhile?
      modifies this`returned, this`diags
      ensures Ends(StmtCheck(CurrentEnv(), requiredReturnType, s, Checked(scope, old(returned), old(diags))), r, returned, diags)
      ensures r.Ok? ==> Extends(scope, r.value)
      ensures old(returned) ==> returned
      ensures old(diags) <= diags
    {
      match s
      case ExprStmt(e, _) =>
        var t :- TypeOf(CurrentEnv(), Some(scope), e);
        diags := diags + t.diags;
        r := Ok(scope);
      case Return(e, _) =>
        var _ :- VisitReturn(e, scope);
        r := Ok(scope);
      case VarDec(name, mutable, ty, init, _) =>
        r := VisitVarDec(name, mutable, ty, init, scope);
      case Free(e, loc) =>
        var _ :- VisitFree(e, loc, scope);
        r := Ok(scope);
      case _ =>
        r := Ok(scope);
    }

    /** `scan(statements)`: each statement in order, in the same scope. */
    method VisitStmts(owner: Stmt, ss: seq<Stmt>, scope: Scope<TypeEntry>) returns (r: Result<Scope<TypeEntry>>)
      requires scope.FunctionScope? && forall x :: x in ss ==> x < owner
      modifies this`returned, this`diags
      ensures Ends(StmtsCheck(CurrentEnv(), requiredReturnType, owner, ss, 0, Checked(scope, old(returned), old(diags))), r, returned, diags)
      ensures r.Ok? ==> Extends(scope, r.value)
      ensures old(returned) ==> returned
      ensures old(diags) <= diags
      decreases owner, 0
    {
      ghost var env := CurrentEnv();
      ghost var spec := StmtsCheck(env, requiredReturnType, owner, ss, 0, Checked(scope, old(returned), old(diags)));
      var cur := scope;
      var i := 0;
      while i < |ss|
        invariant 0 <= i <= |ss| && cur.FunctionScope?
        invariant old(returned) ==> returned
        invariant old(diags) <= diags
        invariant spec == StmtsCheck(env, requiredReturnType, owner, ss, i, Checked(cur, returned, diags))
      {
        assert ss[i] in ss;
        ghost var before := Checked(cur, returned, diags);
        var next :- VisitStmt(ss[i], cur);
        assert CurrentEnv() == env;
        assert StmtCheck(env, requiredReturnType, ss[i], before) == Ok(Checked(next, returned, diags));
        cur := next;
        i := i + 1;
      }
      return Ok(cur);
    }

    /** `visitReturnTree`: a return with a typed expression is checked
        against the required type and, in a function scope, sets `returned`
        whether or not the types matched. */
    method VisitReturn(e: Expr, scope: Scope<TypeEntry>) returns (r: Result<()>)
      modifies this`returned, this`diags
      ensures var spec := ReturnCheck(CurrentEnv(), requiredReturnType, e, Checked(scope, old(returned), old(diags)));
        (r.Ok? <==> spec.Ok?) && (r.Ok? ==> returned == spec.value.returned && diags == spec.value.diags)
      ensures r.Ok? ==> TypeOf(CurrentEnv(), Some(scope), e).Ok?
      ensures r.Ok? ==> (returned <==> old(returned) || (scope.FunctionScope? && TypeOf(CurrentEnv(), Some(scope), e).value.ty.Some?))
      ensures r.Ok? ==> old(diags) + TypeOf(CurrentEnv(), Some(scope), e).value.diags <= diags
      ensures r.Ok? ==> var t := TypeOf(CurrentEnv(), Some(scope), e).value;
        (|diags| == |old(diags)| + |t.diags| + 1 <==>
          t.ty.Some? && TypeMatches(impls, requiredReturnType, t.ty) == Ok(false))
      ensures old(returned) ==> returned
      ensures old(diags) <= diags
    {
      r := TypeReturn(e, scope);
    }

    /** The steps of `visitReturnTree`: the value is typed, its errors are
        logged, and a typed value is reported against the required type. */
    method TypeReturn(e: Expr, scope: Scope<TypeEntry>) returns (r: Result<()>)
      modifies this`returned, this`diags
      ensures var spec := ReturnCheck(CurrentEnv(), requiredReturnType, e, Checked(scope, old(returned), old(diags)));
        (r.Ok? <==> spec.Ok?) && (r.Ok? ==> returned == spec.value.returned && diags == spec.value.diags)
      ensures old(returned) ==> returned
      ensures old(diags) <= diags
    {
      var t :- TypeOf(CurrentEnv(), Some(scope), e);
      diags := diags + t.diags;
      if t.ty.None? {
        return Ok(());
      }
      r := ReportReturn(e, t, scope);
    }

    /** The part of `visitReturnTree` after the expression was typed as `t`. */
    method ReportReturn(e: Expr, t: Typing, scope: Scope<TypeEntry>) returns (r: Result<()>)
      requires t.ty.Some? && !e.MissingExpr?
      modifies this`returned, this`diags
      ensures var spec := ReportCheck(impls, requiredReturnType, e, t, Checked(scope, old(returned), old(diags)));
        (r.Ok? <==> spec.Ok?) && (r.Ok? ==> returned == spec.value.returned && diags == spec.value.diags)
      ensures r.Ok? ==> (returned <==> old(returned) || scope.FunctionScope?)
      ensures r.Ok? ==> (|diags| == |old(diags)| + 1 <==> TypeMatches(impls, requiredReturnType, t.ty) == Ok(false))
      ensures old(returned) ==> returned
      ensures old(diags) <= diags
    {
      var m :- TypeMatches(impls, requiredReturnType, t.ty);
      if !m {
        var at := LocOf(e).value;
        var d :- EM.InvalidReturnType(requiredReturnType.value, t.ty.value, at);
        diags := diags + [d];
      }
      if scope.FunctionScope? {
        returned := true;
      }
      return Ok(());
    }

    /** `visitVarDecTree`: a declared type is checked against the
        initializer's; the name is added only when the scope does not know it
        yet, with the declared type or else the initializer's. */
    method VisitVarDec(name: string, mutable: bool, ty: Option<Ty>, init: Expr, scope: Scope<TypeEntry>)
      returns (r: Result<Scope<TypeEntry>>)
      requires scope.FunctionScope?
      modifies this`diags
      ensures Ends(VarDecCheck(CurrentEnv(), name, mutable, ty, init, Checked(scope, returned, old(diags))), r, returned, diags)
      ensures r.Ok? ==> TypeOf(CurrentEnv(), Some(scope), init).Ok?
      ensures r.Ok? && TypeFind(scope, name).Some? ==> r.value == scope
      ensures r.Ok? && TypeFind(scope, name).None? ==>
        r.value == Add(scope, name, TypeEntry(name, if ty.Some? then ty else TypeOf(CurrentEnv(), Some(scope), init).value.ty, mutable, None))
      ensures r.Ok? ==> Extends(scope, r.value)
      ensures r.Ok? && ty.Some? && TypeOf(CurrentEnv(), Some(scope), init).value.ty.Some?
          && Matches(impls, ty.value, TypeOf(CurrentEnv(), Some(scope), init).value.ty.value) == Ok(false)
        ==> |diags| == |old(diags)| + |TypeOf(CurrentEnv(), Some(scope), init).value.diags| + 1
      ensures old(diags) <= diags
    {
      var t :- TypeOf(CurrentEnv(), Some(scope), init);
      diags := diags + t.diags;
      r := DeclareVar(name, mutable, ty, init, t, scope);
    }

    /** The part of `visitVarDecTree` after the initializer was typed as `t`. */
    method DeclareVar(name: string, mutable: bool, ty: Option<Ty>, init: Expr, t: Typing, scope: Scope<TypeEntry>)
      returns (r: Result<Scope<TypeEntry>>)
      requires scope.FunctionScope? && (t.ty.Some? ==> !init.MissingExpr?)
      modifies this`diags
      ensures Ends(DeclareCheck(impls, name, mutable, ty, init, t, Checked(scope, returned, old(diags))), r, returned, diags)
      ensures r.Ok? && TypeFind(scope, name).Some? ==> r.value == scope
      ensures r.Ok? && TypeFind(scope, name).None? ==>
        r.value == Add(scope, name, TypeEntry(name, if ty.Some? then ty else t.ty, mutable, None))
      ensures r.Ok? ==> Extends(scope, r.value)
      ensures r.Ok? && ty.Some? && t.ty.Some? && Matches(impls, ty.value, t.ty.value) == Ok(false)
        ==> |diags| == |old(diags)| + 1
      ensures old(diags) <= diags
    {
      if ty.Some? && t.ty.Some? {
        var at := LocOf(init).value;
        var d :- CheckTypesMatches(impls, ty, t.ty, at);
        diags := diags + d;
        assert d != [] <==> Matches(impls, ty.value, t.ty.value) != Ok(true);
      }
      var required := if ty.Some? then ty else t.ty;
      if TypeFind(scope, name).None? {
        return Ok(Add(scope, name, TypeEntry(name, required, mutable, None)));
      }
      return Ok(scope);
    }

    /** `checkCondition`: the condition must be a bool and must not be
        nullable; a condition of `null` type throws. */
    method CheckCondition(e: Expr, scope: Scope<TypeEntry>) returns (r: Result<()>)
      modifies this`diags
      ensures var spec := ConditionCheck(CurrentEnv(), e, scope, old(diags));
        (r.Ok? <==> spec.Ok?) && (r.Ok? ==> diags == spec.value)
      ensures r.Ok? ==> TypeOf(CurrentEnv(), Some(scope), e).Ok? && TypeOf(CurrentEnv(), Some(scope), e).value.ty.Some?
      ensures r.Ok? && IsNullable(TypeOf(CurrentEnv(), Some(scope), e).value.ty.value) ==>
        |diags| > 0 && diags[|diags| - 1] == Error("branch condition required null safety", e.loc)
      ensures r.Ok? && !IsNullable(TypeOf(CurrentEnv(), Some(scope), e).value.ty.value)
          && Matches(impls, BoolType, TypeOf(CurrentEnv(), Some(scope), e).value.ty.value) == Ok(true)
        ==> diags == old(diags) + TypeOf(CurrentEnv(), Some(scope), e).value.diags
      ensures old(diags) <= diags
    {
      var t :- TypeOf(CurrentEnv(), Some(scope), e);
      diags := diags + t.diags;
      r := CheckTypedCondition(e, t);
    }

    /** The part of `checkCondition` after the condition was typed as `t`. */
    method CheckTypedCondition(e: Expr, t: Typing) returns (r: Result<()>)
      modifies this`diags
      ensures var spec := TypedConditionCheck(impls, e, t, old(diags));
        (r.Ok? <==> spec.Ok?) && (r.Ok? ==> diags == spec.value)
      ensures r.Ok? ==> t.ty.Some? && !e.MissingExpr?
      ensures r.Ok? && IsNullable(t.ty.value) ==>
        |diags| > 0 && diags[|diags| - 1] == Error("branch condition required null safety", e.loc)
      ensures r.Ok? && !IsNullable(t.ty.value) && Matches(impls, BoolType, t.ty.value) == Ok(true)
        ==> diags == old(diags)
      ensures old(diags) <= diags
    {
      var at :- LocOf(e);
      var d :- CheckTypesMatches(impls, Some(BoolType), t.ty, at);
      diags := diags + d;
      if t.ty.None? {
        return NPE();
      }
      if IsNullable(t.ty.value) {
        diags := diags + [Error("branch condition required null safety", at)];
      }
      return Ok(());
    }

    /** `visitFreeTree`: releasing a value of a primitive type other than
        NULL is an error; an expression of `null` type throws. */
    method VisitFree(e: Expr, loc: Loc, scope: Scope<TypeEntry>) returns (r: Result<()>)
      modifies this`diags
      ensures var spec := FreeCheck(CurrentEnv(), e, loc, Checked(scope, returned, old(diags)));
        (r.Ok? <==> spec.Ok?) && (r.Ok? ==> diags == spec.value.diags)
      ensures r.Ok? ==> TypeOf(CurrentEnv(), Some(scope), e).Ok? && TypeOf(CurrentEnv(), Some(scope), e).value.ty.Some?
      ensures r.Ok? ==> var t := TypeOf(CurrentEnv(), Some(scope), e).value;
        diags == old(diags) + t.diags
          + (if t.ty != Some(VoidType) && IsPrimitiveName(Name(t.ty.value)) then [Error("ca not release primitive type", loc)] else [])
      ensures old(diags) <= diags
    {
      r := TypeFree(e, loc, scope);
    }

    /** The steps of `visitFreeTree`: the value is typed, then checked. */
    method TypeFree(e: Expr, loc: Loc, scope: Scope<TypeEntry>) returns (r: Result<()>)
      modifies this`diags
      ensures var spec := FreeCheck(CurrentEnv(), e, loc, Checked(scope, returned, old(diags)));
        (r.Ok? <==> spec.Ok?) && (r.Ok? ==> diags == spec.value.diags)
      ensures old(diags) <= diags
    {
      var t :- TypeOf(CurrentEnv(), Some(scope), e);
      r := FreeTyped(t, loc);
    }

    /** The part of `visitFreeTree` after the value was typed as `t`. */
    method FreeTyped(t: Typing, loc: Loc) returns (r: Result<()>)
      modifies this`diags
      ensures var spec := TypedFreeCheck(t, loc, old(diags));
        (r.Ok? <==> spec.Ok?) && (r.Ok? ==> diags == spec.value)
      ensures old(diags) <= diags
    {
      diags := diags + t.diags;
      if t.ty != Some(VoidType) {
        var n :- NameOf(t.ty);
        if IsPrimitiveName(n) {
          diags := diags + [Error("ca not release primitive type", loc)];
        }
      }
      return Ok(());
    }
  }

  lemma {:induction false} AddAllAppend(s: Scope<TypeEntry>, a: seq<TypeEntry>, b: seq<TypeEntry>)
    ensures AddAll(AddAll(s, a), b) == AddAll(s, a + b)
    decreases |b|
  {
    if b != [] {
      var n := |b| - 1;
      AddAllAppend(s, a, b[..n]);
      assert (a + b)[..|a + b| - 1] == a + b[..n];
      assert (a + b)[|a + b| - 1] == b[n];
      calc {
        AddAll(AddAll(s, a), b);
        Add(AddAll(AddAll(s, a), b[..n]), b[n].name, b[n]);
        Add(AddAll(s, a + b[..n]), b[n].name, b[n]);
        AddAll(s, a + b);
      }
    } else {
      assert a + b == a;
    }
  }

  /** A struct scope built from fields lists them in declaration order, and
      a field name finds the last field of that name. */
  lemma StructFieldsLookup(fs: seq<Field>, n: string)
    ensures AddAll(EmptyStruct, FieldEntries(fs)).ordered == FieldEntries(fs)
    ensures TypeFind(AddAll(EmptyStruct, FieldEntries(fs)), n) == LastNamed(FieldEntries(fs), n)
  {
    AddAllEntries(EmptyStruct, FieldEntries(fs), n);
  }
}
