/** `computil.util.TreeScanner`: the default visitor every checker and the
    optimizer extend. Each visit scans its children in a fixed order and
    returns what the LAST scan returned (`selectResult` keeps the newer
    result); `scan(null)` visits nothing and returns `null`; literals and
    variables return the scanner's `defaultValue`.

    The model is the scanner with no overrides, over the value tree: the
    result of each visit (`None` is Java `null`) and the order in which it
    visits trees. Type trees built by the parser are `Basic` ones, whose
    generics are scanned in order; the checker's own type views never occur
    in a parsed tree and are scanned as having no generics. */
module TreeScanning {
  import opened Wrappers
  import opened Types
  import opened Ast

  /** One call of `accept` during a scan, in the order it happens. */
  datatype Visited = VExpr(e: Expr) | VStmt(s: Stmt) | VType(t: Ty)

  /** `selectResult(r1, r2)` returns its first argument, the newer result. */
  function SelectResult<R>(r1: Option<R>, r2: Option<R>): Option<R> { r1 }

  // ---------------------------------------------------------------------
  // Results

  /** The result of scanning a type: that of its last generic, `null` when it
      has none. */
  function TypeResult<R>(t: Ty, d: R): (r: Option<R>)
    ensures r.None? || r == Some(d)
    decreases t, 1
  {
    if t.Basic? then TypesResult(t.generics, d, None) else None
  }

  /** `scanSelective(list, p, r)`: each element's result replaces `r`. */
  function TypesResult<R>(ts: seq<Ty>, d: R, r: Option<R>): (r': Option<R>)
    ensures (r.None? || r == Some(d)) ==> (r'.None? || r' == Some(d))
    decreases ts, 0
  {
    if ts == [] then r else TypesResult(ts[1..], d, SelectResult(TypeResult(ts[0], d), r))
  }

  function ExprResult<R>(e: Expr, d: R): (r: Option<R>)
    ensures r.None? || r == Some(d)
    ensures e.MissingExpr? ==> r.None?
    ensures IsLiteral(e) || e.Var? ==> r == Some(d)
    decreases e, 1
  {
    match e
    case MissingExpr => None
    case NullLit(_) => Some(d)
    case IntLit(_, _) => Some(d)
    case FloatLit(_, _) => Some(d)
    case StrLit(_, _) => Some(d)
    case BoolLit(_, _) => Some(d)
    case Var(_, _) => Some(d)
    case Not(x, _) => ExprResult(x, d)
    case Negation(x, _) => ExprResult(x, d)
    case NullCheck(x, _) => ExprResult(x, d)
    case ArrayLit(xs, _) => ExprsResult(xs, d, None)
    case ContainerAccess(x, k, _) => SelectResult(ExprResult(k, d), ExprResult(x, d))
    case FieldAccess(x, _, _) => ExprResult(x, d)
    case Assign(l, r, _) => SelectResult(ExprResult(r, d), ExprResult(l, d))
    case BinOp(_, l, r, _) => SelectResult(ExprResult(r, d), ExprResult(l, d))
    case GlobalCall(_, xs, _) => ExprsResult(xs, d, None)
    case MethodCall(_, _, xs, _) => ExprsResult(xs, d, None)
    case StructInit(t, xs, _) => ExprsResult(xs, d, TypeResult(t, d))
    case Cast(x, t, _) => SelectResult(ExprResult(x, d), TypeResult(t, d))
  }

  function ExprsResult<R>(es: seq<Expr>, d: R, r: Option<R>): (r': Option<R>)
    ensures (r.None? || r == Some(d)) ==> (r'.None? || r' == Some(d))
    decreases es, 0
  {
    if es == [] then r else ExprsResult(es[1..], d, SelectResult(ExprResult(es[0], d), r))
  }

  function StmtResult<R>(s: Stmt, d: R): (r: Option<R>)
    ensures r.None? || r == Some(d)
    ensures s.MissingStmt? ==> r.None?
    decreases s, 1
  {
    match s
    case MissingStmt => None
    case Block(ss) => StmtsResult(ss, d, None)
    case ExprStmt(e, _) => ExprResult(e, d)
    case Return(e, _) => ExprResult(e, d)
    case VarDec(_, _, t, e, _) =>
      SelectResult(ExprResult(e, d), if t.Some? then TypeResult(t.value, d) else None)
    case IfElse(c, a, b, _) => SelectResult(StmtResult(b, d), SelectResult(StmtResult(a, d), ExprResult(c, d)))
    case WhileDo(c, b, _) => SelectResult(StmtResult(b, d), ExprResult(c, d))
    case DoWhile(b, c, _) => SelectResult(ExprResult(c, d), StmtResult(b, d))
    case Free(e, _) => ExprResult(e, d)
  }

  function StmtsResult<R>(ss: seq<Stmt>, d: R, r: Option<R>): (r': Option<R>)
    ensures (r.None? || r == Some(d)) ==> (r'.None? || r' == Some(d))
    decreases ss, 0
  {
    if ss == [] then r else StmtsResult(ss[1..], d, SelectResult(StmtResult(ss[0], d), r))
  }

  /** The result of scanning a list selectively is that of its last element,
      or the incoming result when the list is empty. */
  lemma {:induction false} ExprsResultLast<R>(es: seq<Expr>, d: R, r: Option<R>)
    ensures ExprsResult(es, d, r) == if es == [] then r else ExprResult(es[|es| - 1], d)
    decreases |es|
  {
    if |es| > 1 {
      ExprsResultLast(es[1..], d, ExprResult(es[0], d));
    }
  }

  lemma {:induction false} StmtsResultLast<R>(ss: seq<Stmt>, d: R, r: Option<R>)
    ensures StmtsResult(ss, d, r) == if ss == [] then r else StmtResult(ss[|ss| - 1], d)
    decreases |ss|
  {
    if |ss| > 1 {
      StmtsResultLast(ss[1..], d, StmtResult(ss[0], d));
    }
  }

  /** `scan(list, p)`: the loop over the list, starting from `null`; it
      returns the last element's result, and `null` for an empty list. */
  method ScanList<R>(es: seq<Expr>, d: R) returns (r: Option<R>)
    ensures r == ExprsResult(es, d, None)
    ensures r == if es == [] then None else ExprResult(es[|es| - 1], d)
  {
    r := None;
    var i := 0;
    while i < |es|
      invariant 0 <= i <= |es|
      invariant ExprsResult(es[i..], d, r) == ExprsResult(es, d, None)
    {
      assert es[i..][1..] == es[i + 1..];
      r := SelectResult(ExprResult(es[i], d), r);
      i := i + 1;
    }
    assert es[i..] == [];
    ExprsResultLast(es, d, None);
  }

  /** A list of callables' results, as the root and implementations scan
      them. */
  function CallableResult<R>(c: Callable, d: R): (r: Option<R>)
    ensures r.None? || r == Some(d)
  {
    var r := ParamsResult(c.params, d, TypeResult(c.ret, d));
    if c.Function? then SelectResult(StmtResult(c.body, d), r) else r
  }

  function ParamsResult<R>(ps: seq<Param>, d: R, r: Option<R>): (r': Option<R>)
    ensures (r.None? || r == Some(d)) ==> (r'.None? || r' == Some(d))
  {
    if ps == [] then r else ParamsResult(ps[1..], d, SelectResult(TypeResult(ps[0].ty, d), r))
  }

  function CallablesResult<R>(cs: seq<Callable>, d: R, r: Option<R>): (r': Option<R>)
    ensures (r.None? || r == Some(d)) ==> (r'.None? || r' == Some(d))
  {
    if cs == [] then r else CallablesResult(cs[1..], d, SelectResult(CallableResult(cs[0], d), r))
  }

  // ---------------------------------------------------------------------
  // Visiting order

  function TypeTrace(t: Ty): (v: seq<Visited>)
    ensures |v| > 0 && v[0] == VType(t)
    decreases t, 1
  {
    [VType(t)] + if t.Basic? then TypesTrace(t.generics) else []
  }

  function TypesTrace(ts: seq<Ty>): seq<Visited>
    decreases ts, 0
  {
    if ts == [] then [] else TypeTrace(ts[0]) + TypesTrace(ts[1..])
  }

  /** The trees an expression's scan visits, in order; it starts with the
      expression itself, and a missing expression visits nothing. */
  function ExprTrace(e: Expr): (v: seq<Visited>)
    ensures e.MissingExpr? <==> v == []
    ensures !e.MissingExpr? ==> v[0] == VExpr(e)
    decreases e, 1
  {
    match e
    case MissingExpr => []
    case Not(x, _) => [VExpr(e)] + ExprTrace(x)
    case Negation(x, _) => [VExpr(e)] + ExprTrace(x)
    case NullCheck(x, _) => [VExpr(e)] + ExprTrace(x)
    case ArrayLit(xs, _) => [VExpr(e)] + ExprsTrace(xs)
    case ContainerAccess(x, k, _) => [VExpr(e)] + ExprTrace(x) + ExprTrace(k)
    case FieldAccess(x, _, _) => [VExpr(e)] + ExprTrace(x)
    case Assign(l, r, _) => [VExpr(e)] + ExprTrace(l) + ExprTrace(r)
    case BinOp(_, l, r, _) => [VExpr(e)] + ExprTrace(l) + ExprTrace(r)
    case GlobalCall(_, xs, _) => [VExpr(e)] + ExprsTrace(xs)
    case MethodCall(_, _, xs, _) => [VExpr(e)] + ExprsTrace(xs)
    case StructInit(t, xs, _) => [VExpr(e)] + TypeTrace(t) + ExprsTrace(xs)
    case Cast(x, t, _) => [VExpr(e)] + TypeTrace(t) + ExprTrace(x)
    case _ => [VExpr(e)]
  }

  function ExprsTrace(es: seq<Expr>): seq<Visited>
    decreases es, 0
  {
    if es == [] then [] else ExprTrace(es[0]) + ExprsTrace(es[1..])
  }

  function StmtTrace(s: Stmt): (v: seq<Visited>)
    ensures s.MissingStmt? <==> v == []
    ensures !s.MissingStmt? ==> v[0] == VStmt(s)
    decreases s, 1
  {
    match s
    case MissingStmt => []
    case Block(ss) => [VStmt(s)] + StmtsTrace(ss)
    case ExprStmt(e, _) => [VStmt(s)] + ExprTrace(e)
    case Return(e, _) => [VStmt(s)] + ExprTrace(e)
    case VarDec(_, _, t, e, _) => [VStmt(s)] + (if t.Some? then TypeTrace(t.value) else []) + ExprTrace(e)
    case IfElse(c, a, b, _) => [VStmt(s)] + ExprTrace(c) + StmtTrace(a) + StmtTrace(b)
    case WhileDo(c, b, _) => [VStmt(s)] + ExprTrace(c) + StmtTrace(b)
    case DoWhile(b, c, _) => [VStmt(s)] + StmtTrace(b) + ExprTrace(c)
    case Free(e, _) => [VStmt(s)] + ExprTrace(e)
  }

  function StmtsTrace(ss: seq<Stmt>): seq<Visited>
    decreases ss, 0
  {
    if ss == [] then [] else StmtTrace(ss[0]) + StmtsTrace(ss[1..])
  }

  /** Every tree an expression's scan visits lies inside the expression: the
      expression itself or a proper part of it. */
  lemma {:induction false} ExprTraceInside(e: Expr, v: Visited)
    requires v in ExprTrace(e)
    ensures v.VExpr? ==> (v.e == e || v.e < e)
    decreases e, 1
  {
    match e
    case MissingExpr =>
    case Not(x, _) => if v != VExpr(e) { ExprTraceInside(x, v); }
    case Negation(x, _) => if v != VExpr(e) { ExprTraceInside(x, v); }
    case NullCheck(x, _) => if v != VExpr(e) { ExprTraceInside(x, v); }
    case FieldAccess(x, _, _) => if v != VExpr(e) { ExprTraceInside(x, v); }
    case ArrayLit(xs, _) => if v != VExpr(e) { ExprsTraceInside(xs, v); }
    case GlobalCall(_, xs, _) => if v != VExpr(e) { ExprsTraceInside(xs, v); }
    case MethodCall(_, _, xs, _) => if v != VExpr(e) { ExprsTraceInside(xs, v); }
    case StructInit(t, xs, _) =>
      if v != VExpr(e) && v.VExpr? {
        TypeTraceHasNoExpr(t);
        ExprsTraceInside(xs, v);
      }
    case ContainerAccess(x, k, _) =>
      if v != VExpr(e) { if v in ExprTrace(x) { ExprTraceInside(x, v); } else { ExprTraceInside(k, v); } }
    case Assign(l, r, _) =>
      if v != VExpr(e) { if v in ExprTrace(l) { ExprTraceInside(l, v); } else { ExprTraceInside(r, v); } }
    case BinOp(_, l, r, _) =>
      if v != VExpr(e) { if v in ExprTrace(l) { ExprTraceInside(l, v); } else { ExprTraceInside(r, v); } }
    case Cast(x, t, _) =>
      if v != VExpr(e) && v.VExpr? {
        TypeTraceHasNoExpr(t);
        ExprTraceInside(x, v);
      }
    case _ =>
  }

  lemma {:induction false} ExprsTraceInside(es: seq<Expr>, v: Visited)
    requires v in ExprsTrace(es)
    ensures v.VExpr? ==> exists i :: 0 <= i < |es| && (v.e == es[i] || v.e < es[i])
    decreases es, 0
  {
    if v in ExprTrace(es[0]) {
      ExprTraceInside(es[0], v);
    } else {
      ExprsTraceInside(es[1..], v);
      if v.VExpr? {
        var i :| 0 <= i < |es[1..]| && (v.e == es[1..][i] || v.e < es[1..][i]);
        assert v.e == es[i + 1] || v.e < es[i + 1];
      }
    }
  }

  lemma {:induction false} TypeTraceHasNoExpr(t: Ty)
    ensures forall v :: v in TypeTrace(t) ==> v.VType?
    decreases t, 1
  {
    if t.Basic? {
      TypesTraceHasNoExpr(t.generics);
    }
  }

  lemma {:induction false} TypesTraceHasNoExpr(ts: seq<Ty>)
    ensures forall v :: v in TypesTrace(ts) ==> v.VType?
    decreases ts, 0
  {
    if ts != [] {
      TypeTraceHasNoExpr(ts[0]);
      TypesTraceHasNoExpr(ts[1..]);
    }
  }

  /** The default method-call visit scans only the arguments: apart from the
      call itself, every expression it visits lies inside an argument, so a
      receiver that is not part of an argument is never visited. */
  lemma MethodCallSkipsReceiver(name: string, operand: Expr, args: seq<Expr>, l: Diags.Loc, v: Visited)
    requires v in ExprTrace(MethodCall(name, operand, args, l))
    ensures v.VExpr? ==>
      (v == VExpr(MethodCall(name, operand, args, l)) || exists i :: 0 <= i < |args| && (v.e == args[i] || v.e < args[i]))
  {
    var e := MethodCall(name, operand, args, l);
    if v != VExpr(e) {
      ExprsTraceInside(args, v);
    }
  }

  /** A binary node visits itself, then all of its left operand, then all
      of its right operand. */
  lemma BinaryOrder(op: Operations.Operation, left: Expr, right: Expr, l: Diags.Loc)
    requires !left.MissingExpr? && !right.MissingExpr?
    ensures var v := ExprTrace(BinOp(op, left, right, l));
      |v| == 1 + |ExprTrace(left)| + |ExprTrace(right)|
      && v[1] == VExpr(left) && v[1 + |ExprTrace(left)|] == VExpr(right)
  {
    var a, b := ExprTrace(left), ExprTrace(right);
    var v := [VExpr(BinOp(op, left, right, l))] + a + b;
    assert v[1] == a[0];
    assert v[1 + |a|] == b[0];
  }

  /** A `do-while` visits its body before its condition. */
  lemma DoWhileOrder(body: Stmt, cond: Expr, l: Diags.Loc)
    requires !body.MissingStmt? && !cond.MissingExpr?
    ensures var w := StmtTrace(DoWhile(body, cond, l));
      |w| == 1 + |StmtTrace(body)| + |ExprTrace(cond)|
      && w[1] == VStmt(body) && w[1 + |StmtTrace(body)|] == VExpr(cond)
  {
    var a, b := StmtTrace(body), ExprTrace(cond);
    var w := [VStmt(DoWhile(body, cond, l))] + a + b;
    assert w[1] == a[0];
    assert w[1 + |a|] == b[0];
  }

  // ---------------------------------------------------------------------
  // The root

  function FieldsTrace(fs: seq<Field>): seq<Visited> {
    if fs == [] then [] else TypeTrace(fs[0].ty) + FieldsTrace(fs[1..])
  }

  function ParamsTrace(ps: seq<Param>): seq<Visited> {
    if ps == [] then [] else TypeTrace(ps[0].ty) + ParamsTrace(ps[1..])
  }

  function StructsTrace(ss: seq<StructDecl>): seq<Visited> {
    if ss == [] then [] else FieldsTrace(ss[0].fields) + StructsTrace(ss[1..])
  }

  function MethodsTrace(ms: seq<TemplateMethod>): seq<Visited> {
    if ms == [] then [] else TypeTrace(ms[0].ret) + ParamsTrace(ms[0].params) + MethodsTrace(ms[1..])
  }

  function TemplatesTrace(ts: seq<Template>): seq<Visited> {
    if ts == [] then [] else MethodsTrace(ts[0].methods) + TemplatesTrace(ts[1..])
  }

  function CallableTrace(c: Callable): seq<Visited> {
    TypeTrace(c.ret) + ParamsTrace(c.params) + (if c.Function? then StmtTrace(c.body) else [])
  }

  function CallablesTrace(cs: seq<Callable>): seq<Visited> {
    if cs == [] then [] else CallableTrace(cs[0]) + CallablesTrace(cs[1..])
  }

  function ImplsTrace(is_: seq<Impl>): seq<Visited> {
    if is_ == [] then [] else CallablesTrace(is_[0].impls) + ImplsTrace(is_[1..])
  }

  /** `visitRootTree`: structs, then templates, then implementations, then
      the callables. */
  function RootTrace(r: Root): (v: seq<Visited>)
    ensures |v| == |StructsTrace(r.structs)| + |TemplatesTrace(r.templates)| + |ImplsTrace(r.impls)| + |CallablesTrace(r.callables)|
    ensures v[..|StructsTrace(r.structs)|] == StructsTrace(r.structs)
    ensures v[|v| - |CallablesTrace(r.callables)|..] == CallablesTrace(r.callables)
  {
    var a, b, c, e := StructsTrace(r.structs), TemplatesTrace(r.templates), ImplsTrace(r.impls), CallablesTrace(r.callables);
    assert (a + b + c + e)[..|a|] == a;
    assert (a + b + c + e)[|a + b + c|..] == e;
    a + b + c + e
  }

  /** The root's result: that of the last callable, else of the last
      implementation, else of the last template, else of the last struct,
      else `null`. */
  function RootResult<R>(r: Root, d: R): (res: Option<R>)
    ensures res.None? || res == Some(d)
  {
    var r1 := StructsResult(r.structs, d, None);
    var r2 := TemplatesResult(r.templates, d, r1);
    var r3 := ImplsResult(r.impls, d, r2);
    CallablesResult(r.callables, d, r3)
  }

  function FieldsResult<R>(fs: seq<Field>, d: R, r: Option<R>): (r': Option<R>)
    ensures (r.None? || r == Some(d)) ==> (r'.None? || r' == Some(d))
  {
    if fs == [] then r else FieldsResult(fs[1..], d, SelectResult(TypeResult(fs[0].ty, d), r))
  }

  function StructsResult<R>(ss: seq<StructDecl>, d: R, r: Option<R>): (r': Option<R>)
    ensures (r.None? || r == Some(d)) ==> (r'.None? || r' == Some(d))
  {
    if ss == [] then r else StructsResult(ss[1..], d, SelectResult(FieldsResult(ss[0].fields, d, None), r))
  }

  function MethodResult<R>(m: TemplateMethod, d: R): (r: Option<R>)
    ensures r.None? || r == Some(d)
  {
    ParamsResult(m.params, d, TypeResult(m.ret, d))
  }

  function MethodsResult<R>(ms: seq<TemplateMethod>, d: R, r: Option<R>): (r': Option<R>)
    ensures (r.None? || r == Some(d)) ==> (r'.None? || r' == Some(d))
  {
    if ms == [] then r else MethodsResult(ms[1..], d, SelectResult(MethodResult(ms[0], d), r))
  }

  function TemplatesResult<R>(ts: seq<Template>, d: R, r: Option<R>): (r': Option<R>)
    ensures (r.None? || r == Some(d)) ==> (r'.None? || r' == Some(d))
  {
    if ts == [] then r else TemplatesResult(ts[1..], d, SelectResult(MethodsResult(ts[0].methods, d, None), r))
  }

  function ImplsResult<R>(is_: seq<Impl>, d: R, r: Option<R>): (r': Option<R>)
    ensures (r.None? || r == Some(d)) ==> (r'.None? || r' == Some(d))
  {
    if is_ == [] then r else ImplsResult(is_[1..], d, SelectResult(CallablesResult(is_[0].impls, d, None), r))
  }
}
