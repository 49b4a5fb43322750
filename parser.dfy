/** `rabbitc.RabbitParser`: recursive descent over the lexer's tokens, with
    precedence climbing for the binary and assignment operators.

    The lexer is modelled by the sequence of tokens it hands out: `peek` is
    the token at `pos`, `consume` returns it and moves on, and the stream ends
    in a single EOF token that `consume` never moves past. The parser's
    `Logger` is the `errors` list it appends to. Java `null` results become
    `MissingExpr`/`MissingStmt` or `None`; an exception (from
    `Integer.parseInt`, `Float.parseFloat` or `PrecedenceCalculator.apply`)
    becomes a `Fail` result that every caller passes on.

    Precedence climbing is specified by the pure functions `Climb` and
    `Inner` over the steps the loop consumes, each an operator token and the
    operand after it; `ParseClimb` is proved to compute them, and the
    grouping lemmas below are stated about them. */
module Parsing {
  import opened Wrappers
  import opened Diags
  import opened Types
  import opened Ast
  import Tok = Tokens
  import Prec = Precedence
  import opened Climbing
  import Op = Operations
  import Int32
  import Decimal

  /** `PrecedenceCalculator`'s table and its `apply`. */
  const Rabbit: Operators<Tok.Token, Expr> := Operators((t: Tok.Token) => Prec.Table(t.tag), Prec.Apply)

  /** `a - b - c` is `(a - b) - c`. */
  lemma SubtractionGroupsLeft(a: Expr, minus1: Tok.Token, b: Expr, minus2: Tok.Token, c: Expr)
    requires minus1.tag.MINUS? && minus2.tag.MINUS?
    ensures Climb(Rabbit, a, [Step(minus1, b), Step(minus2, c)], 0) ==
      Ok((BinOp(Op.SUB, BinOp(Op.SUB, a, b, minus1.loc), c, minus2.loc), 2))
  {
    LeftGrouping(Rabbit, a, minus1, b, minus2, c, 0);
    Prec.ApplyPlain(minus1, a, b);
    Prec.ApplyPlain(minus2, BinOp(Op.SUB, a, b, minus1.loc), c);
  }

  /** `a + b * c` is `a + (b * c)`. */
  lemma ProductBindsTighter(a: Expr, plus: Tok.Token, b: Expr, times: Tok.Token, c: Expr)
    requires plus.tag.PLUS? && times.tag.MUL?
    ensures Climb(Rabbit, a, [Step(plus, b), Step(times, c)], 0) ==
      Ok((BinOp(Op.ADD, a, BinOp(Op.MUL, b, c, times.loc), plus.loc), 2))
  {
    TighterGrouping(Rabbit, a, plus, b, times, c, 0);
    Prec.ApplyPlain(times, b, c);
    Prec.ApplyPlain(plus, a, BinOp(Op.MUL, b, c, times.loc));
  }

  /** Assignments share one precedence, so they group to the left too:
      `a = b = c` is `(a = b) = c`. */
  lemma AssignmentsGroupLeft(a: Expr, eq1: Tok.Token, b: Expr, eq2: Tok.Token, c: Expr)
    requires eq1.tag.EQ_ASSIGN? && eq2.tag.EQ_ASSIGN?
    ensures Climb(Rabbit, a, [Step(eq1, b), Step(eq2, c)], 0) ==
      Ok((Assign(Assign(a, b, eq1.loc), c, eq2.loc), 2))
  {
    LeftGrouping(Rabbit, a, eq1, b, eq2, c, 0);
  }

  type Steps = seq<Step<Tok.Token, Expr>>

  /** What the lexer hands out: tokens ending in an EOF token, which
      `peek` and `consume` keep returning once they reach it. */
  predicate WellFormed(tokens: seq<Tok.Token>) {
    |tokens| > 0 && tokens[|tokens| - 1].tag.EOF?
  }

  /** The end of the input never continues an expression. */
  ghost predicate EofIsNoOperator(ops: Operators<Tok.Token, Expr>) {
    forall t: Tok.Token :: t.tag.EOF? ==> ops.level(t).None?
  }

  /** `Token.getLexem()` where a string is needed. Only the EOF token has
      none; the model spells that missing name "null", where the source
      keeps a `null` reference that later `.equals` calls dereference. */
  function Text(t: Tok.Token): string {
    if t.lexem.Some? then t.lexem.value else "null"
  }

  /** What a type's name token adds to the errors. */
  function NameErrors(t: Tok.Token): seq<Diagnostic> {
    if t.tag.IDENTIFIER? then [] else [Error("identifier expected", t.loc)]
  }

  /** `Integer.parseInt`: an optional sign and decimal digits, in range. */
  function ParseJavaInt(s: Option<string>): (r: Result<int>)
    ensures r.Ok? ==> Int32.IsInt(r.value)
  {
    if s.None? then Fail(Thrown("NumberFormatException"))
    else
      var w := s.value;
      var v := if |w| > 1 && w[0] == '+' && Decimal.AllDigits(w[1..]) then Some(Decimal.ParseNat(w[1..]))
               else Decimal.ParseInt(w);
      if v.Some? && Int32.IsInt(v.value) then Ok(v.value) else Fail(Thrown("NumberFormatException"))
  }

  /** The literals `Integer.parseInt` reads back are exactly the `int`
      values, written in decimal. */
  lemma ParseJavaIntText(v: int)
    ensures ParseJavaInt(Some(Decimal.IntText(v))) == if Int32.IsInt(v) then Ok(v) else Fail(Thrown("NumberFormatException"))
  {
    var w := Decimal.IntText(v);
    Decimal.IntTextRoundTrip(v);
    Decimal.IntTextChars(v);
    assert w[0] != '+';
  }

  /** A leading `+` is accepted, as `Integer.parseInt` does. */
  lemma ParseJavaIntPlus(w: string)
    requires Decimal.AllDigits(w)
    ensures ParseJavaInt(Some("+" + w)) == ParseJavaInt(Some(w))
  {
    assert ("+" + w)[1..] == w;
    assert w[0] != '-';
  }

  function LowerAscii(c: char): char {
    if 'A' <= c <= 'Z' then (c as int + 32) as char else c
  }

  /** `Boolean.parseBoolean`: `true` exactly for "true" in any case. Only
      ASCII letters fold to the letters of "true". */
  function ParseBoolean(s: Option<string>): (b: bool)
    ensures b ==> s.Some? && |s.value| == 4
  {
    s.Some? && |s.value| == 4 && forall i :: 0 <= i < 4 ==> LowerAscii(s.value[i]) == "true"[i]
  }

  /** The lexemes of the `true` and `false` tokens read as the values they spell. */
  lemma ParseBooleanSpellings()
    ensures ParseBoolean(Some("true")) && ParseBoolean(Some("TRUE"))
    ensures !ParseBoolean(Some("false")) && !ParseBoolean(Some("tru"))
  {
    assert LowerAscii('T') == 't' && LowerAscii('R') == 'r' && LowerAscii('U') == 'u' && LowerAscii('E') == 'e';
    assert LowerAscii("false"[0]) != 't';
  }

  /** The expression `parsePrimaryExpression` builds from its first token,
      before any suffix. */
  predicate Leads(t: Tok.Token, e: Expr) {
    match t.tag
    case INTEGER => e.IntLit? && e.loc == t.loc && ParseJavaInt(t.lexem) == Ok(e.ival)
    case FLOAT => e.FloatLit? && e.loc == t.loc && t.lexem.Some?
    case STRING => e == StrLit(Text(t), t.loc)
    case NULL => e == NullLit(t.loc)
    case TRUE => e == BoolLit(ParseBoolean(t.lexem), t.loc)
    case FALSE => e == BoolLit(ParseBoolean(t.lexem), t.loc)
    case IDENTIFIER => (e.Var? || e.GlobalCall?) && e.name == Text(t) && e.loc == t.loc
    case BRACKET_OPEN => e.ArrayLit? && e.loc == t.loc
    case QU_MARK => e.Not? && e.loc == t.loc
    case MINUS => e.Negation? && e.loc == t.loc
    case PARENTHESES_OPEN => true
    case NEW => e.StructInit? && e.loc == t.loc
    case _ => e == MissingExpr
  }

  /** The tokens `parsePrimaryExpression` starts an expression at. */
  predicate StartsPrimary(k: Tok.TokenKind) {
    k.INTEGER? || k.FLOAT? || k.STRING? || k.NULL? || k.TRUE? || k.FALSE? || k.IDENTIFIER?
    || k.BRACKET_OPEN? || k.QU_MARK? || k.MINUS? || k.PARENTHESES_OPEN? || k.NEW?
  }

  /** Tokens at which the suffix loop of `parsePrimaryExpression` goes on. */
  predicate IsSuffix(t: Tok.Token) {
    t.tag.DOT? || t.tag.BRACKET_OPEN? || t.tag.AS? || t.tag.EX_MARK?
  }

  /** `parseCallable`'s report of a token that starts no callable. */
  function UnexpectedToken(t: Tok.Token): Diagnostic {
    Error("unexpected token '" + Text(t) + "'", t.loc)
  }

  /** The statement kind `parseStatement` chooses for its first token. */
  predicate StatementFor(k: Tok.TokenKind, s: Stmt) {
    if k.RETURN? then s.Return?
    else if k.LET? then s.VarDec?
    else if k.IF? then s.IfElse?
    else if k.WHILE? then s.WhileDo?
    else if k.DO? then s.DoWhile?
    else if k.CURVED_OPEN? then s.Block?
    else if k.DEL? then s.Free?
    else s.ExprStmt? || s == MissingStmt
  }

  /** No statement of the list is missing. */
  predicate NoMissing(stmts: seq<Stmt>) {
    forall i :: 0 <= i < |stmts| ==> stmts[i] != MissingStmt
  }

  /** `e` is `operand` under one `.name`, `.name(args)`, `[key]` or `!`. */
  predicate Suffix(e: Expr, operand: Expr) {
    (e.FieldAccess? || e.MethodCall? || e.ContainerAccess? || e.NullCheck?) && e.operand == operand
  }

  /** `e` is `base` under zero or more `.name`, `.name(args)`, `[key]` and
      `!` suffixes. */
  predicate Suffixed(e: Expr, base: Expr) {
    e == base
    || ((e.FieldAccess? || e.MethodCall? || e.ContainerAccess? || e.NullCheck?) && Suffixed(e.operand, base))
  }

  /** What the suffix loop builds: suffixes, then at most one `as T`, which
      ends the loop. */
  predicate Postfixed(e: Expr, base: Expr) {
    Suffixed(e, base) || (e.Cast? && Suffixed(e.operand, base))
  }

  /** Each type of `tys` is named by the token at its start, and the starts
      lie in `(lo, hi]`. */
  predicate TypesAt(tokens: seq<Tok.Token>, tys: seq<Ty>, starts: seq<nat>, lo: nat, hi: nat) {
    |starts| == |tys| && forall k :: 0 <= k < |starts| ==>
      lo < starts[k] <= hi && starts[k] < |tokens| && tys[k].Basic? &&
      tys[k].name == Text(tokens[starts[k]]) && tys[k].loc == tokens[starts[k]].loc
  }

  lemma TypesAtAppend(tokens: seq<Tok.Token>, tys: seq<Ty>, starts: seq<nat>, lo: nat, hi: nat, ty: Ty, at: nat, hi': nat)
    requires TypesAt(tokens, tys, starts, lo, hi) && hi <= hi' && lo < at <= hi' && at < |tokens|
    requires ty.Basic? && ty.name == Text(tokens[at]) && ty.loc == tokens[at].loc
    ensures TypesAt(tokens, tys + [ty], starts + [at], lo, hi')
  {
  }

  /** Every type after the first starts at a comma. */
  predicate CommaStarts(tokens: seq<Tok.Token>, starts: seq<nat>) {
    forall k :: 1 <= k < |starts| ==> starts[k] < |tokens| && tokens[starts[k]].tag.COMMA?
  }

  /** What `parseProgram()` does with a declaration, by its first token. */
  datatype DeclKind = StructKind | TemplateKind | ImplKind | CallableKind | Stray

  function KindOf(k: Tok.TokenKind): DeclKind {
    if k.STRUCT? then StructKind
    else if k.TEMPLATE? then TemplateKind
    else if k.IMPL? then ImplKind
    else if k.FUN? || k.NAT? then CallableKind
    else Stray
  }

  /** The positions among `heads` whose token starts a `kind` declaration,
      in input order. */
  function HeadsOf(tokens: seq<Tok.Token>, heads: seq<nat>, kind: DeclKind): (r: seq<nat>)
    requires forall k :: 0 <= k < |heads| ==> heads[k] < |tokens|
    ensures forall k :: 0 <= k < |r| ==> r[k] in heads && KindOf(tokens[r[k]].tag) == kind
  {
    if heads == [] then []
    else
      var h := heads[|heads| - 1];
      HeadsOf(tokens, heads[..|heads| - 1], kind) + (if KindOf(tokens[h].tag) == kind then [h] else [])
  }

  lemma HeadsOfAppend(tokens: seq<Tok.Token>, heads: seq<nat>, h: nat, kind: DeclKind)
    requires forall k :: 0 <= k < |heads| ==> heads[k] < |tokens|
    requires h < |tokens|
    ensures KindOf(tokens[h].tag) == kind ==> HeadsOf(tokens, heads + [h], kind) == HeadsOf(tokens, heads, kind) + [h]
    ensures KindOf(tokens[h].tag) != kind ==> HeadsOf(tokens, heads + [h], kind) == HeadsOf(tokens, heads, kind)
  {
    assert (heads + [h])[..|heads|] == heads;
    assert HeadsOf(tokens, heads, kind) + [] == HeadsOf(tokens, heads, kind);
  }

  /** Each declaration is named by the token after its keyword at `at`. */
  predicate StructsAt(tokens: seq<Tok.Token>, ds: seq<StructDecl>, at: seq<nat>) {
    |ds| == |at| && forall k :: 0 <= k < |at| ==>
      at[k] + 1 < |tokens| && ds[k].name == Text(tokens[at[k] + 1]) && ds[k].loc == tokens[at[k] + 1].loc
  }

  predicate TemplatesAt(tokens: seq<Tok.Token>, ds: seq<Template>, at: seq<nat>) {
    |ds| == |at| && forall k :: 0 <= k < |at| ==>
      at[k] + 1 < |tokens| && ds[k].name == Text(tokens[at[k] + 1]) && ds[k].loc == tokens[at[k] + 1].loc
  }

  predicate ImplsAt(tokens: seq<Tok.Token>, ds: seq<Impl>, at: seq<nat>) {
    |ds| == |at| && forall k :: 0 <= k < |at| ==>
      at[k] + 1 < |tokens| && ds[k].name == Text(tokens[at[k] + 1]) && ds[k].loc == tokens[at[k] + 1].loc
  }

  /** Each callable is a function exactly when its first token is `fun`. */
  predicate CallablesAt(tokens: seq<Tok.Token>, cs: seq<Callable>, at: seq<nat>) {
    |cs| == |at| && forall k :: 0 <= k < |at| ==>
      at[k] < |tokens| && (cs[k].Function? <==> tokens[at[k]].tag.FUN?)
  }

  /** `heads` rise strictly and lie in `[lo, hi)`. */
  predicate Ascending(heads: seq<nat>, lo: nat, hi: nat) {
    && (forall k :: 0 <= k < |heads| ==> lo <= heads[k] < hi)
    && (forall k :: 0 < k < |heads| ==> heads[k - 1] < heads[k])
  }

  lemma AscendingAppend(heads: seq<nat>, lo: nat, h: nat, hi: nat)
    requires Ascending(heads, lo, h) && lo <= h < hi
    ensures Ascending(heads + [h], lo, hi)
  {
  }

  /** `root` holds, kind by kind and in order, the declarations that begin
      at `heads`. */
  predicate Collected(tokens: seq<Tok.Token>, root: Root, heads: seq<nat>)
    requires forall k :: 0 <= k < |heads| ==> heads[k] < |tokens|
  {
    && StructsAt(tokens, root.structs, HeadsOf(tokens, heads, StructKind))
    && TemplatesAt(tokens, root.templates, HeadsOf(tokens, heads, TemplateKind))
    && ImplsAt(tokens, root.impls, HeadsOf(tokens, heads, ImplKind))
    && CallablesAt(tokens, root.callables, HeadsOf(tokens, heads, CallableKind))
  }

  /** Adding the declaration that begins at `h` keeps `Collected`: it goes
      to the end of its kind's list, and a stray token adds nothing. */
  lemma CollectedAppend(tokens: seq<Tok.Token>, root: Root, heads: seq<nat>, h: nat, next: Root)
    requires forall k :: 0 <= k < |heads| ==> heads[k] < |tokens|
    requires h + 1 < |tokens| && Collected(tokens, root, heads)
    requires KindOf(tokens[h].tag) == StructKind ==> exists s :: (next == root.(structs := root.structs + [s]) &&
      s.name == Text(tokens[h + 1]) && s.loc == tokens[h + 1].loc)
    requires KindOf(tokens[h].tag) == TemplateKind ==> exists m :: (next == root.(templates := root.templates + [m]) &&
      m.name == Text(tokens[h + 1]) && m.loc == tokens[h + 1].loc)
    requires KindOf(tokens[h].tag) == ImplKind ==> exists i :: (next == root.(impls := root.impls + [i]) &&
      i.name == Text(tokens[h + 1]) && i.loc == tokens[h + 1].loc)
    requires KindOf(tokens[h].tag) == CallableKind ==> exists c :: (next == root.(callables := root.callables + [c]) &&
      (c.Function? <==> tokens[h].tag.FUN?))
    requires KindOf(tokens[h].tag) == Stray ==> next == root
    ensures Collected(tokens, next, heads + [h])
  {
    HeadsOfAppend(tokens, heads, h, StructKind);
    HeadsOfAppend(tokens, heads, h, TemplateKind);
    HeadsOfAppend(tokens, heads, h, ImplKind);
    HeadsOfAppend(tokens, heads, h, CallableKind);
    match KindOf(tokens[h].tag)
    case StructKind =>
      var d :| next == root.(structs := root.structs + [d]) && d.name == Text(tokens[h + 1]) && d.loc == tokens[h + 1].loc;
      StructsAtAppend(tokens, root.structs, HeadsOf(tokens, heads, StructKind), d, h);
    case TemplateKind =>
      var d :| next == root.(templates := root.templates + [d]) && d.name == Text(tokens[h + 1]) && d.loc == tokens[h + 1].loc;
      TemplatesAtAppend(tokens, root.templates, HeadsOf(tokens, heads, TemplateKind), d, h);
    case ImplKind =>
      var d :| next == root.(impls := root.impls + [d]) && d.name == Text(tokens[h + 1]) && d.loc == tokens[h + 1].loc;
      ImplsAtAppend(tokens, root.impls, HeadsOf(tokens, heads, ImplKind), d, h);
    case CallableKind =>
      var d :| next == root.(callables := root.callables + [d]) && (d.Function? <==> tokens[h].tag.FUN?);
      CallablesAtAppend(tokens, root.callables, HeadsOf(tokens, heads, CallableKind), d, h);
    case Stray =>
  }

  lemma StructsAtAppend(tokens: seq<Tok.Token>, ds: seq<StructDecl>, at: seq<nat>, d: StructDecl, h: nat)
    requires StructsAt(tokens, ds, at) && h + 1 < |tokens|
    requires d.name == Text(tokens[h + 1]) && d.loc == tokens[h + 1].loc
    ensures StructsAt(tokens, ds + [d], at + [h])
  {
  }

  lemma TemplatesAtAppend(tokens: seq<Tok.Token>, ds: seq<Template>, at: seq<nat>, d: Template, h: nat)
    requires TemplatesAt(tokens, ds, at) && h + 1 < |tokens|
    requires d.name == Text(tokens[h + 1]) && d.loc == tokens[h + 1].loc
    ensures TemplatesAt(tokens, ds + [d], at + [h])
  {
  }

  lemma ImplsAtAppend(tokens: seq<Tok.Token>, ds: seq<Impl>, at: seq<nat>, d: Impl, h: nat)
    requires ImplsAt(tokens, ds, at) && h + 1 < |tokens|
    requires d.name == Text(tokens[h + 1]) && d.loc == tokens[h + 1].loc
    ensures ImplsAt(tokens, ds + [d], at + [h])
  {
  }

  lemma CallablesAtAppend(tokens: seq<Tok.Token>, cs: seq<Callable>, at: seq<nat>, c: Callable, h: nat)
    requires CallablesAt(tokens, cs, at) && h < |tokens|
    requires c.Function? <==> tokens[h].tag.FUN?
    ensures CallablesAt(tokens, cs + [c], at + [h])
  {
  }

  class Parser {
    const tokens: seq<Tok.Token>
    /** `Float.parseFloat` of a lexeme, as a bit pattern; `None` where it throws. */
    const floatBits: string -> Option<int>
    /** `PrecedenceCalculator`, fixed to `Rabbit` by the constructor. The
        climbing methods are proved for whatever table this holds. */
    const ops: Operators<Tok.Token, Expr>
    var pos: nat
    var errors: seq<Diagnostic>

    ghost predicate Valid()
      reads this
    {
      WellFormed(tokens) && pos < |tokens| && EofIsNoOperator(ops)
    }

    constructor (tokens: seq<Tok.Token>, floatBits: string -> Option<int>)
      requires WellFormed(tokens)
      ensures Valid() && this.tokens == tokens && this.floatBits == floatBits && ops == Rabbit
      ensures pos == 0 && errors == []
    {
      this.tokens := tokens;
      this.floatBits := floatBits;
      ops := Rabbit;
      pos := 0;
      errors := [];
    }

    /** `lexer.peek()` */
    function Peek(): Tok.Token
      reads this
      requires Valid()
    {
      tokens[pos]
    }

    /** Where `consume` leaves the lexer when it stands at `p`. */
    ghost function NextPos(p: nat): nat
      requires p < |tokens|
    {
      if tokens[p].tag.EOF? then p else p + 1
    }

    /** `lexer.consume()` */
    method Consume() returns (t: Tok.Token)
      requires Valid()
      modifies this`pos
      ensures Valid() && t == old(Peek()) && pos == NextPos(old(pos))
    {
      t := tokens[pos];
      if !t.tag.EOF? {
        pos := pos + 1;
      }
    }

    /** `error(msg, token)` */
    method Report(msg: string, t: Tok.Token)
      modifies this`errors
      ensures errors == old(errors) + [Error(msg, t.loc)]
    {
      errors := errors + [Error(msg, t.loc)];
    }

    /** `unwrap(exp, token)`: reports a missing expression at `t`. */
    method Unwrap(e: Expr, t: Tok.Token) returns (r: Expr)
      modifies this`errors
      ensures r == e
      ensures errors == old(errors) + if e == MissingExpr then [Error("expression expected", t.loc)] else []
    {
      if e == MissingExpr {
        Report("expression expected", t);
      }
      return e;
    }

    /** `parseEOS()`: a `;` is consumed, or its absence reported. */
    method ParseEOS()
      requires Valid()
      modifies this
      ensures Valid()
      ensures old(Peek()).tag.SEMI? ==> pos == old(pos) + 1 && errors == old(errors)
      ensures !old(Peek()).tag.SEMI? ==> pos == old(pos) && errors == old(errors) + [Error("missing ';'", old(Peek()).loc)]
    {
      var t := Peek();
      if !t.tag.SEMI? {
        Report("missing ';'", t);
      } else {
        t := Consume();
      }
    }

    /** `parseExpression()`: a primary expression, then precedence climbing
        from level 0. What each part reads is stated by `ParsePrimary` and
        `ParseClimb`; this contract stays small because every expression
        position of the grammar calls it. */
    method ParseExpression() returns (r: Result<Expr>)
      requires Valid()
      modifies this
      ensures Valid() && old(pos) <= pos && old(errors) <= errors
      ensures r.Ok? && r.value != MissingExpr ==> old(pos) < pos
      ensures r.Ok? ==> !Binds(ops, Peek(), 0)
      decreases |tokens| - pos, 4
    {
      var lhs, _ := ParsePrimary();
      if lhs.Fail? {
        return Fail(lhs.failure);
      }
      ghost var steps;
      r, steps := ParseClimb(lhs.value, 0);
    }

    /** `parseExpression(lhs, minPrecedence)`. The inner loop's `offs` is
        always 1 where it is computed, so the nested climb starts one level
        above `op`. */
    method ParseClimb(lhs: Expr, min: int) returns (r: Result<Expr>, ghost steps: Steps)
      requires Valid()
      modifies this
      ensures Valid() && old(pos) <= pos && old(errors) <= errors
      ensures r.Ok? && Binds(ops, old(Peek()), min) ==> old(pos) < pos && steps != [] && steps[0].op == old(Peek())
      ensures r.Ok? ==> Climb(ops, lhs, steps, min) == Ok((r.value, |steps|))
      ensures r.Ok? && !Binds(ops, old(Peek()), min) ==> r.value == lhs && pos == old(pos)
      ensures r.Ok? ==> !Binds(ops, Peek(), min)
      decreases |tokens| - pos, 0
    {
      var cur := lhs;
      steps := [];
      var look := Peek();
      ClimbStart(ops, lhs, look, min);
      while Binds(ops, look, min)
        invariant Valid() && old(pos) <= pos && old(errors) <= errors
        invariant look == Peek()
        invariant ClimbContinues(ops, lhs, steps, cur, look, min)
        invariant steps == [] ==> look == old(Peek()) && pos == old(pos)
        invariant steps != [] ==> old(pos) < pos && steps[0].op == old(Peek()) && Binds(ops, old(Peek()), min)
        invariant steps == [] ==> cur == lhs
        decreases |tokens| - pos
      {
        var op := Consume();
        var rand, _ := ParsePrimary();
        if rand.Fail? {
          return Fail(rand.failure), steps;
        }
        var rhs := Unwrap(rand.value, op);
        ghost var group;
        r, cur, group := ClimbRound(lhs, min, cur, steps, op, rhs);
        if r.Fail? {
          return;
        }
        assert (steps + ([Step(op, rhs)] + group))[0] == if steps == [] then Step(op, rhs) else steps[0];
        steps := steps + ([Step(op, rhs)] + group);
        look := Peek();
      }
      ClimbFinish(ops, lhs, steps, cur, look, min);
      r := Ok(cur);
    }

    /** One round of the outer climbing loop once the operand `rand` is
        parsed: the inner loop grows it while tighter operators follow, then
        `PrecedenceCalculator.apply` combines it with `cur`. */
    method ClimbRound(ghost lhs: Expr, min: int, cur: Expr, ghost done: Steps, op: Tok.Token, rand: Expr)
      returns (r: Result<Expr>, e: Expr, ghost group: Steps)
      requires Valid() && Binds(ops, op, min)
      requires ClimbContinues(ops, lhs, done, cur, op, min)
      modifies this
      ensures Valid() && old(pos) <= pos && old(errors) <= errors
      ensures r.Ok? ==> r.value == e && ClimbContinues(ops, lhs, done + ([Step(op, rand)] + group), e, Peek(), min)
      decreases |tokens| - pos, 1
    {
      group := [];
      var rhs := rand;
      var look := Peek();
      InnerStart(ops, op, rand, look);
      while Tighter(ops, look, op)
        invariant Valid() && old(pos) <= pos && old(errors) <= errors
        invariant look == Peek()
        invariant InnerContinues(ops, op, rand, group, rhs, look)
        decreases |tokens| - pos
      {
        var nested, more := ParseClimb(rhs, ops.level(op).value + 1);
        if nested.Fail? {
          return Fail(nested.failure), cur, group;
        }
        InnerStep(ops, op, rand, group, rhs, look, more, nested.value, Peek());
        group := group + more;
        rhs := nested.value;
        look := Peek();
      }
      var applied := ops.apply(op, cur, rhs);
      if applied.Fail? {
        return Fail(applied.failure), cur, group;
      }
      ClimbGroup(ops, lhs, done, cur, min, op, rand, group, rhs, applied.value, look);
      return applied, applied.value, group;
    }

    /** `parsePrimaryExpression()`: an atom chosen by the first token, then
        the suffix loop. */
    method ParsePrimary() returns (r: Result<Expr>, ghost atom: Expr)
      requires Valid()
      modifies this
      ensures Valid() && old(pos) <= pos && old(errors) <= errors
      ensures r.Ok? ==> Leads(old(Peek()), atom)
      ensures r.Ok? && atom == MissingExpr ==> r.value == MissingExpr
      ensures r.Ok? && StartsPrimary(old(Peek()).tag) ==> old(pos) < pos
      ensures r.Ok? && atom != MissingExpr ==> Postfixed(r.value, atom) && (r.value.Cast? || !IsSuffix(Peek()))
      ensures !StartsPrimary(old(Peek()).tag) ==> r == Ok(MissingExpr) && pos == old(pos) && errors == old(errors)
      decreases |tokens| - pos, 3
    {
      var a := ParseAtom();
      if a.Fail? {
        return Fail(a.failure), MissingExpr;
      }
      atom := a.value;
      if a.value == MissingExpr {
        return a, atom;
      }
      r := ParsePostfix(a.value);
    }

    /** The first part of `parsePrimaryExpression`: the expression its first
        token starts, `MissingExpr` (Java `null`) for any other token, which
        is then left unconsumed. */
    method ParseAtom() returns (r: Result<Expr>)
      requires Valid()
      modifies this
      ensures Valid() && old(pos) <= pos && old(errors) <= errors
      ensures r.Ok? ==> Leads(old(Peek()), r.value)
      ensures r.Ok? && StartsPrimary(old(Peek()).tag) ==> old(pos) < pos
      ensures !StartsPrimary(old(Peek()).tag) ==> r == Ok(MissingExpr) && pos == old(pos) && errors == old(errors)
      decreases |tokens| - pos, 1
    {
      var t := Peek();
      if t.tag.INTEGER? || t.tag.FLOAT? || t.tag.STRING? || t.tag.NULL? || t.tag.TRUE? || t.tag.FALSE? {
        r := ParseLiteral();
      } else if t.tag.IDENTIFIER? {
        r := ParseName();
      } else if t.tag.BRACKET_OPEN? {
        r := ParseArray();
      } else if t.tag.QU_MARK? || t.tag.MINUS? {
        ghost var primary, steps;
        r, primary, steps := ParseUnary();
      } else if t.tag.PARENTHESES_OPEN? {
        r := ParseParenthesized();
      } else if t.tag.NEW? {
        r := ParseStructInit();
      } else {
        r := Ok(MissingExpr);
      }
    }

    /** Whether reading the literal `t` throws: `Integer.parseInt` and
        `Float.parseFloat` reject the lexeme, or there is none. */
    predicate Throws(t: Tok.Token) {
      (t.tag.INTEGER? && ParseJavaInt(t.lexem).Fail?)
      || (t.tag.FLOAT? && (t.lexem.None? || floatBits(t.lexem.value).None?))
    }

    /** The literal tokens: `Integer.parseInt` and `Float.parseFloat` may
        throw, the other literals always succeed. */
    method ParseLiteral() returns (r: Result<Expr>)
      requires Valid()
      requires Peek().tag.INTEGER? || Peek().tag.FLOAT? || Peek().tag.STRING? || Peek().tag.NULL? || Peek().tag.TRUE? || Peek().tag.FALSE?
      modifies this`pos
      ensures Valid() && old(pos) <= pos
      ensures r.Ok? ==> Leads(old(Peek()), r.value) && old(pos) < pos
      ensures r.Fail? <==> Throws(old(Peek()))
    {
      var t := Peek();
      if t.tag.INTEGER? {
        var v :- ParseJavaInt(t.lexem);
        t := Consume();
        return Ok(IntLit(v, t.loc));
      } else if t.tag.FLOAT? {
        if t.lexem.None? {
          return Fail(Thrown("NullPointerException"));
        }
        var bits := floatBits(t.lexem.value);
        if bits.None? {
          return Fail(Thrown("NumberFormatException"));
        }
        t := Consume();
        return Ok(FloatLit(bits.value, t.loc));
      } else if t.tag.STRING? {
        t := Consume();
        return Ok(StrLit(Text(t), t.loc));
      } else if t.tag.NULL? {
        t := Consume();
        return Ok(NullLit(t.loc));
      } else {
        t := Consume();
        return Ok(BoolLit(ParseBoolean(t.lexem), t.loc));
      }
    }

    /** An identifier: a global call when `(` follows, a variable otherwise. */
    method ParseName() returns (r: Result<Expr>)
      requires Valid() && Peek().tag.IDENTIFIER?
      modifies this
      ensures Valid() && old(pos) < pos && old(errors) <= errors
      ensures r.Ok? ==> Leads(old(Peek()), r.value)
      ensures r.Ok? ==> (r.value.GlobalCall? <==> tokens[old(pos) + 1].tag.PARENTHESES_OPEN?)
      decreases |tokens| - pos, 0
    {
      var t := Consume();
      if Peek().tag.PARENTHESES_OPEN? {
        var args :- ParseCallArguments();
        return Ok(GlobalCall(Text(t), args, t.loc));
      }
      return Ok(Var(Text(t), t.loc));
    }

    /** `?e` and `-e`: the operand is a whole expression, so `-a + b` is
        `-(a + b)`; a missing operand is reported at the operator. The
        operand is the climb from the primary expression after the operator
        (`primary`) over `steps`, and it stops only where no binary operator
        follows. */
    method ParseUnary() returns (r: Result<Expr>, ghost primary: Expr, ghost steps: Steps)
      requires Valid() && (Peek().tag.QU_MARK? || Peek().tag.MINUS?)
      modifies this
      ensures Valid() && old(pos) < pos && old(errors) <= errors
      ensures r.Ok? ==> (r.value.Not? || r.value.Negation?) && r.value.loc == old(Peek()).loc
      ensures r.Ok? ==> (r.value.Not? <==> old(Peek()).tag.QU_MARK?)
      ensures r.Ok? ==> Climb(ops, primary, steps, 0) == Ok((r.value.operand, |steps|))
      ensures r.Ok? ==> !Binds(ops, Peek(), 0)
      ensures r.Ok? && r.value.operand == MissingExpr ==>
        errors != [] && errors[|errors| - 1] == Error("expression expected", old(Peek()).loc)
      decreases |tokens| - pos, 0
    {
      var t := Consume();
      primary, steps := MissingExpr, [];
      var lhs, _ := ParsePrimary();
      if lhs.Fail? {
        return Fail(lhs.failure), primary, steps;
      }
      primary := lhs.value;
      var e;
      e, steps := ParseClimb(lhs.value, 0);
      if e.Fail? {
        return Fail(e.failure), primary, steps;
      }
      var operand := Unwrap(e.value, t);
      r := Ok(if t.tag.QU_MARK? then Not(operand, t.loc) else Negation(operand, t.loc));
    }

    /** `( e )`: the expression itself, no node of its own; a missing
        expression and a missing `)` are reported. */
    method ParseParenthesized() returns (r: Result<Expr>)
      requires Valid() && Peek().tag.PARENTHESES_OPEN?
      modifies this
      ensures Valid() && old(pos) < pos && old(errors) <= errors
      decreases |tokens| - pos, 0
    {
      var t := Consume();
      var e :- ParseExpression();
      if e == MissingExpr {
        Report("expression expected", t);
      }
      t := Consume();
      if !t.tag.PARENTHESES_CLOSED? {
        Report("missing ')'", t);
      }
      return Ok(e);
    }

    /** The suffix loop of `parsePrimaryExpression`: member accesses, method
        calls, indexing and `!` repeat; `as T` ends it (there is no
        `continue` after a cast). */
    method ParsePostfix(base: Expr) returns (r: Result<Expr>)
      requires Valid()
      modifies this
      ensures Valid() && old(pos) <= pos && old(errors) <= errors
      ensures r.Ok? ==> Postfixed(r.value, base) && (r.value.Cast? || !IsSuffix(Peek()))
      decreases |tokens| - pos, 2
    {
      var cur := base;
      while true
        invariant Valid() && old(pos) <= pos && old(errors) <= errors
        invariant Suffixed(cur, base)
        decreases |tokens| - pos
      {
        var next, stop := ParseSuffix(cur);
        if next.Fail? || stop {
          return next;
        }
        cur := next.value;
      }
    }

    /** One round of the suffix loop. It goes on after a suffix other than
        `as T`, and stops, with `operand` unchanged, at any other token. */
    method ParseSuffix(operand: Expr) returns (r: Result<Expr>, stop: bool)
      requires Valid()
      modifies this
      ensures Valid() && old(pos) <= pos && old(errors) <= errors
      ensures !stop ==> old(pos) < pos
      ensures r.Ok? && !stop ==> Suffix(r.value, operand)
      ensures r.Ok? && stop ==> (r.value.Cast? && r.value.operand == operand) || (r.value == operand && !IsSuffix(Peek()))
      decreases |tokens| - pos, 1
    {
      var t := Peek();
      if t.tag.DOT? {
        r := ParseMember(operand);
        return r, r.Fail?;
      } else if t.tag.BRACKET_OPEN? {
        r := ParseIndex(operand);
        return r, r.Fail?;
      } else if t.tag.AS? {
        t := Consume();
        var ty := ParseType();
        return Ok(Cast(operand, ty, t.loc)), true;
      } else if t.tag.EX_MARK? {
        t := Consume();
        return Ok(NullCheck(operand, t.loc)), false;
      }
      return Ok(operand), true;
    }

    /** `.name` and `.name(args)`: the name token is consumed whatever it is,
        and reported unless it is an identifier. */
    method ParseMember(operand: Expr) returns (r: Result<Expr>)
      requires Valid() && Peek().tag.DOT?
      modifies this
      ensures Valid() && old(pos) < pos && old(errors) <= errors
      ensures r.Ok? ==> (r.value.FieldAccess? || r.value.MethodCall?) && r.value.operand == operand
      ensures r.Ok? ==> r.value.loc == tokens[old(pos) + 1].loc
      ensures r.Ok? && r.value.FieldAccess? ==> r.value.field == Text(tokens[old(pos) + 1])
      ensures r.Ok? && r.value.MethodCall? ==> r.value.name == Text(tokens[old(pos) + 1])
      decreases |tokens| - pos, 0
    {
      var t := Consume();
      var name := Consume();
      if !name.tag.IDENTIFIER? {
        Report("identifier expected", name);
      }
      if Peek().tag.PARENTHESES_OPEN? {
        var args :- ParseCallArguments();
        return Ok(MethodCall(Text(name), operand, args, name.loc));
      }
      return Ok(FieldAccess(operand, Text(name), name.loc));
    }

    /** `[key]`, located at the `[`; a missing key is reported there. */
    method ParseIndex(operand: Expr) returns (r: Result<Expr>)
      requires Valid() && Peek().tag.BRACKET_OPEN?
      modifies this
      ensures Valid() && old(pos) < pos && old(errors) <= errors
      ensures r.Ok? ==> r.value.ContainerAccess? && r.value.operand == operand && r.value.loc == old(Peek()).loc
      decreases |tokens| - pos, 0
    {
      var t := Consume();
      var key :- ParseExpression();
      key := Unwrap(key, t);
      var close := Consume();
      if !close.tag.BRACKET_CLOSED? {
        Report("missing ']'", close);
      }
      return Ok(ContainerAccess(operand, key, t.loc));
    }

    /** `parseCallArguments()`: consumes the token standing for `(`, then
        comma-separated arguments unless `)` follows at once, then `)`. A
        missing argument is reported at the token before it and kept as
        `MissingExpr`. */
    method ParseCallArguments() returns (r: Result<seq<Expr>>)
      requires Valid()
      modifies this
      ensures Valid() && old(pos) <= pos && old(errors) <= errors
      ensures r.Ok? ==> (r.value == [] <==> tokens[NextPos(old(pos))].tag.PARENTHESES_CLOSED?)
      decreases |tokens| - pos, 5
    {
      var t := Consume();
      t := Peek();
      var args := [];
      if !t.tag.PARENTHESES_CLOSED? {
        while true
          invariant Valid() && old(pos) <= pos && old(errors) <= errors
          decreases |tokens| - pos
        {
          var e :- ParseExpression();
          e := Unwrap(e, t);
          args := args + [e];
          t := Peek();
          if !t.tag.COMMA? {
            break;
          }
          t := Consume();
        }
      }
      t := Consume();
      if !t.tag.PARENTHESES_CLOSED? {
        Report("missing ')'", t);
      }
      return Ok(args);
    }

    /** `parseArray()`: `[`, comma-separated elements unless `]` follows at
        once, then `]`. */
    method ParseArray() returns (r: Result<Expr>)
      requires Valid() && Peek().tag.BRACKET_OPEN?
      modifies this
      ensures Valid() && old(pos) < pos && old(errors) <= errors
      ensures r.Ok? ==> r.value.ArrayLit? && r.value.loc == old(Peek()).loc
      ensures r.Ok? ==> (r.value.content == [] <==> tokens[old(pos) + 1].tag.BRACKET_CLOSED?)
      decreases |tokens| - pos, 0
    {
      var open := Consume();
      var t := Peek();
      var content := [];
      if !t.tag.BRACKET_CLOSED? {
        while true
          invariant Valid() && old(pos) < pos && old(errors) <= errors
          decreases |tokens| - pos
        {
          t := Peek();
          var e :- ParseExpression();
          e := Unwrap(e, t);
          content := content + [e];
          t := Peek();
          if !t.tag.COMMA? {
            break;
          }
          t := Consume();
        }
      }
      t := Consume();
      if !t.tag.BRACKET_CLOSED? {
        Report("missing ']'", t);
      }
      return Ok(ArrayLit(content, open.loc));
    }

    /** `parseStructInit()`: `new`, a type without `?`, then the arguments;
        a missing `(` is reported and the arguments are parsed anyway. */
    method ParseStructInit() returns (r: Result<Expr>)
      requires Valid() && Peek().tag.NEW?
      modifies this
      ensures Valid() && old(pos) < pos && old(errors) <= errors
      ensures r.Ok? ==> r.value.StructInit? && r.value.loc == old(Peek()).loc
      ensures r.Ok? ==> r.value.ty.Basic? && !r.value.ty.nullable
      decreases |tokens| - pos, 0
    {
      var t := Consume();
      var ty := ParseTypeWithoutNullable();
      var next := Peek();
      if !next.tag.PARENTHESES_OPEN? {
        Report("missing '('", next);
      }
      var args :- ParseCallArguments();
      return Ok(StructInit(ty, args, t.loc));
    }

    /** `parseType()`: a name, generics, then an optional `?`. */
    method ParseType() returns (ty: Ty)
      requires Valid()
      modifies this
      ensures Valid() && NextPos(old(pos)) <= pos
      ensures old(errors) + NameErrors(old(Peek())) <= errors
      ensures ty.Basic? && ty.name == Text(old(Peek())) && ty.loc == old(Peek()).loc
      ensures ty.generics != [] ==> tokens[NextPos(old(pos))].tag.LESS?
      ensures ty.nullable ==> 0 < pos && tokens[pos - 1].tag.QU_MARK?
      ensures !ty.nullable ==> !Peek().tag.QU_MARK?
      decreases |tokens| - pos, 1
    {
      var t := Consume();
      if !t.tag.IDENTIFIER? {
        Report("identifier expected", t);
      }
      var generics, _ := ParseGenerics();
      var nullable := false;
      if Peek().tag.QU_MARK? {
        var q := Consume();
        nullable := true;
      }
      return Basic(Text(t), nullable, generics, t.loc);
    }

    /** `parseTypeWithoutNullable()`: a name and generics; a `?` after them
        is left alone. */
    method ParseTypeWithoutNullable() returns (ty: Ty)
      requires Valid()
      modifies this
      ensures Valid() && NextPos(old(pos)) <= pos
      ensures old(errors) + NameErrors(old(Peek())) <= errors
      ensures ty.Basic? && ty.name == Text(old(Peek())) && ty.loc == old(Peek()).loc && !ty.nullable
      ensures ty.generics != [] ==> tokens[NextPos(old(pos))].tag.LESS?
    {
      var t := Consume();
      if !t.tag.IDENTIFIER? {
        Report("identifier expected", t);
      }
      var generics, _ := ParseGenerics();
      return Basic(Text(t), false, generics, t.loc);
    }

    /** The generics part shared by both type parsers: after `<`, types
        while a comma follows, then `>`. The comma itself is never consumed,
        so the next type's name is the comma, reported as "identifier
        expected". `<>` reports "type expected" and leaves the `>`.
        `starts` holds the position each type began at. */
    method ParseGenerics() returns (generics: seq<Ty>, ghost starts: seq<nat>)
      requires Valid()
      modifies this
      ensures Valid() && old(pos) <= pos && old(errors) <= errors
      ensures TypesAt(tokens, generics, starts, old(pos), pos) && CommaStarts(tokens, starts)
      ensures |generics| > 1 ==> Error("identifier expected", generics[1].loc) in errors
      ensures !old(Peek()).tag.LESS? ==> generics == [] && pos == old(pos) && errors == old(errors)
      ensures old(Peek()).tag.LESS? ==>
        old(pos) < pos && (generics == [] <==> tokens[old(pos) + 1].tag.GREATER?)
      ensures old(Peek()).tag.LESS? && generics == [] ==>
        Peek().tag.GREATER? && errors == old(errors) + [Error("type expected", Peek().loc)]
      decreases |tokens| - pos, 0
    {
      generics, starts := [], [];
      var next := Peek();
      if !next.tag.LESS? {
        return;
      }
      next := Consume();
      next := Peek();
      if next.tag.GREATER? {
        Report("type expected", next);
        return;
      }
      while true
        invariant Valid() && old(pos) < pos && old(errors) <= errors
        invariant generics == [] ==> pos == old(pos) + 1
        invariant generics != [] ==> next.tag.COMMA? && next == Peek()
        invariant TypesAt(tokens, generics, starts, old(pos), pos) && CommaStarts(tokens, starts)
        invariant |generics| > 1 ==> Error("identifier expected", generics[1].loc) in errors
        decreases |tokens| - pos
      {
        ghost var at, before := pos, errors;
        var g := ParseType();
        if |generics| == 1 {
          assert NameErrors(tokens[at]) == [Error("identifier expected", g.loc)];
          assert Error("identifier expected", g.loc) == errors[|before|];
        } else if |generics| > 1 {
          assert errors[..|before|] == before;
        }
        TypesAtAppend(tokens, generics, starts, old(pos), at, g, at, pos);
        generics, starts := generics + [g], starts + [at];
        next := Peek();
        if !next.tag.COMMA? {
          break;
        }
      }
      if !next.tag.GREATER? {
        Report("missing '>'", next);
      }
      next := Consume();
    }

    /** `parseStatement()`: the statement its first token starts; anything
        else is an expression statement. */
    method ParseStatement() returns (r: Result<Stmt>)
      requires Valid()
      modifies this
      ensures Valid() && old(pos) <= pos && old(errors) <= errors
      ensures r.Ok? ==> StatementFor(old(Peek()).tag, r.value)
      ensures r.Ok? && r.value != MissingStmt ==> old(pos) < pos
      decreases |tokens| - pos, 7
    {
      var t := Peek();
      if t.tag.RETURN? {
        r := ParseReturn();
      } else if t.tag.LET? {
        r := ParseVarDec();
      } else if t.tag.IF? {
        r := ParseIfElse();
      } else if t.tag.WHILE? {
        r := ParseWhileDo();
      } else if t.tag.DO? {
        r := ParseDoWhile();
      } else if t.tag.CURVED_OPEN? {
        r := ParseBlock();
      } else if t.tag.DEL? {
        r := ParseDelete();
      } else {
        r := ParseExpressionStatement();
      }
    }

    /** `parseExpressionStatement()`: an expression and `;`. Without an
        expression it reports "not a statement" at the next token and yields
        `MissingStmt` (Java `null`). */
    method ParseExpressionStatement() returns (r: Result<Stmt>)
      requires Valid()
      modifies this
      ensures Valid() && old(pos) <= pos && old(errors) <= errors
      ensures r.Ok? ==> r.value.ExprStmt? || r.value == MissingStmt
      ensures r.Ok? && r.value.ExprStmt? ==> old(pos) < pos && r.value.expr != MissingExpr && r.value.loc == r.value.expr.loc
      ensures r.Ok? && r.value == MissingStmt ==> |errors| > 0 && errors[|errors| - 1] == Error("not a statement", Peek().loc)
      decreases |tokens| - pos, 6
    {
      var e :- ParseExpression();
      if e == MissingExpr {
        Report("not a statement", Peek());
        return Ok(MissingStmt);
      }
      ParseEOS();
      return Ok(ExprStmt(e, e.loc));
    }

    /** `parseDelete()`: `del e;`. A missing operand is reported at the
        token after it, which `unwrap` is given. */
    method ParseDelete() returns (r: Result<Stmt>)
      requires Valid() && Peek().tag.DEL?
      modifies this
      ensures Valid() && old(pos) < pos && old(errors) <= errors
      ensures r.Ok? ==> r.value.Free? && r.value.loc == old(Peek()).loc
      decreases |tokens| - pos, 6
    {
      var t := Consume();
      var e :- ParseExpression();
      e := Unwrap(e, Peek());
      ParseEOS();
      return Ok(Free(e, t.loc));
    }

    /** `parseVarDec()`: `let [mut] name`, then the rest of the
        declaration. */
    method ParseVarDec() returns (r: Result<Stmt>)
      requires Valid() && Peek().tag.LET?
      modifies this
      ensures Valid() && old(pos) < pos && old(errors) <= errors
      ensures r.Ok? ==> r.value.VarDec? && (r.value.mutable <==> tokens[old(pos) + 1].tag.MUT?)
      ensures r.Ok? ==> var name := tokens[if r.value.mutable then old(pos) + 2 else old(pos) + 1];
        r.value.name == Text(name) && r.value.loc == name.loc
      decreases |tokens| - pos, 6
    {
      var t := Consume();
      t := Consume();
      var mutable := false;
      if t.tag.MUT? {
        mutable := true;
        t := Consume();
      }
      if !t.tag.IDENTIFIER? {
        Report("identifier expected", t);
      }
      ghost var eq;
      r, eq := ParseVarDecRest(t, mutable);
    }

    /** The rest of `parseVarDec()` after the name: `: type ;` declares
        without an initializer, which becomes a `null` literal at the name;
        otherwise an optional `: type`, then `= e ;`. Whatever token stands
        where the `=` belongs is consumed as if it were one; `eq` is that
        token's position. */
    method ParseVarDecRest(name: Tok.Token, mutable: bool) returns (r: Result<Stmt>, ghost eq: nat)
      requires Valid()
      modifies this
      ensures Valid() && old(pos) <= pos && old(errors) <= errors
      ensures r.Ok? ==> r.value.VarDec? && r.value.name == Text(name) && r.value.mutable == mutable && r.value.loc == name.loc
      ensures r.Ok? ==> (r.value.ty.Some? <==> old(Peek()).tag.COLON?)
      ensures r.Ok? ==> old(pos) <= eq <= pos && eq < |tokens|
      ensures r.Ok? && r.value.ty.None? ==> eq == old(pos)
      ensures r.Ok? && r.value.ty.Some? ==> old(pos) < eq
      ensures r.Ok? && r.value.ty.Some? && tokens[eq].tag.SEMI? ==>
        r.value.init == NullLit(name.loc) && pos == eq + 1
      ensures r.Ok? && !tokens[eq].tag.EQ_ASSIGN? && !(r.value.ty.Some? && tokens[eq].tag.SEMI?) ==>
        Error("missing '='", tokens[eq].loc) in errors
      decreases |tokens| - pos, 5
    {
      eq := pos;
      var next := Consume();
      var ty := None;
      if next.tag.COLON? {
        var declared := ParseType();
        ty := Some(declared);
        eq := pos;
        next := Consume();
        if next.tag.SEMI? {
          return Ok(VarDec(Text(name), mutable, ty, NullLit(name.loc), name.loc)), eq;
        }
      }
      ghost var reported := |errors|;
      if !next.tag.EQ_ASSIGN? {
        Report("missing '='", next);
      }
      ghost var after := errors;
      var e :- ParseExpression();
      e := Unwrap(e, Peek());
      ParseEOS();
      if !next.tag.EQ_ASSIGN? {
        assert errors[reported] == after[reported] == Error("missing '='", tokens[eq].loc);
      }
      return Ok(VarDec(Text(name), mutable, ty, e, name.loc)), eq;
    }

    /** `parseReturn()`: `return e;`, located at the token after `return`. */
    method ParseReturn() returns (r: Result<Stmt>)
      requires Valid() && Peek().tag.RETURN?
      modifies this
      ensures Valid() && old(pos) < pos && old(errors) <= errors
      ensures r.Ok? ==> r.value.Return? && r.value.loc == tokens[old(pos) + 1].loc
      decreases |tokens| - pos, 6
    {
      var t := Consume();
      t := Peek();
      var e :- ParseExpression();
      e := Unwrap(e, t);
      ParseEOS();
      return Ok(Return(e, t.loc));
    }

    /** `parseCondition()`: an expression and `:`; a missing `:` is reported
        and not consumed. */
    method ParseCondition() returns (r: Result<Expr>)
      requires Valid()
      modifies this
      ensures Valid() && old(pos) <= pos && old(errors) <= errors
      decreases |tokens| - pos, 5
    {
      var e :- ParseExpression();
      e := Unwrap(e, Peek());
      var t := Peek();
      if !t.tag.COLON? {
        Report("':' expected", t);
      } else {
        t := Consume();
      }
      return Ok(e);
    }

    /** `parseIfElse()`: `if cond: stmt [else stmt]`; a missing branch is
        `MissingStmt`. */
    method ParseIfElse() returns (r: Result<Stmt>)
      requires Valid() && Peek().tag.IF?
      modifies this
      ensures Valid() && old(pos) < pos && old(errors) <= errors
      ensures r.Ok? ==> r.value.IfElse? && r.value.loc == old(Peek()).loc
      decreases |tokens| - pos, 6
    {
      var t := Consume();
      var cond :- ParseCondition();
      var ifBody :- ParseStatement();
      var elseBody := MissingStmt;
      if Peek().tag.ELSE? {
        var e := Consume();
        elseBody :- ParseStatement();
      }
      return Ok(IfElse(cond, ifBody, elseBody, t.loc));
    }

    /** `parseWhileDo()`: `while cond: stmt`. */
    method ParseWhileDo() returns (r: Result<Stmt>)
      requires Valid() && Peek().tag.WHILE?
      modifies this
      ensures Valid() && old(pos) < pos && old(errors) <= errors
      ensures r.Ok? ==> r.value.WhileDo? && r.value.loc == old(Peek()).loc
      decreases |tokens| - pos, 6
    {
      var t := Consume();
      var cond :- ParseCondition();
      var body :- ParseStatement();
      return Ok(WhileDo(cond, body, t.loc));
    }

    /** `parseDoWhile()`: `do stmt while cond: ;`. A missing `while` is
        reported and not consumed. */
    method ParseDoWhile() returns (r: Result<Stmt>)
      requires Valid() && Peek().tag.DO?
      modifies this
      ensures Valid() && old(pos) < pos && old(errors) <= errors
      ensures r.Ok? ==> r.value.DoWhile? && r.value.loc == old(Peek()).loc
      decreases |tokens| - pos, 6
    {
      var t := Consume();
      var body :- ParseStatement();
      var w := Peek();
      if !w.tag.WHILE? {
        Report("missing keyword while", w);
      } else {
        w := Consume();
      }
      var cond :- ParseCondition();
      ParseEOS();
      return Ok(DoWhile(body, cond, t.loc));
    }

    /** `parseBlock()`: `{`, statements up to `}` or the end of the input,
        then the closing token. A statement position holding no statement
        has been reported by `parseExpressionStatement`; its token is
        skipped, so the block never holds `MissingStmt`. */
    method ParseBlock() returns (r: Result<Stmt>)
      requires Valid()
      modifies this
      ensures Valid() && old(pos) <= pos && old(errors) <= errors
      ensures !old(Peek()).tag.EOF? ==> old(pos) < pos
      ensures r.Ok? ==> r.value.Block? && NoMissing(r.value.stmts)
      ensures r.Ok? ==> Peek().tag.EOF? || (0 < pos && tokens[pos - 1].tag.CURVED_CLOSED?)
      decreases |tokens| - pos, 5
    {
      var open := Consume();
      if !open.tag.CURVED_OPEN? {
        Report("missing '{'", open);
      }
      var stmts := [];
      while !Peek().tag.CURVED_CLOSED? && !Peek().tag.EOF?
        invariant Valid() && old(pos) <= pos && old(errors) <= errors
        invariant !open.tag.EOF? ==> old(pos) < pos
        invariant open.tag.EOF? ==> pos == old(pos)
        invariant NoMissing(stmts)
        decreases |tokens| - pos
      {
        var s :- ParseStatement();
        if s != MissingStmt {
          stmts := stmts + [s];
        } else {
          var skipped := Consume();
        }
      }
      var close := Peek();
      if !close.tag.CURVED_CLOSED? {
        Report("missing '}'", close);
      }
      close := Consume();
      return Ok(Block(stmts));
    }

    /** `[mut] name : type`, the part `parseParam()` and `parseField()`
        share. */
    method ParseBinding() returns (name: Tok.Token, mutable: bool, ty: Ty)
      requires Valid()
      modifies this
      ensures Valid() && old(pos) <= pos && old(errors) <= errors
      ensures !old(Peek()).tag.EOF? ==> old(pos) < pos
      ensures mutable <==> old(Peek()).tag.MUT?
      ensures name == if mutable then tokens[old(pos) + 1] else old(Peek())
    {
      name := Consume();
      mutable := false;
      if name.tag.MUT? {
        mutable := true;
        name := Consume();
      }
      if !name.tag.IDENTIFIER? {
        Report("identifier expected", name);
      }
      var colon := Consume();
      if !colon.tag.COLON? {
        Report("missing ':'", colon);
      }
      ty := ParseType();
    }

    /** `parseParam()` */
    method ParseParam() returns (p: Param)
      requires Valid()
      modifies this
      ensures Valid() && old(pos) <= pos && old(errors) <= errors
      ensures !old(Peek()).tag.EOF? ==> old(pos) < pos
      ensures p.mutable <==> old(Peek()).tag.MUT?
      ensures var name := if p.mutable then tokens[old(pos) + 1] else old(Peek());
        p.name == Text(name) && p.loc == name.loc
    {
      var name, mutable, ty := ParseBinding();
      return Param(Text(name), mutable, ty, name.loc);
    }

    /** `parseField()`: a binding and `;`. */
    method ParseField() returns (f: Field)
      requires Valid()
      modifies this
      ensures Valid() && old(pos) <= pos && old(errors) <= errors
      ensures !old(Peek()).tag.EOF? ==> old(pos) < pos
      ensures f.mutable <==> old(Peek()).tag.MUT?
      ensures var name := if f.mutable then tokens[old(pos) + 1] else old(Peek());
        f.name == Text(name) && f.loc == name.loc
    {
      var name, mutable, ty := ParseBinding();
      ParseEOS();
      return Field(Text(name), mutable, ty, name.loc);
    }

    /** The parameter list inside the parentheses, shared by functions,
        natives and template methods: parameters separated by commas,
        none when `)` or the end of the input follows at once. */
    method ParseParams() returns (params: seq<Param>)
      requires Valid()
      modifies this
      ensures Valid() && old(pos) <= pos && old(errors) <= errors
      ensures params == [] <==> old(Peek()).tag.PARENTHESES_CLOSED? || old(Peek()).tag.EOF?
      ensures params == [] ==> pos == old(pos) && errors == old(errors)
    {
      params := [];
      var t := Peek();
      if t.tag.PARENTHESES_CLOSED? || t.tag.EOF? {
        return;
      }
      while true
        invariant Valid() && old(pos) <= pos && old(errors) <= errors
        invariant params == [] ==> pos == old(pos)
        decreases |tokens| - pos
      {
        var p := ParseParam();
        params := params + [p];
        if !Peek().tag.COMMA? {
          break;
        }
        t := Consume();
      }
    }

    /** `( params )`; a missing `(` or `)` is reported and parsing goes
        on. */
    method ParseParamList() returns (params: seq<Param>)
      requires Valid()
      modifies this
      ensures Valid() && old(pos) <= pos && old(errors) <= errors
      ensures params == [] <==> tokens[NextPos(old(pos))].tag.PARENTHESES_CLOSED? || tokens[NextPos(old(pos))].tag.EOF?
    {
      var open := Consume();
      if !open.tag.PARENTHESES_OPEN? {
        Report("missing '('", open);
      }
      params := ParseParams();
      var close := Consume();
      if !close.tag.PARENTHESES_CLOSED? {
        Report("missing ')'", close);
      }
    }

    /** `name ( params ) -> type`, the signature functions, natives and
        template methods share; each missing piece is reported and parsing
        goes on. */
    method ParseSignature() returns (name: Tok.Token, params: seq<Param>, ret: Ty)
      requires Valid()
      modifies this
      ensures Valid() && old(pos) <= pos && old(errors) <= errors
      ensures name == old(Peek())
      ensures old(errors) + NameErrors(name) <= errors
    {
      name := Consume();
      if !name.tag.IDENTIFIER? {
        Report("identifier expected", name);
      }
      params := ParseParamList();
      var arrow := Consume();
      if !arrow.tag.ARROW? {
        Report("missing '->'", arrow);
      }
      ret := ParseType();
    }

    /** `parseFunction()`, after `fun`: a signature and a block. */
    method ParseFunction() returns (r: Result<Callable>)
      requires Valid()
      modifies this
      ensures Valid() && old(pos) <= pos && old(errors) <= errors
      ensures r.Ok? ==> r.value.Function? && r.value.name == Text(old(Peek())) && r.value.loc == old(Peek()).loc
      ensures r.Ok? ==> r.value.body.Block? && NoMissing(r.value.body.stmts)
    {
      var name, params, ret := ParseSignature();
      var body :- ParseBlock();
      return Ok(Function(Text(name), params, ret, body, name.loc));
    }

    /** `parseNative()`, after `nat`: `fun`, a signature and `;`. */
    method ParseNative() returns (c: Callable)
      requires Valid()
      modifies this
      ensures Valid() && old(pos) <= pos && old(errors) <= errors
      ensures c.Native?
      ensures !old(Peek()).tag.EOF? ==> c.name == Text(tokens[old(pos) + 1]) && c.loc == tokens[old(pos) + 1].loc
    {
      var fun := Consume();
      if !fun.tag.FUN? {
        Report("'fun' expected", fun);
      }
      var name, params, ret := ParseSignature();
      ParseEOS();
      return Native(Text(name), params, ret, name.loc);
    }

    /** `parseTemplateMethod()`: `fun`, a signature and `;`. */
    method ParseTemplateMethod() returns (m: TemplateMethod)
      requires Valid()
      modifies this
      ensures Valid() && old(pos) <= pos && old(errors) <= errors
      ensures !old(Peek()).tag.EOF? ==> old(pos) < pos
      ensures !old(Peek()).tag.EOF? ==> m.name == Text(tokens[old(pos) + 1]) && m.loc == tokens[old(pos) + 1].loc
    {
      var fun := Consume();
      if !fun.tag.FUN? {
        Report("'fun' expected", fun);
      }
      var name, params, ret := ParseSignature();
      ParseEOS();
      return TemplateMethod(Text(name), params, ret, name.loc);
    }

    /** `parseCallable()`: `fun` starts a function, `nat` a native; any
        other token is consumed and reported, and there is no callable
        (Java `null`). */
    method ParseCallable() returns (r: Result<Option<Callable>>)
      requires Valid()
      modifies this
      ensures Valid() && old(pos) <= pos && old(errors) <= errors
      ensures !old(Peek()).tag.EOF? ==> old(pos) < pos
      ensures r.Ok? ==> (r.value.Some? <==> old(Peek()).tag.FUN? || old(Peek()).tag.NAT?)
      ensures r.Ok? && r.value.Some? ==> (r.value.value.Function? <==> old(Peek()).tag.FUN?)
      ensures !old(Peek()).tag.FUN? && !old(Peek()).tag.NAT? ==>
        r == Ok(None) && errors == old(errors) + [UnexpectedToken(old(Peek()))]
    {
      var t := Consume();
      if t.tag.FUN? {
        var f :- ParseFunction();
        return Ok(Some(f));
      } else if t.tag.NAT? {
        var n := ParseNative();
        return Ok(Some(n));
      }
      errors := errors + [UnexpectedToken(t)];
      return Ok(None);
    }

    /** `parseStruct()`: `struct name {`, fields up to `}` or the end of the
        input, then the closing token, reported if it is the end. */
    method ParseStruct() returns (d: StructDecl)
      requires Valid() && Peek().tag.STRUCT?
      modifies this
      ensures Valid() && old(pos) < pos && old(errors) <= errors
      ensures d.name == Text(tokens[old(pos) + 1]) && d.loc == tokens[old(pos) + 1].loc
    {
      var t := Consume();
      var name := Consume();
      if !name.tag.IDENTIFIER? {
        Report("identifier expected", name);
      }
      var open := Consume();
      if !open.tag.CURVED_OPEN? {
        Report("missing '{'", open);
      }
      var fields := [];
      while !Peek().tag.CURVED_CLOSED? && !Peek().tag.EOF?
        invariant Valid() && old(pos) < pos && old(errors) <= errors
        decreases |tokens| - pos
      {
        var f := ParseField();
        fields := fields + [f];
      }
      CloseBrace();
      return StructDecl(Text(name), fields, name.loc);
    }

    /** `parseTemplate()`: `template name {`, template methods up to `}` or
        the end of the input, then the closing token. */
    method ParseTemplate() returns (d: Template)
      requires Valid() && Peek().tag.TEMPLATE?
      modifies this
      ensures Valid() && old(pos) < pos && old(errors) <= errors
      ensures d.name == Text(tokens[old(pos) + 1]) && d.loc == tokens[old(pos) + 1].loc
    {
      var t := Consume();
      var name := Consume();
      if !name.tag.IDENTIFIER? {
        Report("identifier expected", name);
      }
      var open := Consume();
      if !open.tag.CURVED_OPEN? {
        Report("missing '{'", open);
      }
      var methods := [];
      while !Peek().tag.CURVED_CLOSED? && !Peek().tag.EOF?
        invariant Valid() && old(pos) < pos && old(errors) <= errors
        decreases |tokens| - pos
      {
        var m := ParseTemplateMethod();
        methods := methods + [m];
      }
      CloseBrace();
      return Template(Text(name), methods, name.loc);
    }

    /** `parseImplementation()`: a head, callables up to `}` or the end of
        the input, then the closing token. */
    method ParseImplementation() returns (r: Result<Impl>)
      requires Valid() && Peek().tag.IMPL?
      modifies this
      ensures Valid() && old(pos) < pos && old(errors) <= errors
      ensures r.Ok? ==> r.value.name == Text(tokens[old(pos) + 1]) && r.value.loc == tokens[old(pos) + 1].loc
    {
      var name, target, objectName := ParseImplHead();
      var impls :- ParseImplBody();
      CloseBrace();
      return Ok(Impl(Text(name), Text(target), objectName, impls, name.loc));
    }

    /** `impl name for type [as object] {`: each token is consumed whatever
        it is, and reported unless it is the one expected. */
    method ParseImplHead() returns (name: Tok.Token, target: Tok.Token, objectName: Option<string>)
      requires Valid() && Peek().tag.IMPL?
      modifies this
      ensures Valid() && old(pos) < pos && old(errors) <= errors
      ensures name == tokens[old(pos) + 1]
    {
      var t := Consume();
      name := Consume();
      if !name.tag.IDENTIFIER? {
        Report("identifier expected", name);
      }
      var keyword := Consume();
      if !keyword.tag.FOR? {
        Report("missing keyword 'for'", keyword);
      }
      target := Consume();
      if !target.tag.IDENTIFIER? {
        Report("identifier expected", target);
      }
      var open;
      objectName, open := ParseObjectName();
      if !open.tag.CURVED_OPEN? {
        Report("missing '{'", open);
      }
    }

    /** The callables of an implementation, up to `}` or the end of the
        input. A token that starts no callable is reported twice: by
        `parseCallable` and again here. */
    method ParseImplBody() returns (r: Result<seq<Callable>>)
      requires Valid()
      modifies this
      ensures Valid() && old(pos) <= pos && old(errors) <= errors
      ensures r.Ok? ==> Peek().tag.CURVED_CLOSED? || Peek().tag.EOF?
    {
      var impls := [];
      while !Peek().tag.CURVED_CLOSED? && !Peek().tag.EOF?
        invariant Valid() && old(pos) <= pos && old(errors) <= errors
        decreases |tokens| - pos
      {
        var look := Peek();
        var c :- ParseCallable();
        if c.None? {
          Report("unexpected token '" + Text(look) + "'", look);
        } else {
          impls := impls + [c.value];
        }
      }
      return Ok(impls);
    }

    /** The optional `as object` of an implementation, and the token after
        it, which should be `{`. The object's name is the lexeme of the
        token after `as`, whatever it is. */
    method ParseObjectName() returns (objectName: Option<string>, next: Tok.Token)
      requires Valid()
      modifies this
      ensures Valid() && old(pos) <= pos && old(errors) <= errors
      ensures objectName.Some? ==> old(Peek()).tag.AS?
      ensures old(Peek()).tag.AS? ==> objectName == tokens[NextPos(old(pos))].lexem
      ensures !old(Peek()).tag.AS? ==> next == old(Peek()) && errors == old(errors)
    {
      next := Consume();
      objectName := None;
      if next.tag.AS? {
        var obj := Consume();
        if !obj.tag.IDENTIFIER? {
          Report("identifier expected", obj);
        }
        objectName := obj.lexem;
        next := Consume();
      }
    }

    /** The closing token of a struct, template or implementation body,
        consumed; only the end of the input is reported. */
    method CloseBrace()
      requires Valid()
      modifies this
      ensures Valid() && pos == NextPos(old(pos))
      ensures errors == old(errors) + if old(Peek()).tag.EOF? then [Error("missing '}'", old(Peek()).loc)] else []
    {
      var t := Consume();
      if t.tag.EOF? {
        Report("missing '}'", t);
      }
    }

    /** `parseProgram()`: declarations until the end of the input. `heads`
        are the positions where the declarations begin, in order; each is
        dispatched on its first token, and each list of the root holds its
        kind's declarations in input order. */
    method ParseProgram() returns (r: Result<Root>, ghost heads: seq<nat>)
      requires Valid()
      modifies this
      ensures Valid() && old(pos) <= pos && old(errors) <= errors
      ensures r.Ok? ==> Peek().tag.EOF?
      ensures Ascending(heads, old(pos), pos)
      ensures r.Ok? ==> (heads == [] <==> old(Peek()).tag.EOF?)
      ensures heads != [] ==> heads[0] == old(pos)
      ensures r.Ok? ==> Collected(tokens, r.value, heads)
    {
      var root := Root([], [], [], []);
      heads := [];
      while !Peek().tag.EOF?
        invariant Valid() && old(pos) <= pos && old(errors) <= errors
        invariant Ascending(heads, old(pos), pos)
        invariant heads == [] <==> pos == old(pos)
        invariant heads != [] ==> heads[0] == old(pos) && !tokens[old(pos)].tag.EOF?
        invariant Collected(tokens, root, heads)
        decreases |tokens| - pos
      {
        ghost var h := pos;
        root :- ParseDeclaration(root, heads);
        AscendingAppend(heads, old(pos), h, pos);
        heads := heads + [h];
      }
      return Ok(root), heads;
    }

    /** One round of `parseProgram()`'s loop: the declaration its first token
        selects is added to its list. A token that starts none of them is
        reported and dropped (the `null` callable is not added). */
    method ParseDeclaration(root: Root, ghost heads: seq<nat>) returns (r: Result<Root>)
      requires Valid() && !Peek().tag.EOF?
      requires forall k :: 0 <= k < |heads| ==> heads[k] < pos
      requires Collected(tokens, root, heads)
      modifies this
      ensures Valid() && old(pos) < pos && old(errors) <= errors
      ensures r.Ok? ==> Collected(tokens, r.value, heads + [old(pos)])
      ensures r.Ok? && KindOf(old(Peek()).tag) == Stray ==>
        r.value == root && errors == old(errors) + [UnexpectedToken(old(Peek()))]
    {
      var t := Peek();
      ghost var h := pos;
      if t.tag.STRUCT? {
        var s := ParseStruct();
        r := Ok(root.(structs := root.structs + [s]));
      } else if t.tag.TEMPLATE? {
        var m := ParseTemplate();
        r := Ok(root.(templates := root.templates + [m]));
      } else if t.tag.IMPL? {
        var i :- ParseImplementation();
        r := Ok(root.(impls := root.impls + [i]));
      } else {
        var c :- ParseCallable();
        if c.Some? {
          r := Ok(root.(callables := root.callables + [c.value]));
        } else {
          r := Ok(root);
        }
      }
      CollectedAppend(tokens, root, heads, h, r.value);
    }
  }
}
