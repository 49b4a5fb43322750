/** `computil.generation.Generator`: the tree walk that fills the IR. The
    generator is a class whose fields are the generator's own maps and its
    `State`; each `visit…` method is a method here that appends to the
    current function's instruction stream and returns the static type the
    source returns (`None` for Java `null`), or the exception the source
    would throw. A ghost log records, for every node generated, the code its
    generation emitted, so a node's contract can name its children's code. */
module Generation {
  import opened Wrappers
  import opened Diags
  import opened Types
  import opened Operations
  import opened Ast
  import opened Scopes
  import P = Pools
  import I = IR

  /** `GenEntry.Kind` */
  datatype Kind = LOCAL | FIELD | PARAMETER | VIRTUAL_FUNCTION | NATIVE_FUNCTION

  /** `GenEntry(type, name, kind, address)`; the type may be `null`. */
  datatype GenEntry = GenEntry(ty: Option<Ty>, name: string, kind: Kind, address: int)

  /** The code the generation of one node appended, and the type it returned. */
  datatype Emission =
    | ExprCode(e: Expr, code: seq<I.Instruction>, ty: Option<Ty>)
    | StmtCode(s: Stmt, code: seq<I.Instruction>)

  const NPE: Failure := Thrown("NullPointerException")
  const CCE: Failure := Thrown("ClassCastException")
  const AE: Failure := Thrown("AssertionError")
  const IOOBE: Failure := Thrown("IndexOutOfBoundsException")

  /** `Byte.MIN_VALUE <= v <= Byte.MAX_VALUE`: small integers are pushed
      directly, the others go through the constant pool. */
  predicate IsByte(v: int) {
    -128 <= v <= 127
  }

  /** The code of a list of nodes, one after the other. */
  function Flatten(cs: seq<seq<I.Instruction>>): seq<I.Instruction> {
    if cs == [] then [] else Flatten(cs[..|cs| - 1]) + cs[|cs| - 1]
  }

  function Reverse<T>(s: seq<T>): (r: seq<T>)
    ensures |r| == |s|
  {
    if s == [] then [] else Reverse(s[1..]) + [s[0]]
  }

  /** Reversal reads the sequence from its end. */
  lemma {:induction false} ReverseIndex<T>(s: seq<T>, i: nat)
    requires i < |s|
    ensures Reverse(s)[i] == s[|s| - 1 - i]
  {
    if i < |s| - 1 {
      ReverseIndex(s[1..], i);
    }
  }

  /** What `newLine(tree)` may append: nothing, or one marker for the node's
      own line. */
  predicate IsMark(m: seq<I.Instruction>, loc: Loc) {
    m == [] || (loc.Line? && m == [I.NewLineNumber(loc.line)])
  }

  /** The instructions `visitStructInitTree` emits after `NewInstance` for
      arguments whose code is `cs`: per argument, a `Dup` of the instance,
      the argument, a `Swap` and a `PutField` of the argument's position. */
  function InitFields(cs: seq<seq<I.Instruction>>): seq<I.Instruction> {
    if cs == [] then [] else InitFields(cs[..|cs| - 1]) + FieldInit(cs[|cs| - 1], |cs| - 1)
  }

  /** The instructions for the argument at `index` whose code is `c`. */
  function FieldInit(c: seq<I.Instruction>, index: nat): seq<I.Instruction> {
    [I.Dup] + c + [I.Swap, I.PutField(index)]
  }

  lemma FieldInitSplit(base: seq<I.Instruction>, c: seq<I.Instruction>, index: nat)
    ensures base + [I.Dup] + c + [I.Swap] + [I.PutField(index)] == base + FieldInit(c, index)
  {
    assert base + [I.Dup] + c + [I.Swap] + [I.PutField(index)] == base + ([I.Dup] + c + [I.Swap, I.PutField(index)]);
  }

  /** The conversion `visitCastTree` emits between `int` and `float`, or
      `None` when the cast is not between those two and becomes a checked
      cast. */
  function NumericCast(from: string, to: string): Option<seq<I.Instruction>> {
    if from == "int" && to == "float" then Some([I.Int2Float])
    else if from == "float" && to == "int" then Some([I.Float2Int])
    else if (from == "int" && to == "int") || (from == "float" && to == "float") then Some([])
    else None
  }

  /** `requireImplicitCast(candidate, dependentType, op)`: an `int` operand
      of `+`, `-` or `*` is converted when the other operand is a `float`.
      Reading the name of a `null` type throws. */
  function ImplicitCast(candidate: Option<Ty>, dependent: Option<Ty>, op: Operation): Result<bool> {
    if candidate.None? then Fail(NPE)
    else if Name(candidate.value) != "int" then Ok(false)
    else if op == ADD || op == SUB || op == MUL then
      if dependent.None? then Fail(NPE) else Ok(Name(dependent.value) == "float")
    else Ok(false)
  }

  /** `operationResultType(left, right, op)`. */
  function ResultType(left: Option<Ty>, right: Option<Ty>, op: Operation): Result<Ty> {
    match op
    case ADD | SUB | MUL | AND_BIT | OR_BIT | XOR | SHIFT_AL | SHIFT_AR =>
      if left.None? then Fail(NPE)
      else if Name(left.value) == "float" then Ok(FloatType)
      else if right.None? then Fail(NPE)
      else if Name(right.value) == "float" then Ok(FloatType)
      else Ok(IntType)
    case DIV => Ok(FloatType)
    case IDIV | MOD => Ok(IntType)
    case _ => Ok(BoolType)
  }

  predicate IsArithmetic(op: Operation) {
    op == ADD || op == SUB || op == MUL
  }

  /** At most one operand is ever converted, and only for `+ - *`; a
      conversion makes the operation a `float` one. */
  lemma ImplicitCastOneSide(l: Option<Ty>, r: Option<Ty>, op: Operation)
    ensures !(ImplicitCast(l, r, op) == Ok(true) && ImplicitCast(r, l, op) == Ok(true))
    ensures ImplicitCast(l, r, op) == Ok(true) ==> IsArithmetic(op) && ResultType(l, r, op) == Ok(FloatType)
    ensures ImplicitCast(r, l, op) == Ok(true) ==> IsArithmetic(op) && ResultType(l, r, op) == Ok(FloatType)
  {
  }

  /** The arithmetic operators give `int` exactly when neither operand is a
      `float`; `/` is always `float`, `//` and `%` always `int`, and the
      logical and comparison operators `bool`. */
  lemma ResultTypeCases(l: Ty, r: Ty, op: Operation)
    ensures (op in {ADD, SUB, MUL, AND_BIT, OR_BIT, XOR, SHIFT_AL, SHIFT_AR}) ==>
      (ResultType(Some(l), Some(r), op) == Ok(IntType) <==> Name(l) != "float" && Name(r) != "float")
    ensures op == DIV ==> ResultType(Some(l), Some(r), op) == Ok(FloatType)
    ensures op in {IDIV, MOD} ==> ResultType(Some(l), Some(r), op) == Ok(IntType)
    ensures op in {AND, OR, LESS, GREATER, LESS_EQ, GREATER_EQ, EQUALS, NOT_EQUALS} ==>
      ResultType(Some(l), Some(r), op) == Ok(BoolType)
  {
  }

  /** `seq` prefixes keep their members. */
  lemma PrefixKeeps<T>(a: seq<T>, b: seq<T>, x: T)
    requires a <= b && x in a
    ensures x in b
  {
    var i :| 0 <= i < |a| && a[i] == x;
    assert b[i] == x;
  }

  /** `VirtualMethod.getName()` / `NativeMethod.getName()`: the name an
      implementation's method is registered under. */
  function MethodName(ty: string, name: string): string {
    ty + "$" + name
  }

  /** The code of a binary operation whose operands generated `lc` and
      `rc`: an `int` operand that meets a `float` one is converted right
      after its own code, and the operation carries the name of its result
      type. */
  function BinOpCode(lc: seq<I.Instruction>, rc: seq<I.Instruction>, castLeft: bool, castRight: bool,
                     op: Operation, res: Ty): seq<I.Instruction>
  {
    lc + (if castLeft then [I.Int2Float] else []) + rc + (if castRight then [I.Int2Float] else [])
      + [I.BinaryOperation(op, Name(res))]
  }

  lemma BinOpCodeSplit(base: seq<I.Instruction>, lc: seq<I.Instruction>, rc: seq<I.Instruction>, castLeft: bool,
                       castRight: bool, op: Operation, res: Ty)
    ensures (base + lc) + (if castLeft then [I.Int2Float] else []) + rc + (if castRight then [I.Int2Float] else [])
      + [I.BinaryOperation(op, Name(res))] == base + BinOpCode(lc, rc, castLeft, castRight, op, res)
  {
    var cl: seq<I.Instruction> := if castLeft then [I.Int2Float] else [];
    var cr: seq<I.Instruction> := if castRight then [I.Int2Float] else [];
    assert (base + lc) + cl + rc + cr + [I.BinaryOperation(op, Name(res))]
      == base + (lc + cl + rc + cr + [I.BinaryOperation(op, Name(res))]);
  }

  /** The left operand's conversion as written: `insert(maybeCastIndex + 1)`,
      one position after the first instruction of the left operand, which
      throws when both operands generated nothing. */
  function BinOpCodeAsWritten(lc: seq<I.Instruction>, rc: seq<I.Instruction>, castLeft: bool, castRight: bool,
                              op: Operation, res: Ty): Result<seq<I.Instruction>>
  {
    var both := lc + rc;
    if castLeft && |both| < 1 then Fail(IOOBE)
    else
      var withLeft := if castLeft then both[..1] + [I.Int2Float] + both[1..] else both;
      Ok(withLeft + (if castRight then [I.Int2Float] else []) + [I.BinaryOperation(op, Name(res))])
  }

  /** The stream after `visitBinaryOperationTree`, whose operands' code
      `lc + rc` follows `base`: the as-written code appended to `base`. */
  lemma AsWrittenSplit(base: seq<I.Instruction>, lc: seq<I.Instruction>, rc: seq<I.Instruction>, castLeft: bool,
                       castRight: bool, op: Operation, res: Ty)
    requires castLeft ==> |lc + rc| >= 1
    ensures BinOpCodeAsWritten(lc, rc, castLeft, castRight, op, res).Ok?
    ensures var s := base + lc + rc;
      (if castLeft then s[..|base| + 1] + [I.Int2Float] + s[|base| + 1..] else s)
        + (if castRight then [I.Int2Float] else []) + [I.BinaryOperation(op, Name(res))]
      == base + BinOpCodeAsWritten(lc, rc, castLeft, castRight, op, res).value
  {
    var s := base + lc + rc;
    var both := lc + rc;
    assert s == base + both;
    var cr: seq<I.Instruction> := if castRight then [I.Int2Float] else [];
    var b := [I.BinaryOperation(op, Name(res))];
    if castLeft {
      assert s[..|base| + 1] == base + both[..1];
      assert s[|base| + 1..] == both[1..];
      assert (base + both[..1]) + [I.Int2Float] + both[1..] + cr + b
        == base + (both[..1] + [I.Int2Float] + both[1..] + cr + b);
    } else {
      assert (base + both) + cr + b == base + (both + cr + b);
    }
  }

  /** The conversion of the left operand comes exactly after the left
      operand's code, before any of the right operand's. */
  lemma BinOpCodeConvertsLeftValue(lc: seq<I.Instruction>, rc: seq<I.Instruction>, castRight: bool, op: Operation, res: Ty)
    ensures var c := BinOpCode(lc, rc, true, castRight, op, res);
      |c| > |lc| && c[..|lc|] == lc && c[|lc|] == I.Int2Float && c[|lc| + 1..|lc| + 1 + |rc|] == rc
  {
    var c := BinOpCode(lc, rc, true, castRight, op, res);
    assert c == lc + [I.Int2Float] + rc + ((if castRight then [I.Int2Float] else []) + [I.BinaryOperation(op, Name(res))]);
  }

  /** As written, the two agree exactly when the left operand is one
      instruction (a literal or a variable) or when nothing is converted. */
  lemma AsWrittenAgreesOnSingleInstruction(lc: seq<I.Instruction>, rc: seq<I.Instruction>, castLeft: bool,
                                           castRight: bool, op: Operation, res: Ty)
    requires |lc| == 1 || !castLeft
    ensures BinOpCodeAsWritten(lc, rc, castLeft, castRight, op, res) == Ok(BinOpCode(lc, rc, castLeft, castRight, op, res))
  {
    var cr := if castRight then [I.Int2Float] else [];
    var b := [I.BinaryOperation(op, Name(res))];
    if castLeft {
      assert (lc + rc)[..1] == lc && (lc + rc)[1..] == rc;
      assert (lc + rc)[..1] + [I.Int2Float] + (lc + rc)[1..] == lc + [I.Int2Float] + rc;
    } else {
      assert lc + [] + rc == lc + rc;
    }
  }

  /** `a * b + 1.5` with `int` variables `a`, `b` in slots 0 and 1: as
      written, the conversion lands between the two loads, so the `int`
      multiplication receives a `float` operand; the intended code converts
      the product. */
  lemma AsWrittenConvertsInsideLeftOperand()
    ensures var lc := [I.LoadLocal(0), I.LoadLocal(1), I.BinaryOperation(MUL, "int")];
      var rc := [I.LoadConst(0)];
      BinOpCodeAsWritten(lc, rc, true, false, ADD, FloatType)
        == Ok([I.LoadLocal(0), I.Int2Float, I.LoadLocal(1), I.BinaryOperation(MUL, "int"), I.LoadConst(0),
              I.BinaryOperation(ADD, "float")])
      && BinOpCode(lc, rc, true, false, ADD, FloatType)
        == [I.LoadLocal(0), I.LoadLocal(1), I.BinaryOperation(MUL, "int"), I.Int2Float, I.LoadConst(0),
            I.BinaryOperation(ADD, "float")]
  {
    var lc := [I.LoadLocal(0), I.LoadLocal(1), I.BinaryOperation(MUL, "int")];
    var rc := [I.LoadConst(0)];
    assert Name(FloatType) == "float";
    var both := lc + rc;
    assert both == [I.LoadLocal(0), I.LoadLocal(1), I.BinaryOperation(MUL, "int"), I.LoadConst(0)];
    assert both[..1] == [I.LoadLocal(0)];
    assert both[1..] == [I.LoadLocal(1), I.BinaryOperation(MUL, "int"), I.LoadConst(0)];
    var asWritten := [I.LoadLocal(0)] + [I.Int2Float] + both[1..] + [] + [I.BinaryOperation(ADD, "float")];
    assert asWritten == [I.LoadLocal(0), I.Int2Float, I.LoadLocal(1), I.BinaryOperation(MUL, "int"), I.LoadConst(0),
                         I.BinaryOperation(ADD, "float")];
    assert BinOpCodeAsWritten(lc, rc, true, false, ADD, FloatType) == Ok(asWritten);
    var intended := lc + [I.Int2Float] + rc + [] + [I.BinaryOperation(ADD, "float")];
    assert intended == [I.LoadLocal(0), I.LoadLocal(1), I.BinaryOperation(MUL, "int"), I.Int2Float, I.LoadConst(0),
                        I.BinaryOperation(ADD, "float")];
  }

  // ---- statement layout --------------------------------------------------

  /** `visitIfElseTree` without an else part, for code that starts at stream
      position `s0`: the condition, a `BranchIfFalse` to the end, the body. */
  function IfCode(s0: int, cc: seq<I.Instruction>, bc: seq<I.Instruction>): seq<I.Instruction> {
    cc + [I.BranchIfFalse(s0 + |cc| + 1 + |bc|)] + bc
  }

  /** `visitIfElseTree` with an else part: the branch skips the body and the
      `Goto` that ends it, and the `Goto` skips the else part. */
  function IfElseCode(s0: int, cc: seq<I.Instruction>, bc: seq<I.Instruction>, ec: seq<I.Instruction>): seq<I.Instruction> {
    cc + [I.BranchIfFalse(s0 + |cc| + 2 + |bc|)] + bc + [I.Goto(s0 + |cc| + 2 + |bc| + |ec|)] + ec
  }

  /** `visitDoWhileTree`: the body, the condition, and a `BranchIfTrue` back
      to the body's first instruction. */
  function DoWhileCode(s0: int, bc: seq<I.Instruction>, cc: seq<I.Instruction>): seq<I.Instruction> {
    bc + cc + [I.BranchIfTrue(s0)]
  }

  /** Where the jumps of an if land, counted in the stream: a false condition
      continues right after the body (the end of the code, or the else part
      when there is one), and the `Goto` after the body continues at the end
      of the else part. */
  lemma IfJumpTargets(s0: int, cc: seq<I.Instruction>, bc: seq<I.Instruction>, ec: seq<I.Instruction>)
    ensures var c := IfCode(s0, cc, bc);
      |c| == |cc| + 1 + |bc| && c[|cc|] == I.BranchIfFalse(s0 + |c|) && c[..|cc|] == cc && c[|cc| + 1..] == bc
    ensures var c := IfElseCode(s0, cc, bc, ec); var t := c[|cc|].address - s0;
      c[|cc|].BranchIfFalse? && |cc| < t <= |c| && c[|cc| + 1..t - 1] == bc && c[t..] == ec
      && c[t - 1] == I.Goto(s0 + |c|)
  {
    var c := IfElseCode(s0, cc, bc, ec);
    var t := |cc| + 2 + |bc|;
    assert c == cc + [I.BranchIfFalse(s0 + t)] + bc + [I.Goto(s0 + |c|)] + ec;
    assert c[|cc| + 1..t - 1] == bc;
    assert c[t..] == ec;
  }

  /** The loop of a do-while jumps back to where its body starts, from the
      last instruction of its code. */
  lemma DoWhileJumpsBack(s0: int, bc: seq<I.Instruction>, cc: seq<I.Instruction>)
    ensures var c := DoWhileCode(s0, bc, cc);
      |c| > 0 && c[|c| - 1] == I.BranchIfTrue(s0) && c[..|bc|] == bc && c[|bc|..|c| - 1] == cc
  {
    var c := DoWhileCode(s0, bc, cc);
    assert c[..|bc|] == bc && c[|bc|..|c| - 1] == cc;
  }

  /** Replacing the instruction at `|pre|`: the jump patched by
      `setJumpAddress`. */
  lemma PatchAt(pre: seq<I.Instruction>, x: I.Instruction, post: seq<I.Instruction>, y: I.Instruction)
    ensures (pre + [x] + post)[|pre|] == x
    ensures (pre + [x] + post)[|pre| := y] == pre + [y] + post
  {
    assert (pre + [x] + post)[|pre| := y] == pre + [y] + post;
  }

  /** The entries of a scope's own table have distinct addresses below
      `bound`, none of them negative: the slots a function's parameters and
      variables occupy. */
  ghost predicate WellAddressed(sc: Scope<GenEntry>, bound: int) {
    && (forall n :: n in sc.entries ==> 0 <= sc.entries[n].address < bound)
    && (forall n, m :: n in sc.entries && m in sc.entries && n != m ==> sc.entries[n].address != sc.entries[m].address)
  }

  /** A declaration at the next free address keeps the table well
      addressed with the bound one higher, and the new slot is nobody
      else's. */
  lemma DeclareFresh(sc: Scope<GenEntry>, bound: int, name: string, e: GenEntry)
    requires WellAddressed(sc, bound) && e.address == bound && bound >= 0
    ensures WellAddressed(Add(sc, name, e), bound + 1)
    ensures forall n :: n in sc.entries ==> sc.entries[n].address != e.address
  {
    var sc' := Add(sc, name, e);
    forall n, m | n in sc'.entries && m in sc'.entries && n != m
      ensures sc'.entries[n].address != sc'.entries[m].address
    {
      if n != name && m != name {
        assert sc'.entries[n] == sc.entries[n] && sc'.entries[m] == sc.entries[m];
      }
    }
  }

  // ---- declarations ------------------------------------------------------

  /** The method flag, the parameter table and its order of a function. */
  datatype Header = Header(isMethod: bool, parameters: map<string, int>, order: seq<string>)

  /** A parameter as `visitParameterTree` sees it; the receiver of a method
      has no type. */
  datatype Formal = Formal(name: string, ty: Option<Ty>)

  /** The receiver (inside an implementation), then the declared
      parameters. */
  function Formals(receiver: Option<GenEntry>, ps: seq<Param>): (fs: seq<Formal>)
    ensures |fs| == |ps| + (if receiver.Some? then 1 else 0)
  {
    (if receiver.Some? then [Formal(receiver.value.name, None)] else []) + Params(ps)
  }

  function Params(ps: seq<Param>): (fs: seq<Formal>)
    ensures |fs| == |ps|
    ensures forall i :: 0 <= i < |ps| ==> fs[i] == Formal(ps[i].name, Some(ps[i].ty))
  {
    if ps == [] then [] else Params(ps[..|ps| - 1]) + [Formal(ps[|ps| - 1].name, Some(ps[|ps| - 1].ty))]
  }

  /** The prologue of a function: one `StoreLocal` per parameter, to the
      addresses `base`, `base + 1`, ...; the caller pushed the arguments in
      reverse. */
  function Stores(base: int, n: nat): (r: seq<I.Instruction>)
    ensures |r| == n
  {
    if n == 0 then [] else Stores(base, n - 1) + [I.StoreLocal(base + n - 1)]
  }

  /** `putParameter` for each formal in turn, at consecutive addresses. */
  function ParamTable(m: map<string, int>, fs: seq<Formal>, base: int): map<string, int> {
    if fs == [] then m else ParamTable(m, fs[..|fs| - 1], base)[fs[|fs| - 1].name := base + |fs| - 1]
  }

  /** The insertion order `putParameter` keeps: a name is added the first
      time it is put. */
  function ParamOrder(order: seq<string>, fs: seq<Formal>): seq<string> {
    if fs == [] then order else
      var o := ParamOrder(order, fs[..|fs| - 1]);
      if fs[|fs| - 1].name in o then o else o + [fs[|fs| - 1].name]
  }

  /** The parameters scope after `visitParameterTree` for each formal. */
  function DeclaredParams(sc: Scope<GenEntry>, fs: seq<Formal>, base: int): Scope<GenEntry> {
    if fs == [] then sc else
      Add(DeclaredParams(sc, fs[..|fs| - 1], base), fs[|fs| - 1].name,
          GenEntry(fs[|fs| - 1].ty, fs[|fs| - 1].name, PARAMETER, base + |fs| - 1))
  }

  predicate DistinctNames(fs: seq<Formal>) {
    forall i, j :: 0 <= i < j < |fs| ==> fs[i].name != fs[j].name
  }

  /** With distinct names, the i-th formal is put at address `base + i`,
      and the table holds the formals' names only. */
  lemma {:induction false} ParamTableAt(fs: seq<Formal>, base: int)
    requires DistinctNames(fs)
    ensures forall i :: 0 <= i < |fs| ==>
      fs[i].name in ParamTable(map[], fs, base) && ParamTable(map[], fs, base)[fs[i].name] == base + i
    ensures forall n :: n in ParamTable(map[], fs, base) ==> exists i :: 0 <= i < |fs| && fs[i].name == n
  {
    if fs != [] {
      var init := fs[..|fs| - 1];
      ParamTableAt(init, base);
      var t := ParamTable(map[], init, base);
      assert ParamTable(map[], fs, base) == t[fs[|fs| - 1].name := base + |fs| - 1];
      forall n | n in ParamTable(map[], fs, base) ensures exists i :: 0 <= i < |fs| && fs[i].name == n {
        if n != fs[|fs| - 1].name {
          assert n in t;
          var i :| 0 <= i < |init| && init[i].name == n;
          assert fs[i].name == n;
        }
      }
    }
  }

  /** With distinct names, the parameter order is the formals' order. */
  lemma {:induction false} ParamOrderAt(fs: seq<Formal>)
    requires DistinctNames(fs)
    ensures |ParamOrder([], fs)| == |fs| && forall i :: 0 <= i < |fs| ==> ParamOrder([], fs)[i] == fs[i].name
  {
    if fs != [] {
      var init := fs[..|fs| - 1];
      ParamOrderAt(init);
      assert fs[|fs| - 1].name !in ParamOrder([], init) by {
        assert forall i :: 0 <= i < |init| ==> ParamOrder([], init)[i] == fs[i].name;
      }
    }
  }

  /** With distinct names, the finder resolves every formal to its own
      parameter entry at `base + i`. */
  lemma {:induction false} DeclaredParamsAt(sc: Scope<GenEntry>, fs: seq<Formal>, base: int)
    requires DistinctNames(fs)
    ensures forall i :: 0 <= i < |fs| ==>
      fs[i].name in DeclaredParams(sc, fs, base).entries
      && DeclaredParams(sc, fs, base).entries[fs[i].name] == GenEntry(fs[i].ty, fs[i].name, PARAMETER, base + i)
  {
    if fs != [] {
      DeclaredParamsAt(sc, fs[..|fs| - 1], base);
    }
  }

  /** The name a callable registers under: its own at the top level, and
      `type$name` inside an implementation for `type`. */
  function QualifiedName(owner: Option<string>, c: Callable): string {
    if owner.Some? then MethodName(owner.value, c.name) else c.name
  }

  /** The entry `registerFunctions` adds for a callable; it has no address. */
  function CallableEntry(owner: Option<string>, c: Callable): GenEntry {
    GenEntry(Some(c.ret), QualifiedName(owner, c), if c.Native? then NATIVE_FUNCTION else VIRTUAL_FUNCTION, -1)
  }

  /** The names `registerFunctions` registers with the mediator: the
      non-native callables', in order. */
  function Registered(owner: Option<string>, cs: seq<Callable>): seq<string> {
    if cs == [] then [] else
      Registered(owner, cs[..|cs| - 1]) + (if cs[|cs| - 1].Native? then [] else [QualifiedName(owner, cs[|cs| - 1])])
  }

  /** Registration succeeds exactly for names that are pairwise distinct and
      not taken before. */
  predicate Unclaimed(names: seq<string>, taken: set<string>) {
    && (forall i :: 0 <= i < |names| ==> names[i] !in taken)
    && (forall i, j :: 0 <= i < j < |names| ==> names[i] != names[j])
  }

  /** The scope after `registerFunctions` added every callable. */
  function Declared(sc: Scope<GenEntry>, owner: Option<string>, cs: seq<Callable>): Scope<GenEntry> {
    if cs == [] then sc else
      Add(Declared(sc, owner, cs[..|cs| - 1]), QualifiedName(owner, cs[|cs| - 1]), CallableEntry(owner, cs[|cs| - 1]))
  }

  /** After registration every callable resolves to its entry under its
      qualified name, the last one of a name winning. */
  lemma {:induction false} DeclaredFinds(sc: Scope<GenEntry>, owner: Option<string>, cs: seq<Callable>, k: nat)
    requires k < |cs|
    requires forall j :: k < j < |cs| ==> QualifiedName(owner, cs[j]) != QualifiedName(owner, cs[k])
    ensures QualifiedName(owner, cs[k]) in Declared(sc, owner, cs).entries
    ensures Declared(sc, owner, cs).entries[QualifiedName(owner, cs[k])] == CallableEntry(owner, cs[k])
  {
    if k < |cs| - 1 {
      var init := cs[..|cs| - 1];
      assert forall j :: k < j < |init| ==> init[j] == cs[j];
      DeclaredFinds(sc, owner, init, k);
      assert init[k] == cs[k];
    }
  }

  /** The struct scope `visitStructTree` builds: one entry per field, whose
      address is its position (`nextFreeAddress` starts at 0). */
  function FieldScope(fs: seq<Field>): (sc: Scope<GenEntry>)
    ensures sc.StructScope? && |sc.ordered| == |fs| && sc.impls == []
  {
    if fs == [] then StructScope(map[], [], []) else
      var last := fs[|fs| - 1];
      Add(FieldScope(fs[..|fs| - 1]), last.name, GenEntry(Some(last.ty), last.name, FIELD, |fs| - 1))
  }

  function FieldNames(fs: seq<Field>): (ns: seq<string>)
    ensures |ns| == |fs| && forall i :: 0 <= i < |fs| ==> ns[i] == fs[i].name
  {
    if fs == [] then [] else FieldNames(fs[..|fs| - 1]) + [fs[|fs| - 1].name]
  }

  /** Field `i` of a struct is slot `i` of the emitted layout, so a
      `GetField`/`PutField` of a scope entry's address names that field; a
      name declared twice resolves to its last slot. */
  lemma FieldLayout(fs: seq<Field>)
    ensures forall i :: 0 <= i < |fs| ==> FieldScope(fs).ordered[i] == GenEntry(Some(fs[i].ty), fs[i].name, FIELD, i)
    ensures forall n :: n in FieldScope(fs).entries ==>
      var a := FieldScope(fs).entries[n].address;
      0 <= a < |fs| && FieldNames(fs)[a] == n && forall j :: a < j < |fs| ==> fs[j].name != n
    ensures forall i :: 0 <= i < |fs| ==> fs[i].name in FieldScope(fs).entries
  {
    FieldSlots(fs);
    FieldAddresses(fs);
  }

  /** The ordered entries of a struct scope are its fields, slot by slot. */
  lemma {:induction false} FieldSlots(fs: seq<Field>)
    ensures forall i :: 0 <= i < |fs| ==> FieldScope(fs).ordered[i] == GenEntry(Some(fs[i].ty), fs[i].name, FIELD, i)
  {
    if fs != [] {
      var init := fs[..|fs| - 1];
      FieldSlots(init);
      assert forall i :: 0 <= i < |init| ==> init[i] == fs[i];
    }
  }

  /** Every field name is in the struct scope, at the slot of its last
      declaration. */
  lemma {:induction false} FieldAddresses(fs: seq<Field>)
    ensures forall n :: n in FieldScope(fs).entries ==>
      var a := FieldScope(fs).entries[n].address;
      0 <= a < |fs| && FieldNames(fs)[a] == n && forall j :: a < j < |fs| ==> fs[j].name != n
    ensures forall i :: 0 <= i < |fs| ==> fs[i].name in FieldScope(fs).entries
  {
    if fs != [] {
      var init := fs[..|fs| - 1];
      var last := fs[|fs| - 1];
      FieldAddresses(init);
      var sc, sc0 := FieldScope(fs), FieldScope(init);
      assert sc.entries == sc0.entries[last.name := GenEntry(Some(last.ty), last.name, FIELD, |fs| - 1)];
      forall n | n in sc.entries
        ensures 0 <= sc.entries[n].address < |fs| && FieldNames(fs)[sc.entries[n].address] == n
        ensures forall j :: sc.entries[n].address < j < |fs| ==> fs[j].name != n
      {
        if n != last.name {
          var a := sc0.entries[n].address;
          assert sc.entries[n] == sc0.entries[n];
          assert FieldNames(fs)[a] == FieldNames(init)[a];
          assert forall j :: a < j < |init| ==> fs[j] == init[j];
        }
      }
      forall i | 0 <= i < |fs| ensures fs[i].name in sc.entries {
        if i < |init| {
          assert fs[i] == init[i];
        }
      }
    }
  }

  /** `genTemplates`: per template, its methods' return types; a later
      template or method of the same name replaces an earlier one. */
  function TemplateTable(m: map<string, map<string, Ty>>, ts: seq<Template>): map<string, map<string, Ty>> {
    if ts == [] then m else TemplateTable(m, ts[..|ts| - 1])[ts[|ts| - 1].name := MethodTable(ts[|ts| - 1].methods)]
  }

  function MethodTable(ms: seq<TemplateMethod>): map<string, Ty> {
    if ms == [] then map[] else MethodTable(ms[..|ms| - 1])[ms[|ms| - 1].name := ms[|ms| - 1].ret]
  }

  /** A template method declared last under its name gives the return type
      the generator uses for calls on that template. */
  lemma {:induction false} MethodTableLast(ms: seq<TemplateMethod>, k: nat)
    requires k < |ms| && forall j :: k < j < |ms| ==> ms[j].name != ms[k].name
    ensures ms[k].name in MethodTable(ms) && MethodTable(ms)[ms[k].name] == ms[k].ret
  {
    if k < |ms| - 1 {
      var init := ms[..|ms| - 1];
      assert forall j :: k < j < |init| ==> init[j] == ms[j];
      MethodTableLast(init, k);
      assert init[k] == ms[k];
    }
  }

  /** The names of a prefix of the callables are a prefix of the names. */
  lemma {:induction false} RegisteredPrefix(owner: Option<string>, cs: seq<Callable>, k: nat)
    requires k <= |cs|
    ensures Registered(owner, cs[..k]) <= Registered(owner, cs)
    decreases |cs|
  {
    if k < |cs| {
      var init := cs[..|cs| - 1];
      assert cs[..k] == init[..k];
      RegisteredPrefix(owner, init, k);
    } else {
      assert cs[..k] == cs;
    }
  }

  /** Registration failing part way fails for the whole sequence. */
  lemma UnclaimedPrefix(pre: seq<string>, names: seq<string>, taken: set<string>)
    requires pre <= names
    ensures Unclaimed(names, taken) ==> Unclaimed(pre, taken)
  {
    assert forall i :: 0 <= i < |pre| ==> pre[i] == names[i];
  }

  function StructNames(ss: seq<StructDecl>): (ns: seq<string>)
    ensures |ns| == |ss| && forall i :: 0 <= i < |ss| ==> ns[i] == ss[i].name
  {
    seq(|ss|, i requires 0 <= i < |ss| => ss[i].name)
  }

  /** The receiver of an implementation's methods: named by `as`, typed by
      the implemented struct, in slot 0. A missing name (`null` in the
      program) is spelled "null" here. */
  function Receiver(impl: Impl): GenEntry {
    GenEntry(Some(Basic(impl.forType, false, [], NoLoc)),
             if impl.objectName.Some? then impl.objectName.value else "null", LOCAL, 0)
  }

  /** The pool constant a struct's method table points at for a method. */
  function MethodConstant(tn: string, c: Callable): P.PoolConstant {
    if c.Function? then P.VFunctionConstant(MethodName(tn, c.name)) else P.NFunctionConstant(MethodName(tn, c.name))
  }

  /** The names the methods of an implementation for `tn` register under. */
  function MethodNames(tn: string, ms: seq<Callable>): set<string> {
    set j | 0 <= j < |ms| :: MethodName(tn, ms[j].name)
  }

  lemma MethodNamesSnoc(tn: string, ms: seq<Callable>, c: Callable)
    ensures MethodNames(tn, ms + [c]) == MethodNames(tn, ms) + {MethodName(tn, c.name)}
  {
    var ms' := ms + [c];
    assert MethodName(tn, ms'[|ms|].name) in MethodNames(tn, ms');
    forall n | n in MethodNames(tn, ms) ensures n in MethodNames(tn, ms') {
      var j :| 0 <= j < |ms| && MethodName(tn, ms[j].name) == n;
      assert ms'[j] == ms[j];
    }
  }

  /** After the methods `ms` of an implementation for `tn`, the struct's
      method table `table` maps the plain name of each method (the last one
      of a name) to the pool entry, in `es`, of its function. */
  /** `ms[j]` is the last method of its name in `ms`: no later one
      overrides its table entry. */
  ghost predicate LastOfName(ms: seq<Callable>, j: int)
    requires 0 <= j < |ms|
  {
    forall k :: j < k < |ms| ==> ms[k].name != ms[j].name
  }

  ghost predicate MethodsLaid(es: seq<P.PoolConstant>, table: map<string, int>, tn: string, ms: seq<Callable>) {
    forall j :: 0 <= j < |ms| && LastOfName(ms, j) ==>
      (ms[j].name in table && 0 <= table[ms[j].name] < |es| && es[table[ms[j].name]] == MethodConstant(tn, ms[j]))
  }

  /** One more method: its entry overrides the table, and the pool only
      grows, so every earlier entry still holds. */
  lemma MethodsLaidStep(es: seq<P.PoolConstant>, es': seq<P.PoolConstant>, table: map<string, int>, tn: string,
                        ms: seq<Callable>, c: Callable, a: int)
    requires MethodsLaid(es, table, tn, ms) && es <= es' && 0 <= a < |es'| && es'[a] == MethodConstant(tn, c)
    ensures MethodsLaid(es', table[c.name := a], tn, ms + [c])
  {
    var ms' := ms + [c];
    var table' := table[c.name := a];
    forall j | 0 <= j < |ms'| && LastOfName(ms', j)
      ensures ms'[j].name in table' && 0 <= table'[ms'[j].name] < |es'|
      ensures es'[table'[ms'[j].name]] == MethodConstant(tn, ms'[j])
    {
      if j < |ms| {
        MethodLaidEarlier(es, es', table, tn, ms, c, a, j);
      } else {
        assert ms'[j] == c;
      }
    }
  }

  /** An earlier method that is the last of its name keeps its entry. */
  lemma MethodLaidEarlier(es: seq<P.PoolConstant>, es': seq<P.PoolConstant>, table: map<string, int>, tn: string,
                          ms: seq<Callable>, c: Callable, a: int, j: int)
    requires MethodsLaid(es, table, tn, ms) && es <= es'
    requires 0 <= j < |ms| && LastOfName(ms + [c], j)
    ensures ms[j].name != c.name && ms[j].name in table && 0 <= table[ms[j].name] < |es|
    ensures es'[table[ms[j].name]] == MethodConstant(tn, ms[j])
  {
    var ms' := ms + [c];
    assert ms'[|ms|] == c && ms'[j] == ms[j];
    assert LastOfName(ms, j) by {
      forall k | j < k < |ms| ensures ms[k].name != ms[j].name {
        assert ms'[k] == ms[k];
      }
    }
    var p := table[ms[j].name];
    assert es'[p] == es[p];
  }

  /** The step of the methods loop, stated on prefixes of the method list. */
  lemma NextMethodLaid(es: seq<P.PoolConstant>, es': seq<P.PoolConstant>, table: map<string, int>, tn: string,
                       ms: seq<Callable>, i: nat, a: int, outer: set<string>)
    requires i < |ms| && MethodsLaid(es, table, tn, ms[..i])
    requires es <= es' && 0 <= a < |es'| && es'[a] == MethodConstant(tn, ms[i])
    ensures MethodsLaid(es', table[ms[i].name := a], tn, ms[..i + 1])
    ensures outer + MethodNames(tn, ms[..i]) + {MethodName(tn, ms[i].name)} == outer + MethodNames(tn, ms[..i + 1])
  {
    assert ms[..i + 1] == ms[..i] + [ms[i]];
    MethodNamesSnoc(tn, ms[..i], ms[i]);
    MethodsLaidStep(es, es', table, tn, ms[..i], ms[i], a);
  }

  /** `isMainFunction` for a top-level callable: a function named `main`. */
  predicate IsMain(c: Callable) {
    c.Function? && c.name == "main"
  }

  /** The qualified names of the methods of every implementation. */
  function ImplMethodNames(impls: seq<Impl>): set<string> {
    if impls == [] then {}
    else ImplMethodNames(impls[..|impls| - 1]) + MethodNames(impls[|impls| - 1].forType, impls[|impls| - 1].impls)
  }

  lemma NextImplNames(impls: seq<Impl>, i: nat)
    requires i < |impls|
    ensures ImplMethodNames(impls[..i + 1]) == ImplMethodNames(impls[..i]) + MethodNames(impls[i].forType, impls[i].impls)
  {
    assert impls[..i + 1][..i] == impls[..i];
  }

  /** Every implementation's methods are among all of them. */
  lemma {:induction false} ImplMethodNamesCover(impls: seq<Impl>, k: nat)
    requires k < |impls|
    ensures MethodNames(impls[k].forType, impls[k].impls) <= ImplMethodNames(impls)
    decreases |impls|
  {
    if k < |impls| - 1 {
      ImplMethodNamesCover(impls[..|impls| - 1], k);
    }
  }

  /** The first `i` implementations have a struct scope once they have
      methods, and all their methods are among `keys`. */
  predicate ImplsRegistered(impls: seq<Impl>, i: nat, types: set<string>, keys: set<string>)
    requires i <= |impls|
  {
    && (forall k :: 0 <= k < i ==> impls[k].impls == [] || impls[k].forType in types)
    && (forall k, n :: 0 <= k < i && n in Registered(Some(impls[k].forType), impls[k].impls) ==> n in keys)
  }

  /** Registering one more implementation, while keeping every name
      registered before, extends `ImplsRegistered` by one. */
  lemma ImplsRegisteredStep(impls: seq<Impl>, i: nat, types: set<string>, keys: set<string>, keys': set<string>)
    requires i < |impls| && ImplsRegistered(impls, i, types, keys) && keys <= keys'
    requires impls[i].impls == [] || impls[i].forType in types
    requires forall n :: n in Registered(Some(impls[i].forType), impls[i].impls) ==> n in keys'
    ensures ImplsRegistered(impls, i + 1, types, keys')
  {
  }

  /** The inner loop of `genTemplates`: one method after the other. */
  method TemplateMethods(ms: seq<TemplateMethod>) returns (m: map<string, Ty>)
    ensures m == MethodTable(ms)
  {
    m := map[];
    var i := 0;
    while i < |ms|
      invariant 0 <= i <= |ms| && m == MethodTable(ms[..i])
    {
      assert ms[..i + 1][..i] == ms[..i];
      m := m[ms[i].name := ms[i].ret];
      i := i + 1;
    }
    assert ms[..|ms|] == ms;
  }

  class Generator {
    const mediator: I.IRMediator
    const pool: P.Pool
    /** `globalScope.entries` */
    var globals: map<string, GenEntry>
    /** `types`: the struct scope of every struct, by name. */
    var types: map<string, Scope<GenEntry>>
    /** `templates`: per template, its methods' return types. */
    var templates: map<string, map<string, Ty>>
    var thisEntry: Option<GenEntry>
    /** The fields of `State`. */
    var nextFreeAddress: int
    var currLine: int
    var currentFunction: I.Function?
    var currentStruct: I.Struct?
    ghost var log: seq<Emission>
    /** What the body of a function leaves alone: its method flag and its
        parameter table, as they were once the parameters were stored. */
    ghost var header: Header

    /** `generate` sets up a fresh `State`: a new mediator and the pool
        registered with it. */
    constructor ()
      ensures fresh(mediator) && fresh(pool) && mediator.Valid() && pool.Valid()
      ensures mediator.pool == pool && pool.entries == [] && mediator.functions == map[]
      ensures mediator.structs == map[] && mediator.entryPoint == 0
      ensures globals == map[] && types == map[] && templates == map[] && thisEntry.None?
      ensures nextFreeAddress == 0 && currLine == -1 && currentFunction == null && currentStruct == null
      ensures log == []
    {
      var m := new I.IRMediator();
      var p := new P.Pool();
      var reg := m.RegisterPool(p);
      mediator, pool := m, p;
      globals, types, templates, thisEntry := map[], map[], map[], None;
      nextFreeAddress, currLine, currentFunction, currentStruct := 0, -1, null, null;
      log := [];
      header := Header(false, map[], []);
    }

    /** The pool and the current function are in a consistent state. */
    ghost predicate Ready()
      reads this, pool, currentFunction
    {
      && pool.Valid() && currentFunction != null && currentFunction.Valid()
      && header == Header(currentFunction.isMethod, currentFunction.parameters, currentFunction.paramOrder)
    }

    /** `pool.entries[a]` exists and is `c`. */
    ghost predicate Holds(a: int, c: P.PoolConstant)
      reads this, pool
    {
      0 <= a < |pool.entries| && pool.entries[a] == c
    }

    /** `newLine(tree)` for a node at `loc` (`NoLoc` is a `null` location). */
    method NewLine(loc: Loc) returns (ghost mark: seq<I.Instruction>)
      requires Ready()
      modifies this`currLine, currentFunction
      ensures Ready() && IsMark(mark, loc)
      ensures mark == (if loc.Line? && loc.line > old(currLine) then [I.NewLineNumber(loc.line)] else [])
      ensures currentFunction.instructions == old(currentFunction.instructions) + mark
      ensures currLine == if loc.Line? && loc.line > old(currLine) then loc.line else old(currLine)
      ensures currentFunction.growths == old(currentFunction.growths)
    {
      mark := [];
      if loc.NoLoc? {
        return;
      }
      if loc.line > currLine {
        currentFunction.Append(I.NewLineNumber(loc.line));
        mark := [I.NewLineNumber(loc.line)];
      }
      currLine := if currLine >= loc.line then currLine else loc.line;
    }

    // ---- literals ----------------------------------------------------------

    /** `visitNullTree` */
    method GenNull() returns (r: Result<Option<Ty>>, ghost code: seq<I.Instruction>)
      requires Ready()
      modifies currentFunction
      ensures Ready() && r == Ok(Some(VoidType)) && code == [I.PushNull]
      ensures currentFunction.instructions == old(currentFunction.instructions) + code
      ensures currentFunction.growths == old(currentFunction.growths) + [1]
    {
      currentFunction.Append(I.PushNull);
      currentFunction.StackGrows(1);
      r, code := Ok(Some(VoidType)), [I.PushNull];
    }

    /** `visitIntegerTree`: a byte-sized value is pushed, any other one is
        loaded from its pool entry. */
    method GenInt(v: int) returns (r: Result<Option<Ty>>, ghost code: seq<I.Instruction>)
      requires Ready()
      modifies currentFunction, pool
      ensures Ready() && r == Ok(Some(IntType)) && old(pool.entries) <= pool.entries
      ensures currentFunction.instructions == old(currentFunction.instructions) + code
      ensures currentFunction.growths == old(currentFunction.growths) + [1]
      ensures IsByte(v) ==> code == [I.PushInt(v)] && pool.entries == old(pool.entries)
      ensures !IsByte(v) ==> pool.entries == P.Interned(old(pool.entries), P.IntegerConstant(v)).0
      ensures !IsByte(v) ==> code == [I.LoadConst(P.Interned(old(pool.entries), P.IntegerConstant(v)).1)]
    {
      var ins := I.PushInt(v);
      if !IsByte(v) {
        P.InternedSpec(pool.entries, P.IntegerConstant(v));
        var a := pool.PutInteger(v);
        ins := I.LoadConst(a);
      }
      currentFunction.Append(ins);
      code := [ins];
      currentFunction.StackGrows(1);
      r := Ok(Some(IntType));
    }

    /** `visitFloatTree` */
    method GenFloat(bits: int) returns (r: Result<Option<Ty>>, ghost code: seq<I.Instruction>)
      requires Ready()
      modifies currentFunction, pool
      ensures Ready() && r == Ok(Some(FloatType)) && old(pool.entries) <= pool.entries
      ensures currentFunction.instructions == old(currentFunction.instructions) + code
      ensures currentFunction.growths == old(currentFunction.growths) + [1]
      ensures pool.entries == P.Interned(old(pool.entries), P.FloatConstant(bits)).0
      ensures code == [I.LoadConst(P.Interned(old(pool.entries), P.FloatConstant(bits)).1)]
    {
      P.InternedSpec(pool.entries, P.FloatConstant(bits));
      var a := pool.PutFloat(bits);
      currentFunction.Append(I.LoadConst(a));
      currentFunction.StackGrows(1);
      r, code := Ok(Some(FloatType)), [I.LoadConst(a)];
    }

    /** `visitBooleanTree` */
    method GenBool(b: bool) returns (r: Result<Option<Ty>>, ghost code: seq<I.Instruction>)
      requires Ready()
      modifies currentFunction
      ensures Ready() && r == Ok(Some(BoolType)) && code == [I.PushBool(b)]
      ensures currentFunction.instructions == old(currentFunction.instructions) + code
      ensures currentFunction.growths == old(currentFunction.growths) + [1]
    {
      currentFunction.Append(I.PushBool(b));
      currentFunction.StackGrows(1);
      r, code := Ok(Some(BoolType)), [I.PushBool(b)];
    }

    /** `visitStringTree` */
    method GenString(s: string) returns (r: Result<Option<Ty>>, ghost code: seq<I.Instruction>)
      requires Ready()
      modifies currentFunction, pool
      ensures Ready() && r == Ok(Some(StrType)) && old(pool.entries) <= pool.entries
      ensures currentFunction.instructions == old(currentFunction.instructions) + code
      ensures currentFunction.growths == old(currentFunction.growths) + [1]
      ensures pool.entries == P.Interned(old(pool.entries), P.StringConstant(s)).0
      ensures code == [I.LoadConst(P.Interned(old(pool.entries), P.StringConstant(s)).1)]
    {
      P.InternedSpec(pool.entries, P.StringConstant(s));
      var a := pool.PutString(s);
      currentFunction.Append(I.LoadConst(a));
      currentFunction.StackGrows(1);
      r, code := Ok(Some(StrType)), [I.LoadConst(a)];
    }

    /** `visitVariableTree`: inside an implementation every variable reads
        slot 0, the receiver; elsewhere the finder's entry; an unknown name
        throws. */
    method GenVariable(name: string, scope: Scope<GenEntry>) returns (r: Result<Option<Ty>>, ghost code: seq<I.Instruction>)
      requires Ready()
      modifies currentFunction
      ensures Ready() && currentFunction.growths == old(currentFunction.growths) + [1]
      ensures thisEntry.Some? ==> r == Ok(thisEntry.value.ty) && code == [I.LoadLocal(0)]
      ensures thisEntry.None? && GenFind(scope, name).None? ==> r == Fail(NPE)
      ensures thisEntry.None? && GenFind(scope, name).Some? ==>
        r == Ok(GenFind(scope, name).value.ty) && code == [I.LoadLocal(GenFind(scope, name).value.address)]
      ensures r.Ok? ==> currentFunction.instructions == old(currentFunction.instructions) + code
      ensures r.Ok? ==> code[0].address in currentFunction.usedLocals
    {
      currentFunction.StackGrows(1);
      code := [];
      if thisEntry.Some? {
        currentFunction.UseLocal(0);
        currentFunction.Append(I.LoadLocal(0));
        return Ok(thisEntry.value.ty), [I.LoadLocal(0)];
      }
      var entry := GenFind(scope, name);
      if entry.None? {
        return Fail(NPE), [];
      }
      currentFunction.UseLocal(entry.value.address);
      currentFunction.Append(I.LoadLocal(entry.value.address));
      r, code := Ok(entry.value.ty), [I.LoadLocal(entry.value.address)];
    }

    /** The call instruction `genCall`, `callVirtual` and `callNative`
        append: an invoke of `argc` arguments whose pool entry names the
        callee. */
    ghost predicate Invokes(ins: I.Instruction, native: bool, name: string, argc: int)
      reads this, pool
    {
      if native then ins.InvokeNative? && ins.argc == argc && Holds(ins.address, P.NFunctionConstant(name))
      else ins.InvokeVirtual? && ins.argc == argc && Holds(ins.address, P.VFunctionConstant(name))
    }

    // ---- the dispatcher ----------------------------------------------------

    /** `scan(expression)`: generate one expression and log its code. A
        missing expression generates nothing and has type `null`. */
    method GenExpr(e: Expr, scope: Scope<GenEntry>) returns (r: Result<Option<Ty>>, ghost code: seq<I.Instruction>)
      requires Ready()
      modifies this`currLine, this`log, currentFunction, pool
      decreases e, 4
      ensures Ready() && old(log) <= log && old(pool.entries) <= pool.entries
      ensures r.Ok? ==> currentFunction.instructions == old(currentFunction.instructions) + code
      ensures r.Ok? ==> |log| > 0 && log[|log| - 1] == ExprCode(e, code, r.value)
      ensures e.MissingExpr? ==> r == Ok(None) && code == []
    {
      if e.MissingExpr? || IsLiteral(e) || e.Var? {
        r, code := GenLeaf(e, scope);
      } else if e.Not? || e.Negation? || e.NullCheck? || e.Cast? || e.ArrayLit? {
        r, code := GenUnary(e, scope);
      } else if e.FieldAccess? || e.ContainerAccess? || e.Assign? {
        r, code := GenAccess(e, scope);
      } else {
        r, code := GenCompound(e, scope);
      }
      if r.Ok? {
        log := log + [ExprCode(e, code, r.value)];
      }
    }


    /** The leaves of `scan`: literals, variables and a missing expression. */
    method GenLeaf(e: Expr, scope: Scope<GenEntry>) returns (r: Result<Option<Ty>>, ghost code: seq<I.Instruction>)
      requires (e.MissingExpr? || IsLiteral(e) || e.Var?) && Ready()
      modifies currentFunction, pool
      ensures Ready() && old(pool.entries) <= pool.entries
      ensures r.Ok? ==> currentFunction.instructions == old(currentFunction.instructions) + code
      ensures e.MissingExpr? ==> r == Ok(None) && code == []
    {
      match e {
        case MissingExpr => r, code := Ok(None), [];
        case NullLit(_) => r, code := GenNull();
        case IntLit(v, _) => r, code := GenInt(v);
        case FloatLit(bits, _) => r, code := GenFloat(bits);
        case StrLit(sv, _) => r, code := GenString(sv);
        case BoolLit(bv, _) => r, code := GenBool(bv);
        case Var(n, _) => r, code := GenVariable(n, scope);
      }
    }

    /** `scan` on the one-operand nodes and array literals. */
    method GenUnary(e: Expr, scope: Scope<GenEntry>) returns (r: Result<Option<Ty>>, ghost code: seq<I.Instruction>)
      requires (e.Not? || e.Negation? || e.NullCheck? || e.Cast? || e.ArrayLit?) && Ready()
      modifies this`currLine, this`log, currentFunction, pool
      decreases e, 3
      ensures Ready() && old(log) <= log && old(pool.entries) <= pool.entries
      ensures r.Ok? ==> currentFunction.instructions == old(currentFunction.instructions) + code
    {
      ghost var c0, c1: seq<I.Instruction>;
      ghost var t0: Option<Ty>;
      ghost var cs: seq<seq<I.Instruction>>;
      ghost var ts: seq<Option<Ty>>;
      match e {
        case Not(_, _) => r, code, c0 := GenNot(e, scope);
        case Negation(_, _) => r, code, c0, t0 := GenNegation(e, scope);
        case NullCheck(_, _) => r, code, c0, t0, c1 := GenNullCheck(e, scope);
        case Cast(_, _, _) => r, code, c0, t0, c1 := GenCast(e, scope);
        case ArrayLit(_, _) => r, code, cs, ts := GenArray(e, scope);
      }
    }

    /** `scan` on accesses and assignments. */
    method GenAccess(e: Expr, scope: Scope<GenEntry>) returns (r: Result<Option<Ty>>, ghost code: seq<I.Instruction>)
      requires (e.FieldAccess? || e.ContainerAccess? || e.Assign?) && Ready()
      modifies this`currLine, this`log, currentFunction, pool
      decreases e, 3
      ensures Ready() && old(log) <= log && old(pool.entries) <= pool.entries
      ensures r.Ok? ==> currentFunction.instructions == old(currentFunction.instructions) + code
    {
      ghost var c0, c1, c2: seq<I.Instruction>;
      ghost var t0: Option<Ty>;
      match e {
        case FieldAccess(_, _, _) => r, code, c0, t0 := GenFieldAccess(e, scope);
        case ContainerAccess(_, _, _) => r, code, c0, t0, c1 := GenContainerAccess(e, scope);
        case Assign(_, _, _) => r, code, c0, c1, t0, c2 := GenAssign(e, scope);
      }
    }

    /** `scan` on binary operations, calls and struct initialisations. */
    method GenCompound(e: Expr, scope: Scope<GenEntry>) returns (r: Result<Option<Ty>>, ghost code: seq<I.Instruction>)
      requires (e.BinOp? || e.GlobalCall? || e.MethodCall? || e.StructInit?) && Ready()
      modifies this`currLine, this`log, currentFunction, pool
      decreases e, 3
      ensures Ready() && old(log) <= log && old(pool.entries) <= pool.entries
      ensures r.Ok? ==> currentFunction.instructions == old(currentFunction.instructions) + code
    {
      ghost var c0, c1: seq<I.Instruction>;
      ghost var t0, t1: Option<Ty>;
      ghost var cs: seq<seq<I.Instruction>>;
      ghost var ts: seq<Option<Ty>>;
      match e {
        case BinOp(_, _, _, _) => r, code, c0, t0, c1, t1 := GenBinOp(e, scope);
        case GlobalCall(_, _, _) => r, code, cs, ts, c0 := GenCallGlobal(e, scope);
        case MethodCall(_, _, _, _) => r, code, cs, ts, c0, t0, c1 := GenCallMethod(e, scope);
        case StructInit(_, _, _) => r, code, cs, ts := GenStructInit(e, scope);
      }
    }

    // ---- operators ---------------------------------------------------------

    /** `visitNotTree`: the operand, then `Not`; the type is `bool`. */
    method GenNot(e: Expr, scope: Scope<GenEntry>) returns (r: Result<Option<Ty>>, ghost code: seq<I.Instruction>, ghost oc: seq<I.Instruction>)
      requires e.Not? && Ready()
      modifies this`currLine, this`log, currentFunction, pool
      decreases e, 2
      ensures Ready() && old(log) <= log && old(pool.entries) <= pool.entries
      ensures r.Ok? ==> currentFunction.instructions == old(currentFunction.instructions) + code
      ensures r.Ok? ==> r.value == Some(BoolType) && code == oc + [I.Not]
      ensures r.Ok? ==> exists t :: ExprCode(e.operand, oc, t) in log
    {
      var t;
      t, oc := GenExpr(e.operand, scope);
      if t.Fail? {
        return Fail(t.failure), [], [];
      }
      currentFunction.Append(I.Not);
      r, code := Ok(Some(BoolType)), oc + [I.Not];
    }

    /** `visitNegationTree`: the operand, then `Negate`; the operand's type. */
    method GenNegation(e: Expr, scope: Scope<GenEntry>) returns (r: Result<Option<Ty>>, ghost code: seq<I.Instruction>, ghost oc: seq<I.Instruction>, ghost ot: Option<Ty>)
      requires e.Negation? && Ready()
      modifies this`currLine, this`log, currentFunction, pool
      decreases e, 2
      ensures Ready() && old(log) <= log && old(pool.entries) <= pool.entries
      ensures r.Ok? ==> currentFunction.instructions == old(currentFunction.instructions) + code
      ensures r.Ok? ==> ExprCode(e.operand, oc, ot) in log && r.value == ot && code == oc + [I.Negate]
    {
      var t;
      t, oc := GenExpr(e.operand, scope);
      if t.Fail? {
        return Fail(t.failure), [], [], None;
      }
      ot := t.value;
      currentFunction.Append(I.Negate);
      r, code := t, oc + [I.Negate];
    }

    /** `visitNullCheckTree`: the operand, a line marker, then `NullCheck`. */
    method GenNullCheck(e: Expr, scope: Scope<GenEntry>)
      returns (r: Result<Option<Ty>>, ghost code: seq<I.Instruction>, ghost oc: seq<I.Instruction>, ghost ot: Option<Ty>, ghost mk: seq<I.Instruction>)
      requires e.NullCheck? && Ready()
      modifies this`currLine, this`log, currentFunction, pool
      decreases e, 2
      ensures Ready() && old(log) <= log && old(pool.entries) <= pool.entries
      ensures r.Ok? ==> currentFunction.instructions == old(currentFunction.instructions) + code
      ensures r.Ok? ==> ExprCode(e.operand, oc, ot) in log && r.value == ot
      ensures r.Ok? ==> code == oc + mk + [I.NullCheck] && IsMark(mk, e.loc)
    {
      var t;
      t, oc := GenExpr(e.operand, scope);
      if t.Fail? {
        return Fail(t.failure), [], [], None, [];
      }
      ot := t.value;
      mk := NewLine(e.loc);
      currentFunction.Append(I.NullCheck);
      r, code := t, oc + mk + [I.NullCheck];
    }

    /** `visitCastTree`: between `int` and `float` a conversion (or nothing
        for the same type); any other cast is a line marker and a
        `CheckCast` against the pool entry of the target's name. The
        operand's type must not be `null`. */
    method GenCast(e: Expr, scope: Scope<GenEntry>)
      returns (r: Result<Option<Ty>>, ghost code: seq<I.Instruction>, ghost oc: seq<I.Instruction>, ghost ot: Option<Ty>, ghost tail: seq<I.Instruction>)
      requires e.Cast? && Ready()
      modifies this`currLine, this`log, currentFunction, pool
      decreases e, 2
      ensures Ready() && old(log) <= log && old(pool.entries) <= pool.entries
      ensures r.Ok? ==> currentFunction.instructions == old(currentFunction.instructions) + code
      ensures r.Ok? ==> ExprCode(e.operand, oc, ot) in log && ot.Some? && r.value == Some(e.castType) && code == oc + tail
      ensures r.Ok? && NumericCast(Name(ot.value), Name(e.castType)).Some? ==>
        tail == NumericCast(Name(ot.value), Name(e.castType)).value
      ensures r.Ok? && NumericCast(Name(ot.value), Name(e.castType)).None? ==>
        IsCheckedCast(tail, e.castType, e.loc)
    {
      var t;
      t, oc := GenExpr(e.operand, scope);
      if t.Fail? || t.value.None? {
        return (if t.Fail? then Fail(t.failure) else Fail(NPE)), [], [], None, [];
      }
      ot := t.value;
      tail := EmitCast(t.value.value, e.castType, e.loc);
      r, code := Ok(Some(e.castType)), oc + tail;
    }

    /** A line marker for `loc`, then a `CheckCast` whose pool entry is the
        struct constant of `to`'s name. */
    ghost predicate IsCheckedCast(tail: seq<I.Instruction>, to: Ty, loc: Loc)
      reads this, pool
    {
      |tail| > 0 && IsMark(tail[..|tail| - 1], loc) && tail[|tail| - 1].CheckCast?
      && Holds(tail[|tail| - 1].address, P.StructConstant(Name(to)))
    }

    /** The part of `visitCastTree` after the operand. */
    method EmitCast(from: Ty, to: Ty, loc: Loc) returns (ghost tail: seq<I.Instruction>)
      requires Ready()
      modifies this`currLine, currentFunction, pool
      ensures Ready() && old(pool.entries) <= pool.entries
      ensures currentFunction.instructions == old(currentFunction.instructions) + tail
      ensures NumericCast(Name(from), Name(to)).Some? ==> tail == NumericCast(Name(from), Name(to)).value
      ensures NumericCast(Name(from), Name(to)).None? ==> IsCheckedCast(tail, to, loc)
    {
      var conv := NumericCast(Name(from), Name(to));
      if conv.Some? {
        if conv.value != [] {
          currentFunction.Append(conv.value[0]);
        }
        return conv.value;
      }
      tail := EmitCheckCast(to, loc);
    }

    /** A cast that is not numeric: a line marker and a `CheckCast` naming
        the target type's struct constant. */
    method EmitCheckCast(to: Ty, loc: Loc) returns (ghost tail: seq<I.Instruction>)
      requires Ready()
      modifies this`currLine, currentFunction, pool
      ensures Ready() && old(pool.entries) <= pool.entries
      ensures currentFunction.instructions == old(currentFunction.instructions) + tail
      ensures IsCheckedCast(tail, to, loc)
    {
      var mk := NewLine(loc);
      P.InternedSpec(pool.entries, P.StructConstant(Name(to)));
      var a := pool.PutStruct(Name(to));
      currentFunction.Append(I.CheckCast(a));
      tail := mk + [I.CheckCast(a)];
      assert tail[..|tail| - 1] == mk;
    }

    /** `scan(list)` over expressions: each one in order; the type of the
        last one, or `null` for none. */
    method GenList(owner: Expr, es: seq<Expr>, scope: Scope<GenEntry>)
      returns (r: Result<Option<Ty>>, ghost cs: seq<seq<I.Instruction>>, ghost ts: seq<Option<Ty>>)
      requires Ready() && forall x :: x in es ==> x < owner
      modifies this`currLine, this`log, currentFunction, pool
      decreases owner, 0
      ensures Ready() && old(log) <= log && old(pool.entries) <= pool.entries
      ensures r.Ok? ==> currentFunction.instructions == old(currentFunction.instructions) + Flatten(cs)
      ensures r.Ok? ==> |cs| == |es| && |ts| == |es| && r.value == (if es == [] then None else ts[|es| - 1])
      ensures r.Ok? ==> forall i :: 0 <= i < |es| ==> ExprCode(es[i], cs[i], ts[i]) in log
    {
      cs, ts := [], [];
      var last := None;
      var i := 0;
      while i < |es|
        invariant 0 <= i <= |es| && |cs| == i && |ts| == i && Ready()
        invariant old(log) <= log && old(pool.entries) <= pool.entries
        invariant currentFunction.instructions == old(currentFunction.instructions) + Flatten(cs)
        invariant last == if i == 0 then None else ts[i - 1]
        invariant forall j :: 0 <= j < i ==> ExprCode(es[j], cs[j], ts[j]) in log
      {
        assert es[i] in es;
        ghost var log0 := log;
        var t, c := GenExpr(es[i], scope);
        if t.Fail? {
          return Fail(t.failure), [], [];
        }
        forall j | 0 <= j < i ensures ExprCode(es[j], cs[j], ts[j]) in log {
          PrefixKeeps(log0, log, ExprCode(es[j], cs[j], ts[j]));
        }
        assert (cs + [c])[..i] == cs;
        cs, ts, last := cs + [c], ts + [t.value], t.value;
        i := i + 1;
      }
      r := Ok(last);
    }

    /** `visitArrayTree`: the elements in order, then `MakeArray` of their
        number, which pops them; the type is an array of the last element's
        type. */
    method GenArray(e: Expr, scope: Scope<GenEntry>)
      returns (r: Result<Option<Ty>>, ghost code: seq<I.Instruction>, ghost cs: seq<seq<I.Instruction>>, ghost ts: seq<Option<Ty>>)
      requires e.ArrayLit? && Ready()
      modifies this`currLine, this`log, currentFunction, pool
      decreases e, 2
      ensures Ready() && old(log) <= log && old(pool.entries) <= pool.entries
      ensures r.Ok? ==> currentFunction.instructions == old(currentFunction.instructions) + code
      ensures r.Ok? ==> |cs| == |e.content| && |ts| == |e.content| && code == Flatten(cs) + [I.MakeArray(|e.content|)]
      ensures r.Ok? ==> forall i :: 0 <= i < |e.content| ==> ExprCode(e.content[i], cs[i], ts[i]) in log
      ensures r.Ok? ==> r.value == Some(ArrayOf(if e.content == [] then None else ts[|e.content| - 1]))
      ensures r.Ok? ==> |currentFunction.growths| > 0 && currentFunction.growths[|currentFunction.growths| - 1] == -|e.content|
    {
      var t;
      t, cs, ts := GenList(e, e.content, scope);
      if t.Fail? {
        return Fail(t.failure), [], [], [];
      }
      currentFunction.Append(I.MakeArray(|e.content|));
      ghost var g0 := currentFunction.growths;
      currentFunction.StackGrows(-|e.content|);
      assert currentFunction.growths == g0 + [-|e.content|];
      r, code := Ok(Some(ArrayOf(t.value))), Flatten(cs) + [I.MakeArray(|e.content|)];
    }

    /** `visitFieldAccessTree`: the operand, then `GetField` of the field's
        address in the operand type's struct scope; a missing struct or
        field throws. */
    method GenFieldAccess(e: Expr, scope: Scope<GenEntry>)
      returns (r: Result<Option<Ty>>, ghost code: seq<I.Instruction>, ghost oc: seq<I.Instruction>, ghost ot: Option<Ty>)
      requires e.FieldAccess? && Ready()
      modifies this`currLine, this`log, currentFunction, pool
      decreases e, 2
      ensures Ready() && old(log) <= log && old(pool.entries) <= pool.entries
      ensures r.Ok? ==> currentFunction.instructions == old(currentFunction.instructions) + code
      ensures r.Ok? ==> (ExprCode(e.operand, oc, ot) in log && ot.Some? && Name(ot.value) in types
        && e.field in types[Name(ot.value)].entries)
      ensures r.Ok? ==> code == oc + [I.GetField(types[Name(ot.value)].entries[e.field].address)]
      ensures r.Ok? ==> r.value == types[Name(ot.value)].entries[e.field].ty
      ensures r.Ok? ==> |currentFunction.growths| > 0 && currentFunction.growths[|currentFunction.growths| - 1] == 1
    {
      var t;
      t, oc := GenExpr(e.operand, scope);
      if t.Fail? {
        return Fail(t.failure), [], [], None;
      }
      ot := t.value;
      if t.value.None? || Name(t.value.value) !in types || e.field !in types[Name(t.value.value)].entries {
        return Fail(NPE), [], [], None;
      }
      var entry := types[Name(t.value.value)].entries[e.field];
      currentFunction.Append(I.GetField(entry.address));
      ghost var g0 := currentFunction.growths;
      currentFunction.StackGrows(1);
      assert currentFunction.growths == g0 + [1];
      r, code := Ok(entry.ty), oc + [I.GetField(entry.address)];
    }

    /** `visitContainerAccessTree`: the operand, a line marker, then
        `ReadArray` of the key, which must be an integer literal (other keys
        throw `ClassCastException`; the key is not generated); the type is
        the operand type's first generic. */
    method GenContainerAccess(e: Expr, scope: Scope<GenEntry>)
      returns (r: Result<Option<Ty>>, ghost code: seq<I.Instruction>, ghost oc: seq<I.Instruction>, ghost ot: Option<Ty>, ghost mk: seq<I.Instruction>)
      requires e.ContainerAccess? && Ready()
      modifies this`currLine, this`log, currentFunction, pool
      decreases e, 2
      ensures Ready() && old(log) <= log && old(pool.entries) <= pool.entries
      ensures r.Ok? ==> currentFunction.instructions == old(currentFunction.instructions) + code
      ensures !e.key.IntLit? ==> r.Fail?
      ensures r.Ok? ==> (e.key.IntLit? && ExprCode(e.operand, oc, ot) in log && IsMark(mk, e.loc)
        && code == oc + mk + [I.ReadArray(e.key.ival)])
      ensures r.Ok? ==> (ot.Some? && Generics(ot.value).Ok? && |Generics(ot.value).value| > 0
        && r.value == Some(Generics(ot.value).value[0]))
    {
      var t;
      t, oc := GenExpr(e.operand, scope);
      if t.Fail? {
        return Fail(t.failure), [], [], None, [];
      }
      ot := t.value;
      mk := NewLine(e.loc);
      if !e.key.IntLit? {
        return Fail(CCE), [], [], None, [];
      }
      currentFunction.Append(I.ReadArray(e.key.ival));
      currentFunction.StackGrows(1);
      code := oc + mk + [I.ReadArray(e.key.ival)];
      if t.value.None? {
        return Fail(NPE), [], [], None, [];
      }
      var gs := Generics(t.value.value);
      if gs.Fail? {
        return Fail(gs.failure), [], [], None, [];
      }
      if gs.value == [] {
        return Fail(IOOBE), [], [], None, [];
      }
      r := Ok(Some(gs.value[0]));
    }

    /** `visitAssignTree`: the right operand, then the store the left operand
        calls for (`genWriteLocal`, `genContainerWrite`, `genWriteField`).
        Any other target throws `AssertionError`. */
    method GenAssign(e: Expr, scope: Scope<GenEntry>)
      returns (r: Result<Option<Ty>>, ghost code: seq<I.Instruction>, ghost rc: seq<I.Instruction>,
               ghost oc: seq<I.Instruction>, ghost ot: Option<Ty>, ghost tail: seq<I.Instruction>)
      requires e.Assign? && Ready()
      modifies this`currLine, this`log, currentFunction, pool
      decreases e, 2
      ensures Ready() && old(log) <= log && old(pool.entries) <= pool.entries
      ensures r.Ok? ==> currentFunction.instructions == old(currentFunction.instructions) + code
      ensures !(e.left.Var? || e.left.ContainerAccess? || e.left.FieldAccess?) ==> r.Fail?
      ensures r.Ok? ==> code == rc + tail && exists t :: ExprCode(e.right, rc, t) in log
      ensures r.Ok? && e.left.Var? ==> (GenFind(scope, e.left.name).Some?
        && tail == [I.StoreLocal(GenFind(scope, e.left.name).value.address)]
        && r.value == GenFind(scope, e.left.name).value.ty)
      ensures r.Ok? && e.left.ContainerAccess? ==> (e.left.key.IntLit? && ExprCode(e.left.operand, oc, ot) in log
        && IsArrayWrite(tail, oc, e.left.key.ival, e.left.loc)
        && ot.Some? && Generics(ot.value).Ok? && |Generics(ot.value).value| > 0
        && r.value == Some(Generics(ot.value).value[0]))
      ensures r.Ok? && e.left.FieldAccess? ==> (ExprCode(e.left.operand, oc, ot) in log
        && ot.Some? && Name(ot.value) in types && e.left.field in types[Name(ot.value)].entries
        && tail == oc + [I.PutField(types[Name(ot.value)].entries[e.left.field].address)]
        && r.value == types[Name(ot.value)].entries[e.left.field].ty)
    {
      oc, ot, tail := [], None, [];
      var t;
      t, rc := GenExpr(e.right, scope);
      if t.Fail? {
        return Fail(t.failure), [], [], [], None, [];
      }
      ghost var rlog := log;
      currentFunction.StackGrows(-1);
      if e.left.Var? {
        r, tail := WriteLocal(e.left.name, scope);
      } else if e.left.ContainerAccess? {
        r, tail, oc, ot := ContainerWrite(e, scope);
      } else if e.left.FieldAccess? {
        r, tail, oc, ot := WriteField(e, scope);
      } else {
        return Fail(AE), [], [], [], None, [];
      }
      PrefixKeeps(rlog, log, ExprCode(e.right, rc, t.value));
      code := rc + tail;
      AppendAssoc(old(currentFunction.instructions), rc, tail);
    }

    /** `genWriteLocal`: `StoreLocal` of the finder's entry, which must
        exist. */
    method WriteLocal(name: string, scope: Scope<GenEntry>) returns (r: Result<Option<Ty>>, ghost tail: seq<I.Instruction>)
      requires Ready()
      modifies currentFunction
      ensures Ready()
      ensures GenFind(scope, name).None? ==> r == Fail(NPE)
      ensures GenFind(scope, name).Some? ==> (r == Ok(GenFind(scope, name).value.ty)
        && tail == [I.StoreLocal(GenFind(scope, name).value.address)]
        && currentFunction.instructions == old(currentFunction.instructions) + tail
        && GenFind(scope, name).value.address in currentFunction.usedLocals)
    {
      var entry := GenFind(scope, name);
      if entry.None? {
        return Fail(NPE), [];
      }
      currentFunction.UseLocal(entry.value.address);
      currentFunction.Append(I.StoreLocal(entry.value.address));
      r, tail := Ok(entry.value.ty), [I.StoreLocal(entry.value.address)];
    }

    /** The container's code `oc`, a line marker for `loc`, and
        `WriteArray(key)`. */
    ghost predicate IsArrayWrite(tail: seq<I.Instruction>, oc: seq<I.Instruction>, key: int, loc: Loc) {
      |tail| > |oc| && tail[..|oc|] == oc && IsMark(tail[|oc|..|tail| - 1], loc) && tail[|tail| - 1] == I.WriteArray(key)
    }

    /** `genContainerWrite`: the container, a line marker, `WriteArray` of
        the integer-literal key, which pops the container. */
    method ContainerWrite(e: Expr, scope: Scope<GenEntry>)
      returns (r: Result<Option<Ty>>, ghost tail: seq<I.Instruction>, ghost oc: seq<I.Instruction>, ghost ot: Option<Ty>)
      requires e.Assign? && e.left.ContainerAccess? && Ready()
      modifies this`currLine, this`log, currentFunction, pool
      decreases e, 1
      ensures Ready() && old(log) <= log && old(pool.entries) <= pool.entries
      ensures !e.left.key.IntLit? ==> r.Fail?
      ensures r.Ok? ==> (e.left.key.IntLit? && ExprCode(e.left.operand, oc, ot) in log
        && currentFunction.instructions == old(currentFunction.instructions) + tail
        && IsArrayWrite(tail, oc, e.left.key.ival, e.left.loc))
      ensures r.Ok? ==> (ot.Some? && Generics(ot.value).Ok? && |Generics(ot.value).value| > 0
        && r.value == Some(Generics(ot.value).value[0]))
      ensures r.Ok? ==> |currentFunction.growths| > 0 && currentFunction.growths[|currentFunction.growths| - 1] == -1
    {
      var t;
      t, oc := GenExpr(e.left.operand, scope);
      if t.Fail? {
        return Fail(t.failure), [], [], None;
      }
      ot := t.value;
      ghost var i0 := currentFunction.instructions;
      var written, mk := WriteArrayAt(e.left.loc, e.left.key);
      if !written {
        return Fail(CCE), [], [], None;
      }
      tail := oc + mk + [I.WriteArray(e.left.key.ival)];
      assert tail[..|oc|] == oc && tail[|oc|..|tail| - 1] == mk;
      assert currentFunction.instructions == old(currentFunction.instructions) + tail by {
        assert currentFunction.instructions == i0 + (mk + [I.WriteArray(e.left.key.ival)]);
      }
      if t.value.None? {
        return Fail(NPE), [], [], None;
      }
      var gs := Generics(t.value.value);
      if gs.Fail? || gs.value == [] {
        return (if gs.Fail? then Fail(gs.failure) else Fail(IOOBE)), [], [], None;
      }
      r := Ok(Some(gs.value[0]));
    }

    /** The part of `genContainerWrite` after the container: a line marker,
        then, for an integer-literal key only, `WriteArray`, which pops the
        container. */
    method WriteArrayAt(loc: Loc, key: Expr) returns (written: bool, ghost mk: seq<I.Instruction>)
      requires Ready()
      modifies this`currLine, currentFunction
      ensures Ready() && IsMark(mk, loc) && written == key.IntLit?
      ensures written ==> currentFunction.instructions == old(currentFunction.instructions) + mk + [I.WriteArray(key.ival)]
      ensures written ==> currentFunction.growths == old(currentFunction.growths) + [-1]
    {
      mk := NewLine(loc);
      if !key.IntLit? {
        return false, mk;
      }
      currentFunction.Append(I.WriteArray(key.ival));
      currentFunction.StackGrows(-1);
      written := true;
    }

    /** `genWriteField`: the object, then `PutField` of the field's address
        in the object type's struct scope, which pops the object. */
    method WriteField(e: Expr, scope: Scope<GenEntry>)
      returns (r: Result<Option<Ty>>, ghost tail: seq<I.Instruction>, ghost oc: seq<I.Instruction>, ghost ot: Option<Ty>)
      requires e.Assign? && e.left.FieldAccess? && Ready()
      modifies this`currLine, this`log, currentFunction, pool
      decreases e, 1
      ensures Ready() && old(log) <= log && old(pool.entries) <= pool.entries
      ensures r.Ok? ==> (ExprCode(e.left.operand, oc, ot) in log
        && ot.Some? && Name(ot.value) in types && e.left.field in types[Name(ot.value)].entries
        && tail == oc + [I.PutField(types[Name(ot.value)].entries[e.left.field].address)]
        && currentFunction.instructions == old(currentFunction.instructions) + tail
        && r.value == types[Name(ot.value)].entries[e.left.field].ty)
      ensures r.Ok? ==> |currentFunction.growths| > 0 && currentFunction.growths[|currentFunction.growths| - 1] == -1
    {
      var t;
      t, oc := GenExpr(e.left.operand, scope);
      if t.Fail? {
        return Fail(t.failure), [], [], None;
      }
      ot := t.value;
      if t.value.None? || Name(t.value.value) !in types || e.left.field !in types[Name(t.value.value)].entries {
        return Fail(NPE), [], [], None;
      }
      var entry := types[Name(t.value.value)].entries[e.left.field];
      currentFunction.Append(I.PutField(entry.address));
      ghost var g0 := currentFunction.growths;
      currentFunction.StackGrows(-1);
      assert currentFunction.growths == g0 + [-1];
      r, tail := Ok(entry.ty), oc + [I.PutField(entry.address)];
    }

    /** `visitBinaryOperationTree`: both operands, a conversion of an `int`
        operand that meets a `float` one under `+ - *`, then
        `BinaryOperation` named after the result type. A `null` operand type
        throws. The left operand's conversion is inserted one position after
        the stream size seen before the left operand, that is after the
        first instruction of the operands' code, as `BinOpCodeAsWritten`
        states; when the operands generated nothing the insertion throws. */
    method GenBinOp(e: Expr, scope: Scope<GenEntry>)
      returns (r: Result<Option<Ty>>, ghost code: seq<I.Instruction>, ghost lc: seq<I.Instruction>, ghost lt: Option<Ty>,
               ghost rc: seq<I.Instruction>, ghost rt: Option<Ty>)
      requires e.BinOp? && Ready()
      modifies this`currLine, this`log, currentFunction, pool
      decreases e, 2
      ensures Ready() && old(log) <= log && old(pool.entries) <= pool.entries
      ensures r.Ok? ==> currentFunction.instructions == old(currentFunction.instructions) + code
      ensures r.Ok? ==> ExprCode(e.left, lc, lt) in log && ExprCode(e.right, rc, rt) in log
      ensures r.Ok? ==> (ImplicitCast(lt, rt, e.op).Ok? && ImplicitCast(rt, lt, e.op).Ok?
        && ResultType(lt, rt, e.op).Ok? && r.value == Some(ResultType(lt, rt, e.op).value))
      ensures r.Ok? ==>
        var written := BinOpCodeAsWritten(lc, rc, ImplicitCast(lt, rt, e.op).value, ImplicitCast(rt, lt, e.op).value,
                                          e.op, ResultType(lt, rt, e.op).value);
        written.Ok? && code == written.value
    {
      var a, b, start;
      a, b, lc, rc, start := GenOperands(e, scope);
      lt, rt := None, None;
      if a.Fail? {
        return Fail(a.failure), [], [], None, [], None;
      }
      lt, rt := a.value, b;
      ghost var before := currentFunction.instructions;
      var res := EmitOperation(a.value, b, e.op, start + 1);
      if res.Fail? {
        return Fail(res.failure), [], [], None, [], None;
      }
      AsWrittenSplit(old(currentFunction.instructions), lc, rc, ImplicitCast(lt, rt, e.op).value,
                     ImplicitCast(rt, lt, e.op).value, e.op, res.value);
      r := Ok(Some(res.value));
      code := BinOpCodeAsWritten(lc, rc, ImplicitCast(lt, rt, e.op).value, ImplicitCast(rt, lt, e.op).value, e.op,
                                 res.value).value;
    }

    /** Both operands of `visitBinaryOperationTree`, left then right;
        `start` is the stream size before the left operand
        (`maybeCastIndex`). */
    method GenOperands(e: Expr, scope: Scope<GenEntry>)
      returns (lt: Result<Option<Ty>>, rt: Option<Ty>, ghost lc: seq<I.Instruction>, ghost rc: seq<I.Instruction>, start: nat)
      requires e.BinOp? && Ready()
      modifies this`currLine, this`log, currentFunction, pool
      decreases e, 1
      ensures Ready() && old(log) <= log && old(pool.entries) <= pool.entries
      ensures start == |old(currentFunction.instructions)|
      ensures lt.Ok? ==> currentFunction.instructions == old(currentFunction.instructions) + lc + rc
      ensures lt.Ok? ==> ExprCode(e.left, lc, lt.value) in log && ExprCode(e.right, rc, rt) in log
    {
      rc, rt := [], None;
      start := currentFunction.StreamSize();
      lt, lc := GenExpr(e.left, scope);
      if lt.Fail? {
        return;
      }
      ghost var llog := log;
      var b;
      b, rc := GenExpr(e.right, scope);
      if b.Fail? {
        return Fail(b.failure), None, [], [], start;
      }
      rt := b.value;
      PrefixKeeps(llog, log, ExprCode(e.left, lc, lt.value));
    }

    /** The part of `visitBinaryOperationTree` after both operands: the
        left conversion inserted at `at` (which throws past the end of the
        stream), the right conversion, then the operation. */
    method EmitOperation(lt: Option<Ty>, rt: Option<Ty>, op: Operation, at: nat) returns (r: Result<Ty>)
      requires Ready()
      modifies currentFunction
      ensures Ready()
      ensures r.Ok? <==> (ImplicitCast(lt, rt, op).Ok? && (ImplicitCast(lt, rt, op).value ==> at <= |old(currentFunction.instructions)|)
        && ImplicitCast(rt, lt, op).Ok? && ResultType(lt, rt, op).Ok?)
      ensures ImplicitCast(lt, rt, op) == Ok(true) && at > |old(currentFunction.instructions)| ==> r == Fail(IOOBE)
      ensures r.Ok? ==> (r.value == ResultType(lt, rt, op).value && currentFunction.instructions ==
        (if ImplicitCast(lt, rt, op).value
         then old(currentFunction.instructions)[..at] + [I.Int2Float] + old(currentFunction.instructions)[at..]
         else old(currentFunction.instructions))
        + (if ImplicitCast(rt, lt, op).value then [I.Int2Float] else [])
        + [I.BinaryOperation(op, Name(r.value))])
    {
      var castLeft := ImplicitCast(lt, rt, op);
      if castLeft.Fail? {
        return Fail(castLeft.failure);
      }
      if castLeft.value {
        if at > currentFunction.StreamSize() {
          return Fail(IOOBE);
        }
        currentFunction.Insert(at, I.Int2Float);
      }
      r := EmitRightAndOperation(lt, rt, op);
    }

    /** The end of `visitBinaryOperationTree`: the right operand's
        conversion, then the operation named after the result type. */
    method EmitRightAndOperation(lt: Option<Ty>, rt: Option<Ty>, op: Operation) returns (r: Result<Ty>)
      requires Ready()
      modifies currentFunction
      ensures Ready()
      ensures r.Ok? <==> (ImplicitCast(rt, lt, op).Ok? && ResultType(lt, rt, op).Ok?)
      ensures r.Ok? ==> (r.value == ResultType(lt, rt, op).value && currentFunction.instructions ==
        old(currentFunction.instructions) + (if ImplicitCast(rt, lt, op).value then [I.Int2Float] else [])
        + [I.BinaryOperation(op, Name(r.value))])
    {
      var castRight := ImplicitCast(rt, lt, op);
      if castRight.Fail? {
        return Fail(castRight.failure);
      }
      ghost var s0 := currentFunction.instructions;
      if castRight.value {
        currentFunction.Append(I.Int2Float);
      }
      var res := ResultType(lt, rt, op);
      if res.Fail? {
        return Fail(res.failure);
      }
      currentFunction.Append(I.BinaryOperation(op, Name(res.value)));
      r := Ok(res.value);
    }

    /** `callVirtual(name, argc)` */
    method CallVirtual(name: string, argc: int) returns (ghost ins: I.Instruction)
      requires Ready()
      modifies currentFunction, pool
      ensures Ready() && old(pool.entries) <= pool.entries && Invokes(ins, false, name, argc)
      ensures currentFunction.instructions == old(currentFunction.instructions) + [ins]
      ensures currentFunction.growths == old(currentFunction.growths)
    {
      P.InternedSpec(pool.entries, P.VFunctionConstant(name));
      var a := pool.PutVirtual(name);
      currentFunction.Append(I.InvokeVirtual(a, argc));
      ins := I.InvokeVirtual(a, argc);
    }

    /** `callNative(name, argc)` */
    method CallNative(name: string, argc: int) returns (ghost ins: I.Instruction)
      requires Ready()
      modifies currentFunction, pool
      ensures Ready() && old(pool.entries) <= pool.entries && Invokes(ins, true, name, argc)
      ensures currentFunction.instructions == old(currentFunction.instructions) + [ins]
      ensures currentFunction.growths == old(currentFunction.growths)
    {
      P.InternedSpec(pool.entries, P.NFunctionConstant(name));
      var a := pool.PutNative(name);
      currentFunction.Append(I.InvokeNative(a, argc));
      ins := I.InvokeNative(a, argc);
    }

    /** `genCall(name, argc)`: the global entry decides between a native and
        a virtual invoke; the arguments are popped. An unknown name throws. */
    method GenCall(name: string, argc: int) returns (r: Result<Option<Ty>>, ghost ins: I.Instruction)
      requires Ready()
      modifies currentFunction, pool
      ensures Ready() && old(pool.entries) <= pool.entries
      ensures name !in globals ==> r == Fail(NPE)
      ensures name in globals && globals[name].kind != NATIVE_FUNCTION && globals[name].kind != VIRTUAL_FUNCTION ==> r == Fail(AE)
      ensures r.Ok? ==> (name in globals && r.value == globals[name].ty
        && Invokes(ins, globals[name].kind == NATIVE_FUNCTION, name, argc)
        && currentFunction.instructions == old(currentFunction.instructions) + [ins]
        && currentFunction.growths == old(currentFunction.growths) + [-argc])
    {
      ins := I.Pop;
      if name !in globals {
        return Fail(NPE), ins;
      }
      var entry := globals[name];
      match entry.kind {
        case NATIVE_FUNCTION => ins := CallNative(name, argc);
        case VIRTUAL_FUNCTION => ins := CallVirtual(name, argc);
        case _ => return Fail(AE), ins;
      }
      currentFunction.StackGrows(-argc);
      r := Ok(entry.ty);
    }

    /** `genArguments(args, scope)`: the arguments from the last to the
        first. */
    method GenArguments(owner: Expr, args: seq<Expr>, scope: Scope<GenEntry>)
      returns (r: Result<()>, ghost cs: seq<seq<I.Instruction>>, ghost ts: seq<Option<Ty>>)
      requires Ready() && forall x :: x in args ==> x < owner
      modifies this`currLine, this`log, currentFunction, pool
      decreases owner, 0
      ensures Ready() && old(log) <= log && old(pool.entries) <= pool.entries
      ensures r.Ok? ==> currentFunction.instructions == old(currentFunction.instructions) + Flatten(Reverse(cs))
      ensures r.Ok? ==> |cs| == |args| && |ts| == |args|
      ensures r.Ok? ==> forall i :: 0 <= i < |args| ==> ExprCode(args[i], cs[i], ts[i]) in log
    {
      cs, ts := [], [];
      var i := |args|;
      while i > 0
        invariant 0 <= i <= |args| && |cs| == |args| - i && |ts| == |cs| && Ready()
        invariant old(log) <= log && old(pool.entries) <= pool.entries
        invariant currentFunction.instructions == old(currentFunction.instructions) + Flatten(Reverse(cs))
        invariant forall j :: 0 <= j < |cs| ==> ExprCode(args[i + j], cs[j], ts[j]) in log
      {
        i := i - 1;
        assert args[i] in args;
        ghost var log0 := log;
        var t, c := GenExpr(args[i], scope);
        if t.Fail? {
          return Fail(t.failure), [], [];
        }
        forall j | 0 <= j < |cs| ensures ExprCode(args[i + 1 + j], cs[j], ts[j]) in log {
          PrefixKeeps(log0, log, ExprCode(args[i + 1 + j], cs[j], ts[j]));
        }
        assert ([c] + cs)[1..] == cs;
        assert (Reverse(cs) + [c])[..|cs|] == Reverse(cs);
        cs, ts := [c] + cs, [t.value] + ts;
      }
      r := Ok(());
    }

    /** `visitCallGlobalTree`: the arguments last to first, a line marker,
        then the invoke `genCall` chooses. */
    method GenCallGlobal(e: Expr, scope: Scope<GenEntry>)
      returns (r: Result<Option<Ty>>, ghost code: seq<I.Instruction>, ghost cs: seq<seq<I.Instruction>>,
               ghost ts: seq<Option<Ty>>, ghost mk: seq<I.Instruction>)
      requires e.GlobalCall? && Ready()
      modifies this`currLine, this`log, currentFunction, pool
      decreases e, 2
      ensures Ready() && old(log) <= log && old(pool.entries) <= pool.entries
      ensures r.Ok? ==> currentFunction.instructions == old(currentFunction.instructions) + code
      ensures e.name !in globals ==> r.Fail?
      ensures r.Ok? ==> |cs| == |e.args| && |ts| == |e.args|
      ensures r.Ok? ==> forall i :: 0 <= i < |e.args| ==> ExprCode(e.args[i], cs[i], ts[i]) in log
      ensures r.Ok? ==> e.name in globals && r.value == globals[e.name].ty
      ensures r.Ok? ==> (|code| > 0 && code[..|code| - 1] == Flatten(Reverse(cs)) + mk && IsMark(mk, e.loc)
        && Invokes(code[|code| - 1], globals[e.name].kind == NATIVE_FUNCTION, e.name, |e.args|))
      ensures r.Ok? ==> |currentFunction.growths| > 0 && currentFunction.growths[|currentFunction.growths| - 1] == -|e.args|
    {
      var a;
      a, cs, ts := GenArguments(e, e.args, scope);
      mk := [];
      if a.Fail? {
        return Fail(a.failure), [], [], [], [];
      }
      mk := NewLine(e.loc);
      ghost var ins;
      r, ins := GenCall(e.name, |e.args|);
      code := Flatten(Reverse(cs)) + mk + [ins];
      assert code[..|code| - 1] == Flatten(Reverse(cs)) + mk;
    }

    /** `visitCallMethodTree`: the arguments last to first, then the
        operand, then the invoke (`InvokeTemplateMethod` on a template type,
        `InvokeStructMethod` otherwise). The operand's type must not be
        `null`. */
    method GenCallMethod(e: Expr, scope: Scope<GenEntry>)
      returns (r: Result<Option<Ty>>, ghost code: seq<I.Instruction>, ghost cs: seq<seq<I.Instruction>>,
               ghost ts: seq<Option<Ty>>, ghost oc: seq<I.Instruction>, ghost ot: Option<Ty>, ghost tail: seq<I.Instruction>)
      requires e.MethodCall? && Ready()
      modifies this`currLine, this`log, currentFunction, pool
      decreases e, 2
      ensures Ready() && old(log) <= log && old(pool.entries) <= pool.entries
      ensures r.Ok? ==> currentFunction.instructions == old(currentFunction.instructions) + code
      ensures r.Ok? ==> |cs| == |e.args| && |ts| == |e.args| && code == Flatten(Reverse(cs)) + oc + tail
      ensures r.Ok? ==> forall i :: 0 <= i < |e.args| ==> ExprCode(e.args[i], cs[i], ts[i]) in log
      ensures r.Ok? ==> ExprCode(e.operand, oc, ot) in log && ot.Some?
      ensures r.Ok? && Name(ot.value) in templates ==> (IsTemplateInvoke(tail, e.name, |e.args| + 1, e.loc)
        && r.value == (if e.name in templates[Name(ot.value)] then Some(templates[Name(ot.value)][e.name]) else None))
      ensures r.Ok? && Name(ot.value) !in templates ==> (Name(ot.value) in types
        && MethodName(Name(ot.value), e.name) in types[Name(ot.value)].entries
        && r.value == types[Name(ot.value)].entries[MethodName(Name(ot.value), e.name)].ty
        && IsStructInvoke(tail, types[Name(ot.value)].entries[MethodName(Name(ot.value), e.name)].kind,
                          Name(ot.value), e.name, |e.args| + 1, e.loc))
    {
      var t;
      t, cs, ts, oc := GenArgumentsAndOperand(e, scope);
      ot, tail := None, [];
      if t.Fail? {
        return Fail(t.failure), [], [], [], [], None, [];
      }
      ot := Some(t.value);
      r, tail := InvokeOn(Name(t.value), e.name, |e.args| + 1, e.loc);
      code := Flatten(Reverse(cs)) + oc + tail;
      AppendAssoc3(old(currentFunction.instructions), Flatten(Reverse(cs)), oc, tail);
    }

    /** The second half of `visitCallMethodTree`, on an operand of type
        `tn`. */
    method InvokeOn(tn: string, name: string, argc: int, loc: Loc) returns (r: Result<Option<Ty>>, ghost tail: seq<I.Instruction>)
      requires Ready()
      modifies this`currLine, currentFunction, pool
      ensures Ready() && old(pool.entries) <= pool.entries
      ensures r.Ok? ==> currentFunction.instructions == old(currentFunction.instructions) + tail
      ensures tn in templates ==> (r.Ok? && IsTemplateInvoke(tail, name, argc, loc)
        && r.value == (if name in templates[tn] then Some(templates[tn][name]) else None))
      ensures r.Ok? && tn !in templates ==> (tn in types && MethodName(tn, name) in types[tn].entries
        && r.value == types[tn].entries[MethodName(tn, name)].ty
        && IsStructInvoke(tail, types[tn].entries[MethodName(tn, name)].kind, tn, name, argc, loc))
    {
      if tn in templates {
        tail := InvokeTemplateMethod(name, argc, loc);
        r := Ok(if name in templates[tn] then Some(templates[tn][name]) else None);
      } else {
        r, tail := InvokeStructMethod(tn, name, argc, loc);
      }
    }

    /** The first half of `visitCallMethodTree`: the arguments last to
        first, then the operand, whose type must not be `null`. */
    method GenArgumentsAndOperand(e: Expr, scope: Scope<GenEntry>)
      returns (r: Result<Ty>, ghost cs: seq<seq<I.Instruction>>, ghost ts: seq<Option<Ty>>, ghost oc: seq<I.Instruction>)
      requires e.MethodCall? && Ready()
      modifies this`currLine, this`log, currentFunction, pool
      decreases e, 1
      ensures Ready() && old(log) <= log && old(pool.entries) <= pool.entries
      ensures r.Ok? ==> currentFunction.instructions == old(currentFunction.instructions) + Flatten(Reverse(cs)) + oc
      ensures r.Ok? ==> |cs| == |e.args| && |ts| == |e.args|
      ensures r.Ok? ==> forall i :: 0 <= i < |e.args| ==> ExprCode(e.args[i], cs[i], ts[i]) in log
      ensures r.Ok? ==> ExprCode(e.operand, oc, Some(r.value)) in log
    {
      var a;
      a, cs, ts := GenArguments(e, e.args, scope);
      oc := [];
      if a.Fail? {
        return Fail(a.failure), [], [], [];
      }
      ghost var alog := log;
      var t;
      t, oc := GenExpr(e.operand, scope);
      if t.Fail? || t.value.None? {
        return (if t.Fail? then Fail(t.failure) else Fail(NPE)), [], [], [];
      }
      forall i | 0 <= i < |e.args| ensures ExprCode(e.args[i], cs[i], ts[i]) in log {
        PrefixKeeps(alog, log, ExprCode(e.args[i], cs[i], ts[i]));
      }
      r := Ok(t.value.value);
    }

    /** `Dup` of the operand, a line marker, and `InvokeTemplate` of the pool
        entry of the method's name. */
    ghost predicate IsTemplateInvoke(tail: seq<I.Instruction>, name: string, argc: int, loc: Loc)
      reads this, pool
    {
      |tail| >= 2 && tail[0] == I.Dup && IsMark(tail[1..|tail| - 1], loc)
      && tail[|tail| - 1].InvokeTemplate? && tail[|tail| - 1].argc == argc
      && Holds(tail[|tail| - 1].address, P.UTF8Constant(name))
    }

    /** A virtual method: a line marker and `InvokeVirtual` of `type$name`;
        a native one: `InvokeNative` of the plain name, with no marker. */
    ghost predicate IsStructInvoke(tail: seq<I.Instruction>, kind: Kind, tn: string, name: string, argc: int, loc: Loc)
      reads this, pool
    {
      |tail| > 0 &&
      if kind == VIRTUAL_FUNCTION then
        IsMark(tail[..|tail| - 1], loc) && Invokes(tail[|tail| - 1], false, MethodName(tn, name), argc)
      else
        |tail| == 1 && Invokes(tail[0], true, name, argc)
    }

    /** The template branch of `visitCallMethodTree`; the operand and the
        arguments are popped. */
    method InvokeTemplateMethod(name: string, argc: int, loc: Loc) returns (ghost tail: seq<I.Instruction>)
      requires Ready()
      modifies this`currLine, currentFunction, pool
      ensures Ready() && old(pool.entries) <= pool.entries && IsTemplateInvoke(tail, name, argc, loc)
      ensures currentFunction.instructions == old(currentFunction.instructions) + tail
      ensures currentFunction.growths == old(currentFunction.growths) + [-argc]
    {
      currentFunction.Append(I.Dup);
      P.InternedSpec(pool.entries, P.UTF8Constant(name));
      var u := pool.PutUTF8(name);
      var mk := NewLine(loc);
      currentFunction.Append(I.InvokeTemplate(u, argc));
      ghost var g0 := currentFunction.growths;
      currentFunction.StackGrows(-argc);
      assert g0 == old(currentFunction.growths);
      tail := [I.Dup] + mk + [I.InvokeTemplate(u, argc)];
      AppendAssoc3(old(currentFunction.instructions), [I.Dup], mk, [I.InvokeTemplate(u, argc)]);
      assert tail[1..|tail| - 1] == mk;
    }

    /** The struct branch of `visitCallMethodTree`: the struct scope of the
        operand's type must hold `type$name`; nothing is popped. */
    method InvokeStructMethod(tn: string, name: string, argc: int, loc: Loc)
      returns (r: Result<Option<Ty>>, ghost tail: seq<I.Instruction>)
      requires Ready()
      modifies this`currLine, currentFunction, pool
      ensures Ready() && old(pool.entries) <= pool.entries
      ensures currentFunction.growths == old(currentFunction.growths)
      ensures (tn !in types || MethodName(tn, name) !in types[tn].entries) ==> r == Fail(NPE)
      ensures r.Ok? ==> (tn in types && MethodName(tn, name) in types[tn].entries
        && r.value == types[tn].entries[MethodName(tn, name)].ty
        && currentFunction.instructions == old(currentFunction.instructions) + tail
        && IsStructInvoke(tail, types[tn].entries[MethodName(tn, name)].kind, tn, name, argc, loc))
    {
      tail := [];
      if tn !in types || MethodName(tn, name) !in types[tn].entries {
        return Fail(NPE), [];
      }
      var entry := types[tn].entries[MethodName(tn, name)];
      ghost var ins;
      if entry.kind == VIRTUAL_FUNCTION {
        var mk := NewLine(loc);
        ins := CallVirtual(MethodName(tn, name), argc);
        tail := mk + [ins];
        assert tail[..|tail| - 1] == mk;
      } else {
        ins := CallNative(name, argc);
        tail := [ins];
      }
      r := Ok(entry.ty);
    }

    /** `visitStructInitTree`: `NewInstance` of the pool entry of the type's
        name, then per argument `Dup`, the argument, `Swap` and `PutField`
        of the argument's position. */
    method GenStructInit(e: Expr, scope: Scope<GenEntry>)
      returns (r: Result<Option<Ty>>, ghost code: seq<I.Instruction>, ghost cs: seq<seq<I.Instruction>>, ghost ts: seq<Option<Ty>>)
      requires e.StructInit? && Ready()
      modifies this`currLine, this`log, currentFunction, pool
      decreases e, 2
      ensures Ready() && old(log) <= log && old(pool.entries) <= pool.entries
      ensures r.Ok? ==> currentFunction.instructions == old(currentFunction.instructions) + code
      ensures r.Ok? ==> r.value == Some(e.ty) && |cs| == |e.args| && |ts| == |e.args|
      ensures r.Ok? ==> forall i :: 0 <= i < |e.args| ==> ExprCode(e.args[i], cs[i], ts[i]) in log
      ensures r.Ok? ==> (|code| > 0 && code[0].NewInstance? && Holds(code[0].address, P.StructConstant(Name(e.ty)))
        && code[1..] == InitFields(cs))
    {
      P.InternedSpec(pool.entries, P.StructConstant(Name(e.ty)));
      var a := pool.PutStruct(Name(e.ty));
      currentFunction.Append(I.NewInstance(a));
      currentFunction.StackGrows(1);
      ghost var start := currentFunction.instructions;
      cs, ts := [], [];
      var i := 0;
      while i < |e.args|
        invariant 0 <= i <= |e.args| && |cs| == i && |ts| == i && Ready()
        invariant old(log) <= log && old(pool.entries) <= pool.entries && Holds(a, P.StructConstant(Name(e.ty)))
        invariant currentFunction.instructions == start + InitFields(cs)
        invariant forall j :: 0 <= j < i ==> ExprCode(e.args[j], cs[j], ts[j]) in log
      {
        var u;
        u, cs, ts := InitArgument(e, i, scope, a, start, cs, ts);
        if u.Fail? {
          return Fail(u.failure), [], [], [];
        }
        i := i + 1;
      }
      assert start == old(currentFunction.instructions) + [I.NewInstance(a)];
      r, code := Ok(Some(e.ty)), [I.NewInstance(a)] + InitFields(cs);
    }

    /** Argument `i` of `visitStructInitTree`, after the code `cs` of the
        arguments before it. */
    method InitArgument(e: Expr, i: nat, scope: Scope<GenEntry>, a: int, ghost start: seq<I.Instruction>,
                        ghost cs: seq<seq<I.Instruction>>, ghost ts: seq<Option<Ty>>)
      returns (u: Result<()>, ghost cs': seq<seq<I.Instruction>>, ghost ts': seq<Option<Ty>>)
      requires e.StructInit? && Ready() && i < |e.args| && |cs| == i && |ts| == i
      requires Holds(a, P.StructConstant(Name(e.ty))) && currentFunction.instructions == start + InitFields(cs)
      requires forall j :: 0 <= j < i ==> ExprCode(e.args[j], cs[j], ts[j]) in log
      modifies this`currLine, this`log, currentFunction, pool
      decreases e, 1
      ensures Ready() && old(log) <= log && old(pool.entries) <= pool.entries
      ensures u.Ok? ==> (|cs'| == i + 1 && |ts'| == i + 1 && Holds(a, P.StructConstant(Name(e.ty)))
        && currentFunction.instructions == start + InitFields(cs'))
      ensures u.Ok? ==> forall j :: 0 <= j < i + 1 ==> ExprCode(e.args[j], cs'[j], ts'[j]) in log
    {
      assert e.args[i] in e.args;
      ghost var log0 := log;
      ghost var c, t;
      u, c, t := InitField(e, e.args[i], i, scope);
      cs', ts' := cs + [c], ts + [t];
      if u.Ok? {
        forall j | 0 <= j < i ensures ExprCode(e.args[j], cs[j], ts[j]) in log {
          PrefixKeeps(log0, log, ExprCode(e.args[j], cs[j], ts[j]));
        }
        assert cs'[..i] == cs && pool.entries[a] == old(pool.entries)[a];
        assert InitFields(cs') == InitFields(cs) + FieldInit(c, i);
      }
    }

    /** One argument of `visitStructInitTree`: `Dup`, the argument's code,
        `Swap`, `PutField(index)`. */
    method InitField(owner: Expr, arg: Expr, index: nat, scope: Scope<GenEntry>)
      returns (r: Result<()>, ghost c: seq<I.Instruction>, ghost t: Option<Ty>)
      requires Ready() && arg < owner
      modifies this`currLine, this`log, currentFunction, pool
      decreases owner, 0
      ensures Ready() && old(log) <= log && old(pool.entries) <= pool.entries
      ensures r.Ok? ==> (currentFunction.instructions == old(currentFunction.instructions) + FieldInit(c, index)
        && |log| > 0 && log[|log| - 1] == ExprCode(arg, c, t))
    {
      currentFunction.Append(I.Dup);
      currentFunction.StackGrows(1);
      var u;
      u, c := GenExpr(arg, scope);
      t := None;
      if u.Fail? {
        return Fail(u.failure), [], None;
      }
      t := u.value;
      currentFunction.Append(I.Swap);
      currentFunction.Append(I.PutField(index));
      currentFunction.StackGrows(-1);
      FieldInitSplit(old(currentFunction.instructions), c, index);
      r := Ok(());
    }

    // ---- statements --------------------------------------------------------

    /** `scan(statement)`: generate one statement and log its code. A
        statement can only add to the scope it is given (the generator opens
        no block scopes); the result is that scope afterwards. A missing
        statement generates nothing. */
    method GenStmt(s: Stmt, scope: Scope<GenEntry>) returns (r: Result<Scope<GenEntry>>, ghost code: seq<I.Instruction>)
      requires Ready()
      modifies this`currLine, this`log, this`nextFreeAddress, currentFunction, pool
      decreases s, 3
      ensures Ready() && old(log) <= log && old(pool.entries) <= pool.entries && nextFreeAddress >= old(nextFreeAddress)
      ensures r.Ok? ==> currentFunction.instructions == old(currentFunction.instructions) + code
      ensures r.Ok? ==> |log| > 0 && log[|log| - 1] == StmtCode(s, code)
      ensures r.Ok? && WellAddressed(scope, old(nextFreeAddress)) && old(nextFreeAddress) >= 0 ==>
        (WellAddressed(r.value, nextFreeAddress))
      ensures s.MissingStmt? ==> r == Ok(scope) && code == []
    {
      if s.MissingStmt? {
        r, code := Ok(scope), [];
      } else if s.ExprStmt? || s.Return? || s.VarDec? || s.Free? {
        r, code := GenSimpleStmt(s, scope);
      } else {
        r, code := GenControl(s, scope);
      }
      if r.Ok? {
        log := log + [StmtCode(s, code)];
      }
    }

    /** The statements that generate one expression and then one
        instruction. */
    method GenSimpleStmt(s: Stmt, scope: Scope<GenEntry>) returns (r: Result<Scope<GenEntry>>, ghost code: seq<I.Instruction>)
      requires (s.ExprStmt? || s.Return? || s.VarDec? || s.Free?) && Ready()
      modifies this`currLine, this`log, this`nextFreeAddress, currentFunction, pool
      decreases s, 2
      ensures Ready() && old(log) <= log && old(pool.entries) <= pool.entries && nextFreeAddress >= old(nextFreeAddress)
      ensures r.Ok? ==> currentFunction.instructions == old(currentFunction.instructions) + code
      ensures r.Ok? && WellAddressed(scope, old(nextFreeAddress)) && old(nextFreeAddress) >= 0 ==>
        (WellAddressed(r.value, nextFreeAddress))
    {
      ghost var ec: seq<I.Instruction>;
      if s.VarDec? {
        ghost var t: Option<Ty>;
        r, code, ec, t := GenVarDec(s, scope);
        return;
      }
      var u;
      if s.ExprStmt? {
        u, code, ec := GenExprStmt(s, scope);
      } else if s.Return? {
        u, code, ec := GenReturn(s, scope);
      } else {
        u, code, ec := GenFree(s, scope);
      }
      r := if u.Fail? then Fail(u.failure) else Ok(scope);
    }

    /** The statements that hold statements. */
    method GenControl(s: Stmt, scope: Scope<GenEntry>) returns (r: Result<Scope<GenEntry>>, ghost code: seq<I.Instruction>)
      requires (s.Block? || s.IfElse? || s.WhileDo? || s.DoWhile?) && Ready()
      modifies this`currLine, this`log, this`nextFreeAddress, currentFunction, pool
      decreases s, 2
      ensures Ready() && old(log) <= log && old(pool.entries) <= pool.entries && nextFreeAddress >= old(nextFreeAddress)
      ensures r.Ok? ==> currentFunction.instructions == old(currentFunction.instructions) + code
      ensures r.Ok? && WellAddressed(scope, old(nextFreeAddress)) && old(nextFreeAddress) >= 0 ==>
        (WellAddressed(r.value, nextFreeAddress))
    {
      ghost var c0: seq<I.Instruction>, c1: seq<I.Instruction>, c2: seq<I.Instruction>, cs: seq<seq<I.Instruction>>;
      match s
      case Block(stmts) =>
        r, cs := GenStmts(s, stmts, scope);
        code := Flatten(cs);
      case IfElse(_, _, _, _) =>
        r, code, c0, c1, c2 := GenIfElse(s, scope);
      case WhileDo(_, _, _) =>
        r, code, c0, c1, c2 := GenWhileDo(s, scope);
      case DoWhile(_, _, _) =>
        r, code, c0, c1 := GenDoWhile(s, scope);
    }

    /** `visitBlockTree`: the statements in order, in the same scope. */
    method GenStmts(owner: Stmt, stmts: seq<Stmt>, scope: Scope<GenEntry>)
      returns (r: Result<Scope<GenEntry>>, ghost cs: seq<seq<I.Instruction>>)
      requires Ready() && forall x :: x in stmts ==> x < owner
      modifies this`currLine, this`log, this`nextFreeAddress, currentFunction, pool
      decreases owner, 0
      ensures Ready() && old(log) <= log && old(pool.entries) <= pool.entries && nextFreeAddress >= old(nextFreeAddress)
      ensures r.Ok? ==> currentFunction.instructions == old(currentFunction.instructions) + Flatten(cs)
      ensures r.Ok? ==> |cs| == |stmts| && forall i :: 0 <= i < |stmts| ==> StmtCode(stmts[i], cs[i]) in log
      ensures r.Ok? && WellAddressed(scope, old(nextFreeAddress)) && old(nextFreeAddress) >= 0 ==>
        (WellAddressed(r.value, nextFreeAddress))
    {
      cs := [];
      var sc := scope;
      ghost var well := WellAddressed(scope, nextFreeAddress) && nextFreeAddress >= 0;
      var i := 0;
      while i < |stmts|
        invariant 0 <= i <= |stmts| && |cs| == i && Ready()
        invariant old(log) <= log && old(pool.entries) <= pool.entries && nextFreeAddress >= old(nextFreeAddress)
        invariant currentFunction.instructions == old(currentFunction.instructions) + Flatten(cs)
        invariant forall j :: 0 <= j < i ==> StmtCode(stmts[j], cs[j]) in log
        invariant well ==> WellAddressed(sc, nextFreeAddress) && nextFreeAddress >= 0
      {
        assert stmts[i] in stmts;
        ghost var log0 := log;
        var u, c := GenStmt(stmts[i], sc);
        if u.Fail? {
          return Fail(u.failure), [];
        }
        forall j | 0 <= j < i ensures StmtCode(stmts[j], cs[j]) in log {
          PrefixKeeps(log0, log, StmtCode(stmts[j], cs[j]));
        }
        assert (cs + [c])[..i] == cs;
        sc, cs := u.value, cs + [c];
        i := i + 1;
      }
      r := Ok(sc);
    }

    /** `visitExpressionStatementTree`: the expression, then a `Pop` of the
        value a call leaves behind; other expressions leave theirs. */
    method GenExprStmt(s: Stmt, scope: Scope<GenEntry>)
      returns (r: Result<()>, ghost code: seq<I.Instruction>, ghost ec: seq<I.Instruction>)
      requires s.ExprStmt? && Ready()
      modifies this`currLine, this`log, currentFunction, pool
      decreases s, 1
      ensures Ready() && old(log) <= log && old(pool.entries) <= pool.entries
      ensures r.Ok? ==> currentFunction.instructions == old(currentFunction.instructions) + code
      ensures r.Ok? ==> ((exists t :: ExprCode(s.expr, ec, t) in log)
        && code == ec + (if s.expr.GlobalCall? || s.expr.MethodCall? then [I.Pop] else []))
      ensures r.Ok? && (s.expr.GlobalCall? || s.expr.MethodCall?) ==>
        |currentFunction.growths| > 0 && currentFunction.growths[|currentFunction.growths| - 1] == -1
    {
      var t;
      t, ec := GenExpr(s.expr, scope);
      if t.Fail? {
        return Fail(t.failure), [], [];
      }
      code := ec;
      if s.expr.GlobalCall? || s.expr.MethodCall? {
        currentFunction.Append(I.Pop);
        ghost var g0 := currentFunction.growths;
        currentFunction.StackGrows(-1);
        assert currentFunction.growths == g0 + [-1];
        code := ec + [I.Pop];
      }
      r := Ok(());
    }

    /** `visitReturnTree`: the value (nothing for a bare `return`), then
        `Return`. */
    method GenReturn(s: Stmt, scope: Scope<GenEntry>)
      returns (r: Result<()>, ghost code: seq<I.Instruction>, ghost ec: seq<I.Instruction>)
      requires s.Return? && Ready()
      modifies this`currLine, this`log, currentFunction, pool
      decreases s, 1
      ensures Ready() && old(log) <= log && old(pool.entries) <= pool.entries
      ensures r.Ok? ==> currentFunction.instructions == old(currentFunction.instructions) + code
      ensures r.Ok? ==> (exists t :: ExprCode(s.expr, ec, t) in log) && code == ec + [I.Return]
      ensures r.Ok? ==> |currentFunction.growths| > 0 && currentFunction.growths[|currentFunction.growths| - 1] == -1
    {
      var t;
      t, ec := GenExpr(s.expr, scope);
      if t.Fail? {
        return Fail(t.failure), [], [];
      }
      currentFunction.Append(I.Return);
      ghost var g0 := currentFunction.growths;
      currentFunction.StackGrows(-1);
      assert currentFunction.growths == g0 + [-1];
      r, code := Ok(()), ec + [I.Return];
    }

    /** `visitFreeTree`: the value, then `Free`; the stack is not adjusted. */
    method GenFree(s: Stmt, scope: Scope<GenEntry>)
      returns (r: Result<()>, ghost code: seq<I.Instruction>, ghost ec: seq<I.Instruction>)
      requires s.Free? && Ready()
      modifies this`currLine, this`log, currentFunction, pool
      decreases s, 1
      ensures Ready() && old(log) <= log && old(pool.entries) <= pool.entries
      ensures r.Ok? ==> currentFunction.instructions == old(currentFunction.instructions) + code
      ensures r.Ok? ==> (exists t :: ExprCode(s.expr, ec, t) in log) && code == ec + [I.Free]
    {
      var t;
      t, ec := GenExpr(s.expr, scope);
      if t.Fail? {
        return Fail(t.failure), [], [];
      }
      currentFunction.Append(I.Free);
      r, code := Ok(()), ec + [I.Free];
    }

    /** `visitVarDecTree`: the initialiser, then the next free address is
        taken, marked as used, entered into the scope under the declared type
        (the initialiser's when none is written) and stored to. */
    method GenVarDec(s: Stmt, scope: Scope<GenEntry>)
      returns (r: Result<Scope<GenEntry>>, ghost code: seq<I.Instruction>, ghost ec: seq<I.Instruction>, ghost t: Option<Ty>)
      requires s.VarDec? && Ready()
      modifies this`currLine, this`log, this`nextFreeAddress, currentFunction, pool
      decreases s, 1
      ensures Ready() && old(log) <= log && old(pool.entries) <= pool.entries
      ensures r.Fail? ==> nextFreeAddress == old(nextFreeAddress)
      ensures r.Ok? ==> currentFunction.instructions == old(currentFunction.instructions) + code
      ensures r.Ok? ==> (ExprCode(s.init, ec, t) in log && code == ec + [I.StoreLocal(old(nextFreeAddress))]
        && nextFreeAddress == old(nextFreeAddress) + 1 && old(nextFreeAddress) in currentFunction.usedLocals
        && r.value == Add(scope, s.name, GenEntry(if s.ty.Some? then s.ty else t, s.name, LOCAL, old(nextFreeAddress))))
      ensures r.Ok? ==> |currentFunction.growths| > 0 && currentFunction.growths[|currentFunction.growths| - 1] == -1
      ensures r.Ok? && WellAddressed(scope, old(nextFreeAddress)) && old(nextFreeAddress) >= 0 ==>
        (WellAddressed(r.value, nextFreeAddress))
    {
      var u;
      u, ec := GenExpr(s.init, scope);
      t := None;
      if u.Fail? {
        return Fail(u.failure), [], [], None;
      }
      t := u.value;
      var address := nextFreeAddress;
      r := DeclareLocal(s.name, if s.ty.Some? then s.ty else u.value, scope);
      code := ec + [I.StoreLocal(address)];
    }

    /** The second half of `visitVarDecTree`: the next free address is taken,
        marked as used, entered into the scope and stored to. */
    method DeclareLocal(name: string, ty: Option<Ty>, scope: Scope<GenEntry>) returns (r: Result<Scope<GenEntry>>)
      requires Ready()
      modifies this`nextFreeAddress, currentFunction
      ensures Ready() && nextFreeAddress == old(nextFreeAddress) + 1
      ensures currentFunction.instructions == old(currentFunction.instructions) + [I.StoreLocal(old(nextFreeAddress))]
      ensures old(nextFreeAddress) in currentFunction.usedLocals
      ensures r == Ok(Add(scope, name, GenEntry(ty, name, LOCAL, old(nextFreeAddress))))
      ensures currentFunction.growths == old(currentFunction.growths) + [-1]
      ensures WellAddressed(scope, old(nextFreeAddress)) && old(nextFreeAddress) >= 0 ==>
        (WellAddressed(r.value, nextFreeAddress))
    {
      var address := nextFreeAddress;
      nextFreeAddress := nextFreeAddress + 1;
      currentFunction.UseLocal(address);
      var entry := GenEntry(ty, name, LOCAL, address);
      if WellAddressed(scope, address) && address >= 0 {
        DeclareFresh(scope, address, name, entry);
      }
      currentFunction.Append(I.StoreLocal(address));
      currentFunction.StackGrows(-1);
      r := Ok(Add(scope, name, entry));
    }

    /** `visitIfElseTree`: the condition, a `BranchIfFalse` whose target is
        set once the body is generated, the body, and with an else part a
        `Goto` over it; both parts add to the same scope. */
    method GenIfElse(s: Stmt, scope: Scope<GenEntry>)
      returns (r: Result<Scope<GenEntry>>, ghost code: seq<I.Instruction>, ghost cc: seq<I.Instruction>,
               ghost bc: seq<I.Instruction>, ghost ec: seq<I.Instruction>)
      requires s.IfElse? && Ready()
      modifies this`currLine, this`log, this`nextFreeAddress, currentFunction, pool
      decreases s, 1
      ensures Ready() && old(log) <= log && old(pool.entries) <= pool.entries && nextFreeAddress >= old(nextFreeAddress)
      ensures r.Ok? ==> currentFunction.instructions == old(currentFunction.instructions) + code
      ensures r.Ok? ==> (exists t :: ExprCode(s.cond, cc, t) in log) && StmtCode(s.ifBody, bc) in log
      ensures r.Ok? && s.elseBody.MissingStmt? ==> code == IfCode(|old(currentFunction.instructions)|, cc, bc)
      ensures r.Ok? && !s.elseBody.MissingStmt? ==>
        (StmtCode(s.elseBody, ec) in log && code == IfElseCode(|old(currentFunction.instructions)|, cc, bc, ec))
      ensures r.Ok? && WellAddressed(scope, old(nextFreeAddress)) && old(nextFreeAddress) >= 0 ==>
        (WellAddressed(r.value, nextFreeAddress))
    {
      ghost var s0 := currentFunction.instructions;
      var at;
      var c;
      c, cc, at := GenGuard(s, s.cond, scope);
      bc, ec := [], [];
      if c.Fail? {
        return Fail(c.failure), [], [], [], [];
      }
      ghost var clog := log;
      var u;
      u, bc := GenStmt(s.ifBody, scope);
      if u.Fail? {
        return Fail(u.failure), [], [], [], [];
      }
      ghost var t :| ExprCode(s.cond, cc, t) in clog;
      PrefixKeeps(clog, log, ExprCode(s.cond, cc, t));
      if s.elseBody.MissingStmt? {
        CloseIf(at, s0, cc, bc);
        r, code := u, IfCode(|s0|, cc, bc);
      } else {
        r, code, ec := GenElse(s, u.value, at, s0, cc, bc);
      }
    }

    /** The end of an if without an else part: the branch at `at` is set to
        the stream size. */
    method CloseIf(at: nat, ghost s0: seq<I.Instruction>, ghost cc: seq<I.Instruction>, ghost bc: seq<I.Instruction>)
      requires Ready() && at == |s0| + |cc|
      requires currentFunction.instructions == s0 + cc + [I.BranchIfFalse(0)] + bc
      modifies currentFunction
      ensures Ready() && currentFunction.growths == old(currentFunction.growths)
      ensures currentFunction.instructions == s0 + IfCode(|s0|, cc, bc)
    {
      var end := currentFunction.StreamSize();
      PatchAt(s0 + cc, I.BranchIfFalse(0), bc, I.BranchIfFalse(end));
      currentFunction.SetJumpAddress(at, end);
    }

    /** The condition of an if, then the `BranchIfFalse` (target not yet
        known) at position `at`, which pops the condition. */
    method GenGuard(owner: Stmt, cond: Expr, scope: Scope<GenEntry>)
      returns (r: Result<()>, ghost cc: seq<I.Instruction>, at: nat)
      requires Ready()
      modifies this`currLine, this`log, currentFunction, pool
      ensures Ready() && old(log) <= log && old(pool.entries) <= pool.entries
      ensures r.Ok? ==> (exists t :: ExprCode(cond, cc, t) in log) && at == |old(currentFunction.instructions)| + |cc|
      ensures r.Ok? ==> currentFunction.instructions == old(currentFunction.instructions) + cc + [I.BranchIfFalse(0)]
      ensures r.Ok? ==> |currentFunction.growths| > 0 && currentFunction.growths[|currentFunction.growths| - 1] == -1
    {
      var t;
      t, cc := GenExpr(cond, scope);
      at := currentFunction.StreamSize();
      if t.Fail? {
        return Fail(t.failure), [], at;
      }
      currentFunction.Append(I.BranchIfFalse(0));
      ghost var g0 := currentFunction.growths;
      currentFunction.StackGrows(-1);
      assert currentFunction.growths == g0 + [-1];
      r := Ok(());
    }

    /** The else part of `visitIfElseTree`, once the condition (`cc`), the
        branch at `at` and the body (`bc`) are in the stream: the `Goto`, the
        else part, and both targets. */
    method GenElse(s: Stmt, scope: Scope<GenEntry>, at: nat, ghost s0: seq<I.Instruction>,
                   ghost cc: seq<I.Instruction>, ghost bc: seq<I.Instruction>)
      returns (r: Result<Scope<GenEntry>>, ghost code: seq<I.Instruction>, ghost ec: seq<I.Instruction>)
      requires s.IfElse? && Ready() && at == |s0| + |cc|
      requires currentFunction.instructions == s0 + cc + [I.BranchIfFalse(0)] + bc
      modifies this`currLine, this`log, this`nextFreeAddress, currentFunction, pool
      decreases s, 0
      ensures Ready() && old(log) <= log && old(pool.entries) <= pool.entries && nextFreeAddress >= old(nextFreeAddress)
      ensures r.Ok? ==> StmtCode(s.elseBody, ec) in log
      ensures r.Ok? ==> code == IfElseCode(|s0|, cc, bc, ec) && currentFunction.instructions == s0 + code
      ensures r.Ok? && WellAddressed(scope, old(nextFreeAddress)) && old(nextFreeAddress) >= 0 ==>
        (WellAddressed(r.value, nextFreeAddress))
    {
      var g := currentFunction.StreamSize();
      currentFunction.Append(I.Goto(0));
      var u;
      u, ec := GenStmt(s.elseBody, scope);
      if u.Fail? {
        return Fail(u.failure), [], [];
      }
      CloseElse(at, g, s0, cc, bc, ec);
      r, code := u, IfElseCode(|s0|, cc, bc, ec);
    }

    /** The end of an if with an else part: the branch at `at` is set to the
        start of the else part, the `Goto` at `g` to the stream size. */
    method CloseElse(at: nat, g: nat, ghost s0: seq<I.Instruction>, ghost cc: seq<I.Instruction>,
                     ghost bc: seq<I.Instruction>, ghost ec: seq<I.Instruction>)
      requires Ready() && at == |s0| + |cc| && g == at + 1 + |bc|
      requires currentFunction.instructions == s0 + cc + [I.BranchIfFalse(0)] + bc + [I.Goto(0)] + ec
      modifies currentFunction
      ensures Ready() && currentFunction.growths == old(currentFunction.growths)
      ensures currentFunction.instructions == s0 + IfElseCode(|s0|, cc, bc, ec)
    {
      var ifEnd := g + 1;
      var elseEnd := currentFunction.StreamSize();
      PatchAt(s0 + cc, I.BranchIfFalse(0), bc + [I.Goto(0)] + ec, I.BranchIfFalse(ifEnd));
      assert s0 + cc + [I.BranchIfFalse(0)] + bc + [I.Goto(0)] + ec
        == s0 + cc + [I.BranchIfFalse(0)] + (bc + [I.Goto(0)] + ec);
      currentFunction.SetJumpAddress(at, ifEnd);
      PatchAt(s0 + cc + [I.BranchIfFalse(ifEnd)] + bc, I.Goto(0), ec, I.Goto(elseEnd));
      assert s0 + cc + [I.BranchIfFalse(ifEnd)] + (bc + [I.Goto(0)] + ec)
        == s0 + cc + [I.BranchIfFalse(ifEnd)] + bc + [I.Goto(0)] + ec;
      currentFunction.SetJumpAddress(g, elseEnd);
    }

    /** `visitDoWhileTree`: the body, the condition, then a
        `BranchIfTrue` back to where the body starts, which pops the
        condition. */
    method GenDoWhile(s: Stmt, scope: Scope<GenEntry>)
      returns (r: Result<Scope<GenEntry>>, ghost code: seq<I.Instruction>, ghost bc: seq<I.Instruction>, ghost cc: seq<I.Instruction>)
      requires s.DoWhile? && Ready()
      modifies this`currLine, this`log, this`nextFreeAddress, currentFunction, pool
      decreases s, 1
      ensures Ready() && old(log) <= log && old(pool.entries) <= pool.entries && nextFreeAddress >= old(nextFreeAddress)
      ensures r.Ok? ==> currentFunction.instructions == old(currentFunction.instructions) + code
      ensures r.Ok? ==> StmtCode(s.body, bc) in log && (exists t :: ExprCode(s.cond, cc, t) in log)
      ensures r.Ok? ==> code == DoWhileCode(|old(currentFunction.instructions)|, bc, cc)
      ensures r.Ok? && WellAddressed(scope, old(nextFreeAddress)) && old(nextFreeAddress) >= 0 ==>
        (WellAddressed(r.value, nextFreeAddress))
    {
      r, code, bc, cc := GenLoop(s, s.body, s.cond, scope);
    }

    /** The do-while loop over `body` and `cond`, children of `owner`; the
        while loop generates one inside its if. */
    method GenLoop(owner: Stmt, body: Stmt, cond: Expr, scope: Scope<GenEntry>)
      returns (r: Result<Scope<GenEntry>>, ghost code: seq<I.Instruction>, ghost bc: seq<I.Instruction>, ghost cc: seq<I.Instruction>)
      requires body < owner && Ready()
      modifies this`currLine, this`log, this`nextFreeAddress, currentFunction, pool
      decreases owner, 0
      ensures Ready() && old(log) <= log && old(pool.entries) <= pool.entries && nextFreeAddress >= old(nextFreeAddress)
      ensures r.Ok? ==> currentFunction.instructions == old(currentFunction.instructions) + code
      ensures r.Ok? ==> StmtCode(body, bc) in log && (exists t :: ExprCode(cond, cc, t) in log)
      ensures r.Ok? ==> code == DoWhileCode(|old(currentFunction.instructions)|, bc, cc)
      ensures r.Ok? && WellAddressed(scope, old(nextFreeAddress)) && old(nextFreeAddress) >= 0 ==>
        (WellAddressed(r.value, nextFreeAddress))
    {
      var to := currentFunction.StreamSize();
      cc := [];
      r, bc := GenStmt(body, scope);
      if r.Fail? {
        return r, [], [], [];
      }
      ghost var blog := log;
      assert StmtCode(body, bc) in blog;
      var t;
      t, cc := GenExpr(cond, r.value);
      if t.Fail? {
        return Fail(t.failure), [], [], [];
      }
      assert ExprCode(cond, cc, t.value) in log;
      PrefixKeeps(blog, log, StmtCode(body, bc));
      currentFunction.Append(I.BranchIfTrue(to));
      currentFunction.StackGrows(-1);
      code := DoWhileCode(to, bc, cc);
      AppendAssoc3(old(currentFunction.instructions), bc, cc, [I.BranchIfTrue(to)]);
    }

    /** `visitWhileDoTree` generates `if (cond) do body while (cond)`: the
        condition, a `BranchIfFalse` past the loop, and the do-while loop,
        which generates the condition a second time. */
    method GenWhileDo(s: Stmt, scope: Scope<GenEntry>)
      returns (r: Result<Scope<GenEntry>>, ghost code: seq<I.Instruction>, ghost cc: seq<I.Instruction>,
               ghost bc: seq<I.Instruction>, ghost cc2: seq<I.Instruction>)
      requires s.WhileDo? && Ready()
      modifies this`currLine, this`log, this`nextFreeAddress, currentFunction, pool
      decreases s, 1
      ensures Ready() && old(log) <= log && old(pool.entries) <= pool.entries && nextFreeAddress >= old(nextFreeAddress)
      ensures r.Ok? ==> currentFunction.instructions == old(currentFunction.instructions) + code
      ensures r.Ok? ==> (exists t :: ExprCode(s.cond, cc, t) in log) && (exists t :: ExprCode(s.cond, cc2, t) in log)
      ensures r.Ok? ==> StmtCode(s.body, bc) in log
      ensures r.Ok? ==> code == IfCode(|old(currentFunction.instructions)|, cc,
                                       DoWhileCode(|old(currentFunction.instructions)| + |cc| + 1, bc, cc2))
      ensures r.Ok? && WellAddressed(scope, old(nextFreeAddress)) && old(nextFreeAddress) >= 0 ==>
        (WellAddressed(r.value, nextFreeAddress))
    {
      ghost var s0 := currentFunction.instructions;
      var at;
      var c;
      c, cc, at := GenGuard(s, s.cond, scope);
      bc, cc2 := [], [];
      if c.Fail? {
        return Fail(c.failure), [], [], [], [];
      }
      ghost var clog := log;
      ghost var lc;
      r, lc, bc, cc2 := GenLoop(s, s.body, s.cond, scope);
      if r.Fail? {
        return r, [], [], [], [];
      }
      ghost var t :| ExprCode(s.cond, cc, t) in clog;
      PrefixKeeps(clog, log, ExprCode(s.cond, cc, t));
      CloseIf(at, s0, cc, lc);
      code := IfCode(|s0|, cc, lc);
    }

    // ---- declarations ------------------------------------------------------

    /** The mediator holds this generator's pool, and every function it has
        registered is consistent. */
    ghost predicate Valid()
      reads this, mediator, pool, mediator.functions.Values
    {
      && mediator.Valid() && mediator.pool == pool && pool.Valid()
      && forall f :: f in mediator.functions.Values ==> f.Valid()
    }

    /** `visitParameterTree`: the next free address is taken, marked as used,
        recorded as the parameter's, stored to from the stack and entered
        into the scope. */
    method VisitParameter(f: Formal, scope: Scope<GenEntry>) returns (sc: Scope<GenEntry>)
      requires Ready()
      modifies this`nextFreeAddress, this`header, currentFunction
      ensures Ready() && nextFreeAddress == old(nextFreeAddress) + 1
      ensures sc == Add(scope, f.name, GenEntry(f.ty, f.name, PARAMETER, old(nextFreeAddress)))
      ensures currentFunction.instructions == old(currentFunction.instructions) + [I.StoreLocal(old(nextFreeAddress))]
      ensures currentFunction.parameters == old(currentFunction.parameters)[f.name := old(nextFreeAddress)]
      ensures currentFunction.paramOrder
        == if f.name in old(currentFunction.paramOrder) then old(currentFunction.paramOrder)
           else old(currentFunction.paramOrder) + [f.name]
      ensures currentFunction.currStackSize == old(currentFunction.currStackSize) - 1
      ensures currentFunction.isMethod == old(currentFunction.isMethod)
      ensures old(nextFreeAddress) in currentFunction.usedLocals
    {
      var address := nextFreeAddress;
      nextFreeAddress := nextFreeAddress + 1;
      currentFunction.UseLocal(address);
      currentFunction.PutParameter(f.name, address);
      currentFunction.Append(I.StoreLocal(address));
      currentFunction.StackGrows(-1);
      header := Header(currentFunction.isMethod, currentFunction.parameters, currentFunction.paramOrder);
      sc := Add(scope, f.name, GenEntry(f.ty, f.name, PARAMETER, address));
    }

    /** The formals of a function, one `visitParameterTree` after the other:
        their stores, their table and their scope, at consecutive addresses;
        together they pop as many values as there are formals. */
    method VisitParameters(fs: seq<Formal>, scope: Scope<GenEntry>) returns (sc: Scope<GenEntry>)
      requires Ready()
      modifies this`nextFreeAddress, this`header, currentFunction
      ensures Ready() && nextFreeAddress == old(nextFreeAddress) + |fs|
      ensures sc == DeclaredParams(scope, fs, old(nextFreeAddress))
      ensures currentFunction.instructions == old(currentFunction.instructions) + Stores(old(nextFreeAddress), |fs|)
      ensures currentFunction.parameters == ParamTable(old(currentFunction.parameters), fs, old(nextFreeAddress))
      ensures currentFunction.paramOrder == ParamOrder(old(currentFunction.paramOrder), fs)
      ensures currentFunction.currStackSize == old(currentFunction.currStackSize) - |fs|
      ensures currentFunction.isMethod == old(currentFunction.isMethod)
    {
      sc := scope;
      var i := 0;
      while i < |fs|
        invariant 0 <= i <= |fs| && Ready() && nextFreeAddress == old(nextFreeAddress) + i
        invariant sc == DeclaredParams(scope, fs[..i], old(nextFreeAddress))
        invariant currentFunction.instructions == old(currentFunction.instructions) + Stores(old(nextFreeAddress), i)
        invariant currentFunction.parameters == ParamTable(old(currentFunction.parameters), fs[..i], old(nextFreeAddress))
        invariant currentFunction.paramOrder == ParamOrder(old(currentFunction.paramOrder), fs[..i])
        invariant currentFunction.currStackSize == old(currentFunction.currStackSize) - i
        invariant currentFunction.isMethod == old(currentFunction.isMethod)
      {
        sc := VisitNextParameter(fs, i, scope, sc, old(nextFreeAddress), old(currentFunction.instructions),
                                 old(currentFunction.parameters), old(currentFunction.paramOrder),
                                 old(currentFunction.currStackSize));
        i := i + 1;
      }
      assert fs[..|fs|] == fs;
    }

    /** Formal `i` of `VisitParameters`, after the ones before it, from a
        function whose stream, parameters, order and stack size were
        `ins0`, `ps0`, `order0` and `stack0` with `base` the first free
        address. */
    method VisitNextParameter(fs: seq<Formal>, i: nat, scope: Scope<GenEntry>, sc: Scope<GenEntry>, ghost base: int,
                              ghost ins0: seq<I.Instruction>, ghost ps0: map<string, int>, ghost order0: seq<string>,
                              ghost stack0: int)
      returns (sc': Scope<GenEntry>)
      requires i < |fs| && Ready() && nextFreeAddress == base + i
      requires sc == DeclaredParams(scope, fs[..i], base)
      requires currentFunction.instructions == ins0 + Stores(base, i)
      requires currentFunction.parameters == ParamTable(ps0, fs[..i], base)
      requires currentFunction.paramOrder == ParamOrder(order0, fs[..i])
      requires currentFunction.currStackSize == stack0 - i
      modifies this`nextFreeAddress, this`header, currentFunction
      ensures Ready() && nextFreeAddress == base + i + 1
      ensures sc' == DeclaredParams(scope, fs[..i + 1], base)
      ensures currentFunction.instructions == ins0 + Stores(base, i + 1)
      ensures currentFunction.parameters == ParamTable(ps0, fs[..i + 1], base)
      ensures currentFunction.paramOrder == ParamOrder(order0, fs[..i + 1])
      ensures currentFunction.currStackSize == stack0 - (i + 1)
      ensures currentFunction.isMethod == old(currentFunction.isMethod)
    {
      assert fs[..i + 1][..i] == fs[..i];
      assert DeclaredParams(scope, fs[..i + 1], base)
        == Add(DeclaredParams(scope, fs[..i], base), fs[i].name, GenEntry(fs[i].ty, fs[i].name, PARAMETER, base + i));
      assert Stores(base, i + 1) == Stores(base, i) + [I.StoreLocal(base + i)];
      assert ParamTable(ps0, fs[..i + 1], base) == ParamTable(ps0, fs[..i], base)[fs[i].name := base + i];
      AppendAssoc(ins0, Stores(base, i), [I.StoreLocal(base + i)]);
      sc' := VisitParameter(fs[i], sc);
    }

    /** `visitFunctionTree` for the function registered as `name` (`type$name`
        for a method): `main` at the top level becomes the entry point; the
        function is entered (an unregistered name throws), the stack grows by
        the number of formals, the formals are stored, the body follows in
        the function's scope, and `PushNull`, `Return` end the stream. */
    method VisitFunction(name: string, ps: seq<Param>, body: Stmt, atGlobal: bool, parent: Option<Scope<GenEntry>>)
      returns (r: Result<()>, ghost bc: seq<I.Instruction>)
      requires Valid()
      modifies this`currentFunction, this`nextFreeAddress, this`currLine, this`log, this`header, mediator, pool
      modifies if name in mediator.functions then {mediator.functions[name]} else {}
      ensures Valid() && old(pool.entries) <= pool.entries && old(log) <= log
      ensures mediator.functions == old(mediator.functions) && mediator.structs == old(mediator.structs)
      ensures mediator.entryPoint
        == if atGlobal && name == "main" then P.Interned(old(pool.entries), P.VFunctionConstant(name)).1
           else old(mediator.entryPoint)
      ensures atGlobal && name == "main" ==> Holds(mediator.entryPoint, P.VFunctionConstant(name))
      ensures name !in mediator.functions ==> r == Fail(NPE)
      ensures r.Ok? ==> (name in mediator.functions && currentFunction == mediator.functions[name]
        && StmtCode(body, bc) in log
        && currentFunction.instructions
           == old(mediator.functions[name].instructions) + Stores(0, |Formals(thisEntry, ps)|) + bc + [I.PushNull, I.Return]
        && currentFunction.parameters == ParamTable(old(mediator.functions[name].parameters), Formals(thisEntry, ps), 0)
        && currentFunction.paramOrder == ParamOrder(old(mediator.functions[name].paramOrder), Formals(thisEntry, ps))
        && currentFunction.isMethod == old(mediator.functions[name].isMethod))
    {
      bc := [];
      EnterFunction(name, atGlobal);
      if currentFunction == null {
        return Fail(NPE), [];
      }
      ghost var p1 := pool.entries;
      r, bc := GenFunction(Formals(thisEntry, ps), body, parent);
      assert atGlobal && name == "main" ==> pool.entries[mediator.entryPoint] == p1[mediator.entryPoint];
    }

    /** The start of `visitFunctionTree`: the entry point for `main` at the
        top level, then `enterFunction`, which looks the name up. */
    method EnterFunction(name: string, atGlobal: bool)
      requires Valid()
      modifies this`currentFunction, this`nextFreeAddress, this`currLine, this`header, mediator, pool
      ensures Valid() && old(pool.entries) <= pool.entries
      ensures mediator.functions == old(mediator.functions) && mediator.structs == old(mediator.structs)
      ensures mediator.entryPoint
        == if atGlobal && name == "main" then P.Interned(old(pool.entries), P.VFunctionConstant(name)).1
           else old(mediator.entryPoint)
      ensures currentFunction == mediator.GetFunction(name) && nextFreeAddress == 0 && currLine == -1
      ensures currentFunction != null ==> Ready()
      ensures atGlobal && name == "main" ==> Holds(mediator.entryPoint, P.VFunctionConstant(name))
    {
      if atGlobal && name == "main" {
        var a := pool.PutVirtual(name);
        P.InternedSpec(old(pool.entries), P.VFunctionConstant(name));
        mediator.SetEntryPoint(a);
      }
      currentFunction := mediator.GetFunction(name);
      nextFreeAddress := 0;
      currLine := -1;
      if currentFunction != null {
        header := Header(currentFunction.isMethod, currentFunction.parameters, currentFunction.paramOrder);
      }
    }

    /** The rest of `visitFunctionTree`, in the entered function: the stack
        grows by the number of formals, the formals are stored, the body
        follows, and `PushNull`, `Return` end the stream. */
    method GenFunction(fs: seq<Formal>, body: Stmt, parent: Option<Scope<GenEntry>>)
      returns (r: Result<()>, ghost bc: seq<I.Instruction>)
      requires Ready() && nextFreeAddress == 0
      modifies this`nextFreeAddress, this`currLine, this`log, this`header, currentFunction, pool
      ensures Ready() && old(pool.entries) <= pool.entries && old(log) <= log
      ensures r.Ok? ==> (StmtCode(body, bc) in log
        && currentFunction.instructions == old(currentFunction.instructions) + Stores(0, |fs|) + bc + [I.PushNull, I.Return]
        && currentFunction.parameters == ParamTable(old(currentFunction.parameters), fs, 0)
        && currentFunction.paramOrder == ParamOrder(old(currentFunction.paramOrder), fs)
        && currentFunction.isMethod == old(currentFunction.isMethod))
    {
      bc := [];
      currentFunction.StackGrows(|fs|);
      header := Header(currentFunction.isMethod, currentFunction.parameters, currentFunction.paramOrder);
      var sc := VisitParameters(fs, FunctionScope(parent, map[]));
      ghost var s1 := currentFunction.instructions;
      var u;
      u, bc := GenStmt(body, sc);
      if u.Fail? {
        return Fail(u.failure), [];
      }
      currentFunction.Append(I.PushNull);
      currentFunction.Append(I.Return);
      assert currentFunction.instructions == s1 + bc + [I.PushNull, I.Return];
      r := Ok(());
    }

    /** `visitNativeFunctionTree`: only the pool entry of the name. */
    method VisitNative(name: string)
      requires pool.Valid()
      modifies pool
      ensures pool.Valid() && pool.entries == P.Interned(old(pool.entries), P.NFunctionConstant(name)).0
    {
      var a := pool.PutNative(name);
    }

    /** `registerFunctions(callables, scope)`: each non-native callable is
        registered under its qualified name, where a name taken already
        throws, and every callable is added to the scope, which is `null`
        for an implementation of a struct that was never declared. */
    method RegisterCallables(owner: Option<string>, cs: seq<Callable>, sc: Option<Scope<GenEntry>>)
      returns (r: Result<Option<Scope<GenEntry>>>)
      requires Valid()
      modifies mediator
      ensures Valid() && mediator.structs == old(mediator.structs) && mediator.entryPoint == old(mediator.entryPoint)
      ensures r.Ok? <==> (sc.Some? || cs == []) && Unclaimed(Registered(owner, cs), old(mediator.functions.Keys))
      ensures r.Ok? ==> r.value == (if sc.Some? then Some(Declared(sc.value, owner, cs)) else None)
      ensures r.Ok? ==> mediator.functions.Keys == old(mediator.functions.Keys) + (set n | n in Registered(owner, cs))
      ensures forall n :: n in old(mediator.functions) ==> n in mediator.functions && mediator.functions[n] == old(mediator.functions[n])
      ensures forall n :: n in mediator.functions && n !in old(mediator.functions) ==> fresh(mediator.functions[n])
    {
      if sc.None? && cs != [] {
        // the first callable is registered, then added to the missing scope
        var u := RegisterCallable(owner, cs[0], mediator.functions.Keys, []);
        if u.Fail? {
          return Fail(u.failure);
        }
        return Fail(NPE);
      }
      var u := RegisterAll(owner, cs);
      if u.Fail? {
        return Fail(u.failure);
      }
      r := Ok(if sc.Some? then Some(Declared(sc.value, owner, cs)) else None);
    }

    /** The registrations of `registerFunctions`, in order. */
    method RegisterAll(owner: Option<string>, cs: seq<Callable>) returns (r: Result<()>)
      requires Valid()
      modifies mediator
      ensures Valid() && mediator.structs == old(mediator.structs) && mediator.entryPoint == old(mediator.entryPoint)
      ensures r.Ok? <==> Unclaimed(Registered(owner, cs), old(mediator.functions.Keys))
      ensures r.Ok? ==> mediator.functions.Keys == old(mediator.functions.Keys) + (set n | n in Registered(owner, cs))
      ensures forall n :: n in old(mediator.functions) ==> n in mediator.functions && mediator.functions[n] == old(mediator.functions[n])
      ensures forall n :: n in mediator.functions && n !in old(mediator.functions) ==> fresh(mediator.functions[n])
    {
      var i := 0;
      while i < |cs|
        invariant 0 <= i <= |cs| && Valid()
        invariant mediator.structs == old(mediator.structs) && mediator.entryPoint == old(mediator.entryPoint)
        invariant Unclaimed(Registered(owner, cs[..i]), old(mediator.functions.Keys))
        invariant mediator.functions.Keys == old(mediator.functions.Keys) + (set n | n in Registered(owner, cs[..i]))
        invariant forall n :: n in old(mediator.functions) ==> n in mediator.functions && mediator.functions[n] == old(mediator.functions[n])
        invariant forall n :: n in mediator.functions && n !in old(mediator.functions) ==> fresh(mediator.functions[n])
      {
        assert cs[..i + 1][..i] == cs[..i];
        assert Registered(owner, cs[..i + 1])
          == Registered(owner, cs[..i]) + (if cs[i].Native? then [] else [QualifiedName(owner, cs[i])]);
        var u := RegisterCallable(owner, cs[i], old(mediator.functions.Keys), Registered(owner, cs[..i]));
        if u.Fail? {
          RegisteredPrefix(owner, cs, i + 1);
          UnclaimedPrefix(Registered(owner, cs[..i + 1]), Registered(owner, cs), old(mediator.functions.Keys));
          return Fail(u.failure);
        }
        i := i + 1;
      }
      assert cs[..|cs|] == cs;
      r := Ok(());
    }

    /** One step of `registerFunctions`: a non-native callable is
        registered, which fails exactly when its name is taken before or by
        an earlier callable (`before`). */
    method RegisterCallable(owner: Option<string>, c: Callable, ghost taken: set<string>, ghost before: seq<string>)
      returns (r: Result<()>)
      requires Valid() && mediator.functions.Keys == taken + (set n | n in before)
      modifies mediator
      ensures Valid() && mediator.structs == old(mediator.structs) && mediator.entryPoint == old(mediator.entryPoint)
      ensures forall n :: n in old(mediator.functions) ==> n in mediator.functions && mediator.functions[n] == old(mediator.functions[n])
      ensures var names := before + (if c.Native? then [] else [QualifiedName(owner, c)]);
        Unclaimed(before, taken) ==>
        (&& (r.Ok? <==> Unclaimed(names, taken))
         && (r.Ok? ==> mediator.functions.Keys == taken + (set n | n in names)))
      ensures forall n :: n in mediator.functions && n !in old(mediator.functions) ==> fresh(mediator.functions[n])
    {
      r := Ok(());
      if !c.Native? {
        var qn := QualifiedName(owner, c);
        r := mediator.RegisterFunction(qn);
        ghost var names := before + [qn];
        assert names[|before|] == qn;
        if r.Fail? && qn !in taken {
          var j :| 0 <= j < |before| && before[j] == qn;
          assert names[j] == names[|before|];
        }
        assert (set n | n in names) == (set n | n in before) + {qn};
      }
    }

    /** `registerFunctions(callables, globalScope)` for the top-level
        callables. */
    method RegisterGlobals(cs: seq<Callable>) returns (r: Result<()>)
      requires Valid()
      modifies this`globals, mediator
      ensures Valid() && mediator.structs == old(mediator.structs) && mediator.entryPoint == old(mediator.entryPoint)
      ensures r.Ok? <==> Unclaimed(Registered(None, cs), old(mediator.functions.Keys))
      ensures r.Ok? ==> globals == Declared(GlobalScope(old(globals)), None, cs).entries
      ensures r.Ok? ==> mediator.functions.Keys == old(mediator.functions.Keys) + (set n | n in Registered(None, cs))
      ensures forall n :: n in old(mediator.functions) ==> n in mediator.functions && mediator.functions[n] == old(mediator.functions[n])
      ensures forall n :: n in mediator.functions && n !in old(mediator.functions) ==> fresh(mediator.functions[n])
    {
      var u := RegisterCallables(None, cs, Some(GlobalScope(globals)));
      if u.Fail? {
        return Fail(u.failure);
      }
      globals := u.value.value.entries;
      r := Ok(());
    }

    /** `registerImplementations`: the methods of each implementation are
        registered as `type$name` and added to the struct scope of `type`,
        which must exist once there is a method to add. */
    method RegisterImplementations(impls: seq<Impl>) returns (r: Result<()>)
      requires Valid()
      modifies this`types, mediator
      ensures Valid() && mediator.structs == old(mediator.structs) && mediator.entryPoint == old(mediator.entryPoint)
      ensures types.Keys == old(types.Keys)
      ensures forall n :: n in old(mediator.functions) ==> n in mediator.functions && mediator.functions[n] == old(mediator.functions[n])
      ensures r.Ok? ==> forall k :: 0 <= k < |impls| ==> impls[k].impls == [] || impls[k].forType in types
      ensures r.Ok? ==> forall k, n :: 0 <= k < |impls| && n in Registered(Some(impls[k].forType), impls[k].impls) ==>
        n in mediator.functions
      ensures (exists k :: 0 <= k < |impls| && impls[k].impls != [] && impls[k].forType !in old(types)) ==> r.Fail?
      ensures forall n :: n in mediator.functions && n !in old(mediator.functions) ==> fresh(mediator.functions[n])
    {
      var i := 0;
      while i < |impls|
        invariant 0 <= i <= |impls| && Valid() && types.Keys == old(types.Keys)
        invariant mediator.structs == old(mediator.structs) && mediator.entryPoint == old(mediator.entryPoint)
        invariant forall n :: n in old(mediator.functions) ==> n in mediator.functions && mediator.functions[n] == old(mediator.functions[n])
        invariant ImplsRegistered(impls, i, types.Keys, mediator.functions.Keys)
        invariant forall n :: n in mediator.functions && n !in old(mediator.functions) ==> fresh(mediator.functions[n])
      {
        ghost var keys := mediator.functions.Keys;
        var u := RegisterImplementation(impls[i]);
        if u.Fail? {
          return Fail(u.failure);
        }
        ImplsRegisteredStep(impls, i, types.Keys, keys, mediator.functions.Keys);
        i := i + 1;
      }
      r := Ok(());
    }

    /** One round of `registerImplementations`: the methods of `impl` are
        registered and added to the struct scope of its type. */
    method RegisterImplementation(impl: Impl) returns (r: Result<()>)
      requires Valid()
      modifies this`types, mediator
      ensures Valid() && mediator.structs == old(mediator.structs) && mediator.entryPoint == old(mediator.entryPoint)
      ensures types.Keys == old(types.Keys)
      ensures forall n :: n in old(mediator.functions) ==> n in mediator.functions && mediator.functions[n] == old(mediator.functions[n])
      ensures r.Ok? ==> impl.impls == [] || impl.forType in types
      ensures r.Ok? ==> forall n :: n in Registered(Some(impl.forType), impl.impls) ==> n in mediator.functions
      ensures forall n :: n in mediator.functions && n !in old(mediator.functions) ==> fresh(mediator.functions[n])
    {
      var tn := impl.forType;
      var target := if tn in types then Some(types[tn]) else None;
      var u := RegisterCallables(Some(tn), impl.impls, target);
      if u.Fail? {
        return Fail(u.failure);
      }
      if u.value.Some? {
        types := types[tn := u.value.value];
      }
      r := Ok(());
    }

    /** `visitFieldTree`: the next free address is the field's slot; the name
        is appended to the struct and entered into its scope. */
    method VisitField(sname: string, f: Field)
      requires currentStruct != null && sname in types
      modifies this`nextFreeAddress, this`types, currentStruct
      ensures nextFreeAddress == old(nextFreeAddress) + 1
      ensures types == old(types)[sname := Add(old(types[sname]), f.name, GenEntry(Some(f.ty), f.name, FIELD, old(nextFreeAddress)))]
      ensures currentStruct.fields == old(currentStruct.fields) + [f.name] && currentStruct.methods == old(currentStruct.methods)
    {
      var address := nextFreeAddress;
      nextFreeAddress := nextFreeAddress + 1;
      currentStruct.PutField(f.name);
      types := types[sname := Add(types[sname], f.name, GenEntry(Some(f.ty), f.name, FIELD, address))];
    }

    /** `visitStructTree`: a fresh struct scope, addresses from 0, the
        registered struct entered, then the fields in order. */
    method VisitStruct(sd: StructDecl)
      requires mediator.Valid() && sd.name in mediator.structs
      modifies this`types, this`nextFreeAddress, this`currentStruct, mediator.structs[sd.name]
      ensures types == old(types)[sd.name := FieldScope(sd.fields)]
      ensures currentStruct == mediator.structs[sd.name] && nextFreeAddress == |sd.fields|
      ensures currentStruct.fields == old(mediator.structs[sd.name].fields) + FieldNames(sd.fields)
      ensures currentStruct.methods == old(mediator.structs[sd.name].methods)
    {
      types := types[sd.name := StructScope(map[], [], [])];
      nextFreeAddress := 0;
      currentStruct := mediator.GetStruct(sd.name);
      var fs := sd.fields;
      var i := 0;
      while i < |fs|
        invariant 0 <= i <= |fs| && nextFreeAddress == i && currentStruct == mediator.structs[sd.name]
        invariant types == old(types)[sd.name := FieldScope(fs[..i])]
        invariant currentStruct.fields == old(mediator.structs[sd.name].fields) + FieldNames(fs[..i])
        invariant currentStruct.methods == old(mediator.structs[sd.name].methods)
      {
        assert fs[..i + 1][..i] == fs[..i];
        VisitField(sd.name, fs[i]);
        i := i + 1;
      }
      assert fs[..|fs|] == fs;
    }

    /** `genStructs`: every struct is registered (a name taken already
        throws), then each is visited. */
    method GenStructs(ss: seq<StructDecl>) returns (r: Result<()>)
      requires Valid()
      modifies this`types, this`nextFreeAddress, this`currentStruct, mediator
      ensures Valid() && mediator.functions == old(mediator.functions) && mediator.entryPoint == old(mediator.entryPoint)
      ensures r.Ok? <==> Unclaimed(StructNames(ss), old(mediator.structs.Keys))
      ensures forall n :: n in old(mediator.structs) ==> n in mediator.structs && mediator.structs[n] == old(mediator.structs[n])
      ensures r.Ok? ==> forall k :: 0 <= k < |ss| ==>
        (ss[k].name in types && types[ss[k].name] == FieldScope(ss[k].fields)
         && ss[k].name in mediator.structs && mediator.structs[ss[k].name].fields == FieldNames(ss[k].fields)
         && mediator.structs[ss[k].name].methods == map[])
      ensures r.Ok? ==> forall t :: t in old(types) && t !in StructNames(ss) ==> t in types && types[t] == old(types[t])
      ensures forall n :: n in mediator.structs && n !in old(mediator.structs) ==> fresh(mediator.structs[n])
    {
      r := RegisterStructs(ss);
      if r.Ok? {
        VisitStructs(ss);
      }
    }

    /** The registrations of `genStructs`, in order. */
    method RegisterStructs(ss: seq<StructDecl>) returns (r: Result<()>)
      requires Valid()
      modifies mediator
      ensures Valid() && mediator.functions == old(mediator.functions) && mediator.entryPoint == old(mediator.entryPoint)
      ensures r.Ok? <==> Unclaimed(StructNames(ss), old(mediator.structs.Keys))
      ensures forall n :: n in old(mediator.structs) ==> n in mediator.structs && mediator.structs[n] == old(mediator.structs[n])
      ensures r.Ok? ==> forall k :: 0 <= k < |ss| ==>
        (ss[k].name in mediator.structs && fresh(mediator.structs[ss[k].name])
         && mediator.structs[ss[k].name].fields == [] && mediator.structs[ss[k].name].methods == map[])
      ensures forall n :: n in mediator.structs && n !in old(mediator.structs) ==> fresh(mediator.structs[n])
    {
      var i := 0;
      while i < |ss|
        invariant 0 <= i <= |ss| && Valid()
        invariant mediator.functions == old(mediator.functions) && mediator.entryPoint == old(mediator.entryPoint)
        invariant Unclaimed(StructNames(ss)[..i], old(mediator.structs.Keys))
        invariant mediator.structs.Keys == old(mediator.structs.Keys) + (set n | n in StructNames(ss)[..i])
        invariant forall n :: n in old(mediator.structs) ==> n in mediator.structs && mediator.structs[n] == old(mediator.structs[n])
        invariant forall n :: n in mediator.structs && n !in old(mediator.structs) ==>
          (fresh(mediator.structs[n]) && mediator.structs[n].fields == [] && mediator.structs[n].methods == map[])
      {
        assert StructNames(ss)[..i + 1] == StructNames(ss)[..i] + [ss[i].name];
        var u := RegisterStruct(ss[i].name, old(mediator.structs.Keys), StructNames(ss)[..i]);
        if u.Fail? {
          UnclaimedPrefix(StructNames(ss)[..i + 1], StructNames(ss), old(mediator.structs.Keys));
          return Fail(u.failure);
        }
        i := i + 1;
      }
      assert StructNames(ss)[..|ss|] == StructNames(ss);
      r := Ok(());
    }

    /** One registration of `genStructs`, which fails exactly when the name
        is taken before or by an earlier struct (`before`). */
    method RegisterStruct(name: string, ghost taken: set<string>, ghost before: seq<string>) returns (r: Result<()>)
      requires Valid() && mediator.structs.Keys == taken + (set n | n in before)
      modifies mediator
      ensures Valid() && mediator.functions == old(mediator.functions) && mediator.entryPoint == old(mediator.entryPoint)
      ensures forall n :: n in old(mediator.structs) ==> n in mediator.structs && mediator.structs[n] == old(mediator.structs[n])
      ensures Unclaimed(before, taken) ==> (r.Ok? <==> Unclaimed(before + [name], taken))
      ensures r.Ok? ==> (mediator.structs.Keys == taken + (set n | n in before + [name]) && fresh(mediator.structs[name])
        && mediator.structs[name].fields == [] && mediator.structs[name].methods == map[])
      ensures forall n :: n in mediator.structs && n !in old(mediator.structs) ==> fresh(mediator.structs[n])
    {
      r := mediator.RegisterStruct(name);
      ghost var names := before + [name];
      assert names[|before|] == name;
      if r.Fail? && name !in taken {
        var j :| 0 <= j < |before| && before[j] == name;
        assert names[j] == names[|before|];
      }
      assert (set n | n in names) == (set n | n in before) + {name};
    }

    /** The `scan(structs)` of `genStructs`, once every name is registered
        once. */
    method VisitStructs(ss: seq<StructDecl>)
      requires mediator.Valid() && Unclaimed(StructNames(ss), {})
      requires forall k :: 0 <= k < |ss| ==>
        (ss[k].name in mediator.structs && mediator.structs[ss[k].name].fields == []
         && mediator.structs[ss[k].name].methods == map[])
      modifies this`types, this`nextFreeAddress, this`currentStruct
      modifies set k | 0 <= k < |ss| :: mediator.structs[ss[k].name]
      ensures forall k :: 0 <= k < |ss| ==>
        (ss[k].name in types && types[ss[k].name] == FieldScope(ss[k].fields)
         && mediator.structs[ss[k].name].fields == FieldNames(ss[k].fields)
         && mediator.structs[ss[k].name].methods == map[])
      ensures forall t :: t in old(types) && t !in StructNames(ss) ==> t in types && types[t] == old(types[t])
    {
      var i := 0;
      while i < |ss|
        invariant 0 <= i <= |ss|
        invariant forall k :: i <= k < |ss| ==> mediator.structs[ss[k].name].fields == []
        invariant forall k :: 0 <= k < |ss| ==> mediator.structs[ss[k].name].methods == map[]
        invariant forall k :: 0 <= k < i ==>
          (ss[k].name in types && types[ss[k].name] == FieldScope(ss[k].fields)
           && mediator.structs[ss[k].name].fields == FieldNames(ss[k].fields))
        invariant forall t :: t in old(types) && t !in StructNames(ss) ==> t in types && types[t] == old(types[t])
      {
        VisitNextStruct(ss, i, old(types));
        i := i + 1;
      }
    }

    /** One round of `VisitStructs`: struct `i` gets its scope and fields;
        the other structs, whose names differ, are left alone. */
    method VisitNextStruct(ss: seq<StructDecl>, i: nat, ghost types0: map<string, Scope<GenEntry>>)
      requires mediator.Valid() && Unclaimed(StructNames(ss), {}) && i < |ss|
      requires forall k :: 0 <= k < |ss| ==> ss[k].name in mediator.structs
      requires forall k :: i <= k < |ss| ==> mediator.structs[ss[k].name].fields == []
      requires forall k :: 0 <= k < |ss| ==> mediator.structs[ss[k].name].methods == map[]
      requires forall k :: 0 <= k < i ==>
        (ss[k].name in types && types[ss[k].name] == FieldScope(ss[k].fields)
         && mediator.structs[ss[k].name].fields == FieldNames(ss[k].fields))
      requires forall t :: t in types0 && t !in StructNames(ss) ==> t in types && types[t] == types0[t]
      modifies this`types, this`nextFreeAddress, this`currentStruct, mediator.structs[ss[i].name]
      ensures forall k :: i < k < |ss| ==> mediator.structs[ss[k].name].fields == []
      ensures forall k :: 0 <= k < |ss| ==> mediator.structs[ss[k].name].methods == map[]
      ensures forall k :: 0 <= k <= i ==>
        (ss[k].name in types && types[ss[k].name] == FieldScope(ss[k].fields)
         && mediator.structs[ss[k].name].fields == FieldNames(ss[k].fields))
      ensures forall t :: t in types0 && t !in StructNames(ss) ==> t in types && types[t] == types0[t]
    {
      assert forall k :: 0 <= k < |ss| && k != i ==> StructNames(ss)[k] != StructNames(ss)[i];
      assert forall k :: 0 <= k < |ss| && k != i ==>
        mediator.structs[ss[k].name].name != mediator.structs[ss[i].name].name;
      VisitStruct(ss[i]);
    }

    /** `genTemplates`: per template, the return types of its methods. */
    method GenTemplates(ts: seq<Template>)
      modifies this`templates
      ensures templates == TemplateTable(old(templates), ts)
    {
      var i := 0;
      while i < |ts|
        invariant 0 <= i <= |ts| && templates == TemplateTable(old(templates), ts[..i])
      {
        assert ts[..i + 1][..i] == ts[..i];
        var methods := TemplateMethods(ts[i].methods);
        templates := templates[ts[i].name := methods];
        i := i + 1;
      }
      assert ts[..|ts|] == ts;
    }

    /** One method of `visitImplementationTree`: the function `type$name` is
        marked as a method (a native method was never registered, so this
        throws), the struct's method table maps the plain name to the pool
        entry of the function, and the method is visited in the struct's
        scope. */
    method VisitMethod(tn: string, c: Callable, target: Option<Scope<GenEntry>>, ghost names: set<string>)
      returns (r: Result<()>, a: nat)
      requires Valid() && thisEntry.Some? && Marked(names)
      modifies this`currentFunction, this`nextFreeAddress, this`currLine, this`log, this`header, mediator, pool
      modifies if MethodName(tn, c.name) in mediator.functions then {mediator.functions[MethodName(tn, c.name)]} else {}
      modifies if tn in mediator.structs then {mediator.structs[tn]} else {}
      ensures Valid() && old(pool.entries) <= pool.entries && old(log) <= log
      ensures mediator.functions == old(mediator.functions) && mediator.structs == old(mediator.structs)
      ensures mediator.entryPoint == old(mediator.entryPoint)
      ensures MethodName(tn, c.name) !in mediator.functions || tn !in mediator.structs ==> r == Fail(NPE)
      ensures r.Ok? ==> (MethodName(tn, c.name) in mediator.functions && mediator.functions[MethodName(tn, c.name)].isMethod
        && tn in mediator.structs && Holds(a, MethodConstant(tn, c))
        && mediator.structs[tn].methods == old(mediator.structs[tn].methods)[c.name := a]
        && mediator.structs[tn].fields == old(mediator.structs[tn].fields))
      ensures r.Ok? ==> Marked(names + {MethodName(tn, c.name)})
    {
      r, a := RegisterMethod(tn, c);
      if r.Fail? {
        return;
      }
      ghost var p0 := pool.entries;
      ghost var qn := MethodName(tn, c.name);
      assert Marked(names + {qn});
      label registered:
      r := VisitBody(MethodName(tn, c.name), c, target);
      assert pool.entries[a] == p0[a];
      forall n | r.Ok? && n in names + {qn}
        ensures n in mediator.functions && mediator.functions[n].isMethod
      {
        if n != qn {
          assert mediator.functions[n].name != mediator.functions[qn].name;
          assert old@registered(mediator.functions[n].isMethod);
        }
      }
    }

    /** `scan(method, targetStruct)`: a function is generated, a native one
        only gets its pool entry. */
    method VisitBody(qn: string, c: Callable, target: Option<Scope<GenEntry>>) returns (r: Result<()>)
      requires Valid() && thisEntry.Some?
      modifies this`currentFunction, this`nextFreeAddress, this`currLine, this`log, this`header, mediator, pool
      modifies if qn in mediator.functions then {mediator.functions[qn]} else {}
      ensures Valid() && old(pool.entries) <= pool.entries && old(log) <= log
      ensures mediator.functions == old(mediator.functions) && mediator.structs == old(mediator.structs)
      ensures mediator.entryPoint == old(mediator.entryPoint)
      ensures r.Ok? && qn in mediator.functions ==> mediator.functions[qn].isMethod == old(mediator.functions[qn].isMethod)
      ensures c.Native? ==> r.Ok?
    {
      r := Ok(());
      if c.Function? {
        ghost var bc;
        r, bc := VisitFunction(qn, c.params, c.body, false, target);
      } else {
        ghost var p0 := pool.entries;
        VisitNative(qn);
        P.InternedSpec(p0, P.NFunctionConstant(qn));
      }
    }

    /** The first half of a method of `visitImplementationTree`: the mark,
        the pool entry and the method table. */
    method RegisterMethod(tn: string, c: Callable) returns (r: Result<()>, a: nat)
      requires Valid()
      modifies pool
      modifies if MethodName(tn, c.name) in mediator.functions then {mediator.functions[MethodName(tn, c.name)]} else {}
      modifies if tn in mediator.structs then {mediator.structs[tn]} else {}
      ensures Valid() && old(pool.entries) <= pool.entries
      ensures forall n :: n in mediator.functions && old(mediator.functions[n].isMethod) ==> mediator.functions[n].isMethod
      ensures MethodName(tn, c.name) !in mediator.functions || tn !in mediator.structs ==> r == Fail(NPE)
      ensures r.Ok? ==> (MethodName(tn, c.name) in mediator.functions && mediator.functions[MethodName(tn, c.name)].isMethod
        && tn in mediator.structs && Holds(a, MethodConstant(tn, c))
        && mediator.structs[tn].methods == old(mediator.structs[tn].methods)[c.name := a]
        && mediator.structs[tn].fields == old(mediator.structs[tn].fields))
    {
      a := 0;
      var qn := MethodName(tn, c.name);
      var f := mediator.GetFunction(qn);
      if f == null {
        return Fail(NPE), 0;
      }
      f.MarkAsMethod();
      assert Valid();
      P.InternedSpec(pool.entries, MethodConstant(tn, c));
      if c.Function? {
        a := pool.PutVirtual(qn);
      } else {
        a := pool.PutNative(qn);
      }
      var writer := mediator.GetStruct(tn);
      if writer == null {
        return Fail(NPE), a;
      }
      writer.PutMethod(c.name, a);
      r := Ok(());
    }

    /** The functions the methods of an implementation for `tn` registered. */
    ghost function MethodFunctions(tn: string, ms: seq<Callable>): set<I.Function>
      reads mediator
    {
      set n | n in MethodNames(tn, ms) && n in mediator.functions :: mediator.functions[n]
    }

    /** `visitImplementationTree`: inside an implementation the receiver
        entry is set; each method is visited in order, and the entry is
        cleared at the end. */
    method VisitImpl(impl: Impl, ghost outer: set<string>) returns (r: Result<()>)
      requires Valid() && Marked(outer)
      modifies this`thisEntry, this`currentFunction, this`nextFreeAddress, this`currLine, this`log, this`header
      modifies mediator, pool, mediator.functions.Values, mediator.structs.Values
      ensures Valid() && old(pool.entries) <= pool.entries && old(log) <= log
      ensures mediator.functions == old(mediator.functions) && mediator.structs == old(mediator.structs)
      ensures mediator.entryPoint == old(mediator.entryPoint)
      ensures r.Ok? ==> thisEntry.None? && (impl.impls == [] || impl.forType in mediator.structs)
      ensures r.Ok? ==> Marked(outer + MethodNames(impl.forType, impl.impls))
      ensures r.Ok? && impl.impls != [] ==>
        MethodsLaid(pool.entries, mediator.structs[impl.forType].methods, impl.forType, impl.impls)
    {
      var target := if impl.forType in types then Some(types[impl.forType]) else None;
      thisEntry := Some(Receiver(impl));
      r := VisitMethods(impl.forType, impl.impls, target, outer);
      if r.Ok? {
        thisEntry := None;
      }
    }

    /** The loop of `visitImplementationTree` over the methods, in order. */
    /** Every name in `names` is a registered function marked as a method. */
    ghost predicate Marked(names: set<string>)
      reads mediator, mediator.functions.Values
    {
      forall n :: n in names ==> n in mediator.functions && mediator.functions[n].isMethod
    }

    method VisitMethods(tn: string, ms: seq<Callable>, target: Option<Scope<GenEntry>>, ghost outer: set<string>)
      returns (r: Result<()>)
      requires Valid() && thisEntry.Some? && Marked(outer)
      modifies this`currentFunction, this`nextFreeAddress, this`currLine, this`log, this`header
      modifies mediator, pool, MethodFunctions(tn, ms)
      modifies if tn in mediator.structs then {mediator.structs[tn]} else {}
      ensures Valid() && old(pool.entries) <= pool.entries && old(log) <= log
      ensures mediator.functions == old(mediator.functions) && mediator.structs == old(mediator.structs)
      ensures mediator.entryPoint == old(mediator.entryPoint)
      ensures r.Ok? ==> (ms == [] || tn in mediator.structs)
      ensures r.Ok? ==> Marked(outer + MethodNames(tn, ms))
      ensures r.Ok? && ms != [] ==> MethodsLaid(pool.entries, mediator.structs[tn].methods, tn, ms)
    {
      var i := 0;
      assert outer + MethodNames(tn, ms[..0]) == outer;
      while i < |ms|
        invariant 0 <= i <= |ms| && Valid()
        invariant old(pool.entries) <= pool.entries && old(log) <= log
        invariant mediator.functions == old(mediator.functions) && mediator.structs == old(mediator.structs)
        invariant mediator.entryPoint == old(mediator.entryPoint)
        invariant i > 0 ==> tn in mediator.structs
        invariant Marked(outer + MethodNames(tn, ms[..i]))
        invariant i > 0 ==> MethodsLaid(pool.entries, mediator.structs[tn].methods, tn, ms[..i])
      {
        r := VisitNextMethod(tn, ms, i, target, outer);
        if r.Fail? {
          return;
        }
        i := i + 1;
      }
      assert ms[..|ms|] == ms;
      r := Ok(());
    }

    /** One turn of the loop over the methods: visit `ms[i]`, extending what
        has been laid out for `ms[..i]` to `ms[..i + 1]`. */
    method VisitNextMethod(tn: string, ms: seq<Callable>, i: nat, target: Option<Scope<GenEntry>>, ghost outer: set<string>)
      returns (r: Result<()>)
      requires Valid() && thisEntry.Some? && i < |ms|
      requires i > 0 ==> tn in mediator.structs
      requires Marked(outer + MethodNames(tn, ms[..i]))
      requires i > 0 ==> MethodsLaid(pool.entries, mediator.structs[tn].methods, tn, ms[..i])
      modifies this`currentFunction, this`nextFreeAddress, this`currLine, this`log, this`header
      modifies mediator, pool, MethodFunctions(tn, ms)
      modifies if tn in mediator.structs then {mediator.structs[tn]} else {}
      ensures Valid() && old(pool.entries) <= pool.entries && old(log) <= log
      ensures mediator.functions == old(mediator.functions) && mediator.structs == old(mediator.structs)
      ensures mediator.entryPoint == old(mediator.entryPoint)
      ensures r.Ok? ==> tn in mediator.structs
      ensures r.Ok? ==> Marked(outer + MethodNames(tn, ms[..i + 1]))
      ensures r.Ok? ==> MethodsLaid(pool.entries, mediator.structs[tn].methods, tn, ms[..i + 1])
    {
      ghost var p0 := pool.entries;
      ghost var t0 := if tn in mediator.structs then mediator.structs[tn].methods else map[];
      assert MethodName(tn, ms[i].name) in MethodNames(tn, ms);
      var a;
      r, a := VisitMethod(tn, ms[i], target, outer + MethodNames(tn, ms[..i]));
      if r.Fail? {
        return;
      }
      NextMethodLaid(p0, pool.entries, t0, tn, ms, i, a, outer);
    }

    /** `scan(callable, globalScope)` for a top-level callable: a function
        is generated under its own name at the top level, where `main`
        becomes the entry point; a native only enters the pool. */
    method VisitCallable(c: Callable) returns (r: Result<()>, ghost bc: seq<I.Instruction>)
      requires Valid() && thisEntry.None?
      modifies this`currentFunction, this`nextFreeAddress, this`currLine, this`log, this`header, mediator, pool
      modifies if c.name in mediator.functions then {mediator.functions[c.name]} else {}
      ensures Valid() && old(pool.entries) <= pool.entries && old(log) <= log
      ensures mediator.functions == old(mediator.functions) && mediator.structs == old(mediator.structs)
      ensures IsMain(c) ==> Holds(mediator.entryPoint, P.VFunctionConstant("main"))
      ensures !IsMain(c) ==> mediator.entryPoint == old(mediator.entryPoint)
      ensures c.Native? ==> r.Ok? && P.NFunctionConstant(c.name) in pool.entries
      ensures c.Function? && c.name !in mediator.functions ==> r == Fail(NPE)
      ensures r.Ok? && c.Function? ==> (c.name in mediator.functions && StmtCode(c.body, bc) in log
        && mediator.functions[c.name].instructions
           == old(mediator.functions[c.name].instructions) + Stores(0, |c.params|) + bc + [I.PushNull, I.Return])
    {
      match c
      case Function(name, ps, _, body, _) =>
        r, bc := VisitFunction(name, ps, body, true, Some(GlobalScope(globals)));
      case Native(name, _, _, _) =>
        P.InternedSpec(pool.entries, P.NFunctionConstant(name));
        VisitNative(name);
        r, bc := Ok(()), [];
    }

    /** `scan(rootTree.getCallables(), globalScope)`, in order. */
    method VisitCallables(cs: seq<Callable>) returns (r: Result<()>)
      requires Valid() && thisEntry.None?
      modifies this`currentFunction, this`nextFreeAddress, this`currLine, this`log, this`header
      modifies mediator, pool, mediator.functions.Values
      ensures Valid() && old(pool.entries) <= pool.entries && old(log) <= log
      ensures mediator.functions == old(mediator.functions) && mediator.structs == old(mediator.structs)
      ensures (forall k :: 0 <= k < |cs| ==> !IsMain(cs[k])) ==> mediator.entryPoint == old(mediator.entryPoint)
      ensures r.Ok? && (exists k :: 0 <= k < |cs| && IsMain(cs[k])) ==>
        Holds(mediator.entryPoint, P.VFunctionConstant("main"))
      ensures r.Ok? ==> forall k :: 0 <= k < |cs| ==>
        (cs[k].Native? ==> P.NFunctionConstant(cs[k].name) in pool.entries)
        && (cs[k].Function? ==> cs[k].name in mediator.functions)
    {
      var i := 0;
      while i < |cs|
        invariant 0 <= i <= |cs| && Valid()
        invariant old(pool.entries) <= pool.entries && old(log) <= log
        invariant mediator.functions == old(mediator.functions) && mediator.structs == old(mediator.structs)
        invariant (forall k :: 0 <= k < i ==> !IsMain(cs[k])) ==> mediator.entryPoint == old(mediator.entryPoint)
        invariant (exists k :: 0 <= k < i && IsMain(cs[k])) ==> Holds(mediator.entryPoint, P.VFunctionConstant("main"))
        invariant forall k :: 0 <= k < i ==>
          (cs[k].Native? ==> P.NFunctionConstant(cs[k].name) in pool.entries)
          && (cs[k].Function? ==> cs[k].name in mediator.functions)
      {
        ghost var p0 := pool.entries;
        ghost var e0 := mediator.entryPoint;
        ghost var bc;
        r, bc := VisitCallable(cs[i]);
        if r.Fail? {
          return;
        }
        assert forall k :: 0 <= k < i && cs[k].Native? ==> P.NFunctionConstant(cs[k].name) in p0;
        assert !IsMain(cs[i]) && 0 <= e0 < |p0| ==> pool.entries[e0] == p0[e0];
        i := i + 1;
      }
      r := Ok(());
    }

    /** `scan(rootTree.getImpls(), scope)`, in order. */
    method VisitImpls(impls: seq<Impl>) returns (r: Result<()>)
      requires Valid()
      modifies this`thisEntry, this`currentFunction, this`nextFreeAddress, this`currLine, this`log, this`header
      modifies mediator, pool, mediator.functions.Values, mediator.structs.Values
      ensures Valid() && old(pool.entries) <= pool.entries && old(log) <= log
      ensures mediator.functions == old(mediator.functions) && mediator.structs == old(mediator.structs)
      ensures mediator.entryPoint == old(mediator.entryPoint)
      ensures r.Ok? ==> thisEntry == if impls == [] then old(thisEntry) else None
      ensures r.Ok? ==> Marked(ImplMethodNames(impls))
    {
      var i := 0;
      while i < |impls|
        invariant 0 <= i <= |impls| && Valid()
        invariant old(pool.entries) <= pool.entries && old(log) <= log
        invariant mediator.functions == old(mediator.functions) && mediator.structs == old(mediator.structs)
        invariant mediator.entryPoint == old(mediator.entryPoint)
        invariant thisEntry == if i == 0 then old(thisEntry) else None
        invariant Marked(ImplMethodNames(impls[..i]))
      {
        r := VisitImpl(impls[i], ImplMethodNames(impls[..i]));
        if r.Fail? {
          return;
        }
        NextImplNames(impls, i);
        i := i + 1;
      }
      assert impls[..|impls|] == impls;
      r := Ok(());
    }

    /** `visitRootTree`: the structs are registered and laid out, the
        template tables filled, the methods of every implementation and then
        the top-level callables registered; then the callables and the
        implementations are generated, in that order. */
    method VisitRoot(root: Root) returns (r: Result<()>)
      requires Valid() && thisEntry.None?
      modifies this, mediator, pool, mediator.functions.Values, mediator.structs.Values
      ensures Valid()
      ensures r.Ok? ==> Unclaimed(StructNames(root.structs), old(mediator.structs.Keys))
      ensures r.Ok? ==> forall k :: 0 <= k < |root.structs| ==> root.structs[k].name in mediator.structs
      ensures r.Ok? ==> templates == TemplateTable(old(templates), root.templates)
      ensures r.Ok? ==> forall k :: 0 <= k < |root.impls| ==> root.impls[k].impls == [] || root.impls[k].forType in types
      ensures r.Ok? ==> forall n :: n in Registered(None, root.callables) ==> n in mediator.functions
      ensures r.Ok? ==> forall k :: 0 <= k < |root.callables| && root.callables[k].Native? ==>
        P.NFunctionConstant(root.callables[k].name) in pool.entries
      ensures (forall k :: 0 <= k < |root.callables| ==> !IsMain(root.callables[k])) ==>
        mediator.entryPoint == old(mediator.entryPoint)
      ensures r.Ok? && (exists k :: 0 <= k < |root.callables| && IsMain(root.callables[k])) ==>
        Holds(mediator.entryPoint, P.VFunctionConstant("main"))
      ensures r.Ok? ==> thisEntry.None? && Marked(ImplMethodNames(root.impls))
    {
      r := DeclareRoot(root);
      if r.Ok? {
        assert forall f :: f in mediator.functions.Values ==> f in old(mediator.functions.Values) || fresh(f);
        assert forall f :: f in mediator.structs.Values ==> f in old(mediator.structs.Values) || fresh(f);
        r := GenerateRoot(root);
      }
    }

    /** The first half of `visitRootTree`: what is declared before any code
        is generated. */
    method DeclareRoot(root: Root) returns (r: Result<()>)
      requires Valid()
      modifies this`types, this`nextFreeAddress, this`currentStruct, this`templates, this`globals, mediator
      ensures Valid() && mediator.entryPoint == old(mediator.entryPoint)
      ensures forall n :: n in mediator.functions && n !in old(mediator.functions) ==> fresh(mediator.functions[n])
      ensures forall n :: n in mediator.structs && n !in old(mediator.structs) ==> fresh(mediator.structs[n])
      ensures forall n :: n in old(mediator.functions) ==> n in mediator.functions && mediator.functions[n] == old(mediator.functions[n])
      ensures forall n :: n in old(mediator.structs) ==> n in mediator.structs && mediator.structs[n] == old(mediator.structs[n])
      ensures r.Ok? ==> Unclaimed(StructNames(root.structs), old(mediator.structs.Keys))
      ensures r.Ok? ==> forall k :: 0 <= k < |root.structs| ==> root.structs[k].name in mediator.structs
      ensures r.Ok? ==> templates == TemplateTable(old(templates), root.templates)
      ensures r.Ok? ==> forall k :: 0 <= k < |root.impls| ==> root.impls[k].impls == [] || root.impls[k].forType in types
      ensures r.Ok? ==> forall n :: n in Registered(None, root.callables) ==> n in mediator.functions
    {
      r := GenStructs(root.structs);
      if r.Fail? {
        return;
      }
      GenTemplates(root.templates);
      r := RegisterImplementations(root.impls);
      if r.Fail? {
        return;
      }
      r := RegisterGlobals(root.callables);
    }

    /** The second half of `visitRootTree`: the callables, then the
        implementations. */
    method GenerateRoot(root: Root) returns (r: Result<()>)
      requires Valid() && thisEntry.None?
      modifies this`thisEntry, this`currentFunction, this`nextFreeAddress, this`currLine, this`log, this`header
      modifies mediator, pool, mediator.functions.Values, mediator.structs.Values
      ensures Valid() && old(pool.entries) <= pool.entries && old(log) <= log
      ensures mediator.functions == old(mediator.functions) && mediator.structs == old(mediator.structs)
      ensures r.Ok? ==> forall k :: 0 <= k < |root.callables| && root.callables[k].Native? ==>
        P.NFunctionConstant(root.callables[k].name) in pool.entries
      ensures (forall k :: 0 <= k < |root.callables| ==> !IsMain(root.callables[k])) ==>
        mediator.entryPoint == old(mediator.entryPoint)
      ensures r.Ok? && (exists k :: 0 <= k < |root.callables| && IsMain(root.callables[k])) ==>
        Holds(mediator.entryPoint, P.VFunctionConstant("main"))
      ensures r.Ok? ==> thisEntry.None? && Marked(ImplMethodNames(root.impls))
    {
      r := VisitCallables(root.callables);
      if r.Fail? {
        return;
      }
      ghost var p0 := pool.entries;
      r := VisitImpls(root.impls);
      if r.Fail? {
        return;
      }
      assert forall k :: 0 <= k < |root.callables| && root.callables[k].Native? ==>
        P.NFunctionConstant(root.callables[k].name) in p0;
      assert 0 <= mediator.entryPoint < |p0| ==> pool.entries[mediator.entryPoint] == p0[mediator.entryPoint];
    }
  }
}
