/** `rabbitc.PrecedenceCalculator`: the binding strengths of the binary and
    assignment operator tokens, and the tree each operator builds. */
module Precedence {
  import opened Wrappers
  import opened Ast
  import Tok = Tokens
  import Op = Operations

  /** The static `precedences` table, level by level; `None` for a tag with
      no entry. */
  function Table(k: Tok.TokenKind): Option<nat> {
    if k.DOT? then Some(100)
    else if k.MUL? || k.IDIV? || k.DIV? || k.MOD? then Some(70)
    else if k.PLUS? || k.MINUS? then Some(60)
    else if k.SHIFT_AL? || k.SHIFT_AR? then Some(50)
    else if k.GREATER? || k.LESS? || k.GREATER_EQ? || k.LESS_EQ? then Some(40)
    else if k.EQUALS? || k.NOT_EQUALS? then Some(30)
    else if k.AND_BIT? then Some(21)
    else if k.XOR? then Some(20)
    else if k.OR_BIT? then Some(19)
    else if k.OR? then Some(18)
    else if k.AND? then Some(17)
    else if k.EQ_ASSIGN? || k.ADD_ASSIGN? || k.SUB_ASSIGN? || k.MUL_ASSIGN? || k.DIV_ASSIGN?
      || k.IDIV_ASSIGN? || k.MOD_ASSIGN? || k.POW_ASSIGN? || k.SHIFT_AL_ASSIGN?
      || k.SHIFT_AR_ASSIGN? || k.SHIFT_LR_ASSIGN? then Some(0)
    else None
  }

  /** `isBinaryOperator`: the tag has a table entry. */
  predicate IsBinaryOperator(t: Tok.Token) {
    Table(t.tag).Some?
  }

  /** `calculate`: the table value, or `IllegalStateException` for a tag
      without an entry. */
  function Calculate(t: Tok.Token): (r: Result<nat>)
    ensures r.Ok? <==> IsBinaryOperator(t)
    ensures r.Ok? ==> Table(t.tag) == Some(r.value)
  {
    if !IsBinaryOperator(t) then Fail(Thrown("IllegalStateException"))
    else Ok(Table(t.tag).value)
  }

  /** The tags `apply` turns into a plain binary operation, grouped by
      precedence level. */
  predicate IsPlainOperator(k: Tok.TokenKind) {
    IsMultiplicative(k) || IsAdditive(k) || IsShift(k) || IsRelational(k)
    || IsEquality(k) || IsBitwise(k) || IsLogical(k)
  }

  predicate IsMultiplicative(k: Tok.TokenKind) {
    k.MUL? || k.DIV? || k.IDIV? || k.MOD?
  }

  predicate IsAdditive(k: Tok.TokenKind) {
    k.PLUS? || k.MINUS?
  }

  predicate IsShift(k: Tok.TokenKind) {
    k.SHIFT_AL? || k.SHIFT_AR?
  }

  predicate IsRelational(k: Tok.TokenKind) {
    k.GREATER? || k.LESS? || k.GREATER_EQ? || k.LESS_EQ?
  }

  predicate IsEquality(k: Tok.TokenKind) {
    k.EQUALS? || k.NOT_EQUALS?
  }

  predicate IsBitwise(k: Tok.TokenKind) {
    k.AND_BIT? || k.XOR? || k.OR_BIT?
  }

  predicate IsLogical(k: Tok.TokenKind) {
    k.OR? || k.AND?
  }

  /** The tags `apply` turns into an assignment of a binary operation. */
  predicate IsCompoundAssign(k: Tok.TokenKind) {
    k.ADD_ASSIGN? || k.SUB_ASSIGN? || k.MUL_ASSIGN? || k.DIV_ASSIGN? || k.IDIV_ASSIGN?
    || k.MOD_ASSIGN? || k.POW_ASSIGN? || k.SHIFT_LR_ASSIGN? || k.SHIFT_AL_ASSIGN?
    || k.SHIFT_AR_ASSIGN? || k.AND_ASSIGN? || k.OR_ASSIGN?
  }

  /** `Operation.of`, which throws `AssertionError` when nothing matches. */
  function OfOrThrow(name: string): Result<Op.Operation> {
    match Op.Of(name)
    case Some(o) => Ok(o)
    case None => Fail(Thrown("AssertionError"))
  }

  /** `Operation.withoutAssign`, throwing like `of`. */
  function WithoutAssignOrThrow(name: string): Result<Op.Operation> {
    match Op.WithoutAssign(name)
    case Some(o) => Ok(o)
    case None => Fail(Thrown("AssertionError"))
  }

  /** `apply(op, lhs, rhs)`. The operation is looked up by the tag's name,
      not by the token's lexeme. A compound assignment puts the same `lhs`
      on both sides. */
  function Apply(op: Tok.Token, lhs: Expr, rhs: Expr): Result<Expr> {
    var k := op.tag;
    if k.EQ_ASSIGN? then Ok(Assign(lhs, rhs, op.loc))
    else if IsCompoundAssign(k) then
      var o :- WithoutAssignOrThrow(Tok.Name(k).value);
      Ok(Assign(lhs, BinOp(o, lhs, rhs, op.loc), op.loc))
    else if IsPlainOperator(k) then
      var o :- OfOrThrow(Tok.Name(k).value);
      Ok(BinOp(o, lhs, rhs, op.loc))
    else Fail(Thrown("IllegalStateException"))
  }

  /** The operation a plain operator tag denotes. */
  function PlainOperation(k: Tok.TokenKind): Op.Operation
    requires IsPlainOperator(k)
  {
    match k
    case PLUS => Op.ADD
    case MINUS => Op.SUB
    case MUL => Op.MUL
    case DIV => Op.DIV
    case IDIV => Op.IDIV
    case MOD => Op.MOD
    case SHIFT_AL => Op.SHIFT_AL
    case SHIFT_AR => Op.SHIFT_AR
    case AND => Op.AND
    case OR => Op.OR
    case XOR => Op.XOR
    case GREATER => Op.GREATER
    case LESS => Op.LESS
    case GREATER_EQ => Op.GREATER_EQ
    case NOT_EQUALS => Op.NOT_EQUALS
    case EQUALS => Op.EQUALS
    case LESS_EQ => Op.LESS_EQ
    case AND_BIT => Op.AND_BIT
    case OR_BIT => Op.OR_BIT
  }

  /** Each plain operator tag is spelled like the operation it denotes. */
  lemma PlainSpelling(k: Tok.TokenKind)
    requires IsPlainOperator(k)
    ensures Tok.Name(k) == Some(Op.Encoding(PlainOperation(k)))
  {
    if IsMultiplicative(k) {
      MultiplicativeSpelling(k);
    } else if IsAdditive(k) {
      AdditiveSpelling(k);
    } else if IsShift(k) {
      ShiftSpelling(k);
    } else if IsRelational(k) {
      RelationalSpelling(k);
    } else if IsEquality(k) {
      EqualitySpelling(k);
    } else if IsBitwise(k) {
      BitwiseSpelling(k);
    } else {
      LogicalSpelling(k);
    }
  }

  lemma MultiplicativeSpelling(k: Tok.TokenKind)
    requires IsMultiplicative(k)
    ensures Tok.Name(k) == Some(Op.Encoding(PlainOperation(k)))
  {
    match k
    case MUL => assert Tok.Name(Tok.MUL) == Some("*") == Some(Op.Encoding(Op.MUL));
    case DIV => assert Tok.Name(Tok.DIV) == Some("/") == Some(Op.Encoding(Op.DIV));
    case IDIV => assert Tok.Name(Tok.IDIV) == Some("//") == Some(Op.Encoding(Op.IDIV));
    case MOD => assert Tok.Name(Tok.MOD) == Some("%") == Some(Op.Encoding(Op.MOD));
  }

  lemma AdditiveSpelling(k: Tok.TokenKind)
    requires IsAdditive(k)
    ensures Tok.Name(k) == Some(Op.Encoding(PlainOperation(k)))
  {
    match k
    case PLUS => assert Tok.Name(Tok.PLUS) == Some("+") == Some(Op.Encoding(Op.ADD));
    case MINUS => assert Tok.Name(Tok.MINUS) == Some("-") == Some(Op.Encoding(Op.SUB));
  }

  lemma ShiftSpelling(k: Tok.TokenKind)
    requires IsShift(k)
    ensures Tok.Name(k) == Some(Op.Encoding(PlainOperation(k)))
  {
    match k
    case SHIFT_AL => assert Tok.Name(Tok.SHIFT_AL) == Some("<<") == Some(Op.Encoding(Op.SHIFT_AL));
    case SHIFT_AR => assert Tok.Name(Tok.SHIFT_AR) == Some(">>") == Some(Op.Encoding(Op.SHIFT_AR));
  }

  lemma RelationalSpelling(k: Tok.TokenKind)
    requires IsRelational(k)
    ensures Tok.Name(k) == Some(Op.Encoding(PlainOperation(k)))
  {
    match k
    case GREATER => assert Tok.Name(Tok.GREATER) == Some(">") == Some(Op.Encoding(Op.GREATER));
    case LESS => assert Tok.Name(Tok.LESS) == Some("<") == Some(Op.Encoding(Op.LESS));
    case GREATER_EQ => assert Tok.Name(Tok.GREATER_EQ) == Some(">=") == Some(Op.Encoding(Op.GREATER_EQ));
    case LESS_EQ => assert Tok.Name(Tok.LESS_EQ) == Some("<=") == Some(Op.Encoding(Op.LESS_EQ));
  }

  lemma EqualitySpelling(k: Tok.TokenKind)
    requires IsEquality(k)
    ensures Tok.Name(k) == Some(Op.Encoding(PlainOperation(k)))
  {
    match k
    case EQUALS => assert Tok.Name(Tok.EQUALS) == Some("==") == Some(Op.Encoding(Op.EQUALS));
    case NOT_EQUALS => assert Tok.Name(Tok.NOT_EQUALS) == Some("!=") == Some(Op.Encoding(Op.NOT_EQUALS));
  }

  lemma BitwiseSpelling(k: Tok.TokenKind)
    requires IsBitwise(k)
    ensures Tok.Name(k) == Some(Op.Encoding(PlainOperation(k)))
  {
    match k
    case AND_BIT => assert Tok.Name(Tok.AND_BIT) == Some("&") == Some(Op.Encoding(Op.AND_BIT));
    case XOR => assert Tok.Name(Tok.XOR) == Some("^") == Some(Op.Encoding(Op.XOR));
    case OR_BIT => assert Tok.Name(Tok.OR_BIT) == Some("|") == Some(Op.Encoding(Op.OR_BIT));
  }

  lemma LogicalSpelling(k: Tok.TokenKind)
    requires IsLogical(k)
    ensures Tok.Name(k) == Some(Op.Encoding(PlainOperation(k)))
  {
    match k
    case OR => assert Tok.Name(Tok.OR) == Some("||") == Some(Op.Encoding(Op.OR));
    case AND => assert Tok.Name(Tok.AND) == Some("&&") == Some(Op.Encoding(Op.AND));
  }

  /** A plain operator builds the binary operation its spelling denotes,
      over exactly the two operands, at the operator's location. */
  lemma ApplyPlain(op: Tok.Token, lhs: Expr, rhs: Expr)
    requires IsPlainOperator(op.tag)
    ensures Apply(op, lhs, rhs) == Ok(BinOp(PlainOperation(op.tag), lhs, rhs, op.loc))
  {
    var k := op.tag;
    var o := PlainOperation(k);
    PlainSpelling(k);
    Op.OfEncoding(o);
    ApplyOperator(op, lhs, rhs, o);
  }

  /** `apply` on a tag that is neither `=` nor a compound assignment builds
      the binary operation its name denotes. */
  lemma ApplyOperator(op: Tok.Token, lhs: Expr, rhs: Expr, o: Op.Operation)
    requires IsPlainOperator(op.tag) && Tok.Name(op.tag) == Some(Op.Encoding(o))
    requires Op.Of(Op.Encoding(o)) == Some(o)
    ensures Apply(op, lhs, rhs) == Ok(BinOp(o, lhs, rhs, op.loc))
  {
    PlainIsNoAssignment(op.tag);
  }

  /** No plain operator tag is an assignment. */
  lemma PlainIsNoAssignment(k: Tok.TokenKind)
    requires IsPlainOperator(k)
    ensures !k.EQ_ASSIGN? && !IsCompoundAssign(k)
  {
    if IsMultiplicative(k) {
    } else if IsAdditive(k) {
    } else if IsShift(k) {
    } else if IsRelational(k) {
    } else if IsEquality(k) {
    } else if IsBitwise(k) {
    } else {
    }
  }

  /** The operation a compound assignment applies, for those that have one. */
  function CompoundOperation(k: Tok.TokenKind): Op.Operation
    requires IsCompoundAssign(k) && !k.SHIFT_LR_ASSIGN?
  {
    match k
    case ADD_ASSIGN => Op.ADD
    case SUB_ASSIGN => Op.SUB
    case MUL_ASSIGN => Op.MUL
    case DIV_ASSIGN => Op.DIV
    case IDIV_ASSIGN => Op.IDIV
    case MOD_ASSIGN => Op.MOD
    case POW_ASSIGN => Op.XOR
    case SHIFT_AL_ASSIGN => Op.SHIFT_AL
    case SHIFT_AR_ASSIGN => Op.SHIFT_AR
    case AND_ASSIGN => Op.AND_BIT
    case OR_ASSIGN => Op.OR_BIT
  }

  lemma CompoundSpelling(k: Tok.TokenKind)
    requires IsCompoundAssign(k) && !k.SHIFT_LR_ASSIGN?
    ensures Tok.Name(k) == Some(Op.Encoding(CompoundOperation(k)) + "=")
  {
    match k
    case ADD_ASSIGN => assert Op.Encoding(Op.ADD) + "=" == "+=";
    case SUB_ASSIGN => assert Op.Encoding(Op.SUB) + "=" == "-=";
    case MUL_ASSIGN => assert Op.Encoding(Op.MUL) + "=" == "*=";
    case DIV_ASSIGN => assert Op.Encoding(Op.DIV) + "=" == "/=";
    case IDIV_ASSIGN => assert Op.Encoding(Op.IDIV) + "=" == "//=";
    case MOD_ASSIGN => assert Op.Encoding(Op.MOD) + "=" == "%=";
    case POW_ASSIGN => assert Op.Encoding(Op.XOR) + "=" == "^=";
    case SHIFT_AL_ASSIGN => assert Op.Encoding(Op.SHIFT_AL) + "=" == "<<=";
    case SHIFT_AR_ASSIGN => assert Op.Encoding(Op.SHIFT_AR) + "=" == ">>=";
    case AND_ASSIGN => assert Op.Encoding(Op.AND_BIT) + "=" == "&=";
    case OR_ASSIGN => assert Op.Encoding(Op.OR_BIT) + "=" == "|=";
  }

  /** `x op= y` becomes `x = x op y`, where both occurrences of `x` are the
      operand given, and `^=` is the XOR of the two. */
  lemma ApplyCompound(op: Tok.Token, lhs: Expr, rhs: Expr)
    requires IsCompoundAssign(op.tag) && !op.tag.SHIFT_LR_ASSIGN?
    ensures Apply(op, lhs, rhs) == Ok(Assign(lhs, BinOp(CompoundOperation(op.tag), lhs, rhs, op.loc), op.loc))
  {
    CompoundSpelling(op.tag);
    Op.WithoutAssignOf(CompoundOperation(op.tag));
  }

  /** `>>>=` has a precedence but no operation: `apply` throws. */
  lemma ApplyUnsignedShiftThrows(op: Tok.Token, lhs: Expr, rhs: Expr)
    requires op.tag.SHIFT_LR_ASSIGN?
    ensures IsBinaryOperator(op) && Apply(op, lhs, rhs) == Fail(Thrown("AssertionError"))
  {
    assert Tok.Name(Tok.SHIFT_LR_ASSIGN) == Some(">>>=");
    Op.WithoutAssignUnsignedShift();
  }

  /** The binary operator tokens are the plain operators, `.`, `=` and the
      compound assignments except `&=` and `|=`, which have no table entry. */
  lemma BinaryOperators(op: Tok.Token)
    ensures IsBinaryOperator(op) <==>
      (op.tag.EQ_ASSIGN? || IsPlainOperator(op.tag) || op.tag.DOT?
       || (IsCompoundAssign(op.tag) && !op.tag.AND_ASSIGN? && !op.tag.OR_ASSIGN?))
  {
    var k := op.tag;
    if IsPlainOperator(k) {
    } else if IsCompoundAssign(k) {
    } else if k.EQ_ASSIGN? || k.DOT? {
    } else {
      assert Table(k) == None;
    }
  }

  /** `apply` succeeds exactly on `=`, the plain operators and the compound
      assignments other than `>>>=`; in particular it rejects `.`, although
      `.` is a binary operator. */
  lemma ApplySucceeds(op: Tok.Token, lhs: Expr, rhs: Expr)
    ensures Apply(op, lhs, rhs).Ok? <==>
      (op.tag.EQ_ASSIGN? || IsPlainOperator(op.tag) || (IsCompoundAssign(op.tag) && !op.tag.SHIFT_LR_ASSIGN?))
  {
    if IsPlainOperator(op.tag) {
      ApplyPlain(op, lhs, rhs);
    } else if IsCompoundAssign(op.tag) {
      if op.tag.SHIFT_LR_ASSIGN? {
        ApplyUnsignedShiftThrows(op, lhs, rhs);
      } else {
        ApplyCompound(op, lhs, rhs);
      }
    }
  }

  /** Every table entry is zero exactly for the assignments. */
  lemma ZeroExactlyForAssignments(k: Tok.TokenKind)
    requires Table(k).Some?
    ensures Table(k).value == 0 <==> k.EQ_ASSIGN? || IsCompoundAssign(k)
  {
    if k.EQ_ASSIGN? || IsCompoundAssign(k) {
    } else if IsPlainOperator(k) {
    } else {
    }
  }

  /** The orderings the parser relies on: multiplicative above additive above
      shifts above relations above equality above the bit operators; `&&`
      binds looser than `||`; member access binds tightest. */
  lemma PrecedenceOrdering()
    ensures Table(Tok.AND).value < Table(Tok.OR).value < Table(Tok.OR_BIT).value
      < Table(Tok.XOR).value < Table(Tok.AND_BIT).value < Table(Tok.EQUALS).value
      < Table(Tok.LESS).value < Table(Tok.SHIFT_AL).value < Table(Tok.PLUS).value
      < Table(Tok.MUL).value < Table(Tok.DOT).value
  {
    assert Table(Tok.AND) == Some(17) && Table(Tok.OR) == Some(18) && Table(Tok.OR_BIT) == Some(19);
    assert Table(Tok.XOR) == Some(20) && Table(Tok.AND_BIT) == Some(21) && Table(Tok.EQUALS) == Some(30);
    assert Table(Tok.LESS) == Some(40) && Table(Tok.SHIFT_AL) == Some(50) && Table(Tok.PLUS) == Some(60);
    assert Table(Tok.MUL) == Some(70) && Table(Tok.DOT) == Some(100);
  }
}
