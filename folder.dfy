/** `computil.optim.Optimizer` and `computil.optim.ConstantFolder`: one
    rewriting pass over the arena tree. Every node is visited with its
    direct owner as the parent; a fold builds a new literal (or picks an
    existing subtree) and asks the parent to `replace` the folded node with
    it, OR-ing the answer into the pass's "performed" flag.

    Float arithmetic is not modelled: the float results are computed by the
    functions of a `FloatArith` parameter over bit patterns. A Java
    exception ends the pass; it is returned as `Threw`. The recursion of the
    visitor is bounded by `fuel`: the folder can make a node its own
    descendant (see `VisitVariable`), and a walk that runs out of fuel
    stands for the `StackOverflowError` the JVM raises. */
module Folding {
  import opened Wrappers
  import opened Diags
  import opened Operations
  import opened Int32
  import opened Trees

  /** A 32-bit pattern, as `Float.floatToIntBits` yields. */
  type Bits = x: int | MinInt <= x <= MaxInt

  /** The float operations of the folder, over bit patterns: `(float) i`,
      unary minus, `+ - * /`, the four comparisons, and the round trip
      `Float.intBitsToFloat` then `Float.floatToIntBits`. */
  datatype FloatArith = FloatArith(
    ofInt: Bits -> Bits,
    negate: Bits -> Bits,
    arith: (Operation, Bits, Bits) -> Bits,
    compare: (Operation, Bits, Bits) -> bool,
    canon: Bits -> Bits)

  predicate IsLiteral(n: Node) {
    n.NullNode? || n.IntNode? || n.FloatNode? || n.StrNode? || n.BoolNode?
  }

  /** The boxed object `LiteralTree.get()` returns. */
  datatype Value = NullValue | IntValue(i: int) | FloatValue(bits: int) | StrValue(s: string) | BoolValue(b: bool)

  function ValueOf(n: Node): Value
    requires IsLiteral(n)
  {
    match n
    case NullNode(_) => NullValue
    case IntNode(i, _) => IntValue(i)
    case FloatNode(b, _) => FloatValue(b)
    case StrNode(s, _) => StrValue(s)
    case BoolNode(b, _) => BoolValue(b)
  }

  /** `Objects.equals` on two literal values: `null` equals only `null`, and
      a box equals only a box of the same class holding the same value
      (`Float.equals` compares bit patterns). */
  predicate JavaEquals(a: Value, b: Value) {
    a == b
  }

  const NPE := Thrown("NullPointerException")
  const CCE := Thrown("ClassCastException")

  /** `(float) x.get()`: unboxing a `Float`; `null` throws
      `NullPointerException` and any other box `ClassCastException`. */
  function AsFloat(n: Node): Result<Bits>
    requires IsLiteral(n) && Fits(n)
  {
    if n.FloatNode? then Ok(n.bits) else if n.NullNode? then Fail(NPE) else Fail(CCE)
  }

  /** `(int) x.get()`: unboxing an `Integer`. */
  function AsInt(n: Node): Result<int>
    requires IsLiteral(n)
  {
    if n.IntNode? then Ok(n.ival) else if n.NullNode? then Fail(NPE) else Fail(CCE)
  }

  /** `(boolean) x.get()`: unboxing a `Boolean`. */
  function AsBool(n: Node): Result<bool>
    requires IsLiteral(n)
  {
    if n.BoolNode? then Ok(n.bval) else if n.NullNode? then Fail(NPE) else Fail(CCE)
  }

  /** `performBinaryOperationFolding`: the literal that replaces a binary
      node whose operands are both literals, `None` where no case applies,
      or the exception a cast or a division raises. */
  function FoldBinary(op: Operation, l: Node, r: Node, loc: Loc, fa: FloatArith): Result<Option<Node>>
    requires IsLiteral(l) && IsLiteral(r) && Fits(l) && Fits(r)
  {
    match op
    case ADD => FoldArith(op, l, r, loc, fa)
    case SUB => FoldArith(op, l, r, loc, fa)
    case MUL => FoldArith(op, l, r, loc, fa)
    case DIV =>
      var a :- AsFloat(l);
      var b :- AsFloat(r);
      Ok(Some(FloatNode(fa.arith(DIV, a, b), loc)))
    case MOD =>
      var a :- AsInt(l);
      var b :- AsInt(r);
      if b == 0 then Fail(Thrown("ArithmeticException")) else Ok(Some(IntNode(Rem(a, b), loc)))
    case AND =>
      var a :- AsBool(l);
      var b :- AsBool(r);
      Ok(Some(BoolNode(a && b, loc)))
    case OR =>
      var a :- AsBool(l);
      var b :- AsBool(r);
      Ok(Some(BoolNode(a || b, loc)))
    case EQUALS => Ok(Some(BoolNode(JavaEquals(ValueOf(l), ValueOf(r)), loc)))
    case NOT_EQUALS => Ok(Some(BoolNode(!JavaEquals(ValueOf(l), ValueOf(r)), loc)))
    case LESS => FoldCompare(op, l, r, loc, fa)
    case GREATER => FoldCompare(op, l, r, loc, fa)
    case LESS_EQ => FoldCompare(op, l, r, loc, fa)
    case GREATER_EQ => FoldCompare(op, l, r, loc, fa)
    case SHIFT_AL => FoldShift(op, l, r, loc, fa)
    case SHIFT_AR => FoldShift(op, l, r, loc, fa)
    case _ => Ok(None)
  }

  /** `+ - *` on an `int` pair wrap to 32 bits. */
  function IntArith(op: Operation, a: int, b: int): int {
    if op == ADD then Add(a, b) else if op == SUB then Sub(a, b) else Mul(a, b)
  }

  /** ADD, SUB and MUL: an `int` left operand folds only with an `int` or a
      `float` right operand; a `float` left operand unboxes the right one
      as a `Float`. */
  function FoldArith(op: Operation, l: Node, r: Node, loc: Loc, fa: FloatArith): Result<Option<Node>>
    requires op == ADD || op == SUB || op == MUL
    requires IsLiteral(l) && IsLiteral(r) && Fits(l) && Fits(r)
  {
    if l.IntNode? then
      if r.IntNode? then Ok(Some(IntNode(IntArith(op, l.ival, r.ival), loc)))
      else if r.FloatNode? then Ok(Some(FloatNode(fa.arith(op, fa.ofInt(l.ival), r.bits), loc)))
      else Ok(None)
    else if l.FloatNode? then
      var b :- AsFloat(r);
      Ok(Some(FloatNode(fa.arith(op, l.bits, b), loc)))
    else Ok(None)
  }

  /** The comparisons unbox both operands as `Float`. */
  function FoldCompare(op: Operation, l: Node, r: Node, loc: Loc, fa: FloatArith): Result<Option<Node>>
    requires IsLiteral(l) && IsLiteral(r) && Fits(l) && Fits(r)
  {
    var a :- AsFloat(l);
    var b :- AsFloat(r);
    Ok(Some(BoolNode(fa.compare(op, a, b), loc)))
  }

  /** The shifts unbox the count as an `Integer`; an `int` left operand is
      shifted, a `float` one has its bit pattern shifted. */
  function FoldShift(op: Operation, l: Node, r: Node, loc: Loc, fa: FloatArith): Result<Option<Node>>
    requires op == SHIFT_AL || op == SHIFT_AR
    requires IsLiteral(l) && IsLiteral(r) && Fits(l) && Fits(r)
  {
    var s :- AsInt(r);
    if l.IntNode? then Ok(Some(IntNode(Shift(op, l.ival, s), loc)))
    else if l.FloatNode? then Ok(Some(FloatNode(fa.canon(Shift(op, l.bits, s)), loc)))
    else Ok(None)
  }

  function Shift(op: Operation, a: int, s: int): (r: int)
    requires IsInt(a)
    ensures IsInt(r)
  {
    if op == SHIFT_AL then Shl(a, s) else Shr(a, s)
  }

  /** What replaces a folded node: a subtree that already exists, or a new
      literal node. */
  datatype Replacement = Existing(tree: Ptr) | Fresh(node: Node)

  /** The node a reference designates, `None` for `null`. */
  function NodeAt(nodes: seq<Node>, p: Ptr): Option<Node> {
    if p.Ref? && p.addr < |nodes| then Some(nodes[p.addr]) else None
  }

  /** `visitNotTree` after its operand was visited: `not(not e)` becomes
      `e`; an `int` operand becomes `~i`, a `bool` one `!b` and a `float`
      one the float of its complemented bits, each at the operand's
      location. */
  function NotFold(on: Option<Node>, fa: FloatArith): Option<Replacement>
    requires on.Some? ==> Fits(on.value)
  {
    match on
    case None => None
    case Some(n) =>
      match n
      case NotNode(inner, _) => Some(Existing(inner))
      case IntNode(i, l) => Some(Fresh(IntNode(BitNot(i), l)))
      case FloatNode(b, l) => Some(Fresh(FloatNode(fa.canon(BitNot(b)), l)))
      case BoolNode(b, l) => Some(Fresh(BoolNode(!b, l)))
      case _ => None
  }

  /** `visitNegationTree`: `-(-e)` becomes `e`; an `int` operand becomes its
      wrapped negation, a `float` one its float negation. */
  function NegFold(on: Option<Node>, fa: FloatArith): Option<Replacement>
    requires on.Some? ==> Fits(on.value)
  {
    match on
    case None => None
    case Some(n) =>
      match n
      case NegNode(inner, _) => Some(Existing(inner))
      case IntNode(i, l) => Some(Fresh(IntNode(Neg(i), l)))
      case FloatNode(b, l) => Some(Fresh(FloatNode(fa.negate(b), l)))
      case _ => None
  }

  /** `visitNullCheckTree`: a literal other than `null` replaces the check. */
  function NullCheckFold(operand: Ptr, on: Option<Node>): Option<Replacement> {
    if on.Some? && IsLiteral(on.value) && !on.value.NullNode? then Some(Existing(operand)) else None
  }

  /** The fold of a unary node `n` whose operand is now `operand`. */
  function UnaryFold(n: Node, operand: Ptr, on: Option<Node>, fa: FloatArith): Option<Replacement>
    requires on.Some? ==> Fits(on.value)
  {
    if n.NotNode? then NotFold(on, fa)
    else if n.NegNode? then NegFold(on, fa)
    else if n.NullCheckNode? then NullCheckFold(operand, on)
    else None
  }

  /** `visitBinaryOperationTree` after its operands were visited: it folds
      only when both operands are literals. */
  function BinaryFold(op: Operation, loc: Loc, lo: Option<Node>, ro: Option<Node>, fa: FloatArith): Result<Option<Replacement>>
    requires lo.Some? ==> Fits(lo.value)
    requires ro.Some? ==> Fits(ro.value)
  {
    if lo.Some? && ro.Some? && IsLiteral(lo.value) && IsLiteral(ro.value) then
      var r :- FoldBinary(op, lo.value, ro.value, loc, fa);
      if r.Some? then Ok(Some(Fresh(r.value))) else Ok(None)
    else Ok(None)
  }

  predicate RepValid(rep: Replacement, size: nat) {
    match rep
    case Existing(q) => PtrValid(q, size)
    case Fresh(n) => NodeValid(n, size)
  }

  /** The arena and the `replace` answer after `parent.replace(target, x)`,
      where `x` is the replacement (a new node is allocated first). */
  function Applied(nodes: seq<Node>, parent: nat, target: Ptr, rep: Replacement): (seq<Node>, bool)
    requires parent < |nodes|
  {
    match rep
    case Existing(q) =>
      var e := Replaced(nodes[parent], target, q);
      (nodes[parent := e.node], e.changed)
    case Fresh(n) =>
      var e := Replaced(nodes[parent], target, Ref(|nodes|));
      ((nodes + [n])[parent := e.node], e.changed)
  }

  // ---------------------------------------------------------------------
  // Properties of the folds

  /** `not(not e)` and `-(-e)` are replaced by `e` itself, not a copy. */
  lemma DoubleUnaryCancels(inner: Ptr, l: Loc, fa: FloatArith)
    ensures NotFold(Some(NotNode(inner, l)), fa) == Some(Existing(inner))
    ensures NegFold(Some(NegNode(inner, l)), fa) == Some(Existing(inner))
  {
  }

  /** Folding `~` or `-` twice over an `int` literal gives the literal back,
      including `Integer.MIN_VALUE`, whose negation wraps to itself. */
  lemma IntUnaryFoldsInvolutive(i: int, l: Loc, fa: FloatArith)
    requires IsInt(i)
    ensures var n1 := NotFold(Some(IntNode(i, l)), fa);
      n1.Some? && n1.value.Fresh? && n1.value.node.IntNode?
      && NotFold(Some(n1.value.node), fa) == Some(Fresh(IntNode(i, l)))
    ensures var m1 := NegFold(Some(IntNode(i, l)), fa);
      m1.Some? && m1.value.Fresh? && m1.value.node.IntNode?
      && NegFold(Some(m1.value.node), fa) == Some(Fresh(IntNode(i, l)))
  {
    var j := Neg(i);
    if i == MinInt {
      NegMinIsMin();
    } else {
      assert j == -i;
    }
  }

  /** A null check is dropped exactly when its operand is a literal other
      than `null`, and is then replaced by that operand. */
  lemma NullCheckFoldSpec(operand: Ptr, on: Option<Node>)
    ensures NullCheckFold(operand, on).Some? <==> on.Some? && IsLiteral(on.value) && !on.value.NullNode?
    ensures NullCheckFold(operand, on).Some? ==> NullCheckFold(operand, on).value == Existing(operand)
  {
  }

  /** A binary node folds only when both operands are literals. */
  lemma BinaryFoldNeedsLiterals(op: Operation, loc: Loc, lo: Option<Node>, ro: Option<Node>, fa: FloatArith)
    requires lo.Some? ==> Fits(lo.value)
    requires ro.Some? ==> Fits(ro.value)
    requires !(lo.Some? && IsLiteral(lo.value)) || !(ro.Some? && IsLiteral(ro.value))
    ensures BinaryFold(op, loc, lo, ro, fa) == Ok(None)
  {
  }

  /** `int` `+ - *` fold to the 32-bit result: congruent to the exact
      result modulo 2^32, and equal to it when it fits. */
  lemma IntArithFolds(op: Operation, a: int, b: int, l: Loc, fa: FloatArith)
    requires op == ADD || op == SUB || op == MUL
    requires IsInt(a) && IsInt(b)
    ensures var exact := if op == ADD then a + b else if op == SUB then a - b else a * b;
      exists v :: (FoldBinary(op, IntNode(a, l), IntNode(b, l), l, fa) == Ok(Some(IntNode(v, l)))
        && IsInt(v) && (v - exact) % Two32 == 0 && (IsInt(exact) ==> v == exact))
  {
    var v := IntArith(op, a, b);
    assert FoldBinary(op, IntNode(a, l), IntNode(b, l), l, fa) == Ok(Some(IntNode(v, l)));
  }

  /** `int % int` folds to Java's truncated remainder: it takes the sign of
      the dividend and is smaller than the divisor in magnitude; a zero
      divisor raises `ArithmeticException`. */
  lemma ModFolds(a: int, b: int, l: Loc, fa: FloatArith)
    requires IsInt(a) && IsInt(b)
    ensures b == 0 ==> FoldBinary(MOD, IntNode(a, l), IntNode(b, l), l, fa) == Fail(Thrown("ArithmeticException"))
    ensures b != 0 ==> exists r :: (FoldBinary(MOD, IntNode(a, l), IntNode(b, l), l, fa) == Ok(Some(IntNode(r, l)))
      && Abs(r) < Abs(b) && (r != 0 ==> (r > 0 <==> a > 0)) && IsInt(r))
  {
    if b != 0 {
      var r := Rem(a, b);
      assert FoldBinary(MOD, IntNode(a, l), IntNode(b, l), l, fa) == Ok(Some(IntNode(r, l)));
    }
  }

  /** `==` and `!=` fold to opposite booleans on every pair of literals. */
  lemma EqualityFoldsComplement(a: Node, b: Node, l: Loc, fa: FloatArith)
    requires IsLiteral(a) && IsLiteral(b) && Fits(a) && Fits(b)
    ensures FoldBinary(EQUALS, a, b, l, fa).Ok? && FoldBinary(NOT_EQUALS, a, b, l, fa).Ok?
    ensures var e, n := FoldBinary(EQUALS, a, b, l, fa).value, FoldBinary(NOT_EQUALS, a, b, l, fa).value;
      e.Some? && n.Some? && e.value.BoolNode? && n.value.BoolNode? && e.value.bval == !n.value.bval
  {
  }

  /** `Objects.equals` tells the boxes apart: `1 == 1.0` folds to false,
      while `null == null` and two equal values fold to true. */
  lemma EqualityFoldsByBox(i: int, bits: int, la: Loc, lb: Loc, l: Loc, fa: FloatArith)
    requires IsInt(i) && IsInt(bits)
    ensures FoldBinary(EQUALS, IntNode(i, la), FloatNode(bits, lb), l, fa) == Ok(Some(BoolNode(false, l)))
    ensures FoldBinary(EQUALS, NullNode(la), NullNode(lb), l, fa) == Ok(Some(BoolNode(true, l)))
    ensures FoldBinary(EQUALS, IntNode(i, la), IntNode(i, lb), l, fa) == Ok(Some(BoolNode(true, l)))
  {
  }

  /** `&&` and `||` fold on two `bool` literals; any other pair throws. */
  lemma LogicFolds(op: Operation, a: Node, b: Node, l: Loc, fa: FloatArith)
    requires op == AND || op == OR
    requires IsLiteral(a) && IsLiteral(b) && Fits(a) && Fits(b)
    ensures a.BoolNode? && b.BoolNode? ==>
      FoldBinary(op, a, b, l, fa) == Ok(Some(BoolNode(if op == AND then a.bval && b.bval else a.bval || b.bval, l)))
    ensures !(a.BoolNode? && b.BoolNode?) ==> FoldBinary(op, a, b, l, fa).Fail?
  {
  }

  /** The shift count is masked to its low five bits: shifting by `s` and by
      `s & 31` fold alike. */
  lemma ShiftCountMasked(op: Operation, a: int, s: int, l: Loc, fa: FloatArith)
    requires op == SHIFT_AL || op == SHIFT_AR
    requires IsInt(a) && IsInt(s)
    ensures FoldBinary(op, IntNode(a, l), IntNode(s, l), l, fa) == FoldBinary(op, IntNode(a, l), IntNode(s % 32, l), l, fa)
    ensures FoldBinary(op, IntNode(a, l), IntNode(s, l), l, fa).Ok?
  {
    assert ShiftCount(s % 32) == ShiftCount(s);
  }

  /** Comparisons and `/` unbox both operands as `Float`, so an `int`
      literal operand throws `ClassCastException`: `1 < 2` does not fold,
      it ends the pass. */
  lemma IntComparisonThrows(op: Operation, a: int, b: int, l: Loc, fa: FloatArith)
    requires op == LESS || op == GREATER || op == LESS_EQ || op == GREATER_EQ || op == DIV
    requires IsInt(a) && IsInt(b)
    ensures FoldBinary(op, IntNode(a, l), IntNode(b, l), l, fa) == Fail(CCE)
  {
  }

  /** The replacements a fold produces are valid in the arena. */
  lemma UnaryFoldValid(n: Node, operand: Ptr, nodes: seq<Node>, fa: FloatArith)
    requires AllValid(nodes) && PtrValid(operand, |nodes|)
    ensures var on := NodeAt(nodes, operand);
      on.Some? ==> Fits(on.value)
    ensures var on := NodeAt(nodes, operand);
      UnaryFold(n, operand, on, fa).Some? ==> RepValid(UnaryFold(n, operand, on, fa).value, |nodes|)
  {
    var on := NodeAt(nodes, operand);
    if on.Some? {
      assert NodeValid(on.value, |nodes|);
      if on.value.NotNode? || on.value.NegNode? {
        assert on.value.operand in Children(on.value);
      }
    }
  }

  lemma BinaryFoldValid(op: Operation, loc: Loc, lo: Option<Node>, ro: Option<Node>, fa: FloatArith, size: nat)
    requires lo.Some? ==> Fits(lo.value)
    requires ro.Some? ==> Fits(ro.value)
    ensures var r := BinaryFold(op, loc, lo, ro, fa);
      r.Ok? && r.value.Some? ==> r.value.value.Fresh? && RepValid(r.value.value, size)
  {
    if lo.Some? && ro.Some? && IsLiteral(lo.value) && IsLiteral(ro.value) {
      var l, r := lo.value, ro.value;
      match op
      case MOD =>
        if l.IntNode? && r.IntNode? && r.ival != 0 {
          assert IsInt(Rem(l.ival, r.ival));
        }
      case ADD =>
      case SUB =>
      case MUL =>
      case _ =>
    }
  }

  /** One pass of the folder: `ConstantFolder` with the `Optimizer`
      traversal it inherits. */
  class ConstantFolder {
    const forest: Forest
    const floats: FloatArith
    /** The last initializer bound to each local name in this function. */
    var locals: map<string, Ptr>
    /** `optimizationPerformed` */
    var performed: bool

    ghost predicate Valid()
      reads this, forest
    {
      forest.Valid() && forall k :: k in locals ==> PtrValid(locals[k], |forest.nodes|)
    }

    constructor (forest: Forest, floats: FloatArith)
      requires forest.Valid()
      ensures this.forest == forest && this.floats == floats
      ensures locals == map[] && !performed && Valid()
    {
      this.forest := forest;
      this.floats := floats;
      locals := map[];
      performed := false;
    }

    /** `Optimizer.replace`: the owner's answer is OR-ed into the flag. */
    method Replace(owner: nat, oldTree: Ptr, newTree: Ptr)
      requires Valid() && owner < |forest.nodes| && PtrValid(newTree, |forest.nodes|)
      modifies this, forest
      ensures forest.nodes == old(forest.nodes)[owner := Replaced(old(forest.nodes)[owner], oldTree, newTree).node]
      ensures performed == (old(performed) || Replaced(old(forest.nodes)[owner], oldTree, newTree).changed)
      ensures locals == old(locals)
      ensures Valid() && Grows(old(forest.nodes), forest.nodes)
      ensures !performed ==> Keeps(old(forest.nodes), forest.nodes)
    {
      var changed := forest.Replace(owner, oldTree, newTree);
      performed := performed || changed;
    }

    /** `Optimizer.remove` (the constant folder itself never removes). */
    method Remove(owner: nat, target: Ptr)
      requires Valid() && owner < |forest.nodes|
      modifies this, forest
      ensures performed == (old(performed) || Removed(old(forest.nodes)[owner], target, Ref(|old(forest.nodes)|)).changed)
      ensures locals == old(locals)
      ensures Valid() && |forest.nodes| >= |old(forest.nodes)|
    {
      var changed := forest.Remove(owner, target);
      performed := performed || changed;
    }

    /** Installs a replacement in the parent in place of `target`. */
    method Apply(parent: nat, target: Ptr, rep: Replacement)
      requires Valid() && parent < |forest.nodes| && RepValid(rep, |forest.nodes|)
      modifies this, forest
      ensures forest.nodes == Applied(old(forest.nodes), parent, target, rep).0
      ensures performed == (old(performed) || Applied(old(forest.nodes), parent, target, rep).1)
      ensures locals == old(locals)
      ensures Valid() && Grows(old(forest.nodes), forest.nodes)
      ensures !performed ==> Keeps(old(forest.nodes), forest.nodes)
    {
      match rep
      case Existing(q) =>
        Replace(parent, target, q);
      case Fresh(n) =>
        var q := forest.Add(n);
        Replace(parent, target, q);
    }

    /** The rewrite half of `visitNotTree`, `visitNegationTree` and
        `visitNullCheckTree`: `kind` is the unary node at `p` as it was
        before its operand was visited. */
    method FoldUnary(p: nat, parent: nat, kind: Node)
      requires Valid() && p < |forest.nodes| && parent < |forest.nodes|
      requires |Children(forest.nodes[p])| == 1
      modifies this, forest
      ensures var operand := Children(old(forest.nodes)[p])[0];
        var rep := UnaryFold(kind, operand, NodeAt(old(forest.nodes), operand), floats);
        (rep.None? ==> forest.nodes == old(forest.nodes) && performed == old(performed))
        && (rep.Some? ==> forest.nodes == Applied(old(forest.nodes), parent, Ref(p), rep.value).0
                          && performed == (old(performed) || Applied(old(forest.nodes), parent, Ref(p), rep.value).1))
      ensures locals == old(locals)
      ensures Valid() && Grows(old(forest.nodes), forest.nodes)
      ensures !performed ==> Keeps(old(forest.nodes), forest.nodes)
    {
      var operand := Children(forest.nodes[p])[0];
      assert operand in Children(forest.nodes[p]);
      UnaryFoldValid(kind, operand, forest.nodes, floats);
      var rep := UnaryFold(kind, operand, NodeAt(forest.nodes, operand), floats);
      if rep.Some? {
        Apply(parent, Ref(p), rep.value);
      }
    }

    /** The rewrite half of `visitBinaryOperationTree`: `op` and `loc` are
        those of the binary node at `p`, whose operands are now visited. */
    method FoldBinaryAt(p: nat, parent: nat, op: Operation, loc: Loc) returns (s: Status)
      requires Valid() && p < |forest.nodes| && parent < |forest.nodes|
      requires |Children(forest.nodes[p])| == 2
      modifies this, forest
      ensures var c := Children(old(forest.nodes)[p]);
        var lo, ro := NodeAt(old(forest.nodes), c[0]), NodeAt(old(forest.nodes), c[1]);
        (lo.Some? ==> Fits(lo.value)) && (ro.Some? ==> Fits(ro.value))
        && var r := BinaryFold(op, loc, lo, ro, floats);
        (r.Fail? ==> s == Threw(r.failure) && forest.nodes == old(forest.nodes) && performed == old(performed))
        && (r.Ok? && r.value.None? ==> s == Completed && forest.nodes == old(forest.nodes) && performed == old(performed))
        && (r.Ok? && r.value.Some? ==>
              s == Completed
              && forest.nodes == Applied(old(forest.nodes), parent, Ref(p), r.value.value).0
              && performed == (old(performed) || Applied(old(forest.nodes), parent, Ref(p), r.value.value).1))
      ensures locals == old(locals)
      ensures Valid() && Grows(old(forest.nodes), forest.nodes)
      ensures !performed ==> Keeps(old(forest.nodes), forest.nodes)
    {
      var c := Children(forest.nodes[p]);
      assert c[0] in c && c[1] in c;
      var lo, ro := NodeAt(forest.nodes, c[0]), NodeAt(forest.nodes, c[1]);
      assert lo.Some? ==> NodeValid(lo.value, |forest.nodes|);
      assert ro.Some? ==> NodeValid(ro.value, |forest.nodes|);
      var r := BinaryFold(op, loc, lo, ro, floats);
      BinaryFoldValid(op, loc, lo, ro, floats, |forest.nodes|);
      if r.Fail? {
        return Threw(r.failure);
      }
      if r.value.Some? {
        Apply(parent, Ref(p), r.value.value);
      }
      s := Completed;
    }

    /** `visitVariableTree`: a name bound by an earlier `let` of this
        function is replaced, in its parent, by that `let`'s initializer
        tree itself, whatever it is. The subtree becomes shared, and a
        parent that is inside the initializer makes the tree cyclic. */
    method VisitVariable(v: nat, parent: nat)
      requires Valid() && v < |forest.nodes| && parent < |forest.nodes| && forest.nodes[v].VarNode?
      modifies this, forest
      ensures var name := old(forest.nodes)[v].name;
        if name in old(locals) && old(locals)[name] != Nil then
          forest.nodes == old(forest.nodes)[parent := Replaced(old(forest.nodes)[parent], Ref(v), old(locals)[name]).node]
          && performed == (old(performed) || Replaced(old(forest.nodes)[parent], Ref(v), old(locals)[name]).changed)
        else forest.nodes == old(forest.nodes) && performed == old(performed)
      ensures locals == old(locals)
      ensures Valid() && Grows(old(forest.nodes), forest.nodes)
      ensures !performed ==> Keeps(old(forest.nodes), forest.nodes)
    {
      var name := forest.nodes[v].name;
      if name in locals && locals[name] != Nil {
        Replace(parent, Ref(v), locals[name]);
      }
    }

    /** `Tree.accept` on this folder: dispatch on the node's class. */
    method Visit(p: Ptr, parent: nat, fuel: nat) returns (s: Status)
      requires Valid() && PtrValid(p, |forest.nodes|) && parent < |forest.nodes|
      modifies this, forest
      ensures Valid() && Grows(old(forest.nodes), forest.nodes)
      ensures !performed ==> Keeps(old(forest.nodes), forest.nodes)
      ensures old(performed) ==> performed
      decreases fuel, 1
    {
      if p.Nil? {
        return Completed;
      }
      if fuel == 0 {
        return Threw(Thrown("StackOverflowError"));
      }
      var n := forest.nodes[p.addr];
      assert NodeValid(n, |forest.nodes|);
      if n.NotNode? || n.NegNode? || n.NullCheckNode? {
        s := VisitUnary(p.addr, parent, fuel - 1);
      } else if n.BinNode? {
        s := VisitBinary(p.addr, parent, fuel - 1);
      } else if n.VarNode? {
        VisitVariable(p.addr, parent);
        s := Completed;
      } else if n.VarDecNode? {
        s := VisitVarDec(p.addr, fuel - 1);
      } else if n.FunctionNode? {
        locals := map[];
        s := VisitChildren(p.addr, fuel - 1);
      } else {
        s := VisitChildren(p.addr, fuel - 1);
      }
    }

    /** The inherited traversal: each child in order, with this node as
        the parent, each read from the node when its turn comes. */
    method VisitChildren(owner: nat, fuel: nat) returns (s: Status)
      requires Valid() && owner < |forest.nodes|
      modifies this, forest
      ensures Valid() && Grows(old(forest.nodes), forest.nodes)
      ensures !performed ==> Keeps(old(forest.nodes), forest.nodes)
      ensures old(performed) ==> performed
      decreases fuel, 2
    {
      ghost var count := |Children(forest.nodes[owner])|;
      var i := 0;
      while i < |Children(forest.nodes[owner])|
        invariant Valid() && Grows(old(forest.nodes), forest.nodes)
        invariant old(performed) ==> performed
        invariant !performed ==> Keeps(old(forest.nodes), forest.nodes)
        invariant |Children(forest.nodes[owner])| == count
        decreases count - i
      {
        var child := Children(forest.nodes[owner])[i];
        assert child in Children(forest.nodes[owner]);
        ghost var before := forest.nodes;
        s := Visit(child, owner, fuel);
        GrowsTrans(old(forest.nodes), before, forest.nodes);
        if !performed {
          KeepsTrans(old(forest.nodes), before, forest.nodes);
        }
        if s.Threw? {
          return;
        }
        i := i + 1;
      }
      s := Completed;
    }

    /** `visitNotTree`, `visitNegationTree`, `visitNullCheckTree`: visit
        the operand, then fold. */
    method VisitUnary(p: nat, parent: nat, fuel: nat) returns (s: Status)
      requires Valid() && p < |forest.nodes| && parent < |forest.nodes|
      requires forest.nodes[p].NotNode? || forest.nodes[p].NegNode? || forest.nodes[p].NullCheckNode?
      modifies this, forest
      ensures Valid() && Grows(old(forest.nodes), forest.nodes)
      ensures !performed ==> Keeps(old(forest.nodes), forest.nodes)
      ensures old(performed) ==> performed
      decreases fuel, 3
    {
      var kind := forest.nodes[p];
      s := VisitChildren(p, fuel);
      if s.Threw? {
        return;
      }
      ghost var before := forest.nodes;
      FoldUnary(p, parent, kind);
      GrowsTrans(old(forest.nodes), before, forest.nodes);
      if !performed {
        KeepsTrans(old(forest.nodes), before, forest.nodes);
      }
    }

    /** `visitBinaryOperationTree`: visit both operands, then fold. */
    method VisitBinary(p: nat, parent: nat, fuel: nat) returns (s: Status)
      requires Valid() && p < |forest.nodes| && parent < |forest.nodes| && forest.nodes[p].BinNode?
      modifies this, forest
      ensures Valid() && Grows(old(forest.nodes), forest.nodes)
      ensures !performed ==> Keeps(old(forest.nodes), forest.nodes)
      ensures old(performed) ==> performed
      decreases fuel, 3
    {
      var op, loc := forest.nodes[p].op, forest.nodes[p].loc;
      s := VisitChildren(p, fuel);
      if s.Threw? {
        return;
      }
      ghost var before := forest.nodes;
      s := FoldBinaryAt(p, parent, op, loc);
      GrowsTrans(old(forest.nodes), before, forest.nodes);
      if !performed {
        KeepsTrans(old(forest.nodes), before, forest.nodes);
      }
    }

    /** `visitVarDecTree`: visit the initializer, then bind the name to the
        initializer the declaration now holds. */
    method VisitVarDec(d: nat, fuel: nat) returns (s: Status)
      requires Valid() && d < |forest.nodes| && forest.nodes[d].VarDecNode?
      modifies this, forest
      ensures Valid() && Grows(old(forest.nodes), forest.nodes)
      ensures !performed ==> Keeps(old(forest.nodes), forest.nodes)
      ensures old(performed) ==> performed
      ensures s.Completed? ==> var name := old(forest.nodes)[d].name;
        name in locals && locals[name] == Children(forest.nodes[d])[0]
      decreases fuel, 3
    {
      var name := forest.nodes[d].name;
      ghost var locals0 := locals;
      assert forest.nodes[d].init in Children(forest.nodes[d]);
      s := Visit(forest.nodes[d].init, d, fuel);
      if s.Threw? {
        return;
      }
      assert |Children(forest.nodes[d])| == 1;
      var init := Children(forest.nodes[d])[0];
      assert init in Children(forest.nodes[d]);
      locals := locals[name := init];
    }
  }

  lemma GrowsTrans(a: seq<Node>, b: seq<Node>, c: seq<Node>)
    requires Grows(a, b) && Grows(b, c)
    ensures Grows(a, c)
  {
  }

  /** Every node of `before` is still there, unchanged: only new nodes may
      have been allocated. */
  ghost predicate Keeps(before: seq<Node>, after: seq<Node>) {
    |before| <= |after| && forall i :: 0 <= i < |before| ==> after[i] == before[i]
  }

  lemma KeepsTrans(a: seq<Node>, b: seq<Node>, c: seq<Node>)
    requires Keeps(a, b) && Keeps(b, c)
    ensures Keeps(a, c)
  {
  }
}
