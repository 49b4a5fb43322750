/** `computil.tree.Trees`: the mutable syntax tree the optimizer rewrites.
    Java compares children by reference (`==`), so the tree is kept as an
    arena of nodes addressed by index: a `Ptr` is a reference, `Nil` is Java
    `null`, and two children are the same tree exactly when their pointers
    are equal. `replace` and `remove` reassign child fields and edit child
    lists in place, which here is a write to the owner's slot of the arena.
    Declarations without expressions (types, parameters, fields, structs,
    templates) carry no pointers and stay values. */
module Trees {
  import opened Wrappers
  import opened Diags
  import opened Types
  import opened Operations
  import opened Int32
  import A = Ast

  datatype Ptr = Nil | Ref(addr: nat)

  datatype Node =
    | NullNode(loc: Loc)
    | IntNode(ival: int, loc: Loc)
    | /** A float literal, kept as its bit pattern. */
      FloatNode(bits: int, loc: Loc)
    | StrNode(sval: string, loc: Loc)
    | BoolNode(bval: bool, loc: Loc)
    | VarNode(name: string, loc: Loc)
    | NotNode(operand: Ptr, loc: Loc)
    | NegNode(operand: Ptr, loc: Loc)
    | NullCheckNode(operand: Ptr, loc: Loc)
    | ArrayNode(items: seq<Ptr>, loc: Loc)
    | ContainerNode(operand: Ptr, key: Ptr, loc: Loc)
    | FieldNode(operand: Ptr, field: string, loc: Loc)
    | AssignNode(left: Ptr, right: Ptr, loc: Loc)
    | BinNode(op: Operation, left: Ptr, right: Ptr, loc: Loc)
    | GlobalCallNode(name: string, items: seq<Ptr>, loc: Loc)
    | MethodCallNode(name: string, operand: Ptr, items: seq<Ptr>, loc: Loc)
    | StructInitNode(ty: Ty, items: seq<Ptr>, loc: Loc)
    | CastNode(operand: Ptr, castType: Ty, loc: Loc)
    | /** `BasicBlockTree`, whose statement list is `items`. */
      BlockNode(items: seq<Ptr>)
    | ExprStmtNode(expr: Ptr, loc: Loc)
    | ReturnNode(expr: Ptr, loc: Loc)
    | FreeNode(expr: Ptr, loc: Loc)
    | VarDecNode(name: string, mutable: bool, declared: Option<Ty>, init: Ptr, loc: Loc)
    | IfNode(cond: Ptr, ifBody: Ptr, elseBody: Ptr, loc: Loc)
    | WhileNode(cond: Ptr, body: Ptr, loc: Loc)
    | DoWhileNode(body: Ptr, cond: Ptr, loc: Loc)
    | FunctionNode(name: string, params: seq<A.Param>, ret: Ty, body: Ptr, loc: Loc)
    | NativeNode(name: string, params: seq<A.Param>, ret: Ty, loc: Loc)
    | /** `BasicImplementationTree`; `items` are its implementations. */
      ImplNode(name: string, forType: string, objectName: Option<string>, items: seq<Ptr>, loc: Loc)
    | RootNode(structs: seq<A.StructDecl>, callables: seq<Ptr>, templates: seq<A.Template>, impls: seq<Ptr>)

  /** Every child reference of a node, in field order. */
  function Children(n: Node): seq<Ptr> {
    match n
    case NotNode(e, _) => [e]
    case NegNode(e, _) => [e]
    case NullCheckNode(e, _) => [e]
    case ArrayNode(xs, _) => xs
    case ContainerNode(e, k, _) => [e, k]
    case FieldNode(e, _, _) => [e]
    case AssignNode(l, r, _) => [l, r]
    case BinNode(_, l, r, _) => [l, r]
    case GlobalCallNode(_, xs, _) => xs
    case MethodCallNode(_, e, xs, _) => [e] + xs
    case StructInitNode(_, xs, _) => xs
    case CastNode(e, _, _) => [e]
    case BlockNode(xs) => xs
    case ExprStmtNode(e, _) => [e]
    case ReturnNode(e, _) => [e]
    case FreeNode(e, _) => [e]
    case VarDecNode(_, _, _, e, _) => [e]
    case IfNode(c, a, b, _) => [c, a, b]
    case WhileNode(c, b, _) => [c, b]
    case DoWhileNode(b, c, _) => [b, c]
    case FunctionNode(_, _, _, b, _) => [b]
    case ImplNode(_, _, _, xs, _) => xs
    case RootNode(_, cs, _, ims) => ims + cs
    case _ => []
  }

  /** The lists a node edits in place; `Items` is the one list of a block,
      an array, a call, a struct literal or an implementation. */
  datatype ListSlot = Items | Impls | Callables

  function ListAt(n: Node, slot: ListSlot): seq<Ptr> {
    match slot
    case Items =>
      if n.ArrayNode? || n.GlobalCallNode? || n.MethodCallNode? || n.StructInitNode?
         || n.BlockNode? || n.ImplNode? then n.items else []
    case Impls => if n.RootNode? then n.impls else []
    case Callables => if n.RootNode? then n.callables else []
  }

  /** Same number of children and same list lengths: what `replace` keeps,
      so a walk over the children by index sees the same number of them. */
  predicate SameShape(a: Node, b: Node) {
    |Children(a)| == |Children(b)| && |ListAt(a, Items)| == |ListAt(b, Items)| && |ListAt(a, Impls)| == |ListAt(b, Impls)|
    && |ListAt(a, Callables)| == |ListAt(b, Callables)|
  }

  /** An integer literal holds a Java `int`, a float literal a 32-bit
      pattern. */
  predicate Fits(n: Node) {
    (n.IntNode? ==> IsInt(n.ival)) && (n.FloatNode? ==> IsInt(n.bits))
  }

  /** A node whose references all lie inside an arena of `size` nodes and
      whose literal value fits. */
  predicate NodeValid(n: Node, size: nat) {
    (forall p :: p in Children(n) ==> p.Nil? || p.addr < size) && Fits(n)
  }

  predicate PtrValid(p: Ptr, size: nat) { p.Nil? || p.addr < size }

  /** The result of `replace`/`remove` on one node: its new fields and the
      boolean the Java method returns. */
  datatype Edit = Edit(node: Node, changed: bool)

  /** The private list helper `Trees.replace`: every element identical to
      `oldTree` becomes `newTree`. */
  function ReplaceAll(xs: seq<Ptr>, oldTree: Ptr, newTree: Ptr): (r: seq<Ptr>)
    ensures |r| == |xs|
  {
    if xs == [] then []
    else [if xs[0] == oldTree then newTree else xs[0]] + ReplaceAll(xs[1..], oldTree, newTree)
  }

  /** `Tree.replace(oldTree, newTree)` on each node class. */
  function Replaced(n: Node, oldTree: Ptr, newTree: Ptr): Edit {
    match n
    case NotNode(e, l) => if e == oldTree then Edit(NotNode(newTree, l), true) else Edit(n, false)
    case NegNode(e, l) => if e == oldTree then Edit(NegNode(newTree, l), true) else Edit(n, false)
    case NullCheckNode(e, l) => if e == oldTree then Edit(NullCheckNode(newTree, l), true) else Edit(n, false)
    case ArrayNode(xs, l) => Edit(ArrayNode(ReplaceAll(xs, oldTree, newTree), l), oldTree in xs)
    case ContainerNode(e, k, l) =>
      if e == oldTree then Edit(ContainerNode(newTree, k, l), true)
      else if k == oldTree then Edit(ContainerNode(e, newTree, l), true)
      else Edit(n, false)
    case FieldNode(e, f, l) => if e == oldTree then Edit(FieldNode(newTree, f, l), true) else Edit(n, false)
    case AssignNode(a, b, l) =>
      if a == oldTree then Edit(AssignNode(newTree, b, l), true)
      else if b == oldTree then Edit(AssignNode(a, newTree, l), true)
      else Edit(n, false)
    case BinNode(op, a, b, l) =>
      if a == oldTree then Edit(BinNode(op, newTree, b, l), true)
      else if b == oldTree then Edit(BinNode(op, a, newTree, l), true)
      else Edit(n, false)
    case GlobalCallNode(f, xs, l) => Edit(GlobalCallNode(f, ReplaceAll(xs, oldTree, newTree), l), oldTree in xs)
    case MethodCallNode(f, e, xs, l) =>
      if e == oldTree then Edit(MethodCallNode(f, newTree, xs, l), true)
      else Edit(MethodCallNode(f, e, ReplaceAll(xs, oldTree, newTree), l), oldTree in xs)
    case StructInitNode(t, xs, l) => Edit(StructInitNode(t, ReplaceAll(xs, oldTree, newTree), l), oldTree in xs)
    case CastNode(e, t, l) => if e == oldTree then Edit(CastNode(newTree, t, l), true) else Edit(n, false)
    case BlockNode(xs) => Edit(BlockNode(ReplaceAll(xs, oldTree, newTree)), oldTree in xs)
    case ExprStmtNode(e, l) => if e == oldTree then Edit(ExprStmtNode(newTree, l), true) else Edit(n, false)
    case ReturnNode(e, l) => if e == oldTree then Edit(ReturnNode(newTree, l), true) else Edit(n, false)
    case FreeNode(e, l) => if e == oldTree then Edit(FreeNode(newTree, l), true) else Edit(n, false)
    case VarDecNode(x, m, t, e, l) =>
      if e == oldTree then Edit(VarDecNode(x, m, t, newTree, l), true) else Edit(n, false)
    case IfNode(c, a, b, l) => if c == oldTree then Edit(IfNode(newTree, a, b, l), true) else Edit(n, false)
    case WhileNode(c, b, l) => if c == oldTree then Edit(WhileNode(newTree, b, l), true) else Edit(n, false)
    case DoWhileNode(b, c, l) => if c == oldTree then Edit(DoWhileNode(b, newTree, l), true) else Edit(n, false)
    case _ => Edit(n, false)
  }

  /** `xs` without its first element equal to `x` (`List.remove(Object)`). */
  function RemoveFirst(xs: seq<Ptr>, x: Ptr): (r: seq<Ptr>)
  {
    if xs == [] then []
    else if xs[0] == x then xs[1..]
    else [xs[0]] + RemoveFirst(xs[1..], x)
  }

  /** Does `remove(target)` on this node install a new empty block? */
  predicate ReplacesBody(n: Node, target: Ptr) {
    (n.WhileNode? && n.body == target) || (n.DoWhileNode? && n.body == target)
    || (n.IfNode? && (n.ifBody == target || n.elseBody == target))
  }

  /** `Tree.remove(toRemove)` on each node class; `block` is the new empty
      `BasicBlockTree` a loop or an `if` installs in place of the body. */
  function Removed(n: Node, target: Ptr, block: Ptr): Edit {
    match n
    case BlockNode(xs) => Edit(BlockNode(RemoveFirst(xs, target)), target in xs)
    case WhileNode(c, b, l) => if b == target then Edit(WhileNode(c, block, l), true) else Edit(n, false)
    case DoWhileNode(b, c, l) => if b == target then Edit(DoWhileNode(block, c, l), true) else Edit(n, false)
    case IfNode(c, a, b, l) =>
      if a == target then Edit(IfNode(c, block, b, l), true)
      else if b == target then Edit(IfNode(c, a, block, l), true)
      else Edit(n, false)
    case _ => Edit(n, false)
  }

  // ---------------------------------------------------------------------
  // Properties of replace and remove

  lemma {:induction false} ReplaceAllEvery(xs: seq<Ptr>, oldTree: Ptr, newTree: Ptr)
    ensures forall i :: 0 <= i < |xs| ==> ReplaceAll(xs, oldTree, newTree)[i] == (if xs[i] == oldTree then newTree else xs[i])
  {
    if xs != [] {
      ReplaceAllEvery(xs[1..], oldTree, newTree);
      forall i | 0 < i < |xs|
        ensures ReplaceAll(xs, oldTree, newTree)[i] == (if xs[i] == oldTree then newTree else xs[i])
      {
        assert ReplaceAll(xs, oldTree, newTree)[i] == ReplaceAll(xs[1..], oldTree, newTree)[i - 1];
      }
    }
  }

  /** `cs'` is `cs` with some elements identical to `oldTree` turned into
      `newTree`, and nothing else changed. */
  ghost predicate Rewrites(cs: seq<Ptr>, cs': seq<Ptr>, oldTree: Ptr, newTree: Ptr) {
    |cs'| == |cs|
    && forall i :: 0 <= i < |cs| ==> cs'[i] == cs[i] || (cs[i] == oldTree && cs'[i] == newTree)
  }

  /** What every `replace` override guarantees about the node it edits. */
  ghost predicate RewritesOnlyOld(n: Node, e: Edit, oldTree: Ptr, newTree: Ptr) {
    Rewrites(Children(n), Children(e.node), oldTree, newTree)
    && (e.changed ==> oldTree in Children(n))
    && (!e.changed ==> e.node == n)
    && SameShape(n, e.node)
  }

  lemma OperandRewrites(n: Node, oldTree: Ptr, newTree: Ptr)
    requires n.NotNode? || n.NegNode? || n.NullCheckNode? || n.FieldNode? || n.CastNode?
    ensures RewritesOnlyOld(n, Replaced(n, oldTree, newTree), oldTree, newTree)
  {
  }

  lemma StatementRewrites(n: Node, oldTree: Ptr, newTree: Ptr)
    requires n.ExprStmtNode? || n.ReturnNode? || n.FreeNode? || n.VarDecNode?
    ensures RewritesOnlyOld(n, Replaced(n, oldTree, newTree), oldTree, newTree)
  {
  }

  lemma PairRewrites(n: Node, oldTree: Ptr, newTree: Ptr)
    requires n.ContainerNode? || n.AssignNode? || n.BinNode?
    ensures RewritesOnlyOld(n, Replaced(n, oldTree, newTree), oldTree, newTree)
  {
  }

  lemma ControlRewrites(n: Node, oldTree: Ptr, newTree: Ptr)
    requires n.IfNode? || n.WhileNode? || n.DoWhileNode?
    ensures RewritesOnlyOld(n, Replaced(n, oldTree, newTree), oldTree, newTree)
  {
  }

  lemma ListRewrites(n: Node, oldTree: Ptr, newTree: Ptr)
    requires n.ArrayNode? || n.GlobalCallNode? || n.StructInitNode? || n.BlockNode?
    ensures RewritesOnlyOld(n, Replaced(n, oldTree, newTree), oldTree, newTree)
  {
    ReplaceAllEvery(n.items, oldTree, newTree);
  }

  lemma MethodCallRewrites(n: Node, oldTree: Ptr, newTree: Ptr)
    requires n.MethodCallNode?
    ensures RewritesOnlyOld(n, Replaced(n, oldTree, newTree), oldTree, newTree)
  {
    var e := Replaced(n, oldTree, newTree);
    ReplaceAllEvery(n.items, oldTree, newTree);
    if n.operand != oldTree {
      assert Children(e.node) == [n.operand] + ReplaceAll(n.items, oldTree, newTree);
    }
  }

  /** Replacement only ever turns a child identical to `oldTree` into
      `newTree`: every other child and the node's list lengths stay, and a
      node that reports no change is left exactly as it was. */
  lemma ReplacedOnlyRewritesOld(n: Node, oldTree: Ptr, newTree: Ptr)
    ensures RewritesOnlyOld(n, Replaced(n, oldTree, newTree), oldTree, newTree)
  {
    if n.NotNode? || n.NegNode? || n.NullCheckNode? || n.FieldNode? || n.CastNode? {
      OperandRewrites(n, oldTree, newTree);
    } else if n.ExprStmtNode? || n.ReturnNode? || n.FreeNode? || n.VarDecNode? {
      StatementRewrites(n, oldTree, newTree);
    } else if n.ContainerNode? || n.AssignNode? || n.BinNode? {
      PairRewrites(n, oldTree, newTree);
    } else if n.IfNode? || n.WhileNode? || n.DoWhileNode? {
      ControlRewrites(n, oldTree, newTree);
    } else if n.ArrayNode? || n.GlobalCallNode? || n.StructInitNode? || n.BlockNode? {
      ListRewrites(n, oldTree, newTree);
    } else if n.MethodCallNode? {
      MethodCallRewrites(n, oldTree, newTree);
    } else {
      NoOverrideKeeps(n, oldTree, newTree);
    }
  }

  /** So a valid node stays valid when the new child is a valid reference. */
  lemma ReplacedValid(n: Node, oldTree: Ptr, newTree: Ptr, size: nat)
    requires NodeValid(n, size) && PtrValid(newTree, size)
    ensures NodeValid(Replaced(n, oldTree, newTree).node, size)
  {
    var e := Replaced(n, oldTree, newTree);
    ReplacedOnlyRewritesOld(n, oldTree, newTree);
    forall p | p in Children(e.node) ensures p.Nil? || p.addr < size {
      var i :| 0 <= i < |Children(e.node)| && Children(e.node)[i] == p;
      assert Children(n)[i] in Children(n);
    }
  }

  /** A list owner (block, array literal, call, struct literal) replaces
      every element identical to `oldTree`, and reports a change exactly
      when there was one. */
  lemma ListReplacesEvery(n: Node, oldTree: Ptr, newTree: Ptr)
    requires n.ArrayNode? || n.GlobalCallNode? || n.StructInitNode? || n.BlockNode?
    ensures var e := Replaced(n, oldTree, newTree);
      (e.changed <==> oldTree in n.items)
      && |e.node.items| == |n.items|
      && forall i :: 0 <= i < |n.items| ==> e.node.items[i] == (if n.items[i] == oldTree then newTree else n.items[i])
  {
    ReplaceAllEvery(n.items, oldTree, newTree);
  }

  /** A binary operation, an assignment or a container access swaps its
      first operand if that is `oldTree`, otherwise its second one: at most
      one operand changes, even when both are the same tree. */
  lemma BinaryReplacesOneSlot(n: Node, oldTree: Ptr, newTree: Ptr)
    requires n.BinNode? || n.AssignNode? || n.ContainerNode?
    ensures var e := Replaced(n, oldTree, newTree);
      var c, c' := Children(n), Children(e.node);
      |c| == |c'| == 2
      && (e.changed <==> oldTree in c)
      && (c'[0] != c[0] ==> c'[1] == c[1])
      && (c[0] == oldTree ==> c'[0] == newTree && c'[1] == c[1])
  {
  }

  /** A method call tries its receiver first; only when the receiver is not
      `oldTree` are the arguments searched. */
  lemma MethodCallReceiverFirst(n: Node, oldTree: Ptr, newTree: Ptr)
    requires n.MethodCallNode?
    ensures var e := Replaced(n, oldTree, newTree);
      (n.operand == oldTree ==> e.node.items == n.items && e.node.operand == newTree && e.changed)
      && (n.operand != oldTree ==> e.node.operand == n.operand && (e.changed <==> oldTree in n.items))
  {
  }

  /** In `if`, `while` and `do-while`, `replace` reaches only the condition:
      the bodies are never rewritten by it. */
  lemma ControlReplacesConditionOnly(n: Node, oldTree: Ptr, newTree: Ptr)
    requires n.IfNode? || n.WhileNode? || n.DoWhileNode?
    ensures var e := Replaced(n, oldTree, newTree);
      (e.changed <==> n.cond == oldTree)
      && (e.node.cond == if n.cond == oldTree then newTree else n.cond)
      && (n.IfNode? ==> e.node.ifBody == n.ifBody && e.node.elseBody == n.elseBody)
      && (!n.IfNode? ==> e.node.body == n.body)
  {
  }

  /** Nodes without a `replace` override (literals, variables, callables,
      implementations, the root) report false and keep their fields. */
  lemma NoOverrideKeeps(n: Node, oldTree: Ptr, newTree: Ptr)
    requires !(n.NotNode? || n.NegNode? || n.NullCheckNode? || n.FieldNode? || n.CastNode?
               || n.ExprStmtNode? || n.ReturnNode? || n.FreeNode? || n.VarDecNode?
               || n.ContainerNode? || n.AssignNode? || n.BinNode? || n.IfNode? || n.WhileNode?
               || n.DoWhileNode? || n.ArrayNode? || n.GlobalCallNode? || n.StructInitNode?
               || n.BlockNode? || n.MethodCallNode?)
    ensures Replaced(n, oldTree, newTree) == Edit(n, false)
  {
  }

  /** The position of the first element equal to `x`. */
  function FirstIndex(xs: seq<Ptr>, x: Ptr): (k: nat)
    requires x in xs
    ensures k < |xs| && xs[k] == x && x !in xs[..k]
  {
    if xs[0] == x then 0
    else
      var k := FirstIndex(xs[1..], x);
      assert xs[..k + 1] == [xs[0]] + xs[1..][..k];
      k + 1
  }

  lemma RemoveFirstAt(xs: seq<Ptr>, x: Ptr)
    requires x in xs
    ensures RemoveFirst(xs, x) == xs[..FirstIndex(xs, x)] + xs[FirstIndex(xs, x) + 1..]
  {
    var k := FirstIndex(xs, x);
    forall j | 0 <= j < k ensures xs[j] != x {
      assert xs[j] == xs[..k][j];
    }
    RemoveFirstSplit(xs, x, k);
  }

  /** `RemoveFirst` cuts out position `k` when `k` is the first occurrence. */
  lemma {:induction false} RemoveFirstSplit(xs: seq<Ptr>, x: Ptr, k: nat)
    requires k < |xs| && xs[k] == x && forall j :: 0 <= j < k ==> xs[j] != x
    ensures RemoveFirst(xs, x) == xs[..k] + xs[k + 1..]
  {
    if k == 0 {
      assert xs[..0] + xs[1..] == xs[1..];
    } else {
      var t := xs[1..];
      assert forall j :: 0 <= j < k - 1 ==> t[j] == xs[j + 1];
      RemoveFirstSplit(t, x, k - 1);
      assert xs[..k] == [xs[0]] + t[..k - 1];
      assert xs[k + 1..] == t[k..];
    }
  }

  lemma {:induction false} RemoveFirstAbsent(xs: seq<Ptr>, x: Ptr)
    requires x !in xs
    ensures RemoveFirst(xs, x) == xs
  {
    if xs != [] {
      RemoveFirstAbsent(xs[1..], x);
    }
  }

  /** A block's `remove` deletes the first statement identical to the
      target, keeps the others in order, and reports whether it found one. */
  lemma BlockRemovesFirst(xs: seq<Ptr>, target: Ptr, block: Ptr)
    ensures var e := Removed(BlockNode(xs), target, block);
      (e.changed <==> target in xs)
      && (target !in xs ==> e.node.items == xs)
      && (target in xs ==> e.node.items == xs[..FirstIndex(xs, target)] + xs[FirstIndex(xs, target) + 1..])
  {
    if target in xs {
      RemoveFirstAt(xs, target);
    } else {
      RemoveFirstAbsent(xs, target);
    }
  }

  /** Removing a loop body or a branch of an `if` installs the new empty
      block in that place and changes nothing else; the `then` branch is
      tried before the `else` branch. */
  lemma RemovedBodyIsFresh(n: Node, target: Ptr, block: Ptr)
    requires n.IfNode? || n.WhileNode? || n.DoWhileNode?
    ensures var e := Removed(n, target, block);
      (e.changed <==> ReplacesBody(n, target))
      && e.node.cond == n.cond
      && (n.IfNode? ==> e.node.ifBody == (if n.ifBody == target then block else n.ifBody)
                        && e.node.elseBody == (if n.ifBody != target && n.elseBody == target then block else n.elseBody))
      && (!n.IfNode? ==> e.node.body == if n.body == target then block else n.body)
  {
  }

  lemma RemovedValid(n: Node, target: Ptr, size: nat)
    requires NodeValid(n, size)
    ensures NodeValid(Removed(n, target, Ref(size)).node, size + 1)
  {
    var e := Removed(n, target, Ref(size));
    if n.BlockNode? {
      if target in n.items {
        RemoveFirstAt(n.items, target);
      } else {
        RemoveFirstAbsent(n.items, target);
      }
      forall p | p in e.node.items ensures p.Nil? || p.addr < size + 1 {
        assert p in n.items;
      }
    }
  }

  lemma RemovedKeepsValid(n: Node, target: Ptr, size: nat)
    requires NodeValid(n, size) && !ReplacesBody(n, target)
    ensures NodeValid(Removed(n, target, Ref(size)).node, size)
  {
    var e := Removed(n, target, Ref(size));
    if n.BlockNode? {
      if target in n.items {
        RemoveFirstAt(n.items, target);
      } else {
        RemoveFirstAbsent(n.items, target);
      }
      forall p | p in e.node.items ensures p.Nil? || p.addr < size {
        assert p in n.items;
      }
    }
  }

  /** Every node of the arena is valid in it. */
  ghost predicate AllValid(nodes: seq<Node>) {
    forall i :: 0 <= i < |nodes| ==> NodeValid(nodes[i], |nodes|)
  }

  /** The arena only grows, and every node keeps its list lengths. */
  ghost predicate Grows(before: seq<Node>, after: seq<Node>) {
    |before| <= |after| && forall i :: 0 <= i < |before| ==> SameShape(before[i], after[i])
  }

  lemma NodeValidGrows(n: Node, size: nat, size': nat)
    requires NodeValid(n, size) && size <= size'
    ensures NodeValid(n, size')
  {
  }

  /** The syntax tree as the optimizer sees it: one arena shared by every
      owner, so an edit through one parent is seen through all of them. */
  class Forest {
    var nodes: seq<Node>

    ghost predicate Valid()
      reads this
    {
      AllValid(nodes)
    }

    constructor (nodes0: seq<Node>)
      requires AllValid(nodes0)
      ensures nodes == nodes0 && Valid()
    {
      nodes := nodes0;
    }

    /** Allocates a node (`new Trees.Basic…Tree(...)`). */
    method Add(n: Node) returns (p: Ptr)
      requires Valid() && NodeValid(n, |nodes|)
      modifies this
      ensures nodes == old(nodes) + [n] && p == Ref(|old(nodes)|)
      ensures Valid() && Grows(old(nodes), nodes)
    {
      p := Ref(|nodes|);
      forall i | 0 <= i < |nodes| ensures NodeValid(nodes[i], |nodes| + 1) {
        NodeValidGrows(nodes[i], |nodes|, |nodes| + 1);
      }
      NodeValidGrows(n, |nodes|, |nodes| + 1);
      nodes := nodes + [n];
    }

    /** `owner.replace(oldTree, newTree)`. */
    method Replace(owner: nat, oldTree: Ptr, newTree: Ptr) returns (changed: bool)
      requires Valid() && owner < |nodes| && PtrValid(newTree, |nodes|)
      modifies this
      ensures nodes == old(nodes)[owner := Replaced(old(nodes)[owner], oldTree, newTree).node]
      ensures changed == Replaced(old(nodes)[owner], oldTree, newTree).changed
      ensures !changed ==> nodes == old(nodes)
      ensures Valid() && Grows(old(nodes), nodes)
    {
      var e := Replaced(nodes[owner], oldTree, newTree);
      ReplacedValid(nodes[owner], oldTree, newTree, |nodes|);
      ReplacedOnlyRewritesOld(nodes[owner], oldTree, newTree);
      nodes := nodes[owner := e.node];
      changed := e.changed;
    }

    /** `owner.remove(toRemove)`; a new empty block is allocated only when
        the owner installs one. */
    method Remove(owner: nat, target: Ptr) returns (changed: bool)
      requires Valid() && owner < |nodes|
      modifies this
      ensures ReplacesBody(old(nodes)[owner], target) ==>
        nodes == (old(nodes) + [BlockNode([])])[owner := Removed(old(nodes)[owner], target, Ref(|old(nodes)|)).node]
      ensures !ReplacesBody(old(nodes)[owner], target) ==>
        nodes == old(nodes)[owner := Removed(old(nodes)[owner], target, Ref(|old(nodes)|)).node]
      ensures changed == Removed(old(nodes)[owner], target, Ref(|old(nodes)|)).changed
      ensures Valid()
    {
      var size := |nodes|;
      var e := Removed(nodes[owner], target, Ref(size));
      if ReplacesBody(nodes[owner], target) {
        RemovedValid(nodes[owner], target, size);
        var block := Add(BlockNode([]));
      } else {
        RemovedKeepsValid(nodes[owner], target, size);
      }
      nodes := nodes[owner := e.node];
      changed := e.changed;
    }
  }
}
