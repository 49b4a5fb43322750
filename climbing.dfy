/** Precedence climbing (`RabbitParser.parseExpression(lhs, min)`), stated
    over any operator table: the token type `T`, the expression type `E`,
    each operator's level and how it combines two operands. */
module Climbing {
  import opened Wrappers

  /** One round of the climbing loop: the operator consumed and the operand
      parsed after it (`MissingE` where the operand was missing). */
  datatype Step<T, E> = Step(op: T, rand: E)

  /** What precedence climbing needs to know about operators: the level of
      each token (`None` for a token that is not a binary operator) and how
      an operator combines its operands. The parser uses `Rabbit`; the
      climbing lemmas hold for any table. */
  datatype Operators<!T, !E> = Operators(level: T -> Option<nat>, apply: (T, E, E) -> Result<E>)

  /** An operator of the table. */
  predicate IsOperator<T, E>(ops: Operators<T, E>, t: T) {
    ops.level(t).Some?
  }

  /** The outer loop's test: an operator of level at least `min`. */
  predicate Binds<T, E>(ops: Operators<T, E>, t: T, min: int) {
    ops.level(t).Some? && ops.level(t).value >= min
  }

  /** The inner loop's test: an operator binding tighter than `op`. */
  predicate Tighter<T, E>(ops: Operators<T, E>, t: T, op: T)
    requires IsOperator(ops, op)
  {
    ops.level(t).Some? && ops.level(t).value > ops.level(op).value
  }

  /** A result with `n` more steps counted as used. */
  function Shifted<E>(r: Result<(E, nat)>, n: nat): Result<(E, nat)> {
    match r
    case Ok(v) => Ok((v.0, v.1 + n))
    case Fail(f) => Fail(f)
  }

  lemma ShiftedTwice<E>(r: Result<(E, nat)>, m: nat, n: nat)
    ensures Shifted(Shifted(r, m), n) == Shifted(r, m + n)
  {
  }

  /** `parseExpression(lhs, min)` over a list of steps: the expression built
      and the number of steps used. The steps run out where the parser's
      lookahead stops being a binary operator. */
  function Climb<T, E>(ops: Operators<T, E>, lhs: E, steps: seq<Step<T, E>>, min: int): (r: Result<(E, nat)>)
    ensures r.Ok? ==> r.value.1 <= |steps|
    ensures r.Ok? && steps != [] && Binds(ops, steps[0].op, min) ==> r.value.1 >= 1
    decreases |steps|, 0
  {
    if steps == [] || !Binds(ops, steps[0].op, min) then Ok((lhs, 0))
    else
      match Inner(ops, steps[0].op, steps[0].rand, steps[1..])
      case Fail(f) => Fail(f)
      case Ok(inner) =>
        match ops.apply(steps[0].op, lhs, inner.0)
        case Fail(f) => Fail(f)
        case Ok(e) => Shifted(Climb(ops, e, steps[1 + inner.1..], min), 1 + inner.1)
  }

  /** The inner loop of `parseExpression`: while the next operator binds
      tighter than `op`, the right operand absorbs it by a nested climb at
      `precedenceOf(op) + 1`. */
  function Inner<T, E>(ops: Operators<T, E>, op: T, rhs: E, steps: seq<Step<T, E>>): (r: Result<(E, nat)>)
    requires IsOperator(ops, op)
    ensures r.Ok? ==> r.value.1 <= |steps|
    decreases |steps|, 1
  {
    if steps != [] && Tighter(ops, steps[0].op, op) then
      match Climb(ops, rhs, steps, ops.level(op).value + 1)
      case Fail(f) => Fail(f)
      case Ok(nested) => Shifted(Inner(ops, op, nested.0, steps[nested.1..]), nested.1)
    else Ok((rhs, 0))
  }

  /** Does a continuation of the steps begin with token `t` (or is it empty)? */
  ghost predicate StartsWith<T, E>(rest: seq<Step<T, E>>, t: T) {
    rest == [] || rest[0].op == t
  }

  /** Steps the climb does not get to, because their first operator does not
      bind at `min`, are left alone. */
  predicate StopsAt<T, E>(ops: Operators<T, E>, rest: seq<Step<T, E>>, min: int) {
    rest == [] || !Binds(ops, rest[0].op, min)
  }

  /** `Climb` when the first step binds: its operand grows by the inner
      loop, is combined with `lhs`, and the climb goes on after it. */
  lemma ClimbUnfold<T, E>(ops: Operators<T, E>, lhs: E, steps: seq<Step<T, E>>, min: int, x: E, k: nat, e: E)
    requires steps != [] && Binds(ops, steps[0].op, min)
    requires Inner(ops, steps[0].op, steps[0].rand, steps[1..]) == Ok((x, k))
    requires ops.apply(steps[0].op, lhs, x) == Ok(e)
    ensures 1 + k <= |steps|
    ensures Climb(ops, lhs, steps, min) == Shifted(Climb(ops, e, steps[1 + k..], min), 1 + k)
  {
  }

  /** `Inner` when the first step binds tighter: a nested climb, then the
      inner loop goes on after it. */
  lemma InnerUnfold<T, E>(ops: Operators<T, E>, op: T, rhs: E, steps: seq<Step<T, E>>, n: E, u: nat)
    requires IsOperator(ops, op)
    requires steps != [] && Tighter(ops, steps[0].op, op)
    requires Climb(ops, rhs, steps, ops.level(op).value + 1) == Ok((n, u))
    ensures u <= |steps|
    ensures Inner(ops, op, rhs, steps) == Shifted(Inner(ops, op, n, steps[u..]), u)
  {
  }

  /** Dropping fewer elements than the first part holds. */
  lemma DropInsideAppend<X>(s: seq<X>, t: seq<X>, n: nat)
    requires n <= |s|
    ensures (s + t)[n..] == s[n..] + t
  {
  }

  /** Appending steps does not change a climb that stopped before the end of
      its steps, or that used them all and would stop at the appended ones. */
  lemma {:induction false} ClimbExtend<T, E>(ops: Operators<T, E>, lhs: E, steps: seq<Step<T, E>>, rest: seq<Step<T, E>>, min: int)
    requires Climb(ops, lhs, steps, min).Ok?
    requires Climb(ops, lhs, steps, min).value.1 < |steps| || StopsAt(ops, rest, min)
    ensures Climb(ops, lhs, steps + rest, min) == Climb(ops, lhs, steps, min)
    decreases |steps|, 0, 0
  {
    var all := steps + rest;
    if steps == [] {
      assert all == rest;
    } else if Binds(ops, steps[0].op, min) {
      var op, rand := steps[0].op, steps[0].rand;
      assert all[0] == steps[0] && all[1..] == steps[1..] + rest;
      var inner := Inner(ops, op, rand, steps[1..]);
      assert inner.Ok?;
      var x, k := inner.value.0, inner.value.1;
      var e := ops.apply(op, lhs, x);
      assert e.Ok?;
      ClimbUnfold(ops, lhs, steps, min, x, k, e.value);
      var tail := steps[1 + k..];
      InnerExtend(ops, op, rand, steps[1..], rest);
      ClimbUnfold(ops, lhs, all, min, x, k, e.value);
      DropInsideAppend(steps, rest, 1 + k);
      ClimbExtend(ops, e.value, tail, rest, min);
    } else {
      assert all[0] == steps[0];
    }
  }

  /** The same for the inner loop: appended steps that do not bind tighter
      than `op` are not absorbed. */
  lemma {:induction false} InnerExtend<T, E>(ops: Operators<T, E>, op: T, rhs: E, steps: seq<Step<T, E>>, rest: seq<Step<T, E>>)
    requires IsOperator(ops, op)
    requires Inner(ops, op, rhs, steps).Ok?
    requires Inner(ops, op, rhs, steps).value.1 < |steps| || rest == [] || !Tighter(ops, rest[0].op, op)
    ensures Inner(ops, op, rhs, steps + rest) == Inner(ops, op, rhs, steps)
    decreases |steps|, 1, 1
  {
    if steps == [] {
      assert steps + rest == rest;
    } else if Tighter(ops, steps[0].op, op) {
      InnerExtendTighter(ops, op, rhs, steps, rest);
    } else {
      assert (steps + rest)[0] == steps[0];
    }
  }

  /** `InnerExtend` where the first step binds tighter than `op`. */
  lemma {:induction false} InnerExtendTighter<T, E>(ops: Operators<T, E>, op: T, rhs: E, steps: seq<Step<T, E>>, rest: seq<Step<T, E>>)
    requires IsOperator(ops, op)
    requires steps != [] && Tighter(ops, steps[0].op, op)
    requires Inner(ops, op, rhs, steps).Ok?
    requires Inner(ops, op, rhs, steps).value.1 < |steps| || rest == [] || !Tighter(ops, rest[0].op, op)
    ensures Inner(ops, op, rhs, steps + rest) == Inner(ops, op, rhs, steps)
    decreases |steps|, 1, 0
  {
    var all := steps + rest;
    assert all[0] == steps[0];
    var nested := Climb(ops, rhs, steps, ops.level(op).value + 1);
    assert nested.Ok?;
    var n, u := nested.value.0, nested.value.1;
    InnerUnfold(ops, op, rhs, steps, n, u);
    ClimbExtend(ops, rhs, steps, rest, ops.level(op).value + 1);
    InnerUnfold(ops, op, rhs, all, n, u);
    DropInsideAppend(steps, rest, u);
    InnerExtend(ops, op, n, steps[u..], rest);
  }

  /** The climbing loop's invariant: whatever steps follow, starting at the
      current lookahead `look`, the climb from `lhs` over the steps consumed
      so far and then those equals the climb from `cur` over those alone. */
  ghost predicate ClimbContinues<T(!new), E(!new)>(ops: Operators<T, E>, lhs: E, steps: seq<Step<T, E>>, cur: E, look: T, min: int) {
    forall rest {:trigger StartsWith(rest, look)} :: StartsWith(rest, look) ==>
      Climb(ops, lhs, steps + rest, min) == Shifted(Climb(ops, cur, rest, min), |steps|)
  }

  /** The inner loop's invariant, in the same form. */
  ghost predicate InnerContinues<T(!new), E(!new)>(ops: Operators<T, E>, op: T, rand: E, steps: seq<Step<T, E>>, rhs: E, look: T)
    requires IsOperator(ops, op)
  {
    forall rest {:trigger StartsWith(rest, look)} :: StartsWith(rest, look) ==>
      Inner(ops, op, rand, steps + rest) == Shifted(Inner(ops, op, rhs, rest), |steps|)
  }

  lemma ClimbContinuesAt<T(!new), E(!new)>(ops: Operators<T, E>, lhs: E, steps: seq<Step<T, E>>, cur: E, look: T, min: int,
                         rest: seq<Step<T, E>>)
    requires ClimbContinues(ops, lhs, steps, cur, look, min)
    requires rest != [] && rest[0].op == look
    ensures Climb(ops, lhs, steps + rest, min) == Shifted(Climb(ops, cur, rest, min), |steps|)
  {
    assert StartsWith(rest, look);
  }

  lemma InnerContinuesAt<T(!new), E(!new)>(ops: Operators<T, E>, op: T, rand: E, steps: seq<Step<T, E>>, rhs: E, look: T,
                         rest: seq<Step<T, E>>)
    requires IsOperator(ops, op)
    requires InnerContinues(ops, op, rand, steps, rhs, look)
    requires StartsWith(rest, look)
    ensures Inner(ops, op, rand, steps + rest) == Shifted(Inner(ops, op, rhs, rest), |steps|)
  {
  }

  lemma ClimbStart<T(!new), E(!new)>(ops: Operators<T, E>, lhs: E, look: T, min: int)
    ensures ClimbContinues(ops, lhs, [], lhs, look, min)
  {
    forall rest | StartsWith(rest, look)
      ensures Climb(ops, lhs, [] + rest, min) == Shifted(Climb(ops, lhs, rest, min), 0)
    {
      assert [] + rest == rest;
    }
  }

  lemma InnerStart<T(!new), E(!new)>(ops: Operators<T, E>, op: T, rand: E, look: T)
    requires IsOperator(ops, op)
    ensures InnerContinues(ops, op, rand, [], rand, look)
  {
    forall rest | StartsWith(rest, look)
      ensures Inner(ops, op, rand, [] + rest) == Shifted(Inner(ops, op, rand, rest), 0)
    {
      assert [] + rest == rest;
    }
  }

  /** When the lookahead does not bind, the steps consumed are all used. */
  lemma ClimbFinish<T(!new), E(!new)>(ops: Operators<T, E>, lhs: E, steps: seq<Step<T, E>>, cur: E, look: T, min: int)
    requires ClimbContinues(ops, lhs, steps, cur, look, min)
    ensures Climb(ops, lhs, steps, min) == Ok((cur, |steps|))
  {
    assert StartsWith<T, E>([], look);
    assert steps + [] == steps;
  }

  /** One round of the inner loop: a nested climb that used all of `more`
      and stopped at `look'`. */
  lemma InnerStep<T(!new), E(!new)>(ops: Operators<T, E>, op: T, rand: E, steps: seq<Step<T, E>>, rhs: E, look: T,
                  more: seq<Step<T, E>>, nested: E, look': T)
    requires IsOperator(ops, op) && Tighter(ops, look, op)
    requires InnerContinues(ops, op, rand, steps, rhs, look)
    requires more != [] && more[0].op == look
    requires Climb(ops, rhs, more, ops.level(op).value + 1) == Ok((nested, |more|))
    requires !Binds(ops, look', ops.level(op).value + 1)
    ensures InnerContinues(ops, op, rand, steps + more, nested, look')
  {
    forall rest | StartsWith(rest, look')
      ensures Inner(ops, op, rand, (steps + more) + rest) == Shifted(Inner(ops, op, nested, rest), |steps + more|)
    {
      var later := more + rest;
      assert StartsWith(later, look) by {
        assert later[0] == more[0];
      }
      InnerStepThen(ops, op, rand, steps, rhs, look, more, nested, rest);
    }
  }

  /** `InnerStep` for one continuation `rest`, from the invariant before. */
  lemma InnerStepThen<T(!new), E(!new)>(ops: Operators<T, E>, op: T, rand: E, steps: seq<Step<T, E>>, rhs: E, look: T,
                      more: seq<Step<T, E>>, nested: E, rest: seq<Step<T, E>>)
    requires IsOperator(ops, op) && Tighter(ops, look, op)
    requires InnerContinues(ops, op, rand, steps, rhs, look)
    requires more != [] && more[0].op == look && StartsWith(more + rest, look)
    requires Climb(ops, rhs, more, ops.level(op).value + 1) == Ok((nested, |more|))
    requires StopsAt(ops, rest, ops.level(op).value + 1)
    ensures Inner(ops, op, rand, (steps + more) + rest) == Shifted(Inner(ops, op, nested, rest), |steps + more|)
  {
    var later := more + rest;
    AppendAssoc(steps, more, rest);
    InnerContinuesAt(ops, op, rand, steps, rhs, look, later);
    InnerStepAt(ops, op, rhs, look, more, nested, rest);
    ShiftedTwice(Inner(ops, op, nested, rest), |more|, |steps|);
  }

  /** `InnerStep` for one continuation `rest`. */
  lemma InnerStepAt<T, E>(ops: Operators<T, E>, op: T, rhs: E, look: T, more: seq<Step<T, E>>, nested: E, rest: seq<Step<T, E>>)
    requires IsOperator(ops, op) && Tighter(ops, look, op)
    requires more != [] && more[0].op == look
    requires Climb(ops, rhs, more, ops.level(op).value + 1) == Ok((nested, |more|))
    requires StopsAt(ops, rest, ops.level(op).value + 1)
    ensures Inner(ops, op, rhs, more + rest) == Shifted(Inner(ops, op, nested, rest), |more|)
  {
    var all := more + rest;
    assert all[0] == more[0];
    ClimbExtend(ops, rhs, more, rest, ops.level(op).value + 1);
    InnerUnfold(ops, op, rhs, all, nested, |more|);
    assert all[|more|..] == rest;
  }

  /** One round of the outer loop: operator `op` (the lookahead before it
      was consumed), its operand `rand` grown to `rhs` by the inner loop
      over `inner`, combined with `cur` into `e`. */
  lemma ClimbGroup<T(!new), E(!new)>(ops: Operators<T, E>, lhs: E, steps: seq<Step<T, E>>, cur: E, min: int, op: T, rand: E,
                   inner: seq<Step<T, E>>, rhs: E, e: E, look: T)
    requires Binds(ops, op, min)
    requires ClimbContinues(ops, lhs, steps, cur, op, min)
    requires InnerContinues(ops, op, rand, inner, rhs, look)
    requires !Tighter(ops, look, op)
    requires ops.apply(op, cur, rhs) == Ok(e)
    ensures ClimbContinues(ops, lhs, steps + ([Step(op, rand)] + inner), e, look, min)
  {
    var group := [Step(op, rand)] + inner;
    forall rest | StartsWith(rest, look)
      ensures Climb(ops, lhs, (steps + group) + rest, min) == Shifted(Climb(ops, e, rest, min), |steps + group|)
    {
      ClimbGroupThen(ops, lhs, steps, cur, min, op, rand, inner, rhs, e, look, rest);
    }
  }

  /** `ClimbGroup` for one continuation `rest`, from the invariants before. */
  lemma ClimbGroupThen<T(!new), E(!new)>(ops: Operators<T, E>, lhs: E, steps: seq<Step<T, E>>, cur: E, min: int, op: T, rand: E,
                       inner: seq<Step<T, E>>, rhs: E, e: E, look: T, rest: seq<Step<T, E>>)
    requires Binds(ops, op, min)
    requires ClimbContinues(ops, lhs, steps, cur, op, min)
    requires InnerContinues(ops, op, rand, inner, rhs, look)
    requires !Tighter(ops, look, op)
    requires ops.apply(op, cur, rhs) == Ok(e)
    requires StartsWith(rest, look)
    ensures Climb(ops, lhs, (steps + ([Step(op, rand)] + inner)) + rest, min) ==
      Shifted(Climb(ops, e, rest, min), |steps + ([Step(op, rand)] + inner)|)
  {
    var group := [Step(op, rand)] + inner;
    var later := group + rest;
    AppendAssoc(steps, group, rest);
    assert later[0] == Step(op, rand);
    ClimbContinuesAt(ops, lhs, steps, cur, op, min, later);
    InnerContinuesAt(ops, op, rand, inner, rhs, look, rest);
    ClimbGroupAt(ops, cur, min, op, rand, inner, rhs, e, rest);
    ShiftedTwice(Climb(ops, e, rest, min), 1 + |inner|, |steps|);
  }

  /** The climb from `cur` over one group and then `rest`. */
  lemma ClimbGroupAt<T, E>(ops: Operators<T, E>, cur: E, min: int, op: T, rand: E, inner: seq<Step<T, E>>, rhs: E, e: E,
                         rest: seq<Step<T, E>>)
    requires Binds(ops, op, min)
    requires rest == [] || !Tighter(ops, rest[0].op, op)
    requires Inner(ops, op, rand, inner + rest) == Shifted(Inner(ops, op, rhs, rest), |inner|)
    requires ops.apply(op, cur, rhs) == Ok(e)
    ensures Climb(ops, cur, ([Step(op, rand)] + inner) + rest, min) == Shifted(Climb(ops, e, rest, min), 1 + |inner|)
  {
    var later := ([Step(op, rand)] + inner) + rest;
    AppendAssoc([Step(op, rand)], inner, rest);
    assert later[0] == Step(op, rand) && later[1..] == inner + rest;
    assert Inner(ops, op, rhs, rest) == Ok((rhs, 0));
    ClimbUnfold(ops, cur, later, min, rhs, |inner|, e);
    DropInsideAppend([Step(op, rand)] + inner, rest, 1 + |inner|);
    assert ([Step(op, rand)] + inner)[1 + |inner|..] == [];
  }

  /** An operator followed by one that does not bind tighter (equal
      precedence in particular) groups to the left: `a op1 b op2 c` is
      `(a op1 b) op2 c`. */
  lemma LeftGrouping<T, E>(ops: Operators<T, E>, a: E, op1: T, b: E, op2: T, c: E, min: int)
    requires Binds(ops, op1, min) && Binds(ops, op2, min) && !Tighter(ops, op2, op1)
    ensures Climb(ops, a, [Step(op1, b), Step(op2, c)], min) ==
      (var ab :- ops.apply(op1, a, b); var abc :- ops.apply(op2, ab, c); Ok((abc, 2)))
  {
    var steps := [Step(op1, b), Step(op2, c)];
    var tail := [Step(op2, c)];
    assert steps[1..] == tail && tail[1..] == [] && steps[2..] == [];
    assert Inner(ops, op1, b, tail) == Ok((b, 0));
    assert Inner(ops, op2, c, []) == Ok((c, 0));
    match ops.apply(op1, a, b)
    case Fail(_) =>
    case Ok(ab) =>
      ClimbUnfold(ops, a, steps, min, b, 0, ab);
      match ops.apply(op2, ab, c)
      case Fail(_) =>
      case Ok(abc) =>
        ClimbUnfold(ops, ab, tail, min, c, 0, abc);
        assert Climb(ops, abc, [], min) == Ok((abc, 0));
  }

  /** An operator that binds tighter takes the operand before it: `a op1 b
      op2 c` is `a op1 (b op2 c)`. */
  lemma TighterGrouping<T, E>(ops: Operators<T, E>, a: E, op1: T, b: E, op2: T, c: E, min: int)
    requires Binds(ops, op1, min) && Tighter(ops, op2, op1)
    ensures Climb(ops, a, [Step(op1, b), Step(op2, c)], min) ==
      (var bc :- ops.apply(op2, b, c); var abc :- ops.apply(op1, a, bc); Ok((abc, 2)))
  {
    var steps := [Step(op1, b), Step(op2, c)];
    var tail := [Step(op2, c)];
    assert steps[1..] == tail && tail[1..] == [];
    var level := ops.level(op1).value + 1;
    assert Inner(ops, op2, c, []) == Ok((c, 0));
    match ops.apply(op2, b, c)
    case Fail(_) =>
      assert Climb(ops, b, tail, level).Fail?;
      assert Inner(ops, op1, b, tail).Fail?;
    case Ok(bc) =>
      ClimbUnfold(ops, b, tail, level, c, 0, bc);
      assert Climb(ops, bc, [], level) == Ok((bc, 0));
      InnerUnfold(ops, op1, b, tail, bc, 1);
      assert Inner(ops, op1, bc, []) == Ok((bc, 0));
      match ops.apply(op1, a, bc)
      case Fail(_) =>
      case Ok(abc) =>
        ClimbUnfold(ops, a, steps, min, bc, 1, abc);
        assert steps[2..] == [];
        assert Climb(ops, abc, [], min) == Ok((abc, 0));
  }

}
