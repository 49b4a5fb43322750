/** The pure half of `computil.check.TypeChecker`: the structural
    `typeMatches` relation, the per-operator result types and the typing of
    expressions. An expression visit changes no checker field; it only logs
    errors, so here it returns its type together with the errors it logs, or
    the exception it throws; a failure does not carry the errors logged
    before the exception. A Java `null` type or scope is `None`. */
module TypeRules {
  import opened Wrappers
  import opened Diags
  import opened Types
  import opened Operations
  import opened Ast
  import opened Scopes
  import EM = ErrorMessages

  /** `TypeChecker.TypeEntry`: `parameters` is `null` for variables,
      parameters and fields, and the parameter types for callables. */
  datatype TypeEntry = TypeEntry(name: string, ty: Option<Ty>, mutable: bool, params: Option<seq<Ty>>)

  /** The checker only ever stores struct scopes in its `types` map. */
  type StructTable = s: Scope<TypeEntry> | s.StructScope? witness StructScope(map[], [], [])

  /** What an expression visit reads from the checker: the `impls` sets, the
      `types` map and the global scope's entries. */
  datatype Env = Env(impls: map<string, set<string>>, types: map<string, StructTable>, globals: map<string, TypeEntry>)

  /** An expression's type and the errors logged while computing it. */
  datatype Typing = Typing(ty: Option<Ty>, diags: seq<Diagnostic>)

  function NPE<T>(): Result<T> { Fail(Thrown("NullPointerException")) }

  /** `type.name()` on a possibly `null` type. */
  function NameOf(t: Option<Ty>): (r: Result<string>)
    ensures r.Ok? <==> t.Some?
    ensures r.Ok? ==> r.value == Name(t.value)
  {
    if t.None? then NPE() else Ok(Name(t.value))
  }

  /** `Tree.getLocation()` on a possibly `null` expression. */
  function LocOf(e: Expr): (r: Result<Loc>)
    ensures r.Ok? <==> !e.MissingExpr?
  {
    if e.MissingExpr? then NPE() else Ok(e.loc)
  }

  predicate IsNumericName(n: string) { n == "int" || n == "float" }

  /** `isPrimitive`: by name, so a user type called "void" counts too. */
  predicate IsPrimitiveName(n: string) { n in {"int", "float", "bool", "str", "void"} }

  function EntryType(e: Option<TypeEntry>): Option<Ty> {
    if e.Some? then e.value.ty else None
  }

  function Somes(ts: seq<Ty>): (r: seq<Option<Ty>>)
    ensures |r| == |ts| && forall i :: 0 <= i < |ts| ==> r[i] == Some(ts[i])
  {
    seq(|ts|, i requires 0 <= i < |ts| => Some(ts[i]))
  }

  // ---- typeMatches -------------------------------------------------------

  /** `implementsTemplate(given, template)` */
  predicate ImplementsTemplate(impls: map<string, set<string>>, given: string, template: string) {
    given in impls && template in impls[given]
  }

  /** `typeMatches(required, given)`: `null` on either side matches. */
  function TypeMatches(impls: map<string, set<string>>, required: Option<Ty>, given: Option<Ty>): Result<bool> {
    if required.None? || given.None? then Ok(true) else Matches(impls, required.value, given.value)
  }

  /** `typeMatches` on two non-null types. The generics count guard compares
      the required type's count with itself and never fires; the pairwise
      walk then throws `NoSuchElementException` when the given type has fewer
      generics, and ignores the extra ones when it has more. */
  function Matches(impls: map<string, set<string>>, required: Ty, given: Ty): Result<bool>
    decreases required, 1
  {
    if IsNullable(required) && given == VoidType then Ok(true)
    else if Name(required) != Name(given) && !ImplementsTemplate(impls, Name(given), Name(required)) then Ok(false)
    else if !IsNullable(required) && IsNullable(given) then Ok(false)
    else
      var rg :- Generics(required);
      var gg :- Generics(given);
      GenericsMatch(impls, required, rg, gg)
  }

  /** The loop over both generics iterators. */
  function GenericsMatch(impls: map<string, set<string>>, bound: Ty, rg: seq<Ty>, gg: seq<Ty>): Result<bool>
    requires forall g :: g in rg ==> g < bound
    decreases bound, 0, |rg|
  {
    if rg == [] then Ok(true)
    else if gg == [] then Fail(Thrown("NoSuchElementException"))
    else
      assert rg[0] in rg;
      var m :- Matches(impls, rg[0], gg[0]);
      if !m then Ok(false)
      else
        assert forall g :: g in rg[1..] ==> g in rg;
        GenericsMatch(impls, bound, rg[1..], gg[1..])
  }

  /** A reference reading of the generics walk: it succeeds exactly when the
      given list is at least as long and every required generic matches the
      given one at the same position. */
  lemma {:induction false} GenericsMatchPairwise(impls: map<string, set<string>>, bound: Ty, rg: seq<Ty>, gg: seq<Ty>)
    requires forall g :: g in rg ==> g < bound
    ensures GenericsMatch(impls, bound, rg, gg) == Ok(true)
        <==> |rg| <= |gg| && forall i :: 0 <= i < |rg| ==> Matches(impls, rg[i], gg[i]) == Ok(true)
    decreases |rg|
  {
    if rg != [] && gg != [] {
      assert rg[0] in rg;
      assert forall g :: g in rg[1..] ==> g in rg;
      GenericsMatchPairwise(impls, bound, rg[1..], gg[1..]);
      if Matches(impls, rg[0], gg[0]) == Ok(true) {
        assert forall i :: 1 <= i < |rg| ==> rg[i] == rg[1..][i - 1];
        assert forall i :: 1 <= i < |gg| ==> gg[i] == gg[1..][i - 1];
      }
    }
  }

  /** Every type without an array of `null` inside matches itself. */
  lemma {:induction false} MatchesReflexive(impls: map<string, set<string>>, t: Ty)
    requires !EM.ReachesNullArray(t)
    ensures Matches(impls, t, t) == Ok(true)
    decreases t, 1
  {
    if !(IsNullable(t) && t == VoidType) {
      NoNullArrayGenerics(t);
      var gs := Generics(t).value;
      SelfPairs(impls, t, gs);
    }
  }

  lemma {:induction false} SelfPairs(impls: map<string, set<string>>, bound: Ty, gs: seq<Ty>)
    requires forall g :: g in gs ==> g < bound && !EM.ReachesNullArray(g)
    ensures GenericsMatch(impls, bound, gs, gs) == Ok(true)
    decreases bound, 0, |gs|
  {
    if gs != [] {
      assert gs[0] in gs;
      MatchesReflexive(impls, gs[0]);
      assert forall g :: g in gs[1..] ==> g in gs;
      SelfPairs(impls, bound, gs[1..]);
    }
  }

  /** Without an array of `null` inside, the generics exist and none of them
      holds an array of `null` either. */
  lemma {:induction false} NoNullArrayGenerics(t: Ty)
    requires !EM.ReachesNullArray(t)
    ensures Generics(t).Ok?
    ensures forall g :: g in Generics(t).value ==> !EM.ReachesNullArray(g)
  {
    match t
    case Basic(_, _, gs, _) => NotAnyReaches(t, gs);
    case Primitive(_) =>
    case Nullsafe(inner) => NoNullArrayGenerics(inner);
    case ArrayOf(e) =>
    case NullableOf(inner) => NoNullArrayGenerics(inner);
  }

  lemma {:induction false} NotAnyReaches(t: Ty, gs: seq<Ty>)
    requires forall g :: g in gs ==> g < t
    requires !EM.AnyReachesNullArray(t, gs)
    ensures forall g :: g in gs ==> !EM.ReachesNullArray(g)
    decreases |gs|
  {
    if gs != [] {
      assert forall g :: g in gs[1..] ==> g in gs;
      NotAnyReaches(t, gs[1..]);
      assert forall g :: g in gs ==> g == gs[0] || g in gs[1..];
    }
  }

  /** The first rules of `typeMatches`: a nullable required type accepts the
      NULL type; a name clash without an implementation rejects; a nullable
      given type never fits a non-nullable required one. */
  lemma MatchesGuards(impls: map<string, set<string>>, r: Ty, g: Ty)
    ensures IsNullable(r) ==> Matches(impls, r, VoidType) == Ok(true)
    ensures Name(r) != Name(g) && !ImplementsTemplate(impls, Name(g), Name(r)) && !(IsNullable(r) && g == VoidType)
      ==> Matches(impls, r, g) == Ok(false)
    ensures !IsNullable(r) && IsNullable(g) ==> Matches(impls, r, g) == Ok(false)
    ensures Matches(impls, r, g) == Ok(true) && !(IsNullable(r) && g == VoidType)
      ==> Name(r) == Name(g) || ImplementsTemplate(impls, Name(g), Name(r))
  {
  }

  /** The generics walk never compares counts: a given type with extra
      generics still matches, and one with fewer throws. */
  lemma GenericsCountIgnored(impls: map<string, set<string>>, loc: Loc)
    ensures Matches(impls, Basic("list", false, [IntType], loc), Basic("list", false, [IntType, StrType], loc)) == Ok(true)
    ensures Matches(impls, Basic("list", false, [IntType], loc), Basic("list", false, [], loc)).Fail?
  {
    var r := Basic("list", false, [IntType], loc);
    var g := Basic("list", false, [IntType, StrType], loc);
    assert Generics(r) == Ok([IntType]);
    assert Matches(impls, IntType, IntType) == Ok(true);
    assert GenericsMatch(impls, r, [IntType], [IntType, StrType]) == Ok(true);
  }

  /** `typeMatches` with the generics count guard comparing the required
      count with the given one: different counts never match, and the
      pairwise walk never runs out of given generics. */
  function MatchesIntended(impls: map<string, set<string>>, required: Ty, given: Ty): (r: Result<bool>)
    ensures r == Ok(true) && !(IsNullable(required) && given == VoidType)
      ==> Generics(required).Ok? && Generics(given).Ok? && |Generics(required).value| == |Generics(given).value|
    decreases required, 1
  {
    if IsNullable(required) && given == VoidType then Ok(true)
    else if Name(required) != Name(given) && !ImplementsTemplate(impls, Name(given), Name(required)) then Ok(false)
    else if !IsNullable(required) && IsNullable(given) then Ok(false)
    else
      var rg :- Generics(required);
      var gg :- Generics(given);
      if |rg| != |gg| then Ok(false) else GenericsMatchIntended(impls, required, rg, gg)
  }

  /** The pairwise walk of `MatchesIntended` over two lists of one length. */
  function GenericsMatchIntended(impls: map<string, set<string>>, bound: Ty, rg: seq<Ty>, gg: seq<Ty>): Result<bool>
    requires forall g :: g in rg ==> g < bound
    requires |rg| == |gg|
    decreases bound, 0, |rg|
  {
    if rg == [] then Ok(true)
    else
      assert rg[0] in rg;
      var m :- MatchesIntended(impls, rg[0], gg[0]);
      if !m then Ok(false)
      else
        assert forall g :: g in rg[1..] ==> g in rg;
        GenericsMatchIntended(impls, bound, rg[1..], gg[1..])
  }

  /** With the count guard, types without an array of `null` inside never
      make the check throw. */
  lemma {:induction false} MatchesIntendedTotal(impls: map<string, set<string>>, r: Ty, g: Ty)
    requires !EM.ReachesNullArray(r) && !EM.ReachesNullArray(g)
    ensures MatchesIntended(impls, r, g).Ok?
    decreases r, 1
  {
    NoNullArrayGenerics(r);
    NoNullArrayGenerics(g);
    var rg, gg := Generics(r).value, Generics(g).value;
    if |rg| == |gg| {
      GenericsIntendedTotal(impls, r, rg, gg);
    }
  }

  lemma {:induction false} GenericsIntendedTotal(impls: map<string, set<string>>, bound: Ty, rg: seq<Ty>, gg: seq<Ty>)
    requires forall g :: g in rg ==> g < bound && !EM.ReachesNullArray(g)
    requires forall g :: g in gg ==> !EM.ReachesNullArray(g)
    requires |rg| == |gg|
    ensures GenericsMatchIntended(impls, bound, rg, gg).Ok?
    decreases bound, 0, |rg|
  {
    if rg != [] {
      assert rg[0] in rg && gg[0] in gg;
      MatchesIntendedTotal(impls, rg[0], gg[0]);
      assert forall g :: g in rg[1..] ==> g in rg;
      assert forall g :: g in gg[1..] ==> g in gg;
      GenericsIntendedTotal(impls, bound, rg[1..], gg[1..]);
    }
  }

  /** The corrected check accepts only what the written one accepts. */
  lemma {:induction false} MatchesIntendedStricter(impls: map<string, set<string>>, r: Ty, g: Ty)
    requires MatchesIntended(impls, r, g) == Ok(true)
    ensures Matches(impls, r, g) == Ok(true)
    decreases r, 1
  {
    if !(IsNullable(r) && g == VoidType) {
      var rg, gg := Generics(r).value, Generics(g).value;
      GenericsIntendedStricter(impls, r, rg, gg);
    }
  }

  lemma {:induction false} GenericsIntendedStricter(impls: map<string, set<string>>, bound: Ty, rg: seq<Ty>, gg: seq<Ty>)
    requires forall g :: g in rg ==> g < bound
    requires |rg| == |gg|
    requires GenericsMatchIntended(impls, bound, rg, gg) == Ok(true)
    ensures GenericsMatch(impls, bound, rg, gg) == Ok(true)
    decreases bound, 0, |rg|
  {
    if rg != [] {
      assert rg[0] in rg;
      MatchesIntendedStricter(impls, rg[0], gg[0]);
      assert forall g :: g in rg[1..] ==> g in rg;
      GenericsIntendedStricter(impls, bound, rg[1..], gg[1..]);
    }
  }

  /** The two inputs of `GenericsCountIgnored` are plain mismatches once
      the guard compares the two counts. */
  lemma CountGuardRejects(impls: map<string, set<string>>, loc: Loc)
    ensures MatchesIntended(impls, Basic("list", false, [IntType], loc), Basic("list", false, [IntType, StrType], loc)) == Ok(false)
    ensures MatchesIntended(impls, Basic("list", false, [IntType], loc), Basic("list", false, [], loc)) == Ok(false)
  {
    assert Generics(Basic("list", false, [IntType], loc)) == Ok([IntType]);
  }

  // ---- type checks that log ------------------------------------------------

  /** The loop of `checkAnyTypeMatches`: does any required type match? */
  function AnyMatches(impls: map<string, set<string>>, required: seq<Ty>, given: Ty): Result<bool> {
    if required == [] then Ok(false)
    else
      var m :- Matches(impls, required[0], given);
      if m then Ok(true) else AnyMatches(impls, required[1..], given)
  }

  /** `checkAnyTypeMatches(required, given, location)`: nothing for a `null`
      given type; otherwise a type mismatch against the first required type
      unless one of them matches. */
  function CheckAnyTypeMatches(impls: map<string, set<string>>, required: seq<Ty>, given: Option<Ty>, loc: Loc): (r: Result<seq<Diagnostic>>)
    requires required != []
    ensures given.None? ==> r == Ok([])
    ensures r.Ok? ==> |r.value| <= 1
    ensures r.Ok? && r.value != [] ==> AnyMatches(impls, required, given.value) == Ok(false)
    ensures given.Some? && AnyMatches(impls, required, given.value) == Ok(true) ==> r == Ok([])
  {
    if given.None? then Ok([])
    else
      var m :- AnyMatches(impls, required, given.value);
      if m then Ok([])
      else
        var d :- EM.TypeMismatch(required[0], given.value, loc);
        Ok([d])
  }

  /** `checkTypesMatches(required, given, location)`: `List.of(required)`
      throws for a `null` required type, before `given` is looked at. */
  function CheckTypesMatches(impls: map<string, set<string>>, required: Option<Ty>, given: Option<Ty>, loc: Loc): (r: Result<seq<Diagnostic>>)
    ensures required.None? ==> r.Fail?
    ensures required.Some? && given.None? ==> r == Ok([])
    ensures r.Ok? && given.Some? ==> (r.value == [] <==> Matches(impls, required.value, given.value) == Ok(true))
  {
    if required.None? then NPE()
    else
      var r := CheckAnyTypeMatches(impls, [required.value], given, loc);
      assert given.Some? ==> AnyMatches(impls, [required.value], given.value) == Matches(impls, required.value, given.value);
      r
  }

  // ---- operator rules ----------------------------------------------------

  const NonNumericMessage := "can not perform numeric operation on non numeric value"

  /** `!isNumeric(left) || !isNumeric(right)`, evaluated left to right. */
  function NonNumericPair(left: Option<Ty>, right: Option<Ty>): (r: Result<bool>)
    ensures left.Some? && right.Some? ==> r == Ok(!IsNumericName(Name(left.value)) || !IsNumericName(Name(right.value)))
    ensures r.Ok? ==> left.Some? && (IsNumericName(Name(left.value)) ==> right.Some?)
  {
    var ln :- NameOf(left);
    if !IsNumericName(ln) then Ok(true)
    else
      var rn :- NameOf(right);
      Ok(!IsNumericName(rn))
  }

  function ErrorIf(c: bool, msg: string, loc: Loc): seq<Diagnostic> {
    if c then [Error(msg, loc)] else []
  }

  /** `checkNumericOperation`: DIV yields float; int with int yields int;
      anything else float. */
  function CheckNumeric(op: Operation, left: Option<Ty>, right: Option<Ty>, loc: Loc): (r: Result<Typing>)
    ensures left.Some? && right.Some? ==> r.Ok?
    ensures r.Ok? ==> r.value.ty == Some(IntType) || r.value.ty == Some(FloatType)
    ensures r.Ok? && left.Some? && right.Some? ==>
      (r.value.ty == Some(IntType) <==> op != DIV && Name(left.value) == "int" && Name(right.value) == "int")
    ensures r.Ok? && left.Some? && right.Some? ==>
      (r.value.diags != [] <==> !IsNumericName(Name(left.value)) || !IsNumericName(Name(right.value)))
  {
    var bad :- NonNumericPair(left, right);
    var d := ErrorIf(bad, NonNumericMessage, loc);
    if op == DIV then Ok(Typing(Some(FloatType), d))
    else if Name(left.value) == "int" then
      Ok(Typing(Some(if Name(right.value) == "int" then IntType else FloatType), d))
    else Ok(Typing(Some(FloatType), d))
  }

  /** `checkShiftOperation`: also rejects a non-int shift count; the result
      follows the left operand. */
  function CheckShift(left: Option<Ty>, right: Option<Ty>, loc: Loc): (r: Result<Typing>)
    ensures r.Ok? <==> left.Some? && right.Some?
    ensures r.Ok? ==> (r.value.ty == Some(IntType) <==> Name(left.value) == "int")
    ensures r.Ok? ==> r.value.ty == Some(IntType) || r.value.ty == Some(FloatType)
    ensures r.Ok? && Name(right.value) != "int" ==> Error("can not shift by floating point values", loc) in r.value.diags
  {
    var bad :- NonNumericPair(left, right);
    var rn :- NameOf(right);
    Ok(Typing(Some(if Name(left.value) == "int" then IntType else FloatType),
              ErrorIf(bad, NonNumericMessage, loc) + ErrorIf(rn != "int", "can not shift by floating point values", loc)))
  }

  /** `checkIntegerOnlyOperation` (MOD): always int. */
  function CheckIntegerOnly(left: Option<Ty>, right: Option<Ty>, loc: Loc): (r: Result<Typing>)
    ensures left.Some? && right.Some? ==> r.Ok?
    ensures r.Ok? ==> r.value.ty == Some(IntType)
    ensures r.Ok? && left.Some? && right.Some? ==>
      (r.value.diags == [] <==> Name(left.value) == "int" && Name(right.value) == "int")
  {
    var ln :- NameOf(left);
    var bad :- if ln != "int" then Ok(true) else (var rn :- NameOf(right); Ok(rn != "int"));
    Ok(Typing(Some(IntType), ErrorIf(bad, "operation can be performed on int only", loc)))
  }

  /** `checkBoolOnlyOperation` (AND, OR): always bool. */
  function CheckBoolOnly(left: Option<Ty>, right: Option<Ty>, loc: Loc): (r: Result<Typing>)
    ensures left.Some? && right.Some? ==> r.Ok?
    ensures r.Ok? ==> r.value.ty == Some(BoolType)
    ensures r.Ok? && left.Some? && right.Some? ==>
      (r.value.diags == [] <==> Name(left.value) == "bool" && Name(right.value) == "bool")
  {
    var ln :- NameOf(left);
    var bad :- if ln != "bool" then Ok(true) else (var rn :- NameOf(right); Ok(rn != "bool"));
    Ok(Typing(Some(BoolType), ErrorIf(bad, "operation can be performed on bool only", loc)))
  }

  /** `checkBoolOrIntOperation` (XOR): bool for two bools, int for two ints,
      otherwise an error and a `null` type. */
  function CheckBoolOrInt(left: Option<Ty>, right: Option<Ty>, loc: Loc): (r: Result<Typing>)
    ensures left.Some? && right.Some? ==> r.Ok?
    ensures r.Ok? && left.Some? && right.Some? ==>
      var l := Name(left.value);
      var rn := Name(right.value);
      (r.value.ty == Some(BoolType) <==> l == "bool" && rn == "bool")
      && (r.value.ty == Some(IntType) <==> l == "int" && rn == "int")
      && (r.value.ty.None? <==> r.value.diags != [])
  {
    var ln :- NameOf(left);
    var bothBool :- if ln == "bool" then (var rn :- NameOf(right); Ok(rn == "bool")) else Ok(false);
    if bothBool then Ok(Typing(Some(BoolType), []))
    else
      var bothInt :- if ln == "int" then (var rn :- NameOf(right); Ok(rn == "int")) else Ok(false);
      if bothInt then Ok(Typing(Some(IntType), []))
      else Ok(Typing(None, [Error("operation can be performed on int or bool only", loc)]))
  }

  /** `checkCompareOperation`: numeric operands, bool result. */
  function CheckCompare(left: Option<Ty>, right: Option<Ty>, loc: Loc): (r: Result<Typing>)
    ensures left.Some? && right.Some? ==> r.Ok?
    ensures r.Ok? ==> r.value.ty == Some(BoolType)
    ensures r.Ok? && left.Some? && right.Some? ==>
      (r.value.diags == [] <==> IsNumericName(Name(left.value)) && IsNumericName(Name(right.value)))
  {
    var bad :- NonNumericPair(left, right);
    Ok(Typing(Some(BoolType), ErrorIf(bad, NonNumericMessage, loc)))
  }

  /** `checkEqualityOperation`: a primitive compared with a reference is an
      error, and then the types must match; the result is bool. */
  function CheckEquality(impls: map<string, set<string>>, left: Option<Ty>, right: Option<Ty>, loc: Loc): (r: Result<Typing>)
    ensures r.Ok? ==> left.Some? && right.Some? && r.value.ty == Some(BoolType)
    ensures r.Ok? && IsPrimitiveName(Name(left.value)) != IsPrimitiveName(Name(right.value)) ==>
      r.value.diags != [] && r.value.diags[0] == Error("can not compare primitive value with reference", loc)
    ensures r.Ok? && IsPrimitiveName(Name(left.value)) == IsPrimitiveName(Name(right.value)) ==>
      (r.value.diags == [] <==> Matches(impls, left.value, right.value) == Ok(true))
  {
    var ln :- NameOf(left);
    var rn :- NameOf(right);
    var d :- CheckTypesMatches(impls, left, right, loc);
    Ok(Typing(Some(BoolType), ErrorIf(IsPrimitiveName(ln) != IsPrimitiveName(rn), "can not compare primitive value with reference", loc) + d))
  }

  /** The switch of `visitBinaryOperationTree`. */
  function BinaryRule(impls: map<string, set<string>>, op: Operation, left: Option<Ty>, right: Option<Ty>, loc: Loc): Result<Typing> {
    match op
    case ADD => CheckNumeric(op, left, right, loc)
    case DIV => CheckNumeric(op, left, right, loc)
    case SUB => CheckNumeric(op, left, right, loc)
    case MUL => CheckNumeric(op, left, right, loc)
    case AND_BIT => CheckNumeric(op, left, right, loc)
    case OR_BIT => CheckNumeric(op, left, right, loc)
    case IDIV => CheckNumeric(op, left, right, loc)
    case SHIFT_AL => CheckShift(left, right, loc)
    case SHIFT_AR => CheckShift(left, right, loc)
    case MOD => CheckIntegerOnly(left, right, loc)
    case AND => CheckBoolOnly(left, right, loc)
    case OR => CheckBoolOnly(left, right, loc)
    case XOR => CheckBoolOrInt(left, right, loc)
    case LESS => CheckCompare(left, right, loc)
    case GREATER => CheckCompare(left, right, loc)
    case LESS_EQ => CheckCompare(left, right, loc)
    case GREATER_EQ => CheckCompare(left, right, loc)
    case NOT_EQUALS => CheckEquality(impls, left, right, loc)
    case EQUALS => CheckEquality(impls, left, right, loc)
  }

  /** Comparisons and equality always yield bool, MOD int, AND/OR bool, and
      the arithmetic group int or float. */
  lemma BinaryResultKinds(impls: map<string, set<string>>, op: Operation, left: Option<Ty>, right: Option<Ty>, loc: Loc)
    requires BinaryRule(impls, op, left, right, loc).Ok?
    ensures op in {LESS, GREATER, LESS_EQ, GREATER_EQ, EQUALS, NOT_EQUALS, AND, OR}
      ==> BinaryRule(impls, op, left, right, loc).value.ty == Some(BoolType)
    ensures op == MOD ==> BinaryRule(impls, op, left, right, loc).value.ty == Some(IntType)
    ensures op in {ADD, SUB, MUL, DIV, IDIV, AND_BIT, OR_BIT, SHIFT_AL, SHIFT_AR}
      ==> BinaryRule(impls, op, left, right, loc).value.ty in {Some(IntType), Some(FloatType)}
    ensures op == DIV ==> BinaryRule(impls, op, left, right, loc).value.ty == Some(FloatType)
  {
  }

  // ---- the other per-node rules -------------------------------------------

  /** `visitCastTree` after the operand: numeric to numeric always succeeds;
      otherwise the types must match or the target's impl set must contain
      the operand's type name. The result is always the target type. */
  function CastRule(impls: map<string, set<string>>, to: Ty, got: Option<Ty>, loc: Loc): (r: Result<Typing>)
    ensures r.Ok? ==> r.value.ty == Some(to)
    ensures r.Ok? && got.Some? && IsNumericName(Name(to)) && IsNumericName(Name(got.value)) ==> r.value.diags == []
    ensures r.Ok? && r.value.diags != [] ==>
      got.Some? && Matches(impls, to, got.value) == Ok(false) && !Template2Struct(impls, to, got.value)
  {
    var numeric :- if IsNumericName(Name(to)) then (var gn :- NameOf(got); Ok(IsNumericName(gn))) else Ok(false);
    if numeric then Ok(Typing(Some(to), []))
    else
      var m :- TypeMatches(impls, Some(to), got);
      if !m && !Template2Struct(impls, to, got.value) then
        var gs :- EM.TypeString(got.value);
        var ts :- EM.TypeString(to);
        Ok(Typing(Some(to), [Error("can not cast " + gs + " to " + ts, loc)]))
      else Ok(Typing(Some(to), []))
  }

  /** `isTemplate2StructCast(required, template)` */
  predicate Template2Struct(impls: map<string, set<string>>, required: Ty, template: Ty) {
    Name(required) in impls && Name(template) in impls[Name(required)]
  }

  /** `visitNullCheckTree` after the operand: NULL or "void" is an error; the
      result is the non-nullable view of the operand's type. */
  function NullCheckRule(t: Option<Ty>, loc: Loc): (r: Typing)
    ensures t.None? ==> r == Typing(None, [])
    ensures t.Some? ==> r.ty.Some? && !IsNullable(r.ty.value) && Name(r.ty.value) == Name(t.value)
    ensures r.diags != [] <==> t.Some? && Name(t.value) == "void"
  {
    Typing(if t.Some? then Some(Nullsafe(t.value)) else None,
           ErrorIf(t.Some? && (t.value == VoidType || Name(t.value) == "void"), "null is never nullsafe by definition", loc))
  }

  /** `typeFinder.search(name, scope)`. The scope is `None` for a Java
      `null` scope, which `scope.accept(...)` dereferences and so throws. */
  function Search(scope: Option<Scope<TypeEntry>>, name: string): (r: Result<Option<TypeEntry>>)
    ensures r.Ok? <==> scope.Some?
    ensures r.Ok? ==> r.value == TypeFind(scope.value, name)
  {
    if scope.None? then NPE() else Ok(TypeFind(scope.value, name))
  }

  /** The immutability check `visitAssignTree` makes for a variable target:
      the target is looked up in the scope, which throws for a `null` one. */
  function ImmutableAssignment(scope: Option<Scope<TypeEntry>>, left: Expr): (r: Result<seq<Diagnostic>>)
    ensures !left.Var? ==> r == Ok([])
    ensures left.Var? ==> (r.Ok? <==> scope.Some?)
    ensures r.Ok? ==> (r.value != [] <==> left.Var? && TypeFind(scope.value, left.name).Some?
                                          && !TypeFind(scope.value, left.name).value.mutable)
  {
    if !left.Var? then Ok([])
    else
      var entry :- Search(scope, left.name);
      Ok(if entry.Some? && !entry.value.mutable
         then [Error("'" + left.name + "' is immutable and cannot be assigned", left.loc)]
         else [])
  }

  // ---- expression typing --------------------------------------------------

  /** `scan(expression, scope)` in the type checker: the visitor method of
      the expression's class. */
  function TypeOf(env: Env, scope: Option<Scope<TypeEntry>>, e: Expr): Result<Typing>
    decreases e, 3
  {
    match e
    case MissingExpr => Ok(Typing(None, []))
    case NullLit(_) => Ok(Typing(Some(VoidType), []))
    case IntLit(_, _) => Ok(Typing(Some(IntType), []))
    case FloatLit(_, _) => Ok(Typing(Some(FloatType), []))
    case StrLit(_, _) => Ok(Typing(Some(StrType), []))
    case BoolLit(_, _) => Ok(Typing(Some(BoolType), []))
    case Var(name, _) =>
      var entry :- Search(scope, name);
      Ok(Typing(EntryType(entry), []))
    case Cast(_, _, _) => TypeOfCast(env, scope, e)
    case NullCheck(_, _) => TypeOfNullCheck(env, scope, e)
    case Not(_, _) => TypeOfNot(env, scope, e)
    case Negation(_, _) => TypeOfNegation(env, scope, e)
    case ContainerAccess(_, _, _) => TypeOfContainerAccess(env, scope, e)
    case FieldAccess(_, _, _) => TypeOfFieldAccess(env, scope, e)
    case Assign(_, _, _) => TypeOfAssign(env, scope, e)
    case BinOp(_, _, _, _) => TypeOfBinOp(env, scope, e)
    case ArrayLit(content, _) => ArrayFold(env, scope, e, content, 0, None, [])
    case GlobalCall(_, _, _) => TypeOfGlobalCall(env, scope, e)
    case MethodCall(_, _, _, _) => TypeOfMethodCall(env, scope, e)
    case StructInit(_, _, _) => TypeOfStructInit(env, scope, e)
  }

  /** `visitCastTree` */
  function TypeOfCast(env: Env, scope: Option<Scope<TypeEntry>>, e: Expr): Result<Typing>
    requires e.Cast?
    decreases e, 2
  {
    var got :- TypeOf(env, scope, e.operand);
    var r :- CastRule(env.impls, e.castType, got.ty, e.loc);
    Ok(Typing(r.ty, got.diags + r.diags))
  }

  /** `visitNullCheckTree` */
  function TypeOfNullCheck(env: Env, scope: Option<Scope<TypeEntry>>, e: Expr): Result<Typing>
    requires e.NullCheck?
    decreases e, 2
  {
    var t :- TypeOf(env, scope, e.operand);
    var r := NullCheckRule(t.ty, e.loc);
    Ok(Typing(r.ty, t.diags + r.diags))
  }

  /** `visitNotTree` */
  function TypeOfNot(env: Env, scope: Option<Scope<TypeEntry>>, e: Expr): Result<Typing>
    requires e.Not?
    decreases e, 2
  {
    var t :- TypeOf(env, scope, e.operand);
    var at :- LocOf(e.operand);
    var d :- CheckTypesMatches(env.impls, Some(BoolType), t.ty, at);
    Ok(Typing(t.ty, t.diags + d))
  }

  /** `visitNegationTree` */
  function TypeOfNegation(env: Env, scope: Option<Scope<TypeEntry>>, e: Expr): Result<Typing>
    requires e.Negation?
    decreases e, 2
  {
    var t :- TypeOf(env, scope, e.operand);
    var at :- LocOf(e.operand);
    var d :- CheckAnyTypeMatches(env.impls, [IntType, FloatType], t.ty, at);
    Ok(Typing(t.ty, t.diags + d))
  }

  /** `visitContainerAccessTree` */
  function TypeOfContainerAccess(env: Env, scope: Option<Scope<TypeEntry>>, e: Expr): Result<Typing>
    requires e.ContainerAccess?
    decreases e, 2
  {
    var c :- TypeOf(env, scope, e.operand);
    var name :- NameOf(c.ty);
    if name != "arr" then
      var d :- EM.ArrayExpectedButGot(c.ty.value, e.loc);
      Ok(Typing(None, c.diags + [d]))
    else
      var k :- TypeOf(env, scope, e.key);
      var r :- AccessRule(env.impls, c.ty.value, k.ty, e.key);
      Ok(Typing(r.ty, c.diags + k.diags + r.diags))
  }

  /** `visitFieldAccessTree` */
  function TypeOfFieldAccess(env: Env, scope: Option<Scope<TypeEntry>>, e: Expr): Result<Typing>
    requires e.FieldAccess?
    decreases e, 2
  {
    var t :- TypeOf(env, scope, e.operand);
    var r := FieldRule(env, t.ty, e.field, e.loc);
    Ok(Typing(r.ty, t.diags + r.diags))
  }

  /** `visitAssignTree` */
  function TypeOfAssign(env: Env, scope: Option<Scope<TypeEntry>>, e: Expr): Result<Typing>
    requires e.Assign?
    decreases e, 2
  {
    var d0 :- ImmutableAssignment(scope, e.left);
    var l :- TypeOf(env, scope, e.left);
    var r :- TypeOf(env, scope, e.right);
    var at :- LocOf(e.right);
    var d :- CheckTypesMatches(env.impls, l.ty, r.ty, at);
    Ok(Typing(l.ty, d0 + l.diags + r.diags + d))
  }

  /** `visitBinaryOperationTree` */
  function TypeOfBinOp(env: Env, scope: Option<Scope<TypeEntry>>, e: Expr): Result<Typing>
    requires e.BinOp?
    decreases e, 2
  {
    var l :- TypeOf(env, scope, e.left);
    var r :- TypeOf(env, scope, e.right);
    var t :- BinaryRule(env.impls, e.op, l.ty, r.ty, e.loc);
    Ok(Typing(t.ty, l.diags + r.diags + t.diags))
  }

  /** `visitGlobalCallTree` */
  function TypeOfGlobalCall(env: Env, scope: Option<Scope<TypeEntry>>, e: Expr): Result<Typing>
    requires e.GlobalCall?
    decreases e, 2
  {
    var name := e.name;
    if name !in env.globals then Ok(Typing(None, []))
    else if env.globals[name].params.None? then Ok(Typing(env.globals[name].ty, []))
    else
      var d :- CheckCallTypes(env, scope, e, e.loc, e.args, Somes(env.globals[name].params.value));
      Ok(Typing(env.globals[name].ty, d))
  }

  /** `visitMethodCallTree` */
  function TypeOfMethodCall(env: Env, scope: Option<Scope<TypeEntry>>, e: Expr): Result<Typing>
    requires e.MethodCall?
    decreases e, 2
  {
    var t :- TypeOf(env, scope, e.operand);
    if t.ty.None? then Ok(Typing(None, t.diags))
    else
      var d0 := ErrorIf(IsNullable(t.ty.value), "method call requires null safety", e.loc);
      if Name(t.ty.value) !in env.types then NPE()
      else
        var entry := TypeFind(env.types[Name(t.ty.value)], e.name);
        if entry.None? then Ok(Typing(None, t.diags + d0))
        else if entry.value.params.None? then Ok(Typing(entry.value.ty, t.diags + d0))
        else
          var d :- CheckCallTypes(env, scope, e, e.loc, e.args, Somes(entry.value.params.value));
          Ok(Typing(entry.value.ty, t.diags + d0 + d))
  }

  /** `visitStructInitTree` */
  function TypeOfStructInit(env: Env, scope: Option<Scope<TypeEntry>>, e: Expr): Result<Typing>
    requires e.StructInit?
    decreases e, 2
  {
    if Name(e.ty) !in env.types then Ok(Typing(Some(e.ty), []))
    else
      var d :- CheckCallTypes(env, scope, e, e.loc, e.args, EntryTypes(env.types[Name(e.ty)].ordered));
      Ok(Typing(Some(e.ty), d))
  }

  /** The declared types of a struct scope's entries, in declaration order. */
  function EntryTypes(es: seq<TypeEntry>): (r: seq<Option<Ty>>)
    ensures |r| == |es| && forall i :: 0 <= i < |es| ==> r[i] == es[i].ty
  {
    seq(|es|, i requires 0 <= i < |es| => es[i].ty)
  }

  /** `visitContainerAccessTree` after the key, for a container named "arr":
      the key must be an int; the result is the first generic, if any. */
  function AccessRule(impls: map<string, set<string>>, container: Ty, key: Option<Ty>, keyExpr: Expr): (r: Result<Typing>)
    ensures r.Ok? ==> Generics(container).Ok?
    ensures r.Ok? ==> r.value.ty == (if Generics(container).value == [] then None else Some(Generics(container).value[0]))
  {
    var at :- LocOf(keyExpr);
    var d :- CheckTypesMatches(impls, Some(IntType), key, at);
    var gs :- Generics(container);
    Ok(Typing(if gs == [] then None else Some(gs[0]), d))
  }

  /** `visitFieldAccessTree` after the operand: a primitive operand is an
      error; the field is looked up in the operand type's struct scope. */
  function FieldRule(env: Env, t: Option<Ty>, field: string, loc: Loc): (r: Typing)
    ensures t.None? ==> r == Typing(None, [])
    ensures t.Some? ==> (r.diags != [] <==> IsPrimitiveName(Name(t.value)))
    ensures t.Some? && Name(t.value) in env.types ==> r.ty == EntryType(TypeFind(env.types[Name(t.value)], field))
    ensures t.Some? && Name(t.value) !in env.types ==> r.ty.None?
  {
    if t.None? then Typing(None, [])
    else
      var n := Name(t.value);
      var d := ErrorIf(IsPrimitiveName(n), "can not access primitive type " + n, loc);
      if n !in env.types then Typing(None, d)
      else Typing(EntryType(TypeFind(env.types[n], field)), d)
  }

  /** The element loop of `visitArrayTree`: `last` is the type so far. */
  function ArrayFold(env: Env, scope: Option<Scope<TypeEntry>>, owner: Expr, content: seq<Expr>, i: nat,
                     last: Option<Ty>, acc: seq<Diagnostic>): (r: Result<Typing>)
    requires i <= |content| && forall x :: x in content ==> x < owner
    ensures r.Ok? ==> r.value.ty.Some? && r.value.ty.value.ArrayOf?
    ensures r.Ok? && i == |content| ==> r.value.ty == Some(ArrayOf(last))
    decreases owner, 0, |content| - i
  {
    if i == |content| then Ok(Typing(Some(ArrayOf(last)), acc))
    else
      assert content[i] in content;
      var step :- ArrayStep(env, scope, owner, content[i], last);
      ArrayFold(env, scope, owner, content, i + 1, step.0, acc + step.1)
  }

  /** One turn of the element loop: the element's type, the inconsistency
      check against the type so far, and the next type so far. */
  function ArrayStep(env: Env, scope: Option<Scope<TypeEntry>>, owner: Expr, x: Expr, last: Option<Ty>): (r: Result<(Option<Ty>, seq<Diagnostic>)>)
    requires x < owner
    ensures r.Ok? ==> TypeOf(env, scope, x).Ok? && r.value.0 == NextElement(last, TypeOf(env, scope, x).value.ty)
    decreases owner, 0, 0
  {
    var cur :- TypeOf(env, scope, x);
    var mismatch :- if last.Some? then (var m :- TypeMatches(env.impls, last, cur.ty); Ok(!m && cur.ty != Some(VoidType))) else Ok(false);
    var d :- if mismatch then (var at :- LocOf(x); Ok([Error("inconsistency in array content types", at)])) else Ok([]);
    Ok((NextElement(last, cur.ty), cur.diags + d))
  }

  /** The element type after one more element: a NULL element after a typed
      one turns into the nullable form of that type. */
  function NextElement(last: Option<Ty>, current: Option<Ty>): (r: Option<Ty>)
    ensures current != Some(VoidType) ==> r == current
    ensures current == Some(VoidType) && last.Some? ==> r == Some(NullableOf(last.value))
    ensures current == Some(VoidType) && last.None? ==> r == Some(VoidType)
  {
    if current == Some(VoidType) && last.Some? then Some(NullableOf(last.value)) else current
  }

  /** `checkCallTypes(owner, args, paramTypes, scope)`: arity errors first,
      then each argument against the parameter at the same position. */
  function CheckCallTypes(env: Env, scope: Option<Scope<TypeEntry>>, owner: Expr, loc: Loc, args: seq<Expr>,
                          params: seq<Option<Ty>>): (r: Result<seq<Diagnostic>>)
    requires forall x :: x in args ==> x < owner
    ensures r.Ok? && |args| < |params| ==> |r.value| > 0 && r.value[0] == Error("too few parameters given", loc)
    ensures |args| > |params| ==> r.Fail?
    decreases owner, 1
  {
    var arity := ErrorIf(|args| < |params|, "too few parameters given", loc)
               + ErrorIf(|args| > |params|, "too many parameters given", loc);
    var d :- ArgsFold(env, scope, owner, args, params, 0);
    Ok(arity + d)
  }

  /** The argument loop: each argument is scanned, then the next parameter
      type is taken, which throws `NoSuchElementException` once the
      parameters run out. */
  function ArgsFold(env: Env, scope: Option<Scope<TypeEntry>>, owner: Expr, args: seq<Expr>, params: seq<Option<Ty>>, i: nat): (r: Result<seq<Diagnostic>>)
    requires i <= |args| && forall x :: x in args ==> x < owner
    ensures i < |args| && |args| > |params| ==> r.Fail?
    decreases owner, 0, |args| - i
  {
    if i == |args| then Ok([])
    else
      assert args[i] in args;
      var g :- TypeOf(env, scope, args[i]);
      if i >= |params| then Fail(Thrown("NoSuchElementException"))
      else
        var at :- LocOf(args[i]);
        var d :- CheckTypesMatches(env.impls, params[i], g.ty, at);
        var rest :- ArgsFold(env, scope, owner, args, params, i + 1);
        Ok(g.diags + d + rest)
  }

  // ---- properties of expression typing ------------------------------------

  /** An array literal's element type is its last element's type, except
      that a trailing NULL after a typed element becomes nullable. */
  lemma {:induction false} ArrayFoldLast(env: Env, scope: Option<Scope<TypeEntry>>, owner: Expr, content: seq<Expr>, i: nat,
                                         last: Option<Ty>, acc: seq<Diagnostic>)
    requires i < |content| && forall x :: x in content ==> x < owner
    requires ArrayFold(env, scope, owner, content, i, last, acc).Ok?
    ensures content[|content| - 1] in content
    ensures TypeOf(env, scope, content[|content| - 1]).Ok?
    ensures var lt := TypeOf(env, scope, content[|content| - 1]).value.ty;
      var at := ArrayFold(env, scope, owner, content, i, last, acc).value.ty.value.elem;
      (lt != Some(VoidType) ==> at == lt)
      && (lt == Some(VoidType) ==> at == Some(VoidType) || (at.Some? && at.value.NullableOf?))
    decreases |content| - i
  {
    assert content[i] in content;
    var step := ArrayStep(env, scope, owner, content[i], last).value;
    assert ArrayFold(env, scope, owner, content, i, last, acc) == ArrayFold(env, scope, owner, content, i + 1, step.0, acc + step.1);
    if i + 1 < |content| {
      ArrayFoldLast(env, scope, owner, content, i + 1, step.0, acc + step.1);
    }
  }

  /** A call with more arguments than parameters always throws after the
      "too many parameters given" check: the call's typing fails, and the
      failure does not carry that error (the logger has already received
      it in the source). */
  lemma TooManyArgumentsThrow(env: Env, scope: Option<Scope<TypeEntry>>, name: string, args: seq<Expr>, loc: Loc)
    requires name in env.globals && env.globals[name].params.Some?
    requires |args| > |env.globals[name].params.value|
    ensures TypeOf(env, scope, GlobalCall(name, args, loc)).Fail?
  {
    var e := GlobalCall(name, args, loc);
    assert forall x :: x in args ==> x < e;
  }

  /** A global call to an unknown function, or to an entry without parameter
      list, scans none of its arguments: it logs nothing and never throws. */
  lemma UncheckedGlobalCall(env: Env, scope: Option<Scope<TypeEntry>>, name: string, args: seq<Expr>, loc: Loc)
    requires name !in env.globals || env.globals[name].params.None?
    ensures TypeOf(env, scope, GlobalCall(name, args, loc)).Ok?
    ensures TypeOf(env, scope, GlobalCall(name, args, loc)).value.diags == []
  {
  }
}
