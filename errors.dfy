/** `computil.diags.Errors`: the rendering of types in messages and the
    message constructors used by the scanner and the checkers. */
module ErrorMessages {
  import opened Wrappers
  import opened Diags
  import opened Types

  /** `Errors.getTypeString`: the name, then `<g1, g2, ...>` when there are
      generics, then `?` when nullable. Fails where `getGenerics` throws. */
  function TypeString(t: Ty): Result<string>
    decreases t, 1
  {
    var gs :- Generics(t);
    var inner :- JoinTypeStrings(t, gs);
    Ok(Name(t) + (if gs == [] then "" else "<" + inner + ">") + (if IsNullable(t) then "?" else ""))
  }

  /** The generics part of `getTypeString`, separated by ", ". */
  function JoinTypeStrings(t: Ty, gs: seq<Ty>): Result<string>
    requires forall g :: g in gs ==> g < t
    decreases t, 0, |gs|
  {
    if gs == [] then Ok("")
    else
      assert gs[0] in gs;
      var first :- TypeString(gs[0]);
      if |gs| == 1 then Ok(first)
      else
        assert forall g :: g in gs[1..] ==> g in gs;
        var rest :- JoinTypeStrings(t, gs[1..]);
        Ok(first + ", " + rest)
  }

  /** A reference definition of when rendering fails: some type reached
      through generics is an array of `null`. */
  predicate ReachesNullArray(t: Ty)
    decreases t, 1
  {
    match t
    case Basic(_, _, gs, _) => AnyReachesNullArray(t, gs)
    case Primitive(_) => false
    case Nullsafe(inner) => ReachesNullArray(inner)
    case ArrayOf(e) => e.None? || ReachesNullArray(e.value)
    case NullableOf(inner) => ReachesNullArray(inner)
  }

  predicate AnyReachesNullArray(t: Ty, gs: seq<Ty>)
    requires forall g :: g in gs ==> g < t
    decreases t, 0, |gs|
  {
    gs != [] && (assert gs[0] in gs; ReachesNullArray(gs[0])
      || (assert forall g :: g in gs[1..] ==> g in gs; AnyReachesNullArray(t, gs[1..])))
  }

  /** Rendering fails exactly when an array of `null` is reachable. */
  lemma {:induction false} TypeStringFails(t: Ty)
    ensures TypeString(t).Fail? <==> ReachesNullArray(t)
    decreases t, 1
  {
    match t
    case Basic(_, _, gs, _) => JoinFails(t, gs);
    case Primitive(_) =>
    case Nullsafe(inner) =>
      TypeStringFails(inner);
      UnwrapSameGenerics(inner, Nullsafe(inner));
    case ArrayOf(e) =>
      if e.Some? { TypeStringFails(e.value); }
    case NullableOf(inner) =>
      TypeStringFails(inner);
      UnwrapSameGenerics(inner, NullableOf(inner));
  }

  lemma {:induction false} JoinFails(t: Ty, gs: seq<Ty>)
    requires forall g :: g in gs ==> g < t
    ensures JoinTypeStrings(t, gs).Fail? <==> AnyReachesNullArray(t, gs)
    decreases t, 0, |gs|
  {
    if gs != [] {
      assert gs[0] in gs;
      TypeStringFails(gs[0]);
      if |gs| > 1 {
        assert forall g :: g in gs[1..] ==> g in gs;
        JoinFails(t, gs[1..]);
      } else {
        assert gs[1..] == [];
      }
    }
  }

  /** A wrapper whose generics are its wrapped type's renders the generics
      the same way; so it fails exactly when the wrapped type does. */
  lemma UnwrapSameGenerics(inner: Ty, outer: Ty)
    requires outer == Nullsafe(inner) || outer == NullableOf(inner)
    ensures TypeString(outer).Fail? <==> TypeString(inner).Fail?
  {
    var gs := Generics(inner);
    if gs.Ok? {
      JoinSameBound(inner, outer, gs.value);
    }
  }

  /** The bound `t` only serves termination: the rendering of a list of
      generics does not depend on it. */
  lemma {:induction false} JoinSameBound(t: Ty, t': Ty, gs: seq<Ty>)
    requires forall g :: g in gs ==> g < t
    requires forall g :: g in gs ==> g < t'
    ensures JoinTypeStrings(t, gs) == JoinTypeStrings(t', gs)
    decreases |gs|
  {
    if |gs| > 1 {
      assert forall g :: g in gs[1..] ==> g in gs;
      JoinSameBound(t, t', gs[1..]);
    }
  }

  /** A type without generics renders as its name, plus `?` when nullable:
      no angle brackets appear. */
  lemma TypeStringNoGenerics(t: Ty)
    requires Generics(t) == Ok([])
    ensures TypeString(t) == Ok(Name(t) + (if IsNullable(t) then "?" else ""))
  {
    assert Name(t) + "" == Name(t);
  }

  /** A rendering always starts with the type's name and ends in `?` exactly
      for nullable types, provided the name is a plain identifier. */
  lemma TypeStringEnds(t: Ty)
    requires TypeString(t).Ok? && |Name(t)| > 0 && Name(t)[|Name(t)| - 1] != '?'
    ensures var s := TypeString(t).value;
      |s| >= |Name(t)| && s[..|Name(t)|] == Name(t) && (s[|s| - 1] == '?' <==> IsNullable(t))
  {
    var gs := Generics(t).value;
    var inner := JoinTypeStrings(t, gs).value;
    var body := Name(t) + (if gs == [] then "" else "<" + inner + ">");
    assert TypeString(t).value == body + (if IsNullable(t) then "?" else "");
    assert body[..|Name(t)|] == Name(t);
    assert body[|body| - 1] != '?';
  }

  function Msg(text: string, loc: Loc): Diagnostic { Error(text, loc) }

  /** The scanner's fixed-text errors. */
  function MissingDigitOnRadixSpecs(loc: Loc): Diagnostic {
    Msg("missing digit while using radix on integer", loc)
  }
  function InvalidDigitOnRadixSpecs(loc: Loc): Diagnostic {
    Msg("invalid digit while using radix on integer", loc)
  }
  function InvalidFraction(loc: Loc): Diagnostic { Msg("invalid fraction", loc) }
  function MissingSymbol(loc: Loc, s: string): Diagnostic {
    Msg("missing symbol '" + s + "'", loc)
  }
  function InvalidEscapeCharacter(loc: Loc): Diagnostic { Msg("invalid escape character", loc) }
  function UnexpectedToken(loc: Loc, c: char): Diagnostic {
    Msg("unexpected token '" + [c] + "'", loc)
  }

  /** The two-type templates of `typeMismatch` and `invalidReturnType`. */
  function TwoTypes(head: string, required: Ty, got: Ty, loc: Loc): Result<Diagnostic> {
    var r :- TypeString(required);
    var g :- TypeString(got);
    Ok(Msg(TwoTypesText(head, r, g), loc))
  }

  function TwoTypesText(head: string, r: string, g: string): string {
    head + "\n    required: " + r + "\n         got: " + g + "\n"
  }

  function TypeMismatch(required: Ty, got: Ty, loc: Loc): Result<Diagnostic> {
    TwoTypes("type mismatch:", required, got, loc)
  }

  function InvalidReturnType(required: Ty, got: Ty, loc: Loc): Result<Diagnostic> {
    TwoTypes("invalid return type:", required, got, loc)
  }

  /** `arrayExpectedButGot`: the required side is always shown as `arr<_>`. */
  function ArrayExpectedButGot(container: Ty, loc: Loc): Result<Diagnostic> {
    var g :- TypeString(container);
    Ok(Msg("type mismatch:\nrequired: arr<_>\n     got: " + g + "\n", loc))
  }

  /** The two-type messages carry both renderings, each on its own line: the
      text determines the required and the got rendering, provided the
      required one contains no line break. */
  lemma TwoTypesDetermines(head: string, r: string, g: string, r': string, g': string)
    requires TwoTypesText(head, r, g) == TwoTypesText(head, r', g')
    requires '\n' !in r && '\n' !in r'
    ensures r == r' && g == g'
  {
    var p := head + "\n    required: ";
    var m := "\n         got: ";
    assert p + r + (m + g + "\n") == p + r' + (m + g' + "\n") by {
      assert p + r + (m + g + "\n") == TwoTypesText(head, r, g);
      assert p + r' + (m + g' + "\n") == TwoTypesText(head, r', g');
    }
    SplitAtBreak(p, r, m + g + "\n", r', m + g' + "\n");
    assert g == (m + g + "\n")[|m|..|m| + |g|];
    assert g' == (m + g' + "\n")[|m|..|m| + |g'|];
  }

  /** In `p + x + y` with no line break in `x` and `y` starting with one,
      the cut between `x` and `y` is the first break after `p`. */
  lemma SplitAtBreak(p: string, x: string, y: string, x': string, y': string)
    requires p + x + y == p + x' + y'
    requires '\n' !in x && '\n' !in x'
    requires |y| > 0 && y[0] == '\n' && |y'| > 0 && y'[0] == '\n'
    ensures x == x' && y == y'
  {
    var s := p + x + y;
    assert |x| == |x'| by {
      assert s[|p| + |x|] == '\n';
      assert s == p + x' + y';
      assert s[|p| + |x'|] == '\n';
    }
    assert x == s[|p|..|p| + |x|];
    assert x' == s[|p|..|p| + |x'|];
    assert y == s[|p| + |x|..];
    assert y' == s[|p| + |x'|..];
  }
}
