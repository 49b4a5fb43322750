/** `computil.check.MainFunctionChecker`: the program must declare a callable
    named `main` without parameters and of type `void`. Diagnostics are
    returned in the order they are reported. */
module MainChecker {
  import opened Wrappers
  import opened Diags
  import opened Types
  import opened Ast

  const MissingMain := Error("missing main function", NoLoc)

  function HasParamsError(main: Callable): Diagnostic {
    Error("main function must not have parameters", main.loc)
  }

  function NotVoidError(main: Callable): Diagnostic {
    Error("main function must be type of void", main.loc)
  }

  /** `checkMainFunction`: the parameter check, then the return type check;
      both may report. */
  function CheckMainFunction(main: Callable): (r: seq<Diagnostic>)
    ensures HasParamsError(main) in r <==> main.params != []
    ensures NotVoidError(main) in r <==> Name(main.ret) != "void"
    ensures r == [] <==> main.params == [] && Name(main.ret) == "void"
    ensures |r| <= 2 && forall d :: d in r ==> d.loc == main.loc
  {
    (if main.params != [] then [HasParamsError(main)] else [])
    + (if Name(main.ret) != "void" then [NotVoidError(main)] else [])
  }

  /** The position of the first callable named `main`. */
  function FirstMain(cs: seq<Callable>): (r: Option<nat>)
    ensures r.Some? ==> r.value < |cs| && cs[r.value].name == "main"
    ensures r.Some? ==> forall j :: 0 <= j < r.value ==> cs[j].name != "main"
    ensures r.None? <==> forall j :: 0 <= j < |cs| ==> cs[j].name != "main"
  {
    if cs == [] then None
    else if cs[0].name == "main" then Some(0)
    else match FirstMain(cs[1..])
      case None => None
      case Some(i) => Some(i + 1)
  }

  /** `visitRootTree`: the loop returns after checking the first `main`. The
      branch for a second `main` is never taken, since `found` stays false,
      so "can not declare multiple main functions" is never reported. */
  function VisitRoot(root: Root): seq<Diagnostic> {
    match FirstMain(root.callables)
    case None => [MissingMain]
    case Some(i) => CheckMainFunction(root.callables[i])
  }

  /** Without any `main` the only diagnostic is the missing-main error, which
      has no location; with one, that error never appears. */
  lemma MissingMainExactly(root: Root)
    ensures (VisitRoot(root) == [MissingMain]) <==> forall c :: c in root.callables ==> c.name != "main"
  {
    var cs := root.callables;
    if FirstMain(cs).Some? {
      var i := FirstMain(cs).value;
      assert cs[i] in cs;
      assert MissingMain !in CheckMainFunction(cs[i]);
    } else {
      forall c | c in cs ensures c.name != "main" {
        var j :| 0 <= j < |cs| && cs[j] == c;
      }
    }
  }

  /** Only the first `main` is examined: callables after it, `main` or not,
      do not affect the result. */
  lemma OnlyFirstMainChecked(root: Root, later: seq<Callable>, j: nat)
    requires j < |root.callables| && root.callables[j].name == "main"
    requires forall k :: 0 <= k < j ==> root.callables[k].name != "main"
    ensures VisitRoot(root) == CheckMainFunction(root.callables[j])
    ensures VisitRoot(root.(callables := root.callables[..j + 1] + later)) == VisitRoot(root)
  {
    FirstMainPrefix(root.callables, j);
    var cs' := root.callables[..j + 1] + later;
    assert cs'[j] == root.callables[j];
    FirstMainPrefix(cs', j);
  }

  lemma {:induction false} FirstMainPrefix(cs: seq<Callable>, j: nat)
    requires j < |cs| && cs[j].name == "main"
    requires forall k :: 0 <= k < j ==> cs[k].name != "main"
    ensures FirstMain(cs) == Some(j)
  {
    if j > 0 {
      FirstMainPrefix(cs[1..], j - 1);
    }
  }

  /** The multiple-main error is unreachable. */
  lemma NoMultipleMainError(root: Root, loc: Loc)
    ensures Error("can not declare multiple main functions", loc) !in VisitRoot(root)
  {
  }

  function MultipleMainError(c: Callable): Diagnostic {
    Error("can not declare multiple main functions", c.loc)
  }

  /** The loop with `found` set once the first `main` is checked: every
      later `main` is reported where it is declared, in order. */
  function VisitRootIntended(root: Root): seq<Diagnostic> {
    match FirstMain(root.callables)
    case None => [MissingMain]
    case Some(i) => CheckMainFunction(root.callables[i]) + LaterMains(root.callables[i + 1..])
  }

  /** One multiple-main error per callable named `main`, in order. */
  function LaterMains(cs: seq<Callable>): (r: seq<Diagnostic>)
    ensures forall d :: d in r ==> exists j :: 0 <= j < |cs| && cs[j].name == "main" && d == MultipleMainError(cs[j])
    ensures forall j :: 0 <= j < |cs| && cs[j].name == "main" ==> MultipleMainError(cs[j]) in r
  {
    if cs == [] then []
    else
      var rest := LaterMains(cs[1..]);
      assert forall j :: 1 <= j < |cs| ==> cs[j] == cs[1..][j - 1];
      (if cs[0].name == "main" then [MultipleMainError(cs[0])] else []) + rest
  }

  /** With the intended loop, every `main` after the first is reported at
      its own location, and a program with at most one `main` gets exactly
      the diagnostics the source reports. */
  lemma {:induction false} MultipleMainsReported(root: Root, j: nat, k: nat)
    requires j < k < |root.callables| && root.callables[j].name == "main" && root.callables[k].name == "main"
    ensures MultipleMainError(root.callables[k]) in VisitRootIntended(root)
  {
    var cs := root.callables;
    var i := FirstMain(cs).value;
    assert i <= j;
    assert cs[i + 1..][k - i - 1] == cs[k];
  }

  /** No two callables are named `main`. */
  predicate AtMostOneMain(cs: seq<Callable>) {
    forall j, k :: 0 <= j < k < |cs| && cs[j].name == "main" ==> cs[k].name != "main"
  }

  lemma {:induction false} IntendedAgreesOnOneMain(root: Root)
    requires AtMostOneMain(root.callables)
    ensures VisitRootIntended(root) == VisitRoot(root)
  {
    var cs := root.callables;
    if FirstMain(cs).Some? {
      var i := FirstMain(cs).value;
      NoMainAfter(cs, i);
      AgreesWithoutLaterMain(root, i);
    }
  }

  lemma AgreesWithoutLaterMain(root: Root, i: nat)
    requires FirstMain(root.callables) == Some(i)
    requires NoMain(root.callables[i + 1..])
    ensures VisitRootIntended(root) == VisitRoot(root)
  {
    LaterMainsNone(root.callables[i + 1..]);
    assert VisitRootIntended(root) == CheckMainFunction(root.callables[i]) + [];
  }

  lemma NoMainAfter(cs: seq<Callable>, i: nat)
    requires AtMostOneMain(cs) && i < |cs| && cs[i].name == "main"
    ensures NoMain(cs[i + 1..])
  {
    var rest := cs[i + 1..];
    forall j | 0 <= j < |rest|
      ensures rest[j].name != "main"
    {
      assert rest[j] == cs[i + 1 + j];
    }
  }

  predicate NoMain(cs: seq<Callable>) {
    forall j :: 0 <= j < |cs| ==> cs[j].name != "main"
  }

  lemma {:induction false} LaterMainsNone(cs: seq<Callable>)
    requires NoMain(cs)
    ensures LaterMains(cs) == []
  {
    if cs != [] {
      assert forall j :: 0 <= j < |cs[1..]| ==> cs[1..][j] == cs[j + 1];
      LaterMainsNone(cs[1..]);
    }
  }

  /** A `main` with parameters and a non-void type gets both errors, the
      parameter error first. */
  lemma BothErrors(root: Root, j: nat)
    requires j < |root.callables| && root.callables[j].name == "main"
    requires forall k :: 0 <= k < j ==> root.callables[k].name != "main"
    requires root.callables[j].params != [] && Name(root.callables[j].ret) != "void"
    ensures VisitRoot(root) == [HasParamsError(root.callables[j]), NotVoidError(root.callables[j])]
  {
    FirstMainPrefix(root.callables, j);
  }
}
