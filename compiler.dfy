/** `rabbitc.RabbitCompiler`: the driver. It parses, runs the checkers with a
    logger adapter that remembers whether an error was reported, stops with
    that exit code if one was, and otherwise optimizes the tree to a bounded
    fixed point before handing it to the back end. Parsing, checking and
    the back ends are modelled in their own modules; here they are the
    adapter's log (what the front end and the checkers reported) and the
    `generated` answer (whether the back end is reached). */
module Compiler {
  import opened Wrappers
  import opened Diags
  import opened Trees
  import opened Folding

  /** `MAX_OPTIMIZATION_PASSES` */
  const MaxOptimizationPasses: nat := 100_000

  /** One message forwarded to the wrapped logger. */
  datatype Report = ErrorReport(error: Diagnostic) | WarningReport(warning: Diagnostic)

  /** The adapter's `exit` after forwarding `log`: -1 once any error went
      through, 0 otherwise. */
  function ExitCode(log: seq<Report>): int {
    if log == [] then 0
    else if log[|log| - 1].ErrorReport? then -1
    else ExitCode(log[..|log| - 1])
  }

  /** The exit code is -1 exactly when an error was reported, and 0
      otherwise. */
  lemma {:induction false} ExitCodeSpec(log: seq<Report>)
    ensures ExitCode(log) == -1 <==> exists i :: 0 <= i < |log| && log[i].ErrorReport?
    ensures ExitCode(log) == 0 || ExitCode(log) == -1
  {
    if log != [] {
      var init := log[..|log| - 1];
      ExitCodeSpec(init);
      if !log[|log| - 1].ErrorReport? {
        if exists i :: 0 <= i < |log| && log[i].ErrorReport? {
          var i :| 0 <= i < |log| && log[i].ErrorReport?;
          assert init[i].ErrorReport?;
        }
        if exists i :: 0 <= i < |init| && init[i].ErrorReport? {
          var i :| 0 <= i < |init| && init[i].ErrorReport?;
          assert log[i].ErrorReport?;
        }
      }
    }
  }

  /** A warning never changes the exit code; an error always sets it to -1. */
  lemma ReportEffect(log: seq<Report>, d: Diagnostic)
    ensures ExitCode(log + [WarningReport(d)]) == ExitCode(log)
    ensures ExitCode(log + [ErrorReport(d)]) == -1
  {
    assert (log + [WarningReport(d)])[..|log|] == log;
  }

  /** `RabbitCompiler.LoggerAdapter`: forwards every message and remembers
      whether an error was among them. */
  class LoggerAdapter {
    var exit: int
    /** What was passed on to the wrapped logger, in order. */
    var forwarded: seq<Report>

    ghost predicate Valid()
      reads this
    {
      exit == ExitCode(forwarded)
    }

    constructor ()
      ensures exit == 0 && forwarded == [] && Valid()
    {
      exit := 0;
      forwarded := [];
    }

    /** `error`: sets `exit` to -1 and forwards the error. */
    method Error(error: Diagnostic)
      requires Valid()
      modifies this
      ensures forwarded == old(forwarded) + [ErrorReport(error)]
      ensures exit == -1 && Valid()
    {
      exit := -1;
      forwarded := forwarded + [ErrorReport(error)];
    }

    /** `warning`: forwards the warning and leaves `exit` alone. */
    method Warning(warning: Diagnostic)
      requires Valid()
      modifies this
      ensures forwarded == old(forwarded) + [WarningReport(warning)]
      ensures exit == old(exit) && Valid()
    {
      ReportEffect(forwarded, warning);
      forwarded := forwarded + [WarningReport(warning)];
    }
  }

  /** `optimize`: constant-folding passes, each with a fresh folder, for as
      long as the previous pass rewrote something and at most
      `MaxOptimizationPasses` times. `depth` is the stack depth a pass may
      reach; an exception raised by a pass ends the loop and is returned.
      When the loop stops because a pass rewrote nothing, that last pass
      left every existing node as it found it (`lastStart` is the arena
      before it): the tree is a fixed point of the folder. */
  method Optimize(forest: Forest, root: nat, floats: FloatArith, depth: nat)
    returns (passes: nat, performed: bool, s: Status, ghost lastStart: seq<Node>)
    requires forest.Valid() && root < |forest.nodes|
    modifies forest
    ensures forest.Valid() && Grows(old(forest.nodes), forest.nodes)
    ensures 1 <= passes <= MaxOptimizationPasses
    ensures s.Completed? ==> !performed || passes == MaxOptimizationPasses
    ensures !performed ==> Keeps(lastStart, forest.nodes)
  {
    var pass := 0;
    lastStart := forest.nodes;
    var folder := new ConstantFolder(forest, floats);
    s := folder.Visit(Ref(root), root, depth);
    performed := folder.performed;
    while s.Completed? && performed && pass + 1 < MaxOptimizationPasses
      invariant forest.Valid() && Grows(old(forest.nodes), forest.nodes)
      invariant pass + 1 <= MaxOptimizationPasses && root < |forest.nodes|
      invariant !performed ==> Keeps(lastStart, forest.nodes)
      decreases MaxOptimizationPasses - pass
    {
      pass := pass + 1;
      ghost var before := forest.nodes;
      lastStart := forest.nodes;
      folder := new ConstantFolder(forest, floats);
      s := folder.Visit(Ref(root), root, depth);
      performed := folder.performed;
      GrowsTrans(old(forest.nodes), before, forest.nodes);
    }
    passes := pass + 1;
  }

  /** Which entry point runs: `run` (bytecode), `dis` (disassembly) or
      `transpile` (C source). */
  datatype Mode = Execute | Disassemble | Transpile

  /** What `run`, `dis` and `transpile` do once the program is parsed and
      checked through `adapter`: return the adapter's exit code if an error
      was logged, before optimizing or generating anything; otherwise
      optimize (not for `transpile`), reach the back end and return 0.
      `generated` is whether the back end is reached. */
  method Finish(mode: Mode, adapter: LoggerAdapter, forest: Forest, root: nat, floats: FloatArith, depth: nat)
    returns (code: int, s: Status, generated: bool)
    requires adapter.Valid() && forest.Valid() && root < |forest.nodes|
    modifies forest
    ensures forest.Valid()
    ensures code == -1 <==> exists i :: 0 <= i < |adapter.forwarded| && adapter.forwarded[i].ErrorReport?
    ensures adapter.exit != 0 ==> code == -1 && s.Completed? && !generated && forest.nodes == old(forest.nodes)
    ensures adapter.exit == 0 ==> code == 0 && (generated <==> s.Completed?)
    ensures mode.Transpile? ==> forest.nodes == old(forest.nodes) && s.Completed?
  {
    ExitCodeSpec(adapter.forwarded);
    if adapter.exit != 0 {
      return adapter.exit, Completed, false;
    }
    if mode != Transpile {
      var passes, performed, st, lastStart := Optimize(forest, root, floats, depth);
      s := st;
    } else {
      s := Completed;
    }
    code := 0;
    generated := s.Completed?;
  }
}
