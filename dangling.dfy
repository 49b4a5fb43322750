/** `computil.check.DanglingChecker`: a reference-state machine over the
    program's variables. Every variable entry (`DangEntry`) holds a
    `Reference`; references are shared between entries and mutated through
    any of them, so both live in arenas here: `refs[r]` is the reference
    with identity `r`, `entries[k]` the entry with identity `k`, and an
    entry's `ref` field is an index into `refs`. The scope chain the visits
    pass down is `frames`, outermost (the function scope) first, each frame
    mapping a name to an entry. Errors go to the logger, in order, as
    `errors`; a Java exception ends the check and is returned.

    The checker is not run by the compiler driver (the call is commented
    out there); it is modelled as written. */
module Dangling {
  import opened Wrappers
  import opened Diags
  import opened HashMaps
  import opened Scopes
  import opened Types
  import opened Ast

  datatype State = ALIVE | DEAD | IMMUTABLE

  /** `DanglingChecker.Reference`; `members` maps a field name to the
      reference of that field. */
  datatype Reference = Reference(state: State, refCount: int, lastLocation: Loc, members: map<string, nat>)

  /** `DanglingChecker.DangEntry`; a temporary has no name. */
  datatype DangEntry = DangEntry(name: Option<string>, ref: nat)

  const LeakMessage := "unreleased reference leads to memory leak"
  const DanglingMessage := "dangling reference"
  const ReleaseDeadMessage := "can not release dangling reference"
  const ReleaseOuterMessage := "can not release reference from outer function"
  const ReturnDanglerMessage := "return value contains dangling reference"

  const NPE := Thrown("NullPointerException")

  /** What `scanAndCheckDangling` reports about a scanned reference. */
  function DanglingReport(st: State, loc: Loc): (r: seq<Diagnostic>)
    ensures |r| <= 1 && (r != [] <==> st == DEAD)
  {
    if st == DEAD then [Error(DanglingMessage, loc)] else []
  }

  /** What `free` reports about the reference it releases. */
  function ReleaseReport(st: State, loc: Loc): (r: seq<Diagnostic>)
    ensures |r| == (if st == ALIVE then 0 else 1)
  {
    match st
    case DEAD => [Error(ReleaseDeadMessage, loc)]
    case IMMUTABLE => [Error(ReleaseOuterMessage, loc)]
    case ALIVE => []
  }

  /** Freeing a reference twice: the second `free` reports both that the
      operand is dangling and that it can not be released. */
  lemma DoubleFreeReportsBoth(operandLoc: Loc, secondLoc: Loc)
    ensures DanglingReport(DEAD, operandLoc) + ReleaseReport(DEAD, secondLoc)
      == [Error(DanglingMessage, operandLoc), Error(ReleaseDeadMessage, secondLoc)]
  {
  }

  /** An entry leaks when its reference is alive and held once. */
  predicate Leaking(r: Reference) {
    r.state == ALIVE && r.refCount == 1
  }

  /** A member reference is always allocated after its owner, so the member
      graph has no cycles. */
  ghost predicate MembersAbove(refs: seq<Reference>) {
    forall r, f :: 0 <= r < |refs| && f in refs[r].members ==> r < refs[r].members[f] < |refs|
  }

  /** `hasDeepDangler`: the reference or one of its members, at any depth,
      is DEAD. The order in which the members are searched does not
      matter to the answer. */
  function DeepDangler(refs: seq<Reference>, r: nat): bool
    requires MembersAbove(refs) && r < |refs|
    decreases |refs| - r
  {
    refs[r].state == DEAD
    || exists f :: f in refs[r].members && DeepDangler(refs, refs[r].members[f])
  }

  /** `p` follows member links from `p[0]`. */
  ghost predicate IsPath(refs: seq<Reference>, p: seq<nat>) {
    |p| > 0 && (forall i :: 0 <= i < |p| ==> p[i] < |refs|)
    && forall i :: 0 <= i < |p| - 1 ==> p[i + 1] in refs[p[i]].members.Values
  }

  /** A deep dangler is exactly a DEAD reference reachable through member
      links. */
  lemma DeepDanglerSpec(refs: seq<Reference>, r: nat)
    requires MembersAbove(refs) && r < |refs|
    ensures DeepDangler(refs, r) <==> exists p :: IsPath(refs, p) && p[0] == r && refs[p[|p| - 1]].state == DEAD
  {
    if DeepDangler(refs, r) {
      var p := DanglerPath(refs, r);
    }
    if exists p :: IsPath(refs, p) && p[0] == r && refs[p[|p| - 1]].state == DEAD {
      var p :| IsPath(refs, p) && p[0] == r && refs[p[|p| - 1]].state == DEAD;
      PathDangles(refs, p);
    }
  }

  lemma {:induction false} DanglerPath(refs: seq<Reference>, r: nat) returns (p: seq<nat>)
    requires MembersAbove(refs) && r < |refs| && DeepDangler(refs, r)
    ensures IsPath(refs, p) && p[0] == r && refs[p[|p| - 1]].state == DEAD
    decreases |refs| - r
  {
    if refs[r].state == DEAD {
      p := [r];
    } else {
      var f :| f in refs[r].members && DeepDangler(refs, refs[r].members[f]);
      var m := refs[r].members[f];
      var q := DanglerPath(refs, m);
      p := [r] + q;
      forall i | 0 <= i < |p| - 1 ensures p[i + 1] in refs[p[i]].members.Values {
        if i > 0 {
          assert p[i] == q[i - 1] && p[i + 1] == q[i];
        }
      }
    }
  }

  lemma {:induction false} PathDangles(refs: seq<Reference>, p: seq<nat>)
    requires MembersAbove(refs) && IsPath(refs, p) && refs[p[|p| - 1]].state == DEAD
    ensures DeepDangler(refs, p[0])
    decreases |p|
  {
    if |p| > 1 {
      var q := p[1..];
      assert IsPath(refs, q) by {
        forall i | 0 <= i < |q| - 1 ensures q[i + 1] in refs[q[i]].members.Values {
          assert q[i] == p[i + 1] && q[i + 1] == p[i + 2];
        }
      }
      PathDangles(refs, q);
      assert p[1] in refs[p[0]].members.Values;
      var f :| f in refs[p[0]].members && refs[p[0]].members[f] == p[1];
    }
  }

  /** The entries of `xs` whose references leak, each reported at the
      reference's last location, in the order of `xs`. */
  function Leaks(refs: seq<Reference>, entries: seq<DangEntry>, xs: seq<nat>): (d: seq<Diagnostic>)
    requires forall k :: 0 <= k < |entries| ==> entries[k].ref < |refs|
    requires forall i :: 0 <= i < |xs| ==> xs[i] < |entries|
    ensures |d| <= |xs|
  {
    if xs == [] then []
    else
      var r := refs[entries[xs[|xs| - 1]].ref];
      Leaks(refs, entries, xs[..|xs| - 1]) + (if Leaking(r) then [Error(LeakMessage, r.lastLocation)] else [])
  }

  /** Every leak report is the leak message at a leaking entry's location,
      and no entry leaks exactly when nothing is reported. */
  lemma {:induction false} LeaksSpec(refs: seq<Reference>, entries: seq<DangEntry>, xs: seq<nat>)
    requires forall k :: 0 <= k < |entries| ==> entries[k].ref < |refs|
    requires forall i :: 0 <= i < |xs| ==> xs[i] < |entries|
    ensures forall d :: d in Leaks(refs, entries, xs) ==>
      d.msg == LeakMessage && exists i :: 0 <= i < |xs| && Leaking(refs[entries[xs[i]].ref]) && d.loc == refs[entries[xs[i]].ref].lastLocation
    ensures Leaks(refs, entries, xs) == [] <==> forall i :: 0 <= i < |xs| ==> !Leaking(refs[entries[xs[i]].ref])
    decreases |xs|
  {
    if xs != [] {
      var init := xs[..|xs| - 1];
      LeaksSpec(refs, entries, init);
      forall d | d in Leaks(refs, entries, init)
        ensures exists i :: 0 <= i < |xs| && Leaking(refs[entries[xs[i]].ref]) && d.loc == refs[entries[xs[i]].ref].lastLocation
      {
        var i :| 0 <= i < |init| && Leaking(refs[entries[init[i]].ref]) && d.loc == refs[entries[init[i]].ref].lastLocation;
        assert init[i] == xs[i];
      }
      if forall i :: 0 <= i < |xs| ==> !Leaking(refs[entries[xs[i]].ref]) {
        assert forall i :: 0 <= i < |init| ==> init[i] == xs[i];
      }
    }
  }

  /** The variable lookup: the entry of the outermost frame that binds the
      name. Iterating a block scope yields the enclosing scopes' entries
      before its own, and `visitVariableTree` takes the first entry with the
      name, so an outer variable wins over an inner one of the same name. */
  function Lookup(frames: seq<map<string, nat>>, name: string): Option<nat> {
    if frames == [] then None
    else if name in frames[0] then Some(frames[0][name])
    else Lookup(frames[1..], name)
  }

  /** The lookup finds the binding of the first frame holding the name, and
      nothing when no frame does. */
  lemma {:induction false} LookupSpec(frames: seq<map<string, nat>>, name: string)
    ensures Lookup(frames, name).None? <==> forall i :: 0 <= i < |frames| ==> name !in frames[i]
    ensures Lookup(frames, name).Some? ==>
      exists i :: 0 <= i < |frames| && name in frames[i] && Lookup(frames, name) == Some(frames[i][name])
        && forall j :: 0 <= j < i ==> name !in frames[j]
  {
    if frames != [] && name !in frames[0] {
      LookupSpec(frames[1..], name);
      if Lookup(frames, name).Some? {
        var i :| 0 <= i < |frames[1..]| && name in frames[1..][i] && Lookup(frames[1..], name) == Some(frames[1..][i][name])
          && forall j :: 0 <= j < i ==> name !in frames[1..][j];
        assert frames[i + 1] == frames[1..][i];
        assert forall j :: 1 <= j < i + 1 ==> frames[j] == frames[1..][j - 1];
      }
      if forall i :: 0 <= i < |frames[1..]| ==> name !in frames[1..][i] {
        assert forall i :: 1 <= i < |frames| ==> frames[i] == frames[1..][i - 1];
      }
    }
  }

  /** The scope chain as the checker builds it: a function scope with no
      parent for `frames[0]`, and a block scope for each later frame. */
  function Chain(frames: seq<map<string, nat>>): (s: Scope<nat>)
    requires |frames| > 0
    ensures s.entries == frames[|frames| - 1]
    decreases |frames|
  {
    if |frames| == 1 then FunctionScope(None, frames[0])
    else BlockScope(Chain(frames[..|frames| - 1]), frames[|frames| - 1])
  }

  /** A scope holds its entries under their own names. */
  ghost predicate ScopeNamesAgree(f: map<string, nat>, entries: seq<DangEntry>) {
    forall n :: n in f ==> f[n] < |entries| && entries[f[n]].name == Some(n)
  }

  ghost predicate NamesAgree(frames: seq<map<string, nat>>, entries: seq<DangEntry>) {
    forall i :: 0 <= i < |frames| ==> ScopeNamesAgree(frames[i], entries)
  }

  lemma NamesAgreeInit(frames: seq<map<string, nat>>, entries: seq<DangEntry>)
    requires NamesAgree(frames, entries) && |frames| > 0
    ensures NamesAgree(frames[..|frames| - 1], entries)
  {
    assert forall i :: 0 <= i < |frames| - 1 ==> frames[..|frames| - 1][i] == frames[i];
  }

  /** Allocating an entry, or re-pointing one at another reference, keeps
      every scope's names right; so does binding an entry under its own
      name. */
  lemma NamesAgreeAppend(frames: seq<map<string, nat>>, entries: seq<DangEntry>, e: DangEntry)
    requires NamesAgree(frames, entries)
    ensures NamesAgree(frames, entries + [e])
  {
    forall i | 0 <= i < |frames| ensures ScopeNamesAgree(frames[i], entries + [e]) {
      forall n | n in frames[i] ensures (entries + [e])[frames[i][n]] == entries[frames[i][n]] {
        assert ScopeNamesAgree(frames[i], entries);
      }
    }
  }

  lemma NamesAgreeRetarget(frames: seq<map<string, nat>>, entries: seq<DangEntry>, k: nat, e: DangEntry)
    requires NamesAgree(frames, entries) && k < |entries| && e.name == entries[k].name
    ensures NamesAgree(frames, entries[k := e])
  {
    forall i | 0 <= i < |frames| ensures ScopeNamesAgree(frames[i], entries[k := e]) {
      assert ScopeNamesAgree(frames[i], entries);
    }
  }

  lemma NamesAgreeBind(frames: seq<map<string, nat>>, entries: seq<DangEntry>, name: string, k: nat)
    requires NamesAgree(frames, entries) && |frames| > 0 && k < |entries| && entries[k].name == Some(name)
    ensures NamesAgree(BindInner(frames, name, k), entries)
  {
    var r := BindInner(frames, name, k);
    forall i | 0 <= i < |r| ensures ScopeNamesAgree(r[i], entries) {
      if i < |r| - 1 {
        assert r[i] == r[..|r| - 1][i] == frames[i];
      } else {
        assert ScopeNamesAgree(frames[i], entries);
      }
    }
  }

  /** The loop of `visitVariableTree`: the first entry of `xs` with the
      name. */
  function FirstNamed(entries: seq<DangEntry>, xs: seq<nat>, name: string): Option<nat>
    requires forall i :: 0 <= i < |xs| ==> xs[i] < |entries|
  {
    if xs == [] then None
    else if entries[xs[0]].name == Some(name) then Some(xs[0])
    else FirstNamed(entries, xs[1..], name)
  }

  /** The first hit in `xs` carries the name and is preceded by no entry
      with the name; there is none exactly when no entry has the name. */
  lemma {:induction false} FirstNamedSpec(entries: seq<DangEntry>, xs: seq<nat>, name: string)
    requires forall i :: 0 <= i < |xs| ==> xs[i] < |entries|
    ensures FirstNamed(entries, xs, name).None? <==> forall i :: 0 <= i < |xs| ==> entries[xs[i]].name != Some(name)
    ensures FirstNamed(entries, xs, name).Some? ==>
      exists i :: 0 <= i < |xs| && FirstNamed(entries, xs, name) == Some(xs[i]) && entries[xs[i]].name == Some(name)
  {
    if xs != [] && entries[xs[0]].name != Some(name) {
      var rest := xs[1..];
      FirstNamedSpec(entries, rest, name);
      assert forall i :: 1 <= i < |xs| ==> xs[i] == rest[i - 1];
      if FirstNamed(entries, rest, name).Some? {
        var i :| 0 <= i < |rest| && FirstNamed(entries, rest, name) == Some(rest[i]) && entries[rest[i]].name == Some(name);
        assert xs[i + 1] == rest[i];
      }
    }
  }

  lemma {:induction false} FirstNamedAppend(entries: seq<DangEntry>, ys: seq<nat>, zs: seq<nat>, name: string)
    requires forall i :: 0 <= i < |ys| ==> ys[i] < |entries|
    requires forall i :: 0 <= i < |zs| ==> zs[i] < |entries|
    ensures forall i :: 0 <= i < |ys + zs| ==> (ys + zs)[i] < |entries|
    ensures FirstNamed(entries, ys + zs, name)
      == if FirstNamed(entries, ys, name).Some? then FirstNamed(entries, ys, name) else FirstNamed(entries, zs, name)
  {
    if ys != [] {
      var all := ys + zs;
      assert all[0] == ys[0] && all[1..] == ys[1..] + zs;
      FirstNamedAppend(entries, ys[1..], zs, name);
      assert FirstNamed(entries, all, name)
        == if entries[ys[0]].name == Some(name) then Some(ys[0]) else FirstNamed(entries, ys[1..] + zs, name);
    } else {
      assert ys + zs == zs;
    }
  }

  /** In an enumeration of one scope, the first entry with the name is the
      one the scope binds to it. */
  lemma EnumFirstNamed(entries: seq<DangEntry>, f: map<string, nat>, keys: seq<string>, zs: seq<nat>, name: string)
    requires EnumeratesBy(f, keys, zs)
    requires ScopeNamesAgree(f, entries)
    ensures forall i :: 0 <= i < |zs| ==> zs[i] < |entries|
    ensures FirstNamed(entries, zs, name) == if name in f then Some(f[name]) else None
  {
    FirstNamedSpec(entries, zs, name);
    DistinctKeysCover(f, keys);
    if name in f {
      assert name in set k | k in keys;
      var j :| 0 <= j < |keys| && keys[j] == name;
      assert entries[zs[j]].name == Some(name);
    }
  }

  /** Every entry an iteration of the chain yields is allocated. */
  lemma {:induction false} ChainBounds(frames: seq<map<string, nat>>, entries: seq<DangEntry>, xs: seq<nat>)
    requires |frames| > 0 && NamesAgree(frames, entries) && IsIteration(Chain(frames), xs)
    ensures forall i :: 0 <= i < |xs| ==> xs[i] < |entries|
    decreases |frames|
  {
    var m := |frames| - 1;
    var k: int, zs := 0, xs;
    if m > 0 {
      var init := frames[..m];
      assert Chain(frames) == BlockScope(Chain(init), frames[m]);
      k :| 0 <= k <= |xs| && IsIteration(Chain(init), xs[..k]) && Enumerates(frames[m], xs[k..]);
      NamesAgreeInit(frames, entries);
      ChainBounds(init, entries, xs[..k]);
      zs := xs[k..];
    } else {
      assert Chain(frames) == FunctionScope(None, frames[0]);
    }
    var keys :| EnumeratesBy(frames[m], keys, zs);
    assert ScopeNamesAgree(frames[m], entries);
    forall i | 0 <= i < |xs| ensures xs[i] < |entries| {
      if i >= k {
        assert xs[i] == zs[i - k] && keys[i - k] in frames[m];
      } else {
        assert xs[i] == xs[..k][i];
      }
    }
  }

  lemma {:induction false} LookupSnoc(frames: seq<map<string, nat>>, f: map<string, nat>, name: string)
    ensures Lookup(frames + [f], name)
      == if Lookup(frames, name).Some? then Lookup(frames, name) else if name in f then Some(f[name]) else None
  {
    if frames != [] {
      assert (frames + [f])[1..] == frames[1..] + [f];
      LookupSnoc(frames[1..], f, name);
    }
  }

  /** `visitVariableTree` over any iteration of the chain finds what
      `Lookup` finds: the iteration yields the outer scopes' entries first,
      and each scope binds a name to an entry of that name. */
  lemma {:induction false} ChainLookup(frames: seq<map<string, nat>>, entries: seq<DangEntry>, xs: seq<nat>, name: string)
    requires |frames| > 0 && NamesAgree(frames, entries) && IsIteration(Chain(frames), xs)
    requires forall i :: 0 <= i < |xs| ==> xs[i] < |entries|
    ensures FirstNamed(entries, xs, name) == Lookup(frames, name)
    decreases |frames|, 1
  {
    var m := |frames| - 1;
    assert ScopeNamesAgree(frames[m], entries);
    if m == 0 {
      assert frames == [] + [frames[0]];
      LookupSnoc([], frames[0], name);
      assert Chain(frames) == FunctionScope(None, frames[0]);
      var keys :| EnumeratesBy(frames[0], keys, xs);
      EnumFirstNamed(entries, frames[0], keys, xs, name);
    } else {
      ChainLookupBlock(frames, entries, xs, name);
    }
  }

  lemma SliceBounds(xs: seq<nat>, lo: nat, hi: nat, n: nat)
    requires lo <= hi <= |xs| && forall i :: 0 <= i < |xs| ==> xs[i] < n
    ensures forall i :: 0 <= i < hi - lo ==> xs[lo..hi][i] < n
  {
    forall i | 0 <= i < hi - lo ensures xs[lo..hi][i] < n {
      assert xs[lo..hi][i] == xs[lo + i];
    }
  }

  /** The step of `ChainLookup` for a block scope: its parent chain's
      iteration, then its own entries. */
  lemma {:induction false} ChainLookupBlock(frames: seq<map<string, nat>>, entries: seq<DangEntry>, xs: seq<nat>, name: string)
    requires |frames| > 1 && NamesAgree(frames, entries) && IsIteration(Chain(frames), xs)
    requires forall i :: 0 <= i < |xs| ==> xs[i] < |entries|
    ensures FirstNamed(entries, xs, name) == Lookup(frames, name)
    decreases |frames|, 0
  {
    var m := |frames| - 1;
    var init := frames[..m];
    assert frames == init + [frames[m]];
    assert ScopeNamesAgree(frames[m], entries);
    assert Chain(frames) == BlockScope(Chain(init), frames[m]);
    var k :| 0 <= k <= |xs| && IsIteration(Chain(init), xs[..k]) && Enumerates(frames[m], xs[k..]);
    var ys, zs := xs[..k], xs[k..];
    NamesAgreeInit(frames, entries);
    SliceBounds(xs, 0, k, |entries|);
    SliceBounds(xs, k, |xs|, |entries|);
    ChainLookup(init, entries, ys, name);
    var keys :| EnumeratesBy(frames[m], keys, zs);
    EnumFirstNamed(entries, frames[m], keys, zs, name);
    assert xs == ys + zs;
    FirstNamedAppend(entries, ys, zs, name);
    LookupSnoc(init, frames[m], name);
  }

  /** The chain after `scope.add` of an entry named `name` to its innermost
      scope. */
  function BindInner(frames: seq<map<string, nat>>, name: string, k: nat): (r: seq<map<string, nat>>)
    requires |frames| > 0
    ensures |r| == |frames| && r[..|r| - 1] == frames[..|frames| - 1]
    ensures r[|r| - 1].Keys == frames[|frames| - 1].Keys + {name} && r[|r| - 1][name] == k
  {
    var inner: map<string, nat> := frames[|frames| - 1][name := k];
    frames[|frames| - 1 := inner]
  }

  /** A location for `exp.getLocation()`; it is never asked of a missing
      expression. */
  function LocOf(e: Expr): Loc {
    if e.MissingExpr? then NoLoc else e.loc
  }

  class DanglingChecker {
    var refs: seq<Reference>
    var entries: seq<DangEntry>
    /** The scope chain, outermost first; empty outside a function. */
    var frames: seq<map<string, nat>>
    /** `structMembers`: the field names of each struct, in order. */
    var structMembers: map<string, seq<string>>
    /** What was reported to the logger, in order. */
    var errors: seq<Diagnostic>

    ghost predicate Valid()
      reads this
    {
      MembersAbove(refs)
      && (forall k :: 0 <= k < |entries| ==> entries[k].ref < |refs|)
      && NamesAgree(frames, entries)
    }

    constructor ()
      ensures Valid() && refs == [] && entries == [] && frames == [] && structMembers == map[] && errors == []
    {
      refs := [];
      entries := [];
      frames := [];
      structMembers := map[];
      errors := [];
    }

    /** `new Reference(state, refCount, location)`, with no members. */
    method NewReference(st: State, count: int, loc: Loc) returns (r: nat)
      requires Valid()
      modifies this
      ensures refs == old(refs) + [Reference(st, count, loc, map[])] && r == |old(refs)|
      ensures entries == old(entries) && frames == old(frames) && errors == old(errors)
      ensures structMembers == old(structMembers) && Valid()
    {
      r := |refs|;
      refs := refs + [Reference(st, count, loc, map[])];
    }

    /** `new DangEntry(name, ref)`. */
    method NewEntry(name: Option<string>, r: nat) returns (k: nat)
      requires Valid() && r < |refs|
      modifies this
      ensures entries == old(entries) + [DangEntry(name, r)] && k == |old(entries)|
      ensures refs == old(refs) && frames == old(frames) && errors == old(errors)
      ensures structMembers == old(structMembers) && Valid()
    {
      k := |entries|;
      NamesAgreeAppend(frames, entries, DangEntry(name, r));
      entries := entries + [DangEntry(name, r)];
    }

    /** `scope.add(entry)` on the innermost scope. */
    method Bind(name: string, k: nat)
      requires Valid() && |frames| > 0 && k < |entries| && entries[k].name == Some(name)
      modifies this
      ensures frames == BindInner(old(frames), name, k)
      ensures refs == old(refs) && entries == old(entries) && errors == old(errors)
      ensures structMembers == old(structMembers) && Valid()
    {
      NamesAgreeBind(frames, entries, name, k);
      frames := BindInner(frames, name, k);
    }

    /** The check half of `scanAndCheckDangling`, on the scanned entry. */
    method CheckDangling(entry: Option<nat>, loc: Loc)
      requires Valid() && (entry.Some? ==> entry.value < |entries|)
      modifies this
      ensures entry.None? ==> errors == old(errors)
      ensures entry.Some? ==> errors == old(errors) + DanglingReport(old(refs)[old(entries)[entry.value].ref].state, loc)
      ensures refs == old(refs) && entries == old(entries) && frames == old(frames)
      ensures structMembers == old(structMembers) && Valid()
    {
      if entry.Some? {
        errors := errors + DanglingReport(refs[entries[entry.value].ref].state, loc);
      }
    }

    /** `visitFreeTree` after its operand was scanned: a DEAD or IMMUTABLE
        reference is reported, and the reference is DEAD afterwards in every
        case. */
    method FreeEntry(k: nat, loc: Loc)
      requires Valid() && k < |entries|
      modifies this
      ensures var r := old(entries)[k].ref;
        refs == old(refs)[r := old(refs)[r].(state := DEAD)]
        && errors == old(errors) + ReleaseReport(old(refs)[r].state, loc)
      ensures entries == old(entries) && frames == old(frames)
      ensures structMembers == old(structMembers) && Valid()
    {
      var r := entries[k].ref;
      errors := errors + ReleaseReport(refs[r].state, loc);
      refs := refs[r := refs[r].(state := DEAD)];
    }

    /** `visitVarDecTree` after its initializer was scanned: a non-reference
        initializer gets a new IMMUTABLE reference held once; otherwise the
        variable shares the initializer's reference, whose count goes up. */
    method Declare(name: string, init: Option<nat>, loc: Loc)
      requires Valid() && |frames| > 0 && (init.Some? ==> init.value < |entries|)
      modifies this
      ensures init.None? ==>
        refs == old(refs) + [Reference(IMMUTABLE, 1, loc, map[])]
        && entries == old(entries) + [DangEntry(Some(name), |old(refs)|)]
      ensures init.Some? ==>
        var r := old(entries)[init.value].ref;
        refs == old(refs)[r := old(refs)[r].(refCount := old(refs)[r].refCount + 1)]
        && entries == old(entries) + [DangEntry(Some(name), r)]
      ensures frames == BindInner(old(frames), name, |old(entries)|)
      ensures errors == old(errors) && structMembers == old(structMembers) && Valid()
    {
      if init.None? {
        var r := NewReference(IMMUTABLE, 1, loc);
        var k := NewEntry(Some(name), r);
        Bind(name, k);
      } else {
        var r := entries[init.value].ref;
        var k := NewEntry(Some(name), r);
        Bind(name, k);
        refs := refs[r := refs[r].(refCount := refs[r].refCount + 1)];
      }
    }

    /** `visitParameterTree` inside a function: a new IMMUTABLE reference
        held once. */
    method AddParameter(name: string, loc: Loc)
      requires Valid() && |frames| > 0
      modifies this
      ensures refs == old(refs) + [Reference(IMMUTABLE, 1, loc, map[])]
      ensures entries == old(entries) + [DangEntry(Some(name), |old(refs)|)]
      ensures frames == BindInner(old(frames), name, |old(entries)|)
      ensures errors == old(errors) && structMembers == old(structMembers) && Valid()
    {
      var r := NewReference(IMMUTABLE, 1, loc);
      var k := NewEntry(Some(name), r);
      Bind(name, k);
    }

    /** The first half of `visitAssignTree`: the left side's reference loses
        a holder, and leaks if it was alive and is no longer held. */
    method AssignDrop(k: nat)
      requires Valid() && k < |entries|
      modifies this
      ensures var r := old(entries)[k].ref;
        var dropped := old(refs)[r].(refCount := old(refs)[r].refCount - 1);
        refs == old(refs)[r := dropped]
        && errors == old(errors) + (if dropped.state == ALIVE && dropped.refCount == 0
                                    then [Error(LeakMessage, dropped.lastLocation)] else [])
      ensures entries == old(entries) && frames == old(frames)
      ensures structMembers == old(structMembers) && Valid()
      ensures |refs| == |old(refs)|
    {
      var r := entries[k].ref;
      refs := refs[r := refs[r].(refCount := refs[r].refCount - 1)];
      if refs[r].state == ALIVE && refs[r].refCount == 0 {
        errors := errors + [Error(LeakMessage, refs[r].lastLocation)];
      }
    }

    /** The second half of `visitAssignTree`: the left entry is re-pointed
        to the right side's reference, if there is one; that reference gains
        a holder, becomes ALIVE and takes the assignment's location. */
    method AssignBind(k: nat, right: Option<nat>, loc: Loc)
      requires Valid() && k < |entries| && (right.Some? ==> right.value < |entries|)
      modifies this
      ensures var r := if right.Some? then old(entries)[right.value].ref else old(entries)[k].ref;
        entries == old(entries)[k := old(entries)[k].(ref := r)]
        && refs == old(refs)[r := old(refs)[r].(refCount := old(refs)[r].refCount + 1, state := ALIVE, lastLocation := loc)]
      ensures errors == old(errors) && frames == old(frames)
      ensures structMembers == old(structMembers) && Valid()
      ensures |refs| == |old(refs)| && |entries| == |old(entries)|
    {
      if right.Some? {
        NamesAgreeRetarget(frames, entries, k, entries[k].(ref := entries[right.value].ref));
        entries := entries[k := entries[k].(ref := entries[right.value].ref)];
      }
      var r := entries[k].ref;
      refs := refs[r := refs[r].(refCount := refs[r].refCount + 1, state := ALIVE, lastLocation := loc)];
    }

    /** A call's result: a fresh ALIVE reference held by no one, in a
        temporary entry. */
    method FreshResult(loc: Loc) returns (k: nat)
      requires Valid()
      modifies this
      ensures refs == old(refs) + [Reference(ALIVE, 0, loc, map[])]
      ensures entries == old(entries) + [DangEntry(None, |old(refs)|)] && k == |old(entries)|
      ensures errors == old(errors) && frames == old(frames)
      ensures structMembers == old(structMembers) && Valid()
    {
      var r := NewReference(ALIVE, 0, loc);
      k := NewEntry(None, r);
    }

    /** `createReferenceFromType`: an ALIVE reference held by no one, with
        one ALIVE member held once per declared field. A type that names no
        struct makes the field loop throw. */
    method StructReference(typeName: string, loc: Loc) returns (res: Result<nat>)
      requires Valid()
      modifies this
      ensures Valid() && (typeName !in old(structMembers) <==> res.Fail?)
      ensures res.Fail? ==> refs == old(refs)
      ensures res.Ok? ==>
        var r := res.value;
        r == |old(refs)| && r < |refs| && refs[..r] == old(refs)
        && refs[r].state == ALIVE && refs[r].refCount == 0 && refs[r].lastLocation == loc
        && refs[r].members.Keys == set f | f in old(structMembers)[typeName]
        && forall f :: f in refs[r].members ==> refs[refs[r].members[f]] == Reference(ALIVE, 1, loc, map[])
      ensures entries == old(entries) && errors == old(errors) && frames == old(frames)
      ensures structMembers == old(structMembers) && Valid()
    {
      if typeName !in structMembers {
        return Fail(NPE);
      }
      var fields := structMembers[typeName];
      var r := NewReference(ALIVE, 0, loc);
      var i := 0;
      while i < |fields|
        invariant 0 <= i <= |fields| && Valid() && r < |refs| && refs[..r] == old(refs)
        invariant entries == old(entries) && errors == old(errors) && frames == old(frames)
        invariant structMembers == old(structMembers)
        invariant refs[r].state == ALIVE && refs[r].refCount == 0 && refs[r].lastLocation == loc
        invariant refs[r].members.Keys == set f | f in fields[..i]
        invariant forall f :: f in refs[r].members ==> refs[refs[r].members[f]] == Reference(ALIVE, 1, loc, map[])
      {
        var c := NewReference(ALIVE, 1, loc);
        assert fields[..i + 1] == fields[..i] + [fields[i]];
        refs := refs[r := refs[r].(members := refs[r].members[fields[i] := c])];
        i := i + 1;
      }
      assert fields[..i] == fields;
      res := Ok(r);
    }

    /** `visitFieldAccessTree` after its operand was scanned: the member is
        created, ALIVE and held once, the first time it is touched; the
        result is a temporary entry for it. */
    method FieldEntry(k: nat, field: string, loc: Loc) returns (k': nat)
      requires Valid() && k < |entries|
      modifies this
      ensures var r := old(entries)[k].ref;
        (field in old(refs)[r].members ==>
          refs == old(refs) && entries == old(entries) + [DangEntry(None, old(refs)[r].members[field])])
        && (field !in old(refs)[r].members ==>
          refs == (old(refs) + [Reference(ALIVE, 1, loc, map[])])[r := old(refs)[r].(members := old(refs)[r].members[field := |old(refs)|])]
          && entries == old(entries) + [DangEntry(None, |old(refs)|)])
      ensures k' == |old(entries)|
      ensures errors == old(errors) && frames == old(frames)
      ensures structMembers == old(structMembers) && Valid()
    {
      var r := entries[k].ref;
      if field !in refs[r].members {
        var c := NewReference(ALIVE, 1, loc);
        refs := refs[r := refs[r].(members := refs[r].members[field := c])];
      }
      k' := NewEntry(None, refs[r].members[field]);
    }

    /** `visitVariableTree`: the first entry with the name in the chain's
        iteration, which is the outermost binding; no binding is an
        `AssertionError`. */
    method Resolve(name: string) returns (res: Result<nat>)
      requires Valid() && |frames| > 0
      ensures res == if Lookup(frames, name).Some? then Ok(Lookup(frames, name).value) else Fail(Thrown("AssertionError"))
      ensures res.Ok? ==> res.value < |entries|
    {
      var order := Iterate(Chain(frames));
      ChainBounds(frames, entries, order);
      ChainLookup(frames, entries, order, name);
      var i := 0;
      while i < |order|
        invariant 0 <= i <= |order|
        invariant FirstNamed(entries, order, name) == FirstNamed(entries, order[i..], name)
      {
        assert order[i..][1..] == order[i + 1..];
        if entries[order[i]].name == Some(name) {
          return Ok(order[i]);
        }
        i := i + 1;
      }
      return Fail(Thrown("AssertionError"));
    }

    /** The leak loop of `visitBlockTree` and `visitReturnTree`: each entry
        of `order` whose reference is ALIVE and held once is reported, in
        order, at the reference's last location. */
    method ReportLeaks(order: seq<nat>)
      requires Valid() && forall i :: 0 <= i < |order| ==> order[i] < |entries|
      modifies this
      ensures refs == old(refs) && entries == old(entries) && frames == old(frames)
      ensures structMembers == old(structMembers) && Valid()
      ensures errors == old(errors) + Leaks(refs, entries, order)
    {
      var i := 0;
      while i < |order|
        invariant 0 <= i <= |order|
        invariant refs == old(refs) && entries == old(entries) && frames == old(frames)
        invariant structMembers == old(structMembers)
        invariant errors == old(errors) + Leaks(refs, entries, order[..i])
      {
        assert order[..i + 1][..i] == order[..i];
        var ref := refs[entries[order[i]].ref];
        if ref.state == ALIVE && ref.refCount == 1 {
          errors := errors + [Error(LeakMessage, ref.lastLocation)];
        }
        i := i + 1;
      }
      assert order[..i] == order;
    }

    /** `visitReturnTree` after its operand was scanned: the returned
        reference becomes IMMUTABLE, an error is reported if a member of it
        at any depth is DEAD, and then every visible entry that is ALIVE and
        held once is reported as a leak. */
    method ReturnEntry(k: nat, loc: Loc) returns (order: seq<nat>)
      requires Valid() && k < |entries| && |frames| > 0
      modifies this
      ensures Valid() && frames == old(frames)
      ensures var r := old(entries)[k].ref;
        refs == old(refs)[r := old(refs)[r].(state := IMMUTABLE)]
        && IsIteration(Chain(frames), order)
        && (forall i :: 0 <= i < |order| ==> order[i] < |entries|)
        && errors == old(errors) + (if DeepDangler(refs, r) then [Error(ReturnDanglerMessage, loc)] else [])
                                 + Leaks(refs, entries, order)
      ensures entries == old(entries) && frames == old(frames) && structMembers == old(structMembers)
    {
      var r := entries[k].ref;
      refs := refs[r := refs[r].(state := IMMUTABLE)];
      if DeepDangler(refs, r) {
        errors := errors + [Error(ReturnDanglerMessage, loc)];
      }
      order := Iterate(Chain(frames));
      ChainBounds(frames, entries, order);
      ReportLeaks(order);
    }

    /** The end of `visitBlockTree`: every entry of the block's own scope
        that is ALIVE and held once is reported as a leak, in the map's
        iteration order, and the block's scope is dropped. */
    method ExitBlock() returns (order: seq<nat>)
      requires Valid() && |frames| > 0
      modifies this
      ensures Valid() && Enumerates(old(frames)[|old(frames)| - 1], order)
      ensures forall i :: 0 <= i < |order| ==> order[i] < |entries|
      ensures errors == old(errors) + Leaks(refs, entries, order)
      ensures frames == old(frames)[..|old(frames)| - 1]
      ensures refs == old(refs) && entries == old(entries) && structMembers == old(structMembers)
    {
      var keys;
      keys, order := EnumerateMap(frames[|frames| - 1]);
      assert ScopeNamesAgree(frames[|frames| - 1], entries);
      forall j | 0 <= j < |order| ensures order[j] < |entries| {
        assert keys[j] in frames[|frames| - 1];
      }
      ReportLeaks(order);
      frames := frames[..|frames| - 1];
    }

    // -------------------------------------------------------------------
    // The visits

    /** `scanAndCheckDangling(exp, scope)`. */
    method ScanAndCheck(e: Expr) returns (res: Result<Option<nat>>)
      requires Valid() && |frames| > 0
      modifies this
      ensures Valid() && frames == old(frames) && structMembers == old(structMembers)
      ensures |old(refs)| <= |refs| && |old(entries)| <= |entries|
      ensures res.Ok? && res.value.Some? ==> res.value.value < |entries|
      decreases e, 2
    {
      var entry :- VisitExpr(e);
      CheckDangling(entry, LocOf(e));
      res := Ok(entry);
    }

    /** `scanAndCheckDanglingArguments`. */
    method CheckArguments(args: seq<Expr>) returns (s: Status)
      requires Valid() && |frames| > 0
      modifies this
      ensures Valid() && frames == old(frames) && structMembers == old(structMembers)
      ensures |old(refs)| <= |refs| && |old(entries)| <= |entries|
      decreases args, 3
    {
      var i := 0;
      while i < |args|
        invariant 0 <= i <= |args| && Valid()
        invariant frames == old(frames) && structMembers == old(structMembers)
        invariant |old(refs)| <= |refs| && |old(entries)| <= |entries|
      {
        var r := ScanAndCheck(args[i]);
        if r.Fail? {
          return Threw(r.failure);
        }
        i := i + 1;
      }
      return Completed;
    }

    /** The inherited `scan(list)`: the last element's entry, `null` for an
        empty list. */
    method ScanList(xs: seq<Expr>) returns (res: Result<Option<nat>>)
      requires Valid() && |frames| > 0
      modifies this
      ensures Valid() && frames == old(frames) && structMembers == old(structMembers)
      ensures |old(refs)| <= |refs| && |old(entries)| <= |entries|
      ensures res.Ok? && res.value.Some? ==> res.value.value < |entries|
      decreases xs, 3
    {
      var r: Option<nat> := None;
      var i := 0;
      while i < |xs|
        invariant 0 <= i <= |xs| && Valid()
        invariant frames == old(frames) && structMembers == old(structMembers)
        invariant |old(refs)| <= |refs| && |old(entries)| <= |entries|
        invariant r.Some? ==> r.value < |entries|
      {
        r :- VisitExpr(xs[i]);
        i := i + 1;
      }
      return Ok(r);
    }

    /** `Tree.accept` on an expression: the entry the visit returns. */
    method VisitExpr(e: Expr) returns (res: Result<Option<nat>>)
      requires Valid() && |frames| > 0
      modifies this
      ensures Valid() && frames == old(frames) && structMembers == old(structMembers)
      ensures |old(refs)| <= |refs| && |old(entries)| <= |entries|
      ensures res.Ok? && res.value.Some? ==> res.value.value < |entries|
      ensures IsLiteral(e) || e.MissingExpr? ==> res == Ok(None)
      ensures e.Var? ==> res == (if Lookup(frames, e.name).Some? then Ok(Lookup(frames, e.name)) else Fail(Thrown("AssertionError")))
      decreases e, 1
    {
      match e
      case MissingExpr => return Ok(None);
      case NullLit(_) => return Ok(None);
      case IntLit(_, _) => return Ok(None);
      case FloatLit(_, _) => return Ok(None);
      case StrLit(_, _) => return Ok(None);
      case BoolLit(_, _) => return Ok(None);
      case Var(name, _) =>
        var k :- Resolve(name);
        return Ok(Some(k));
      case Not(x, _) => res := VisitExpr(x);
      case Negation(x, _) => res := VisitExpr(x);
      case NullCheck(x, _) => res := VisitExpr(x);
      case Cast(x, _, _) => res := VisitExpr(x);
      case ArrayLit(xs, _) => res := ScanList(xs);
      case ContainerAccess(x, key, _) =>
        var _ :- VisitExpr(x);
        res := VisitExpr(key);
      case BinOp(_, l, r, _) =>
        var _ :- VisitExpr(l);
        res := VisitExpr(r);
      case FieldAccess(x, f, loc) =>
        var entry :- ScanAndCheck(x);
        if entry.None? {
          return Ok(None);
        }
        var k := FieldEntry(entry.value, f, loc);
        return Ok(Some(k));
      case Assign(l, r, loc) => res := VisitAssign(l, r, loc);
      case GlobalCall(_, args, loc) =>
        var s := CheckArguments(args);
        if s.Threw? {
          return Fail(s.failure);
        }
        var k := FreshResult(loc);
        return Ok(Some(k));
      case MethodCall(_, operand, args, loc) =>
        var _ :- ScanAndCheck(operand);
        var s := CheckArguments(args);
        if s.Threw? {
          return Fail(s.failure);
        }
        var k := FreshResult(loc);
        return Ok(Some(k));
      case StructInit(t, args, loc) =>
        var s := CheckArguments(args);
        if s.Threw? {
          return Fail(s.failure);
        }
        var r :- StructReference(Name(t), loc);
        var k := NewEntry(None, r);
        return Ok(Some(k));
    }

    /** `visitAssignTree`: the left side is scanned without the dangling
        check; a left side that yields no entry throws. */
    method VisitAssign(l: Expr, r: Expr, loc: Loc) returns (res: Result<Option<nat>>)
      requires Valid() && |frames| > 0
      modifies this
      ensures Valid() && frames == old(frames) && structMembers == old(structMembers)
      ensures |old(refs)| <= |refs| && |old(entries)| <= |entries|
      ensures res.Ok? && res.value.Some? ==> res.value.value < |entries|
      decreases Assign(l, r, loc), 0
    {
      ghost var refs0, entries0 := |refs|, |entries|;
      var left :- VisitExpr(l);
      if left.None? {
        return Fail(NPE);
      }
      var k := left.value;
      AssignDrop(k);
      ghost var entries1 := |entries|;
      assert refs0 <= |refs| && entries0 <= entries1 && k < entries1;
      var right :- ScanAndCheck(r);
      assert k < |entries|;
      AssignBind(k, right, loc);
      return Ok(left);
    }

    /** `Tree.accept` on a statement. */
    method VisitStmt(st: Stmt) returns (s: Status)
      requires Valid() && |frames| > 0
      modifies this
      ensures Valid() && |frames| == |old(frames)| && structMembers == old(structMembers)
      ensures |old(refs)| <= |refs| && |old(entries)| <= |entries|
      decreases st, 1
    {
      match st
      case MissingStmt => return Completed;
      case Block(ss) => s := VisitBlock(ss);
      case ExprStmt(e, _) =>
        var r := VisitExpr(e);
        return if r.Fail? then Threw(r.failure) else Completed;
      case Return(e, loc) =>
        var entry := ScanAndCheck(e);
        if entry.Fail? {
          return Threw(entry.failure);
        }
        if entry.value.None? {
          return Threw(NPE);
        }
        var order := ReturnEntry(entry.value.value, loc);
        return Completed;
      case VarDec(name, _, _, init, loc) =>
        var entry := ScanAndCheck(init);
        if entry.Fail? {
          return Threw(entry.failure);
        }
        Declare(name, entry.value, loc);
        return Completed;
      case IfElse(c, a, b, _) =>
        var r := VisitExpr(c);
        if r.Fail? {
          return Threw(r.failure);
        }
        s := VisitStmt(a);
        if s.Threw? {
          return;
        }
        s := VisitStmt(b);
      case WhileDo(c, b, _) =>
        var r := VisitExpr(c);
        if r.Fail? {
          return Threw(r.failure);
        }
        s := VisitStmt(b);
      case DoWhile(b, c, _) =>
        s := VisitStmt(b);
        if s.Threw? {
          return;
        }
        var r := VisitExpr(c);
        return if r.Fail? then Threw(r.failure) else Completed;
      case Free(e, loc) =>
        var entry := ScanAndCheck(e);
        if entry.Fail? {
          return Threw(entry.failure);
        }
        if entry.value.None? {
          return Threw(NPE);
        }
        FreeEntry(entry.value.value, loc);
        return Completed;
    }

    /** `visitBlockTree`: the statements in a new block scope, then the
        block's leak check. A statement that throws abandons the scope. */
    method VisitBlock(ss: seq<Stmt>) returns (s: Status)
      requires Valid() && |frames| > 0
      modifies this
      ensures Valid() && |frames| == |old(frames)| && structMembers == old(structMembers)
      ensures |old(refs)| <= |refs| && |old(entries)| <= |entries|
      decreases ss, 2
    {
      frames := frames + [map[]];
      var i := 0;
      while i < |ss|
        invariant 0 <= i <= |ss| && Valid() && |frames| == |old(frames)| + 1
        invariant structMembers == old(structMembers)
        invariant |old(refs)| <= |refs| && |old(entries)| <= |entries|
      {
        s := VisitStmt(ss[i]);
        if s.Threw? {
          frames := frames[..|frames| - 1];
          return;
        }
        i := i + 1;
      }
      var order := ExitBlock();
      return Completed;
    }

    /** `visitFunctionTree` with a new function scope, or the inherited
        visit of a native function, whose parameters see no scope. */
    method VisitCallable(c: Callable) returns (s: Status)
      requires Valid() && frames == []
      modifies this
      ensures Valid() && frames == [] && structMembers == old(structMembers)
    {
      if c.Native? {
        return Completed;
      }
      frames := [map[]];
      var i := 0;
      while i < |c.params|
        invariant 0 <= i <= |c.params| && Valid() && |frames| == 1
        invariant structMembers == old(structMembers)
      {
        AddParameter(c.params[i].name, c.params[i].loc);
        i := i + 1;
      }
      s := VisitStmt(c.body);
      frames := [];
    }

    /** `visitStructTree`: the struct's field names, in order. */
    method VisitStruct(d: StructDecl)
      requires Valid()
      modifies this
      ensures d.name in structMembers && structMembers == old(structMembers)[d.name := structMembers[d.name]]
      ensures |structMembers[d.name]| == |d.fields|
      ensures forall i :: 0 <= i < |d.fields| ==> structMembers[d.name][i] == d.fields[i].name
      ensures refs == old(refs) && entries == old(entries) && frames == old(frames) && errors == old(errors)
      ensures Valid()
    {
      var names: seq<string> := [];
      for i := 0 to |d.fields|
        invariant |names| == i && forall j :: 0 <= j < i ==> names[j] == d.fields[j].name
      {
        names := names + [d.fields[i].name];
      }
      structMembers := structMembers[d.name := names];
    }

    /** `check(root)`: `visitRootTree` scans the structs, then the
        callables; templates and implementations are not scanned. */
    method Check(root: Root) returns (s: Status)
      requires Valid() && frames == []
      modifies this
      ensures Valid() && frames == []
    {
      for i := 0 to |root.structs|
        invariant Valid() && frames == []
      {
        VisitStruct(root.structs[i]);
      }
      var i := 0;
      while i < |root.callables|
        invariant 0 <= i <= |root.callables| && Valid() && frames == []
      {
        s := VisitCallable(root.callables[i]);
        if s.Threw? {
          return;
        }
        i := i + 1;
      }
      return Completed;
    }
  }
}
