/** `computil.scope`: the four scope kinds and the two finders that search
    them (`TypeChecker.TypeFinder` and `Generator.EntryFinder`). A scope is a
    value here; `add` returns the updated scope and the caller keeps it
    (see the README for what that leaves out). A `HashMap` is a Dafny `map`;
    its iteration order is unspecified, so iteration is a method that may
    enumerate the entries in any order. */
module Scopes {
  import opened Wrappers
  import opened HashMaps

  datatype Scope<E> =
    | GlobalScope(entries: map<string, E>)
    | BlockScope(parent: Scope<E>, entries: map<string, E>)
    | /** `FunctionScope(parent)`; the dangling checker passes `null`. */
      FunctionScope(fparent: Option<Scope<E>>, entries: map<string, E>)
    | /** `entries` maps names to the latest entry, `ordered` keeps every
          entry in declaration order, `impls` is searched after `entries`. */
      StructScope(entries: map<string, E>, ordered: seq<E>, impls: seq<Scope<E>>)

  /** `add(entry)`, where `name` is `entry.name()`: insert or overwrite in this
      scope's own map; a struct scope also appends to its ordered list. */
  function Add<E>(s: Scope<E>, name: string, e: E): (r: Scope<E>)
    ensures r.entries == s.entries[name := e]
    ensures r.GlobalScope? == s.GlobalScope? && r.BlockScope? == s.BlockScope?
    ensures r.FunctionScope? == s.FunctionScope? && r.StructScope? == s.StructScope?
    ensures s.BlockScope? ==> r.parent == s.parent
    ensures s.FunctionScope? ==> r.fparent == s.fparent
    ensures s.StructScope? ==> r.ordered == s.ordered + [e] && r.impls == s.impls
  {
    match s
    case GlobalScope(m) => GlobalScope(m[name := e])
    case BlockScope(p, m) => BlockScope(p, m[name := e])
    case FunctionScope(p, m) => FunctionScope(p, m[name := e])
    case StructScope(m, o, i) => StructScope(m[name := e], o + [e], i)
  }

  /** `TypeFinder.search`: a global or function scope consults its own map
      only; a block scope its own map, then its parent; a struct scope its
      own map, then each scope in `impls` in list order. `None` is `null`. */
  function TypeFind<E>(s: Scope<E>, name: string): Option<E>
    decreases s, 1
  {
    match s
    case GlobalScope(m) => if name in m then Some(m[name]) else None
    case BlockScope(p, m) => if name in m then Some(m[name]) else TypeFind(p, name)
    case FunctionScope(_, m) => if name in m then Some(m[name]) else None
    case StructScope(m, _, impls) =>
      if name in m then Some(m[name]) else FindInImpls(s, impls, name)
  }

  /** The loop over `structScope.impls`: the first hit, or `null`. */
  function FindInImpls<E>(owner: Scope<E>, impls: seq<Scope<E>>, name: string): Option<E>
    requires forall i :: i in impls ==> i < owner
    decreases owner, 0, |impls|
  {
    if impls == [] then None
    else
      assert impls[0] in impls;
      match TypeFind(impls[0], name)
      case Some(e) => Some(e)
      case None =>
        assert forall i :: i in impls[1..] ==> i in impls;
        FindInImpls(owner, impls[1..], name)
  }

  /** `Generator.EntryFinder.search`: like `TypeFind` for block and function
      scopes, but a global or a struct scope always yields `null`. */
  function GenFind<E>(s: Scope<E>, name: string): Option<E> {
    match s
    case GlobalScope(_) => None
    case BlockScope(p, m) => if name in m then Some(m[name]) else GenFind(p, name)
    case FunctionScope(_, m) => if name in m then Some(m[name]) else None
    case StructScope(_, _, _) => None
  }


  /** One admissible iteration of a scope: a global or function scope
      enumerates its map, a struct scope yields its ordered list, and a block
      scope yields an iteration of its parent followed by an enumeration of
      its own map. */
  ghost predicate IsIteration<E>(s: Scope<E>, xs: seq<E>) {
    match s
    case GlobalScope(m) => Enumerates(m, xs)
    case FunctionScope(_, m) => Enumerates(m, xs)
    case StructScope(_, o, _) => xs == o
    case BlockScope(p, m) =>
      exists n :: 0 <= n <= |xs| && IsIteration(p, xs[..n]) && Enumerates(m, xs[n..])
  }

  /** `for (E e : scope)`: a block scope yields all of its parent's entries
      first, then its own; a struct scope yields its ordered list. */
  method Iterate<E>(s: Scope<E>) returns (xs: seq<E>)
    ensures IsIteration(s, xs)
    decreases s
  {
    match s
    case GlobalScope(m) =>
      var keys;
      keys, xs := EnumerateMap(m);
    case FunctionScope(_, m) =>
      var keys;
      keys, xs := EnumerateMap(m);
    case StructScope(_, o, _) =>
      xs := o;
    case BlockScope(p, m) =>
      var outer := Iterate(p);
      var keys, own := EnumerateMap(m);
      xs := outer + own;
      assert xs[..|outer|] == outer && xs[|outer|..] == own;
    }

  // ---- properties --------------------------------------------------------

  /** After `add`, both finders see the new entry in the scope it was added
      to (unless a finder never looks at that kind), and every other name
      resolves as before. */
  lemma AddThenFind<E>(s: Scope<E>, name: string, e: E, other: string)
    requires other != name
    ensures TypeFind(Add(s, name, e), name) == Some(e)
    ensures (s.BlockScope? || s.FunctionScope?) ==> GenFind(Add(s, name, e), name) == Some(e)
    ensures TypeFind(Add(s, name, e), other) == TypeFind(s, other)
    ensures GenFind(Add(s, name, e), other) == GenFind(s, other)
  {
    if s.StructScope? {
      FindInImplsSameOwner(s, Add(s, name, e), s.impls, other);
    }
  }

  /** The owner argument of the impls loop only serves termination. */
  lemma {:induction false} FindInImplsSameOwner<E>(o: Scope<E>, o': Scope<E>, impls: seq<Scope<E>>, name: string)
    requires forall i :: i in impls ==> i < o
    requires forall i :: i in impls ==> i < o'
    ensures FindInImpls(o, impls, name) == FindInImpls(o', impls, name)
    decreases |impls|
  {
    if impls != [] {
      assert forall i :: i in impls[1..] ==> i in impls;
      FindInImplsSameOwner(o, o', impls[1..], name);
    }
  }

  /** A block entry shadows an outer one in lookup, while an iteration still
      yields both: the outer one among the parent's, the inner one after. */
  lemma BlockShadows<E>(p: Scope<E>, m: map<string, E>, name: string, xs: seq<E>)
    requires name in m && TypeFind(p, name).Some? && IsIteration(BlockScope(p, m), xs)
    ensures TypeFind(BlockScope(p, m), name) == Some(m[name])
    ensures exists n :: 0 <= n <= |xs| && IsIteration(p, xs[..n]) && m[name] in xs[n..]
  {
    var n :| 0 <= n <= |xs| && IsIteration(p, xs[..n]) && Enumerates(m, xs[n..]);
    var keys :| EnumeratesBy(m, keys, xs[n..]);
    DistinctKeysCover(m, keys);
    assert name in set k | k in keys;
    var i :| 0 <= i < |keys| && keys[i] == name;
    assert xs[n..][i] == m[name];
  }

  /** A function scope never chains to its parent. */
  lemma FunctionScopeOwnOnly<E>(p: Option<Scope<E>>, p': Option<Scope<E>>, m: map<string, E>, name: string)
    ensures TypeFind(FunctionScope(p, m), name) == TypeFind(FunctionScope(p', m), name)
    ensures GenFind(FunctionScope(p, m), name) == (if name in m then Some(m[name]) else None)
  {
  }

  /** Adding the same name twice to a struct scope leaves the latest entry in
      the map but both entries, in order, in the ordered list. */
  lemma StructScopeDuplicate<E>(s: Scope<E>, name: string, a: E, b: E)
    requires s.StructScope?
    ensures Add(Add(s, name, a), name, b).entries[name] == b
    ensures Add(Add(s, name, a), name, b).ordered == s.ordered + [a, b]
  {
  }

  /** The struct lookup falls through to the impls in list order: with no own
      entry, the first impl scope that knows the name decides. */
  lemma {:induction false} StructFindsFirstImpl<E>(s: Scope<E>, name: string, k: nat)
    requires s.StructScope? && name !in s.entries && k < |s.impls|
    requires TypeFind(s.impls[k], name).Some?
    requires forall j :: 0 <= j < k ==> TypeFind(s.impls[j], name).None?
    ensures TypeFind(s, name) == TypeFind(s.impls[k], name)
  {
    FirstHit(s, s.impls, name, k);
  }

  lemma {:induction false} FirstHit<E>(owner: Scope<E>, impls: seq<Scope<E>>, name: string, k: nat)
    requires forall i :: i in impls ==> i < owner
    requires k < |impls| && TypeFind(impls[k], name).Some?
    requires forall j :: 0 <= j < k ==> TypeFind(impls[j], name).None?
    ensures FindInImpls(owner, impls, name) == TypeFind(impls[k], name)
    decreases k
  {
    assert impls[0] in impls;
    if k > 0 {
      assert forall i :: i in impls[1..] ==> i in impls;
      FirstHit(owner, impls[1..], name, k - 1);
    }
  }

  /** The generator's finder never finds anything in a global scope. */
  lemma GenFindGlobalNull<E>(m: map<string, E>, name: string)
    ensures GenFind(GlobalScope(m), name) == None
  {
  }
}
