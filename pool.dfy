/** `computil.generation.pool`: the constant pool of a compilation unit. The
    pool is an insertion-ordered list without duplicates; a constant's address
    is its position. */
module Pools {
  import opened Wrappers
  import Int32

  /** `PoolTag`; its ordinals are not part of this model, so the writer takes
      the tag numbering as a parameter. */
  datatype PoolTag = INTEGER | FLOAT | STRING | VIRTUAL_FUNCTION | NATIVE_FUNCTION | STRUCT | UTF8

  /** The boxed value a constant holds: an `Integer`, a `Float` (kept as its
      bit pattern) or a `String`. */
  datatype Value = IntValue(i: int) | FloatValue(bits: int) | StringValue(s: string)

  /** The seven `PoolConstant` subclasses; the constructor is the runtime
      class. */
  datatype PoolConstant =
    | IntegerConstant(ival: int)
    | FloatConstant(bits: int)
    | StringConstant(sval: string)
    | VFunctionConstant(sval: string)
    | NFunctionConstant(sval: string)
    | StructConstant(sval: string)
    | UTF8Constant(sval: string)

  /** `getTag()` of each subclass. */
  function Tag(c: PoolConstant): PoolTag {
    match c
    case IntegerConstant(_) => INTEGER
    case FloatConstant(_) => FLOAT
    case StringConstant(_) => STRING
    case VFunctionConstant(_) => VIRTUAL_FUNCTION
    case NFunctionConstant(_) => NATIVE_FUNCTION
    case StructConstant(_) => STRUCT
    case UTF8Constant(_) => UTF8
  }

  /** `get()`: the value given at construction. */
  function Get(c: PoolConstant): Value {
    match c
    case IntegerConstant(i) => IntValue(i)
    case FloatConstant(b) => FloatValue(b)
    case StringConstant(s) => StringValue(s)
    case VFunctionConstant(s) => StringValue(s)
    case NFunctionConstant(s) => StringValue(s)
    case StructConstant(s) => StringValue(s)
    case UTF8Constant(s) => StringValue(s)
  }

  /** The runtime class, as a number. */
  function ClassOf(c: PoolConstant): nat {
    match c
    case IntegerConstant(_) => 0
    case FloatConstant(_) => 1
    case StringConstant(_) => 2
    case VFunctionConstant(_) => 3
    case NFunctionConstant(_) => 4
    case StructConstant(_) => 5
    case UTF8Constant(_) => 6
  }

  /** `equals(o)` for a non-null `o` that is a constant: the same class, equal
      values and equal tags. (`Float.equals` compares bit patterns.) */
  predicate ConstEquals(a: PoolConstant, b: PoolConstant) {
    ClassOf(a) == ClassOf(b) && Get(a) == Get(b) && Tag(a) == Tag(b)
  }

  /** `equals(o)` against any object: `null` and other classes are unequal. */
  predicate EqualsObject(a: PoolConstant, o: Option<PoolConstant>) {
    o.Some? && ConstEquals(a, o.value)
  }

  /** So `equals` is exactly equality of the modelled constants. */
  lemma ConstEqualsIsEquality(a: PoolConstant, b: PoolConstant)
    ensures ConstEquals(a, b) <==> a == b
    ensures EqualsObject(a, Some(a)) && !EqualsObject(a, None)
    ensures ClassOf(a) != ClassOf(b) ==> !ConstEquals(a, b)
  {
  }

  /** `String.hashCode()`: `h = 31 * h + c` over the characters, in `int`. */
  function StringHash(s: string): (r: int)
    ensures Int32.IsInt(r)
  {
    if s == [] then 0 else Int32.Add(Int32.Mul(31, StringHash(s[..|s| - 1])), s[|s| - 1] as int)
  }

  /** `hashCode()` of the boxed value; a float hashes to its bit pattern. */
  function ValueHash(v: Value): int {
    match v
    case IntValue(i) => Int32.Wrap(i)
    case FloatValue(b) => Int32.Wrap(b)
    case StringValue(s) => StringHash(s)
  }

  /** `Objects.hash(value)`, that is `31 + value.hashCode()`. */
  function HashCode(c: PoolConstant): (r: int)
    ensures Int32.IsInt(r)
  {
    Int32.Add(31, ValueHash(Get(c)))
  }

  /** The hash depends on the value only: equal constants hash equally, and
      so do constants of different kinds that hold the same string. */
  lemma HashOnlyValue(a: PoolConstant, b: PoolConstant)
    requires Get(a) == Get(b)
    ensures HashCode(a) == HashCode(b)
    ensures a.StringConstant? && b.VFunctionConstant? ==> !ConstEquals(a, b)
  {
  }

  /** `entries.indexOf(c)`: the first position holding `c`, or -1. */
  function IndexOf(es: seq<PoolConstant>, c: PoolConstant): (r: int)
    ensures -1 <= r < |es|
    ensures r == -1 <==> c !in es
    ensures r >= 0 ==> es[r] == c && forall j :: 0 <= j < r ==> es[j] != c
  {
    if es == [] then -1
    else if ConstEquals(es[0], c) then 0
    else
      var r := IndexOf(es[1..], c);
      if r == -1 then -1 else r + 1
  }

  /** `putIfAbsent` on the entry list `es`: the new list and the address. */
  function Interned(es: seq<PoolConstant>, c: PoolConstant): (seq<PoolConstant>, nat) {
    var i := IndexOf(es, c);
    if i != -1 then (es, i) else (es + [c], |es|)
  }

  predicate Distinct(es: seq<PoolConstant>) {
    forall i, j :: 0 <= i < j < |es| ==> es[i] != es[j]
  }

  /** A put returns an address holding the constant, keeps every earlier entry
      where it was, adds at most one entry, adds one exactly when the constant
      was absent, and keeps the list free of duplicates. */
  lemma InternedSpec(es: seq<PoolConstant>, c: PoolConstant)
    ensures var (es', a) := Interned(es, c);
      a < |es'| && es'[a] == c && es'[..|es|] == es
    ensures var (es', a) := Interned(es, c);
      c in es ==> es' == es && a == IndexOf(es, c)
    ensures var (es', a) := Interned(es, c);
      c !in es ==> es' == es + [c] && a == |es|
    ensures Distinct(es) ==> Distinct(Interned(es, c).0)
  {
  }

  /** One interned constant after the other: the first address still holds
      the first constant, so two different constants get different addresses
      (for instance a string and a virtual function of the same name). */
  lemma TwoPutsDistinct(es: seq<PoolConstant>, c: PoolConstant, d: PoolConstant)
    requires c != d
    ensures var (es1, a) := Interned(es, c);
      var (es2, b) := Interned(es1, d);
      a < |es2| && es2[a] == c && es2[b] == d && a != b
  {
    InternedSpec(es, c);
    var (es1, a) := Interned(es, c);
    InternedSpec(es1, d);
  }

  /** The entries after interning `cs` one after the other, from empty. */
  function InternAll(cs: seq<PoolConstant>): seq<PoolConstant> {
    if cs == [] then [] else Interned(InternAll(cs[..|cs| - 1]), cs[|cs| - 1]).0
  }

  /** The constants of `es` appear in the order of their first use in `cs`. */
  predicate InFirstUseOrder(cs: seq<PoolConstant>, es: seq<PoolConstant>) {
    forall i, j :: 0 <= i < j < |es| ==> IndexOf(cs, es[i]) < IndexOf(cs, es[j])
  }

  /** Interning a sequence of constants into an empty pool yields each
      distinct constant once, in the order of first use: addresses are handed
      out as 0, 1, 2, ... to constants never seen before. */
  lemma {:induction false} InternAllFirstUse(cs: seq<PoolConstant>)
    ensures Distinct(InternAll(cs))
    ensures forall c :: c in InternAll(cs) <==> c in cs
    ensures InFirstUseOrder(cs, InternAll(cs))
  {
    if cs != [] {
      var init, last := cs[..|cs| - 1], cs[|cs| - 1];
      assert cs == init + [last];
      InternAllFirstUse(init);
      var es := InternAll(init);
      assert InternAll(cs) == Interned(es, last).0;
      InternedSpec(es, last);
      InternStepOrder(init, last, es);
    }
  }

  /** One more interned constant keeps the first-use order. */
  lemma InternStepOrder(init: seq<PoolConstant>, last: PoolConstant, es: seq<PoolConstant>)
    requires forall c :: c in es <==> c in init
    requires InFirstUseOrder(init, es)
    ensures InFirstUseOrder(init + [last], Interned(es, last).0)
  {
    var cs := init + [last];
    forall c | c in es ensures IndexOf(cs, c) == IndexOf(init, c) {
      IndexOfExtend(init, last, c);
    }
    InternedSpec(es, last);
    if last !in es {
      IndexOfExtend(init, last, last);
      var es' := es + [last];
      forall i, j | 0 <= i < j < |es'|
        ensures IndexOf(cs, es'[i]) < IndexOf(cs, es'[j])
      {
        assert es'[i] == es[i] && es[i] in es;
        if j == |es| {
          assert IndexOf(cs, es'[j]) == |init| && IndexOf(init, es[i]) < |init|;
        } else {
          assert es'[j] == es[j] && es[j] in es;
        }
      }
    } else {
      forall i, j | 0 <= i < j < |es|
        ensures IndexOf(cs, es[i]) < IndexOf(cs, es[j])
      {
        assert es[i] in es && es[j] in es;
      }
    }
  }

  lemma {:induction false} IndexOfExtend(s: seq<PoolConstant>, x: PoolConstant, c: PoolConstant)
    ensures c in s ==> IndexOf(s + [x], c) == IndexOf(s, c)
    ensures c !in s && c == x ==> IndexOf(s + [x], c) == |s|
  {
    if s != [] {
      assert (s + [x])[1..] == s[1..] + [x];
      IndexOfExtend(s[1..], x, c);
    }
  }

  /** `Pool`: the entry list, which only ever grows. */
  class Pool {
    var entries: seq<PoolConstant>

    ghost predicate Valid()
      reads this
    {
      Distinct(entries)
    }

    constructor ()
      ensures Valid() && entries == []
    {
      entries := [];
    }

    function Size(): nat
      reads this
    {
      |entries|
    }

    /** `get(index)`; the list throws outside `0 .. size() - 1`. */
    function GetAt(index: int): Result<PoolConstant>
      reads this
    {
      if 0 <= index < |entries| then Ok(entries[index])
      else Fail(Thrown("IndexOutOfBoundsException"))
    }

    /** `putIfAbsent`: the linear `indexOf`, then an append when absent. */
    method PutIfAbsent(entry: PoolConstant) returns (idx: nat)
      requires Valid()
      modifies this
      ensures Valid()
      ensures (entries, idx) == Interned(old(entries), entry)
      ensures GetAt(idx) == Ok(entry)
    {
      var i := 0;
      while i < |entries| && !ConstEquals(entries[i], entry)
        invariant 0 <= i <= |entries|
        invariant forall j :: 0 <= j < i ==> entries[j] != entry
      {
        i := i + 1;
      }
      InternedSpec(entries, entry);
      if i < |entries| {
        idx := i;
      } else {
        idx := |entries|;
        entries := entries + [entry];
      }
    }

    method PutInteger(i: int) returns (idx: nat)
      requires Valid()
      modifies this
      ensures Valid() && (entries, idx) == Interned(old(entries), IntegerConstant(i))
    {
      idx := PutIfAbsent(IntegerConstant(i));
    }

    method PutFloat(bits: int) returns (idx: nat)
      requires Valid()
      modifies this
      ensures Valid() && (entries, idx) == Interned(old(entries), FloatConstant(bits))
    {
      idx := PutIfAbsent(FloatConstant(bits));
    }

    method PutString(s: string) returns (idx: nat)
      requires Valid()
      modifies this
      ensures Valid() && (entries, idx) == Interned(old(entries), StringConstant(s))
    {
      idx := PutIfAbsent(StringConstant(s));
    }

    method PutVirtual(name: string) returns (idx: nat)
      requires Valid()
      modifies this
      ensures Valid() && (entries, idx) == Interned(old(entries), VFunctionConstant(name))
    {
      idx := PutIfAbsent(VFunctionConstant(name));
    }

    method PutNative(name: string) returns (idx: nat)
      requires Valid()
      modifies this
      ensures Valid() && (entries, idx) == Interned(old(entries), NFunctionConstant(name))
    {
      idx := PutIfAbsent(NFunctionConstant(name));
    }

    method PutStruct(name: string) returns (idx: nat)
      requires Valid()
      modifies this
      ensures Valid() && (entries, idx) == Interned(old(entries), StructConstant(name))
    {
      idx := PutIfAbsent(StructConstant(name));
    }

    method PutUTF8(s: string) returns (idx: nat)
      requires Valid()
      modifies this
      ensures Valid() && (entries, idx) == Interned(old(entries), UTF8Constant(s))
    {
      idx := PutIfAbsent(UTF8Constant(s));
    }
  }
}
