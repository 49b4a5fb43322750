/** `computil.generation`: the intermediate representation the generator
    fills and the targets write out. Each instruction class is a constructor
    of `Instruction`; `Function`, `Struct` and `IRMediator` are classes whose
    fields change in place. */
module IR {
  import opened Wrappers
  import opened Operations
  import opened HashMaps
  import opened Pools

  datatype Instruction =
    | PushNull
    | PushInt(value: int)
    | PushBool(bval: bool)
    | LoadConst(address: int)
    | LoadLocal(address: int)
    | StoreLocal(address: int)
    | NullCheck
    | CheckCast(address: int)
    | Int2Float
    | Float2Int
    | MakeArray(size: int)
    | ReadArray(address: int)
    | WriteArray(address: int)
    | NewInstance(address: int)
    | Free
    | GetField(address: int)
    | PutField(address: int)
    | InvokeVirtual(address: int, argc: int)
    | InvokeTemplate(address: int, argc: int)
    | InvokeNative(address: int, argc: int)
    | Return
    | Dup
    | Swap
    | Pop
    | Not
    | Negate
    | BinaryOperation(op: Operation, ty: string)
    | /** The three jumps keep their target in a field the generator sets
          once the target is known (`setJumpAddress`). */
      Goto(address: int)
    | BranchIfFalse(address: int)
    | BranchIfTrue(address: int)
    | NewLineNumber(line: int)

  predicate IsJump(i: Instruction) {
    i.Goto? || i.BranchIfFalse? || i.BranchIfTrue?
  }

  /** `setJumpAddress(a)` on a jump: the same jump with target `a`. */
  function Retarget(i: Instruction, a: int): (r: Instruction)
    requires IsJump(i)
    ensures IsJump(r) && r.address == a
    ensures r.Goto? == i.Goto? && r.BranchIfFalse? == i.BranchIfFalse? && r.BranchIfTrue? == i.BranchIfTrue?
  {
    match i
    case Goto(_) => Goto(a)
    case BranchIfFalse(_) => BranchIfFalse(a)
    case BranchIfTrue(_) => BranchIfTrue(a)
  }

  /** The running operand-stack depth after the growths `ds`. */
  function Sum(ds: seq<int>): int {
    if ds == [] then 0 else Sum(ds[..|ds| - 1]) + ds[|ds| - 1]
  }

  /** `stackSize` after the growths `ds`: each step keeps the larger of the
      old maximum and the new running depth, starting from 0. */
  function MaxDepth(ds: seq<int>): int {
    if ds == [] then 0 else
      var m := MaxDepth(ds[..|ds| - 1]);
      var d := Sum(ds);
      if m >= d then m else d
  }

  /** The recorded maximum is the largest running depth ever reached, or 0:
      it bounds every depth along the way and is reached unless it is 0. */
  lemma {:induction false} MaxDepthIsMaximum(ds: seq<int>)
    ensures MaxDepth(ds) >= 0
    ensures forall k :: 0 <= k <= |ds| ==> Sum(ds[..k]) <= MaxDepth(ds)
    ensures MaxDepth(ds) == 0 || exists k :: 0 < k <= |ds| && Sum(ds[..k]) == MaxDepth(ds)
  {
    if ds != [] {
      var init := ds[..|ds| - 1];
      MaxDepthIsMaximum(init);
      assert ds[..|ds|] == ds;
      forall k | 0 <= k < |ds| ensures ds[..k] == init[..k] { }
      if MaxDepth(init) != 0 && MaxDepth(init) >= Sum(ds) {
        var k :| 0 < k <= |init| && Sum(init[..k]) == MaxDepth(init);
        assert ds[..k] == init[..k];
      }
    } else {
      assert ds[..0] == [];
    }
  }

  /** A growth never lowers the maximum. */
  lemma MaxDepthMonotone(ds: seq<int>, d: int)
    ensures MaxDepth(ds + [d]) >= MaxDepth(ds)
    ensures Sum(ds + [d]) == Sum(ds) + d
  {
    assert (ds + [d])[..|ds|] == ds;
  }

  /** `Function`: one function or method of the unit. */
  class Function {
    const name: string
    var stackSize: int
    var currStackSize: int
    var locals: int
    /** The `LinkedHashMap` of parameters: its keys in insertion order and
        the map itself. */
    var paramOrder: seq<string>
    var parameters: map<string, int>
    var instructions: seq<Instruction>
    var isMethod: bool
    /** Every `stackGrows` argument so far, and every `useLocal` address. */
    ghost var growths: seq<int>
    ghost var usedLocals: set<int>

    ghost predicate Valid()
      reads this
    {
      && currStackSize == Sum(growths)
      && stackSize == MaxDepth(growths)
      && locals >= -1
      && (forall a :: a in usedLocals ==> a <= locals)
      && (locals == -1 || locals in usedLocals)
      && (forall i, j :: 0 <= i < j < |paramOrder| ==> paramOrder[i] != paramOrder[j])
      && (forall k :: k in paramOrder <==> k in parameters)
    }

    constructor (name: string)
      ensures Valid() && this.name == name
      ensures stackSize == 0 && currStackSize == 0 && locals == -1
      ensures paramOrder == [] && parameters == map[] && instructions == [] && !isMethod
      ensures growths == [] && usedLocals == {}
    {
      this.name := name;
      stackSize, currStackSize, locals := 0, 0, -1;
      paramOrder, parameters, instructions, isMethod := [], map[], [], false;
      growths, usedLocals := [], {};
    }

    /** `getLocals()`: one more than the largest address used, 0 when none
        was (or only negative ones). */
    function Locals(): (r: int)
      reads this
      requires Valid()
      ensures r >= 0
      ensures forall a :: a in usedLocals ==> a < r
      ensures r == 0 || r - 1 in usedLocals
    {
      locals + 1
    }

    function StreamSize(): nat
      reads this
    {
      |instructions|
    }

    method Append(ins: Instruction)
      modifies this
      ensures instructions == old(instructions) + [ins]
      ensures stackSize == old(stackSize) && currStackSize == old(currStackSize) && locals == old(locals)
      ensures paramOrder == old(paramOrder) && parameters == old(parameters) && isMethod == old(isMethod)
      ensures growths == old(growths) && usedLocals == old(usedLocals)
    {
      instructions := instructions + [ins];
    }

    /** `insert(index, ins)`; the list throws outside `0 .. size`. */
    method Insert(index: nat, ins: Instruction)
      requires index <= |instructions|
      modifies this
      ensures instructions == old(instructions)[..index] + [ins] + old(instructions)[index..]
      ensures stackSize == old(stackSize) && currStackSize == old(currStackSize) && locals == old(locals)
      ensures paramOrder == old(paramOrder) && parameters == old(parameters) && isMethod == old(isMethod)
      ensures growths == old(growths) && usedLocals == old(usedLocals)
    {
      instructions := instructions[..index] + [ins] + instructions[index..];
    }

    /** `setJumpAddress` on the jump at position `at` of the stream, which
        the generator holds on to until its target is known. */
    method SetJumpAddress(at: nat, target: int)
      requires at < |instructions| && IsJump(instructions[at])
      modifies this
      ensures instructions == old(instructions)[at := Retarget(old(instructions)[at], target)]
      ensures stackSize == old(stackSize) && currStackSize == old(currStackSize) && locals == old(locals)
      ensures paramOrder == old(paramOrder) && parameters == old(parameters) && isMethod == old(isMethod)
      ensures growths == old(growths) && usedLocals == old(usedLocals)
    {
      instructions := instructions[at := Retarget(instructions[at], target)];
    }

    /** `putParameter`: a new name goes last; an existing one keeps its
        place and gets the new address. */
    method PutParameter(pname: string, address: int)
      requires Valid()
      modifies this
      ensures Valid()
      ensures parameters == old(parameters)[pname := address]
      ensures paramOrder == if pname in old(parameters) then old(paramOrder) else old(paramOrder) + [pname]
      ensures instructions == old(instructions) && stackSize == old(stackSize)
      ensures currStackSize == old(currStackSize) && locals == old(locals) && isMethod == old(isMethod)
      ensures growths == old(growths) && usedLocals == old(usedLocals)
    {
      if pname !in parameters {
        paramOrder := paramOrder + [pname];
      }
      parameters := parameters[pname := address];
    }

    method MarkAsMethod()
      modifies this
      ensures isMethod && (old(Valid()) ==> Valid())
      ensures instructions == old(instructions) && stackSize == old(stackSize)
      ensures currStackSize == old(currStackSize) && locals == old(locals)
      ensures paramOrder == old(paramOrder) && parameters == old(parameters)
      ensures growths == old(growths) && usedLocals == old(usedLocals)
    {
      isMethod := true;
    }

    /** `stackGrows(growth)`: the running depth moves by `growth` and the
        maximum follows it up. */
    method StackGrows(growth: int)
      requires Valid()
      modifies this
      ensures Valid() && growths == old(growths) + [growth]
      ensures currStackSize == old(currStackSize) + growth
      ensures stackSize == if old(stackSize) >= currStackSize then old(stackSize) else currStackSize
      ensures instructions == old(instructions) && locals == old(locals) && isMethod == old(isMethod)
      ensures paramOrder == old(paramOrder) && parameters == old(parameters) && usedLocals == old(usedLocals)
    {
      MaxDepthMonotone(growths, growth);
      growths := growths + [growth];
      assert growths[..|growths| - 1] == old(growths);
      currStackSize := currStackSize + growth;
      stackSize := if stackSize >= currStackSize then stackSize else currStackSize;
    }

    /** `useLocal(address)`: the largest address seen so far. */
    method UseLocal(address: int)
      requires Valid()
      modifies this
      ensures Valid() && usedLocals == old(usedLocals) + {address}
      ensures locals == if old(locals) >= address then old(locals) else address
      ensures instructions == old(instructions) && stackSize == old(stackSize)
      ensures currStackSize == old(currStackSize) && isMethod == old(isMethod)
      ensures paramOrder == old(paramOrder) && parameters == old(parameters) && growths == old(growths)
    {
      usedLocals := usedLocals + {address};
      locals := if locals >= address then locals else address;
    }
  }

  /** `Struct`: the field names in declaration order and the method table. */
  class Struct {
    const name: string
    var fields: seq<string>
    var methods: map<string, int>

    constructor (name: string)
      ensures this.name == name && fields == [] && methods == map[]
    {
      this.name := name;
      fields, methods := [], map[];
    }

    /** `getSize()`: the number of `putField` calls. */
    function Size(): nat
      reads this
    {
      |fields|
    }

    method PutField(fname: string)
      modifies this
      ensures fields == old(fields) + [fname] && methods == old(methods)
    {
      fields := fields + [fname];
    }

    method PutMethod(mname: string, poolAddress: int)
      modifies this
      ensures methods == old(methods)[mname := poolAddress] && fields == old(fields)
    {
      methods := methods[mname := poolAddress];
    }
  }

  /** `IRMediator`: the registries of one unit. */
  class IRMediator {
    var entryPoint: int
    var pool: Pool?
    var functions: map<string, Function>
    var structs: map<string, Struct>

    /** Every registry maps a name to a component of that name. */
    ghost predicate Valid()
      reads this
    {
      && (forall n :: n in functions ==> functions[n].name == n)
      && (forall n :: n in structs ==> structs[n].name == n)
    }

    constructor ()
      ensures Valid() && entryPoint == 0 && pool == null && functions == map[] && structs == map[]
    {
      entryPoint, pool, functions, structs := 0, null, map[], map[];
    }

    /** `registerFunction`: a name already registered throws and changes
        nothing; otherwise a fresh, empty function of that name is added. */
    method RegisterFunction(fname: string) returns (r: Result<()>)
      requires Valid()
      modifies this
      ensures Valid() && entryPoint == old(entryPoint) && pool == old(pool) && structs == old(structs)
      ensures fname in old(functions) ==> r == Fail(Thrown("IllegalStateException")) && functions == old(functions)
      ensures fname !in old(functions) ==> (r.Ok? && fname in functions && fresh(functions[fname])
        && functions == old(functions)[fname := functions[fname]]
        && functions[fname].instructions == [] && functions[fname].Valid()
        && functions[fname].stackSize == 0 && functions[fname].Locals() == 0)
    {
      if fname in functions {
        return Fail(Thrown("IllegalStateException"));
      }
      var f := new Function(fname);
      functions := functions[fname := f];
      r := Ok(());
    }

    /** `registerStruct`: the same rule for structs. */
    method RegisterStruct(sname: string) returns (r: Result<()>)
      requires Valid()
      modifies this
      ensures Valid() && entryPoint == old(entryPoint) && pool == old(pool) && functions == old(functions)
      ensures sname in old(structs) ==> r == Fail(Thrown("IllegalStateException")) && structs == old(structs)
      ensures sname !in old(structs) ==> (r.Ok? && sname in structs && fresh(structs[sname])
        && structs == old(structs)[sname := structs[sname]]
        && structs[sname].fields == [] && structs[sname].methods == map[])
    {
      if sname in structs {
        return Fail(Thrown("IllegalStateException"));
      }
      var s := new Struct(sname);
      structs := structs[sname := s];
      r := Ok(());
    }

    /** `registerPool`: only the first pool is accepted. */
    method RegisterPool(p: Pool) returns (r: Result<()>)
      modifies this
      ensures entryPoint == old(entryPoint) && functions == old(functions) && structs == old(structs)
      ensures old(pool) != null ==> r == Fail(Thrown("IllegalStateException")) && pool == old(pool)
      ensures old(pool) == null ==> r.Ok? && pool == p
    {
      if pool != null {
        return Fail(Thrown("IllegalStateException"));
      }
      pool := p;
      r := Ok(());
    }

    method SetEntryPoint(e: int)
      modifies this
      ensures entryPoint == e && pool == old(pool) && functions == old(functions) && structs == old(structs)
    {
      entryPoint := e;
    }

    /** `getFunction(name)`; `null` when absent. */
    function GetFunction(fname: string): (r: Function?)
      reads this
      ensures r == null <==> fname !in functions
      ensures r != null ==> r == functions[fname]
    {
      if fname in functions then functions[fname] else null
    }

    function GetStruct(sname: string): (r: Struct?)
      reads this
      ensures r == null <==> sname !in structs
      ensures r != null ==> r == structs[sname]
    {
      if sname in structs then structs[sname] else null
    }

    /** `getFunctions()`: the map's values, in hashing order, which the model
        leaves open; registration order is not kept. */
    method GetFunctions() returns (fs: seq<Function>)
      ensures exists keys :: EnumeratesBy(functions, keys, fs)
    {
      var keys;
      keys, fs := EnumerateMap(functions);
    }

    method GetStructs() returns (ss: seq<Struct>)
      ensures exists keys :: EnumeratesBy(structs, keys, ss)
    {
      var keys;
      keys, ss := EnumerateMap(structs);
    }
  }

  /** `new Pool(mediator)`: the pool registers itself; a second pool for the
      same mediator throws. */
  method NewPool(m: IRMediator) returns (r: Result<Pool>)
    modifies m
    ensures m.entryPoint == old(m.entryPoint) && m.functions == old(m.functions) && m.structs == old(m.structs)
    ensures old(m.pool) != null ==> r.Fail? && m.pool == old(m.pool)
    ensures old(m.pool) == null ==> (r.Ok? && fresh(r.value) && m.pool == r.value
      && r.value.entries == [] && r.value.Valid())
  {
    var p := new Pool();
    var reg := m.RegisterPool(p);
    if reg.Fail? {
      return Fail(reg.failure);
    }
    r := Ok(p);
  }

  /** Two registrations under the same name: the second one throws, whatever
      happened in between to other names. */
  method RegisterTwice(m: IRMediator, fname: string) returns (r1: Result<()>, r2: Result<()>)
    requires m.Valid() && fname !in m.functions
    modifies m
    ensures r1.Ok? && r2 == Fail(Thrown("IllegalStateException"))
    ensures fname in m.functions && m.functions[fname].instructions == []
  {
    r1 := m.RegisterFunction(fname);
    r2 := m.RegisterFunction(fname);
  }
}
