/** `computil.generation.targets.rbt.RabbitBytecodeDisV1`: the same unit the
    binary writer encodes, printed as text. Every `visit*` method is proved
    against a function that spells out the text it appends. A binary `//`
    has no opcode, so printing can throw half-way; a printout is the text
    written so far together with whether the write ran to its end. */
module Disassembly {
  import opened Wrappers
  import opened Printing
  import opened Decimal
  import opened Opcodes
  import opened HashMaps
  import I = IR
  import P = Pools
  import B = Bytecode

  // ---- header and constant pool ---------------------------------------------

  /** The magic number, then the minor and the major version, both under the
      label "major", then the entry point. */
  function HeaderText(entryPoint: int): string {
    MagicLine + VersionLine() + VersionLine() + EntryLine(entryPoint)
  }

  const MagicLine: string := "magic number: 0xDEAD\n"

  function VersionLine(): string {
    "major: " + IntText(1) + "\n"
  }

  function EntryLine(entryPoint: int): string {
    "entry point: " + IntText(entryPoint) + "\n"
  }

  /** The header prints the label "major" on both version lines, so the
      minor version, which the binary header holds first, is never named. */
  lemma MinorUnderMajor(entryPoint: int)
    ensures HeaderText(entryPoint) == MagicLine + "major: 1\n" + "major: 1\n" + EntryLine(entryPoint)
    ensures HeaderText(entryPoint) != HeaderTextIntended(entryPoint)
  {
    var e := EntryLine(entryPoint);
    assert IntText(1) == "1";
    assert HeaderText(entryPoint)[|MagicLine| + 1] == 'a';
    assert HeaderTextIntended(entryPoint)[|MagicLine| + 1] == 'i';
  }

  /** The header with each version line under its own label. */
  function HeaderTextIntended(entryPoint: int): string {
    MagicLine + "minor: " + IntText(1) + "\n" + "major: " + IntText(1) + "\n" + EntryLine(entryPoint)
  }

  /** The corrected header names the fields in the order the binary header
      holds them, each with the value read back from its four bytes. */
  lemma HeaderIntendedFollowsBinary(entryPoint: int)
    ensures var b := B.HeaderBytes(entryPoint);
      |b| == 11
      && HeaderTextIntended(entryPoint)
         == MagicLine + "minor: " + IntText(B.ReadInt(b[2..6])) + "\n"
            + "major: " + IntText(B.ReadInt(b[6..10])) + "\n" + EntryLine(entryPoint)
  {
    var b := B.HeaderBytes(entryPoint);
    assert B.IntBytes(1) == [0, 0, 0, 1];
    assert b[2..6] == [0, 0, 0, 1] && b[6..10] == [0, 0, 0, 1];
  }

  /** `PoolTag.toString()`. */
  function TagName(t: P.PoolTag): string {
    match t
    case INTEGER => "INTEGER"
    case FLOAT => "FLOAT"
    case STRING => "STRING"
    case VIRTUAL_FUNCTION => "VIRTUAL_FUNCTION"
    case NATIVE_FUNCTION => "NATIVE_FUNCTION"
    case STRUCT => "STRUCT"
    case UTF8 => "UTF8"
  }

  /** The boxed value as string concatenation prints it; `Float.toString` is
      the parameter `floatText`. */
  function ValueText(v: P.Value, floatText: int -> string): string {
    match v
    case IntValue(i) => IntText(i)
    case FloatValue(bits) => floatText(bits)
    case StringValue(s) => s
  }

  /** `writeConstant`: the address, a tab, the tag, a blank and the value. */
  function ConstantLine(address: int, c: P.PoolConstant, floatText: int -> string): string {
    IntText(address) + "\t" + TagName(P.Tag(c)) + " " + ValueText(P.Get(c), floatText) + "\n"
  }

  /** The lines of the constants `es`, numbered from `start`. */
  function ConstantLines(start: int, es: seq<P.PoolConstant>, floatText: int -> string): string {
    Numbered(start, es, ConstantPrinter(floatText))
  }

  function ConstantPrinter(floatText: int -> string): (int, P.PoolConstant) -> string {
    (address, c) => ConstantLine(address, c, floatText)
  }

  function PoolText(start: int, es: seq<P.PoolConstant>, floatText: int -> string): string {
    "\nconstant-pool:\n" + ConstantLines(start, es, floatText)
  }

  lemma ConstantLinesNext(start: int, es: seq<P.PoolConstant>, c: P.PoolConstant, floatText: int -> string)
    ensures ConstantLines(start, es + [c], floatText) == ConstantLines(start, es, floatText) + ConstantLine(start + |es|, c, floatText)
  {
    assert (es + [c])[..|es|] == es;
  }

  /** The line of the constant at position `k` carries the address
      `start + k`, between the lines before and after it. */
  lemma ConstantAt(start: int, es: seq<P.PoolConstant>, k: nat, floatText: int -> string)
    requires k < |es|
    ensures ConstantLines(start, es, floatText)
      == ConstantLines(start, es[..k], floatText) + ConstantLine(start + k, es[k], floatText)
         + ConstantLines(start + k + 1, es[k + 1..], floatText)
  {
    NumberedAt(start, es, k, ConstantPrinter(floatText));
  }

  // ---- instructions ------------------------------------------------------------

  /** A blank and the decimal text of each operand. */
  function ArgsText(args: seq<int>): string {
    if args == [] then "" else ArgsText(args[..|args| - 1]) + " " + IntText(args[|args| - 1])
  }

  lemma ArgsTextNext(args: seq<int>, i: nat)
    requires i < |args|
    ensures ArgsText(args[..i + 1]) == ArgsText(args[..i]) + (" " + IntText(args[i]))
  {
    assert args[..i + 1][..i] == args[..i];
    AppendAssoc(ArgsText(args[..i]), " ", IntText(args[i]));
  }

  /** `writeInstruction(opcode, args...)`. */
  function InstructionText(o: Opcode, args: seq<int>): string {
    "\t" + Name(o) + ArgsText(args) + "\n"
  }

  /** The operands a form prints; a jump's target prints as one number. */
  function FormArgs(f: B.Form): seq<int> {
    match f
    case Form0(_) => []
    case Form1(_, x) => [x]
    case Form2(_, x, y) => [x, y]
    case FormJump(_, a) => [a]
    case Throws(_) => []
  }

  /** Each instruction prints the opcode and the operands the binary writer
      encodes for it; `byOperation` throws before anything is written. */
  function FormText(f: B.Form): Printed {
    if f.Throws? then Printed("", false) else Whole(InstructionText(f.o, FormArgs(f)))
  }

  function InstructionLine(ins: I.Instruction): Printed {
    FormText(B.FormOf(ins))
  }

  function InstructionsText(stream: seq<I.Instruction>): Printed {
    Joined(stream, InstructionLine)
  }

  // ---- functions and structs -----------------------------------------------------

  /** `key=value` entries, separated by ", ". */
  function EntriesText(es: seq<(string, int)>): string {
    if es == [] then ""
    else if |es| == 1 then es[0].0 + "=" + IntText(es[0].1)
    else EntriesText(es[..|es| - 1]) + ", " + es[|es| - 1].0 + "=" + IntText(es[|es| - 1].1)
  }

  /** `LinkedHashMap.toString()`: the entries in insertion order, in braces. */
  function ParamsText(es: seq<(string, int)>): string {
    "{" + EntriesText(es) + "}"
  }

  /** What `visitFunction` reads from a function: its parameters as the
      entries of the linked map, in insertion order. */
  datatype FunctionRecord = FunctionRecord(name: string, params: seq<(string, int)>,
                                           stackSize: int, locals: int, instructions: seq<I.Instruction>)

  function FunctionHead(f: FunctionRecord): string {
    "\n" + f.name + "  args=" + ParamsText(f.params) + " stack=" + IntText(f.stackSize) + " locals=" + IntText(f.locals) + "\n"
  }

  function FunctionText(f: FunctionRecord): Printed {
    Then(Whole(FunctionHead(f)), InstructionsText(f.instructions))
  }

  function FunctionsText(fs: seq<FunctionRecord>): Printed {
    Joined(fs, FunctionText)
  }

  /** A struct, its methods in the order of an iteration of its map. */
  datatype StructRecord = StructRecord(name: string, size: int, methods: seq<(string, int)>)

  function MethodLine(e: (string, int)): string {
    "\n\t" + e.0 + " " + IntText(e.1)
  }

  /** `visitStruct`: no line break after the last method. */
  function StructText(s: StructRecord): string {
    "\nstruct " + s.name + " size=" + IntText(s.size) + Concat(s.methods, MethodLine)
  }

  function StructsText(ss: seq<StructRecord>): string {
    Concat(ss, StructText)
  }

  /** `write(IRUnit)`: the header, the pool numbered from `start`, the
      functions and the structs. */
  function UnitText(entryPoint: int, start: int, pool: seq<P.PoolConstant>, floatText: int -> string,
                    fs: seq<FunctionRecord>, ss: seq<StructRecord>): Printed
  {
    Then(Whole(UnitHead(entryPoint, start, pool, floatText)), Then(FunctionsText(fs), Whole(StructsText(ss))))
  }

  function UnitHead(entryPoint: int, start: int, pool: seq<P.PoolConstant>, floatText: int -> string): string {
    HeaderText(entryPoint) + PoolText(start, pool, floatText)
  }

  /** The printout of a unit: the head, the functions up to the first that
      throws and, only when none throws, the structs. */
  lemma UnitLayout(entryPoint: int, start: int, pool: seq<P.PoolConstant>, floatText: int -> string,
                   fs: seq<FunctionRecord>, ss: seq<StructRecord>)
    ensures var u, f := UnitText(entryPoint, start, pool, floatText, fs, ss), FunctionsText(fs);
      u.complete == f.complete
      && u.text == UnitHead(entryPoint, start, pool, floatText) + f.text + (if f.complete then StructsText(ss) else "")
  {
    var f := FunctionsText(fs);
    if f.complete {
      AppendAssoc(UnitHead(entryPoint, start, pool, floatText), f.text, StructsText(ss));
    } else {
      assert f.text + "" == f.text;
    }
  }

  // ---- reading a line back ---------------------------------------------------------

  /** The position of the last blank, if any. */
  function LastBlank(s: string): (r: Option<nat>)
    ensures r.Some? ==> r.value < |s| && s[r.value] == ' '
    ensures r.None? ==> forall i :: 0 <= i < |s| ==> s[i] != ' '
  {
    if s == [] then None
    else if s[|s| - 1] == ' ' then Some(|s| - 1)
    else LastBlank(s[..|s| - 1])
  }

  /** The operands of a line: blank-separated decimal numbers. */
  function ParseArgs(s: string): Option<seq<int>>
    decreases |s|
  {
    if s == [] then Some([])
    else match LastBlank(s)
      case None => None
      case Some(k) =>
        match (ParseArgs(s[..k]), ParseInt(s[k + 1..]))
        case (Some(front), Some(v)) => Some(front + [v])
        case _ => None
  }

  /** The position of the first blank, or the length. */
  function FirstBlank(s: string): (r: nat)
    ensures r <= |s| && forall i :: 0 <= i < r ==> s[i] != ' '
    ensures r < |s| ==> s[r] == ' '
  {
    if s == [] || s[0] == ' ' then 0 else 1 + FirstBlank(s[1..])
  }

  /** The opcode name and the operands of an instruction line. */
  function ParseLine(line: string): Option<(string, seq<int>)> {
    if |line| < 2 || line[0] != '\t' || line[|line| - 1] != '\n' then None
    else
      var body := line[1..|line| - 1];
      var k := FirstBlank(body);
      match ParseArgs(body[k..])
      case Some(args) => Some((body[..k], args))
      case None => None
  }

  predicate NoBlank(w: string) {
    forall i :: 0 <= i < |w| ==> w[i] != ' '
  }

  lemma NoBlankInNumber(v: int)
    ensures NoBlank(IntText(v))
  {
    IntTextChars(v);
  }

  /** Reading the operands back after one more blank and a word. */
  lemma ParseArgsSnoc(a: string, w: string)
    requires NoBlank(w)
    ensures ParseArgs(a + " " + w) == match (ParseArgs(a), ParseInt(w))
                                      case (Some(front), Some(v)) => Some(front + [v])
                                      case _ => None
  {
    var s := a + " " + w;
    LastBlankAfter(a + " ", w);
    assert s[..|a|] == a;
    assert s[|a| + 1..] == w;
  }

  lemma {:induction false} ArgsRoundTrip(args: seq<int>)
    ensures ParseArgs(ArgsText(args)) == Some(args)
    decreases |args|
  {
    if args != [] {
      var front, v := args[..|args| - 1], args[|args| - 1];
      assert ArgsText(args) == ArgsText(front) + " " + IntText(v);
      ArgsRoundTrip(front);
      NumberAfter(ArgsText(front), front, v);
      SplitLast(args);
    }
  }

  /** One more operand on text that reads back as `front`. */
  lemma NumberAfter(a: string, front: seq<int>, v: int)
    requires ParseArgs(a) == Some(front)
    ensures ParseArgs(a + " " + IntText(v)) == Some(front + [v])
  {
    NoBlankInNumber(v);
    ParseArgsSnoc(a, IntText(v));
    IntTextRoundTrip(v);
  }

  lemma {:induction false} LastBlankAfter(a: string, w: string)
    requires |a| > 0 && a[|a| - 1] == ' ' && NoBlank(w)
    ensures LastBlank(a + w) == Some(|a| - 1)
    decreases |w|
  {
    if w == [] {
      assert a + w == a;
    } else {
      assert (a + w)[..|a + w| - 1] == a + w[..|w| - 1];
      LastBlankAfter(a, w[..|w| - 1]);
    }
  }

  lemma {:induction false} ArgsStartWithBlank(args: seq<int>)
    ensures args != [] ==> |ArgsText(args)| > 0 && ArgsText(args)[0] == ' '
    decreases |args|
  {
    if |args| > 1 {
      ArgsStartWithBlank(args[..|args| - 1]);
    }
  }

  lemma {:induction false} FirstBlankAfterWord(w: string, rest: string)
    requires NoBlank(w)
    requires rest == [] || rest[0] == ' '
    ensures FirstBlank(w + rest) == |w|
    decreases |w|
  {
    if w == [] {
      assert w + rest == rest;
    } else {
      assert (w + rest)[1..] == w[1..] + rest;
      FirstBlankAfterWord(w[1..], rest);
    }
  }

  /** An instruction line gives back the opcode's name and the operands. */
  lemma LineRoundTrip(o: Opcode, args: seq<int>)
    ensures ParseLine(InstructionText(o, args)) == Some((Name(o), args))
  {
    ArgsStartWithBlank(args);
    ArgsRoundTrip(args);
    WordLineRoundTrip(Name(o), ArgsText(args), args);
  }

  /** A tab, a word, operands that start with a blank, and a line break. */
  lemma WordLineRoundTrip(w: string, rest: string, args: seq<int>)
    requires IsWord(w) && (rest == [] || rest[0] == ' ') && ParseArgs(rest) == Some(args)
    ensures ParseLine("\t" + w + rest + "\n") == Some((w, args))
  {
    AppendAssoc("\t", w, rest);
    BodyOfLine(w + rest);
    FirstBlankAfterWord(w, rest);
    WordAndRest(w, rest);
  }

  lemma WordAndRest(w: string, rest: string)
    ensures (w + rest)[..|w|] == w && (w + rest)[|w|..] == rest
  {
  }

  /** A line between a tab and a line break is read as its body. */
  lemma BodyOfLine(body: string)
    ensures ParseLine("\t" + body + "\n") == match ParseArgs(body[FirstBlank(body)..])
                                             case Some(args) => Some((body[..FirstBlank(body)], args))
                                             case None => None
  {
    var line := "\t" + body + "\n";
    assert line[1..|line| - 1] == body;
  }

  /** The disassembly and the binary encoding of an instruction agree: both
      throw for the same instructions, and otherwise the line names the
      opcode whose number the writer emits, with the operands it encodes. */
  lemma LineMatchesEncoding(ins: I.Instruction)
    ensures InstructionLine(ins).complete == B.InstructionBytes(ins).complete
    ensures InstructionLine(ins).complete ==>
      var bytes := B.InstructionBytes(ins).bytes;
      |bytes| >= 2 && Of(bytes[1]).Some?
      && ParseLine(InstructionLine(ins).text) == Some((Name(Of(bytes[1]).value), FormArgs(B.FormOf(ins))))
  {
    FormMatchesEncoding(B.FormOf(ins));
  }

  lemma FormMatchesEncoding(f: B.Form)
    ensures FormText(f).complete == B.FormBytes(f).complete
    ensures FormText(f).complete ==>
      var bytes := B.FormBytes(f).bytes;
      |bytes| >= 2 && Of(bytes[1]).Some? && ParseLine(FormText(f).text) == Some((Name(Of(bytes[1]).value), FormArgs(f)))
  {
    if !f.Throws? {
      OfOrdinal(f.o);
      LineRoundTrip(f.o, FormArgs(f));
    }
  }

  /** A stream prints completely exactly when the binary writer can encode
      it. */
  lemma StreamMatchesEncoding(stream: seq<I.Instruction>)
    ensures InstructionsText(stream).complete <==> forall j :: 0 <= j < |stream| ==> B.InstructionBytes(stream[j]).complete
  {
    JoinedComplete(stream, InstructionLine);
    forall j | 0 <= j < |stream| ensures InstructionLine(stream[j]).complete == B.InstructionBytes(stream[j]).complete {
      LineMatchesEncoding(stream[j]);
    }
  }

  lemma SplitLast<T>(s: seq<T>)
    requires s != []
    ensures s == s[..|s| - 1] + [s[|s| - 1]]
  {
  }

  lemma TakeNext<T>(s: seq<T>, i: nat)
    requires i < |s|
    ensures s[..i + 1] == s[..i] + [s[i]]
  {
  }

  /** The linked map's entries, in insertion order. */
  ghost function ParamEntries(f: I.Function): (r: seq<(string, int)>)
    reads f
    requires f.Valid()
    ensures |r| == |f.paramOrder|
    ensures forall k :: 0 <= k < |r| ==> f.paramOrder[k] in f.parameters && r[k] == (f.paramOrder[k], f.parameters[f.paramOrder[k]])
  {
    var order, params := f.paramOrder, f.parameters;
    assert forall k :: 0 <= k < |order| ==> order[k] in params by {
      forall k | 0 <= k < |order| ensures order[k] in params {
        assert order[k] in order;
      }
    }
    seq(|order|, k requires 0 <= k < |order| && order[k] in params => (order[k], params[order[k]]))
  }

  /** What `visitFunction` reads from a function. */
  ghost function RecordOf(f: I.Function): FunctionRecord
    reads f
    requires f.Valid()
  {
    FunctionRecord(f.name, ParamEntries(f), f.stackSize, f.locals + 1, f.instructions)
  }

  /** The methods of `m`, paired up with their addresses, in the order `keys`. */
  ghost function MapEntries(m: map<string, int>, keys: seq<string>): (r: seq<(string, int)>)
    requires forall k :: 0 <= k < |keys| ==> keys[k] in m
    ensures |r| == |keys| && forall k :: 0 <= k < |r| ==> r[k] == (keys[k], m[keys[k]])
  {
    seq(|keys|, k requires 0 <= k < |keys| => (keys[k], m[keys[k]]))
  }

  /** The keys and the values of an iteration, paired up. */
  function Pairs(ks: seq<string>, vs: seq<int>): (r: seq<(string, int)>)
    requires |ks| == |vs|
    ensures |r| == |ks| && forall k :: 0 <= k < |r| ==> r[k] == (ks[k], vs[k])
  {
    seq(|ks|, k requires 0 <= k < |ks| => (ks[k], vs[k]))
  }

  ghost function StructOf(s: I.Struct, keys: seq<string>): StructRecord
    reads s
    requires forall k :: 0 <= k < |keys| ==> keys[k] in s.methods
  {
    StructRecord(s.name, |s.fields|, MapEntries(s.methods, keys))
  }

  /** The records of the functions `keys`, in that order. */
  ghost function Records(m: I.IRMediator, keys: seq<string>): (r: seq<FunctionRecord>)
    reads m, m.functions.Values
    requires forall k :: 0 <= k < |keys| ==> keys[k] in m.functions && m.functions[keys[k]].Valid()
    ensures |r| == |keys|
    ensures forall k :: 0 <= k < |keys| ==> r[k] == RecordOf(m.functions[keys[k]])
  {
    if keys == [] then [] else Records(m, keys[..|keys| - 1]) + [RecordOf(m.functions[keys[|keys| - 1]])]
  }

  /** `s` is what `visitStruct` read from the struct `key` of `m`, its
      methods in one iteration order of their map. */
  ghost predicate StructPrinted(m: I.IRMediator, key: string, s: StructRecord)
    reads m, m.structs.Values
  {
    key in m.structs
    && exists keys :: B.KeyOrder(m.structs[key].methods, keys) && s == StructOf(m.structs[key], keys)
  }

  class Disassembler {
    /** Everything written to the output stream so far, as text. */
    var out: string
    /** The address the next constant is printed with; it is never reset,
        so a second unit's pool continues the first one's numbering. */
    var nextPoolAddress: int
    /** `Float.toString` of a bit pattern. */
    const floatText: int -> string

    constructor (floatText: int -> string)
      ensures out == [] && nextPoolAddress == 0 && this.floatText == floatText
    {
      out := [];
      nextPoolAddress := 0;
      this.floatText := floatText;
    }

    method Write(s: string)
      modifies this`out
      ensures out == old(out) + s
    {
      out := out + s;
    }

    /** `write(IRUnit)`: the functions and the structs in an iteration
        order of their maps the model leaves open (`fkeys`, `skeys`). */
    method WriteUnit(m: I.IRMediator) returns (r: Result<()>, ghost fkeys: seq<string>, ghost fs: seq<FunctionRecord>,
                                               ghost skeys: seq<string>, ghost ss: seq<StructRecord>)
      requires m.pool != null && forall n :: n in m.functions ==> m.functions[n].Valid()
      modifies this`out, this`nextPoolAddress
      ensures B.KeyOrderOf(m.functions, fkeys) && fs == old(Records(m, fkeys))
      ensures B.KeyOrderOf(m.structs, skeys) && |ss| <= |skeys| && (r.Ok? ==> |ss| == |skeys|)
      ensures forall k :: 0 <= k < |ss| ==> old(StructPrinted(m, skeys[k], ss[k]))
      ensures nextPoolAddress == old(nextPoolAddress) + |m.pool.entries|
      ensures out == old(out) + UnitText(m.entryPoint, old(nextPoolAddress), m.pool.entries, floatText, fs, ss).text
      ensures r.Ok? <==> UnitText(m.entryPoint, old(nextPoolAddress), m.pool.entries, floatText, fs, ss).complete
    {
      var fks, functions := EnumerateMap(m.functions);
      var sks, structs := EnumerateMap(m.structs);
      fkeys, skeys := fks, sks;
      fs := old(Records(m, fks));
      assert forall k :: 0 <= k < |functions| ==> functions[k] == m.functions[fks[k]];
      assert forall k :: 0 <= k < |structs| ==> structs[k] == m.structs[sks[k]];
      ghost var order;
      r, ss, order := WriteParts(m.entryPoint, m.pool, functions, fs, structs);
      forall k | 0 <= k < |ss| ensures old(StructPrinted(m, skeys[k], ss[k])) {
        assert old(B.KeyOrder(m.structs[skeys[k]].methods, order[k]) && ss[k] == StructOf(m.structs[skeys[k]], order[k]));
      }
    }

    /** The body of `write(IRUnit)` once both maps are enumerated. */
    method WriteParts(entryPoint: int, pool: P.Pool, functions: seq<I.Function>, ghost fs: seq<FunctionRecord>,
                      structs: seq<I.Struct>) returns (r: Result<()>, ghost ss: seq<StructRecord>, ghost order: seq<seq<string>>)
      requires |functions| == |fs|
      requires forall k :: 0 <= k < |functions| ==> functions[k].Valid() && RecordOf(functions[k]) == fs[k]
      modifies this`out, this`nextPoolAddress
      ensures |ss| == |order| <= |structs| && (r.Ok? ==> |ss| == |structs|)
      ensures forall k :: 0 <= k < |ss| ==> old(B.KeyOrder(structs[k].methods, order[k]) && ss[k] == StructOf(structs[k], order[k]))
      ensures nextPoolAddress == old(nextPoolAddress) + |pool.entries|
      ensures out == old(out) + UnitText(entryPoint, old(nextPoolAddress), pool.entries, floatText, fs, ss).text
      ensures r.Ok? <==> UnitText(entryPoint, old(nextPoolAddress), pool.entries, floatText, fs, ss).complete
    {
      ss, order := [], [];
      ghost var head := UnitHead(entryPoint, nextPoolAddress, pool.entries, floatText);
      WriteHead(entryPoint, pool);
      r := VisitFunctions(functions, fs);
      ghost var funcs := FunctionsText(fs);
      AppendAssoc(old(out), head, funcs.text);
      if r.Fail? {
        UnitLayout(entryPoint, old(nextPoolAddress), pool.entries, floatText, fs, ss);
        return;
      }
      ss, order := VisitStructs(structs);
      UnitLayout(entryPoint, old(nextPoolAddress), pool.entries, floatText, fs, ss);
      AppendAssoc(old(out), head + funcs.text, StructsText(ss));
    }

    /** The header and the pool. */
    method WriteHead(entryPoint: int, pool: P.Pool)
      modifies this`out, this`nextPoolAddress
      ensures nextPoolAddress == old(nextPoolAddress) + |pool.entries|
      ensures out == old(out) + UnitHead(entryPoint, old(nextPoolAddress), pool.entries, floatText)
    {
      WriteHeader(entryPoint);
      VisitPool(pool);
      AppendAssoc(old(out), HeaderText(entryPoint), PoolText(old(nextPoolAddress), pool.entries, floatText));
    }

    /** The magic number, the two versions and the entry point. */
    method WriteHeader(entryPoint: int)
      modifies this`out
      ensures out == old(out) + HeaderText(entryPoint)
    {
      Write(MagicLine);
      Write("major: " + IntText(1) + "\n");
      AppendAssoc(old(out), MagicLine, VersionLine());
      Write("major: " + IntText(1) + "\n");
      AppendAssoc(old(out), MagicLine + VersionLine(), VersionLine());
      Write("entry point: " + IntText(entryPoint) + "\n");
      AppendAssoc(old(out), MagicLine + VersionLine() + VersionLine(), EntryLine(entryPoint));
    }

    /** `visitPool`: one numbered line per constant, in pool order. */
    method VisitPool(pool: P.Pool)
      modifies this`out, this`nextPoolAddress
      ensures out == old(out) + PoolText(old(nextPoolAddress), pool.entries, floatText)
      ensures nextPoolAddress == old(nextPoolAddress) + |pool.entries|
    {
      var es := pool.entries;
      ghost var first := nextPoolAddress;
      Write("\nconstant-pool:\n");
      ghost var start := out;
      ghost var done: seq<P.PoolConstant> := [];
      var i := 0;
      while i < |es|
        invariant 0 <= i <= |es| && done == es[..i]
        invariant nextPoolAddress == first + |done|
        invariant out == start + ConstantLines(first, done, floatText)
      {
        ghost var before := ConstantLines(first, done, floatText);
        WriteConstant(es[i]);
        ConstantLinesNext(first, done, es[i], floatText);
        AppendAssoc(start, before, ConstantLine(first + |done|, es[i], floatText));
        TakeNext(es, i);
        done := done + [es[i]];
        i := i + 1;
      }
      assert done == es;
      AppendAssoc(old(out), "\nconstant-pool:\n", ConstantLines(first, es, floatText));
    }

    /** `writeConstant`: the line carries the next address, which moves on. */
    method WriteConstant(c: P.PoolConstant)
      modifies this`out, this`nextPoolAddress
      ensures out == old(out) + ConstantLine(old(nextPoolAddress), c, floatText)
      ensures nextPoolAddress == old(nextPoolAddress) + 1
    {
      var address := nextPoolAddress;
      nextPoolAddress := nextPoolAddress + 1;
      Write(IntText(address) + "\t" + TagName(P.Tag(c)) + " " + ValueText(P.Get(c), floatText) + "\n");
    }

    /** The function loop of `write(IRUnit)`: it stops after the first
        function that throws. */
    method VisitFunctions(values: seq<I.Function>, ghost fs: seq<FunctionRecord>) returns (r: Result<()>)
      requires |values| == |fs|
      requires forall k :: 0 <= k < |values| ==> values[k].Valid() && RecordOf(values[k]) == fs[k]
      modifies this`out
      ensures out == old(out) + FunctionsText(fs).text
      ensures r.Ok? <==> FunctionsText(fs).complete
    {
      r := Ok(());
      var i := 0;
      while i < |values|
        invariant 0 <= i <= |values|
        invariant r.Ok? && FunctionsText(fs[..i]).complete
        invariant out == old(out) + FunctionsText(fs[..i]).text
      {
        ghost var before := FunctionsText(fs[..i]).text;
        r := VisitFunction(values[i]);
        assert fs[..i + 1][..i] == fs[..i];
        AppendAssoc(old(out), before, FunctionText(fs[i]).text);
        if r.Fail? {
          JoinedPrefixStops(fs, i + 1, FunctionText);
          return;
        }
        i := i + 1;
      }
      assert fs[..i] == fs;
    }

    /** `visitFunction`: the head line, then the stream. */
    method VisitFunction(f: I.Function) returns (r: Result<()>)
      requires f.Valid()
      modifies this`out
      ensures out == old(out) + FunctionText(RecordOf(f)).text
      ensures r.Ok? <==> FunctionText(RecordOf(f)).complete
    {
      var params := ParamsOf(f);
      ghost var head := FunctionHead(RecordOf(f));
      Write("\n" + f.name + "  args=" + ParamsText(params) + " stack=" + IntText(f.stackSize) + " locals=" + IntText(f.Locals()) + "\n");
      r := VisitInstructions(f.instructions);
      AppendAssoc(old(out), head, InstructionsText(f.instructions).text);
    }

    /** The parameter map's entries, iterated in insertion order. */
    static method ParamsOf(f: I.Function) returns (es: seq<(string, int)>)
      requires f.Valid()
      ensures es == ParamEntries(f)
    {
      es := [];
      var i := 0;
      while i < |f.paramOrder|
        invariant 0 <= i <= |f.paramOrder|
        invariant es == ParamEntries(f)[..i]
      {
        assert f.paramOrder[i] in f.paramOrder;
        es := es + [(f.paramOrder[i], f.parameters[f.paramOrder[i]])];
        i := i + 1;
      }
    }

    method VisitInstructions(stream: seq<I.Instruction>) returns (r: Result<()>)
      modifies this`out
      ensures out == old(out) + InstructionsText(stream).text
      ensures r.Ok? <==> InstructionsText(stream).complete
    {
      r := Ok(());
      var i := 0;
      while i < |stream|
        invariant 0 <= i <= |stream|
        invariant r.Ok? && InstructionsText(stream[..i]).complete
        invariant out == old(out) + InstructionsText(stream[..i]).text
      {
        ghost var before := InstructionsText(stream[..i]).text;
        r := VisitInstruction(stream[i]);
        assert stream[..i + 1][..i] == stream[..i];
        AppendAssoc(old(out), before, InstructionLine(stream[i]).text);
        if r.Fail? {
          JoinedPrefixStops(stream, i + 1, InstructionLine);
          return;
        }
        i := i + 1;
      }
      assert stream[..i] == stream;
    }

    /** The instruction visitor. */
    method VisitInstruction(ins: I.Instruction) returns (r: Result<()>)
      modifies this`out
      ensures out == old(out) + InstructionLine(ins).text
      ensures r.Ok? <==> InstructionLine(ins).complete
    {
      var f := B.FormOf(ins);
      if f.Throws? {
        return Fail(f.f);
      }
      WriteInstruction(f.o, FormArgs(f));
      r := Ok(());
    }

    /** `writeInstruction`: the line is built in full, then written. */
    method WriteInstruction(o: Opcode, args: seq<int>)
      modifies this`out
      ensures out == old(out) + InstructionText(o, args)
    {
      var head := "\t" + Name(o);
      var sb := head;
      var i := 0;
      while i < |args|
        invariant 0 <= i <= |args|
        invariant sb == head + ArgsText(args[..i]) && out == old(out)
      {
        ArgsTextNext(args, i);
        AppendAssoc(head, ArgsText(args[..i]), " " + IntText(args[i]));
        sb := sb + (" " + IntText(args[i]));
        i := i + 1;
      }
      assert args[..i] == args;
      Write(sb + "\n");
    }

    /** The struct loop of `write(IRUnit)`; `order` holds the iteration
        order of each struct's methods. */
    method VisitStructs(structs: seq<I.Struct>) returns (ghost ss: seq<StructRecord>, ghost order: seq<seq<string>>)
      modifies this`out
      ensures |ss| == |order| == |structs|
      ensures forall k :: 0 <= k < |ss| ==> old(B.KeyOrder(structs[k].methods, order[k]) && ss[k] == StructOf(structs[k], order[k]))
      ensures out == old(out) + StructsText(ss)
    {
      ss, order := [], [];
      var i := 0;
      while i < |structs|
        invariant 0 <= i <= |structs| && |ss| == |order| == i
        invariant forall k :: 0 <= k < i ==> old(B.KeyOrder(structs[k].methods, order[k]) && ss[k] == StructOf(structs[k], order[k]))
        invariant out == old(out) + StructsText(ss)
      {
        ghost var before := StructsText(ss);
        var keys := VisitStruct(structs[i]);
        ghost var rec := StructOf(structs[i], keys);
        ConcatNext(ss, rec, StructText);
        AppendAssoc(old(out), before, StructText(rec));
        ghost var ss0, order0 := ss, order;
        ss, order := ss + [rec], order + [keys];
        forall k | 0 <= k < i + 1
          ensures old(B.KeyOrder(structs[k].methods, order[k]) && ss[k] == StructOf(structs[k], order[k]))
        {
          if k < i {
            assert ss[k] == ss0[k] && order[k] == order0[k];
          }
        }
        i := i + 1;
      }
    }

    /** The loop of `visitStruct`: each method appended to the builder. */
    static method AppendMethods(head: string, ks: seq<string>, vs: seq<int>) returns (sb: string)
      requires |ks| == |vs|
      ensures sb == head + Concat(Pairs(ks, vs), MethodLine)
    {
      ghost var es := Pairs(ks, vs);
      ghost var done: seq<(string, int)> := [];
      sb := head;
      var i := 0;
      while i < |ks|
        invariant 0 <= i <= |ks| && done == es[..i]
        invariant sb == head + Concat(done, MethodLine)
      {
        ghost var line := MethodLine(es[i]);
        ConcatNext(done, es[i], MethodLine);
        AppendAssoc(head, Concat(done, MethodLine), line);
        sb := sb + ("\n\t" + ks[i] + " " + IntText(vs[i]));
        TakeNext(es, i);
        done := done + [es[i]];
        i := i + 1;
      }
      assert done == es;
    }

    /** `visitStruct`: the text is built in full, then written once; the
        method map is iterated in an order the model leaves open, returned
        as `keys`. */
    method VisitStruct(s: I.Struct) returns (ghost keys: seq<string>)
      modifies this`out
      ensures B.KeyOrder(s.methods, keys)
      ensures out == old(out) + StructText(StructOf(s, keys))
    {
      var ks, vs := EnumerateMap(s.methods);
      keys := ks;
      var head := "\nstruct " + s.name + " size=" + IntText(s.Size());
      var sb := AppendMethods(head, ks, vs);
      assert Pairs(ks, vs) == MapEntries(s.methods, ks);
      Write(sb);
    }
  }
}
