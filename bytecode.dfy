/** `computil.generation.targets.rbt.RabbitBytecodeV1`: the binary writer.
    The output stream is a sequence of bytes the writer appends to; each
    `visit*` method is proved against a function that spells out the bytes
    it appends. The writer can throw half-way (an `IDIV` operation has no
    opcode), so an encoding is the bytes written so far together with
    whether the write ran to its end. */
module Bytecode {
  import opened Wrappers
  import Int32
  import opened Opcodes
  import Operations
  import P = Pools
  import I = IR
  import opened HashMaps

  type Byte = b: int | 0 <= b < 256

  /** `OutputStream.write(int b)`: only the low eight bits of `b` are kept. */
  function Low(x: int): Byte {
    x % 256
  }

  /** `writeInt`: the four bytes of the 32-bit two's-complement form of `v`,
      most significant first (`v >>> 24`, `v >>> 16`, `v >>> 8`, `v`). */
  function IntBytes(v: int): (r: seq<Byte>)
    ensures |r| == 4
  {
    var u := v % Int32.Two32;
    var q1 := u / 256;
    var q2 := q1 / 256;
    var q3 := q2 / 256;
    [q3 % 256, q2 % 256, q1 % 256, u % 256]
  }

  /** Reading four bytes back as a big-endian Java `int`. */
  function ReadInt(b: seq<Byte>): int
    requires |b| == 4
  {
    Int32.Wrap(((b[0] as int * 256 + b[1]) * 256 + b[2]) * 256 + b[3])
  }

  /** `writeInt` is big-endian and loses nothing of a Java `int`. */
  lemma ReadIntBytes(v: int)
    ensures ReadInt(IntBytes(v)) == Int32.Wrap(v)
    ensures Int32.IsInt(v) ==> ReadInt(IntBytes(v)) == v
  {
    var u := v % Int32.Two32;
    var q1 := u / 256;
    var q2 := q1 / 256;
    var q3 := q2 / 256;
    assert q3 < 256;
    assert u == q1 * 256 + u % 256 && q1 == q2 * 256 + q1 % 256 && q2 == q3 * 256 + q2 % 256;
    assert ((q3 * 256 + q2 % 256) * 256 + q1 % 256) * 256 + u % 256 == u;
    var b := IntBytes(v);
    assert b[0] as int == q3 % 256 && b[1] as int == q2 % 256 && b[2] as int == q1 % 256 && b[3] as int == u % 256;
    assert ((b[0] as int * 256 + b[1]) * 256 + b[2]) * 256 + b[3] == u;
    assert (u - v) % Int32.Two32 == 0 by {
      assert v == (v / Int32.Two32) * Int32.Two32 + u;
    }
    WrapCongruent(u, v);
  }

  lemma WrapCongruent(a: int, b: int)
    requires (a - b) % Int32.Two32 == 0
    ensures Int32.Wrap(a) == Int32.Wrap(b)
  {
    var ra, rb := Int32.Wrap(a), Int32.Wrap(b);
    assert (ra - rb) % Int32.Two32 == 0 by {
      var k1 := (ra - a) / Int32.Two32;
      var k2 := (rb - b) / Int32.Two32;
      var k3 := (a - b) / Int32.Two32;
      assert ra - a == k1 * Int32.Two32 && rb - b == k2 * Int32.Two32 && a - b == k3 * Int32.Two32;
      assert ra - rb == (k1 - k2 + k3) * Int32.Two32;
    }
  }

  /** `int2twoBytes(a)`: `(a >> 8) & 0xFF`, then `a & 0xFF`. */
  function TwoBytes(a: int): (r: seq<Byte>)
    ensures |r| == 2
  {
    [(a / 256) % 256, a % 256]
  }

  /** A jump target or a line number below 2^16 survives the two bytes; any
      other value keeps only its low sixteen bits. */
  lemma TwoBytesRoundTrip(a: int)
    ensures TwoBytes(a)[0] as int * 256 + TwoBytes(a)[1] == a % 65536
    ensures 0 <= a < 65536 ==> TwoBytes(a)[0] as int * 256 + TwoBytes(a)[1] == a
  {
    var q := a / 256;
    assert a == q * 256 + a % 256;
    assert q == (q / 256) * 256 + q % 256;
    assert a == (q / 256) * 65536 + (q % 256) * 256 + a % 256;
    ModUnique(a, q / 256, (q % 256) * 256 + a % 256);
  }

  lemma ModUnique(a: int, k: int, r: int)
    requires 0 <= r < 65536 && a == k * 65536 + r
    ensures a % 65536 == r
  {
  }

  // ---- strings ------------------------------------------------------------

  /** The UTF-8 form of one Unicode scalar value (section 3 of RFC 3629). */
  function Utf8Char(c: char): (r: seq<Byte>)
    ensures 1 <= |r| <= 4
  {
    var cp := c as int;
    if cp < 0x80 then [cp]
    else if cp < 0x800 then [0xC0 + cp / 0x40, 0x80 + cp % 0x40]
    else if cp < 0x1_0000 then [0xE0 + cp / 0x1000, 0x80 + (cp / 0x40) % 0x40, 0x80 + cp % 0x40]
    else [0xF0 + cp / 0x4_0000, 0x80 + (cp / 0x1000) % 0x40, 0x80 + (cp / 0x40) % 0x40, 0x80 + cp % 0x40]
  }

  /** `s.getBytes(StandardCharsets.UTF_8)`. */
  function Utf8(s: string): seq<Byte> {
    if s == [] then [] else Utf8(s[..|s| - 1]) + Utf8Char(s[|s| - 1])
  }

  /** `s.length()`: the number of UTF-16 code units, two for a character
      outside the Basic Multilingual Plane. */
  function Utf16Length(s: string): nat {
    if s == [] then 0 else Utf16Length(s[..|s| - 1]) + (if s[|s| - 1] as int >= 0x1_0000 then 2 else 1)
  }

  predicate IsAscii(s: string) {
    forall k :: 0 <= k < |s| ==> s[k] as int < 0x80
  }

  /** `writeString`: the length `s.length()` as an `int`, then the UTF-8
      bytes. */
  function StringBytes(s: string): seq<Byte> {
    IntBytes(Utf16Length(s)) + Utf8(s)
  }

  /** The length prefix of a string counts UTF-16 units, not bytes: it equals
      the number of bytes that follow exactly when the string is ASCII, and
      smaller otherwise. */
  lemma {:induction false} StringLengthPrefix(s: string)
    ensures Utf16Length(s) <= |Utf8(s)|
    ensures Utf16Length(s) == |Utf8(s)| <==> IsAscii(s)
  {
    if s != [] {
      var init := s[..|s| - 1];
      StringLengthPrefix(init);
      if !IsAscii(init) {
        var k :| 0 <= k < |init| && init[k] as int >= 0x80;
        assert s[k] == init[k];
      }
      if IsAscii(init) && s[|s| - 1] as int < 0x80 {
        forall k | 0 <= k < |s| ensures s[k] as int < 0x80 {
          if k < |init| {
            assert s[k] == init[k];
          }
        }
      }
    }
  }

  /** For example `"é"` is announced as one unit but takes two bytes. */
  lemma NonAsciiLengthExample()
    ensures Utf16Length("é") == 1 && |Utf8("é")| == 2
  {
    assert "é"[..0] == [];
  }

  predicate IsContinuation(b: Byte) {
    0x80 <= b < 0xC0
  }

  predicate IsScalar(cp: int) {
    (0 <= cp < 0xD800) || (0xE000 <= cp < 0x11_0000)
  }

  /** Decoding the character at the front of `bs`: the character and the
      number of bytes it took. */
  function DecodeChar(bs: seq<Byte>): Option<(char, nat)>
    requires |bs| > 0
  {
    var b0 := bs[0];
    if b0 < 0x80 then Some((b0 as char, 1))
    else if 0xC0 <= b0 < 0xE0 && |bs| >= 2 && IsContinuation(bs[1]) then
      var cp := (b0 as int - 0xC0) * 0x40 + (bs[1] as int - 0x80);
      if IsScalar(cp) then Some((cp as char, 2)) else None
    else if 0xE0 <= b0 < 0xF0 && |bs| >= 3 && IsContinuation(bs[1]) && IsContinuation(bs[2]) then
      var cp := (b0 as int - 0xE0) * 0x1000 + (bs[1] as int - 0x80) * 0x40 + (bs[2] as int - 0x80);
      if IsScalar(cp) then Some((cp as char, 3)) else None
    else if 0xF0 <= b0 < 0xF8 && |bs| >= 4 && IsContinuation(bs[1]) && IsContinuation(bs[2]) && IsContinuation(bs[3]) then
      var cp := (b0 as int - 0xF0) * 0x4_0000 + (bs[1] as int - 0x80) * 0x1000 + (bs[2] as int - 0x80) * 0x40 + (bs[3] as int - 0x80);
      if IsScalar(cp) then Some((cp as char, 4)) else None
    else None
  }

  /** A UTF-8 decoder, the inverse the format's reader needs. */
  function DecodeUtf8(bs: seq<Byte>): Option<string>
    decreases |bs|
  {
    if bs == [] then Some([])
    else match DecodeChar(bs)
      case None => None
      case Some((c, n)) =>
        if n > |bs| then None
        else match DecodeUtf8(bs[n..])
          case None => None
          case Some(s) => Some([c] + s)
  }

  /** Each character's encoding decodes back to it, whatever follows. */
  lemma DecodeCharOf(c: char, rest: seq<Byte>)
    ensures DecodeChar(Utf8Char(c) + rest) == Some((c, |Utf8Char(c)|))
  {
    var cp := c as int;
    if cp < 0x80 {
    } else if cp < 0x800 {
      DecodeTwo(c, rest);
    } else if cp < 0x1_0000 {
      DecodeThree(c, rest);
    } else {
      DecodeFour(c, rest);
    }
  }

  lemma DecodeTwo(c: char, rest: seq<Byte>)
    requires 0x80 <= c as int < 0x800
    ensures DecodeChar(Utf8Char(c) + rest) == Some((c, 2))
  {
    var cp := c as int;
    var bs := Utf8Char(c) + rest;
    assert bs[0] == 0xC0 + cp / 0x40 && bs[1] == 0x80 + cp % 0x40;
    assert (cp / 0x40) * 0x40 + cp % 0x40 == cp;
  }

  lemma DecodeThree(c: char, rest: seq<Byte>)
    requires 0x800 <= c as int < 0x1_0000
    ensures DecodeChar(Utf8Char(c) + rest) == Some((c, 3))
  {
    var cp := c as int;
    var bs := Utf8Char(c) + rest;
    var q := cp / 0x40;
    assert bs[0] == 0xE0 + cp / 0x1000 && bs[1] == 0x80 + q % 0x40 && bs[2] == 0x80 + cp % 0x40;
    assert cp == q * 0x40 + cp % 0x40;
    assert cp / 0x1000 == q / 0x40;
    assert q == (q / 0x40) * 0x40 + q % 0x40;
  }

  lemma DecodeFour(c: char, rest: seq<Byte>)
    requires 0x1_0000 <= c as int
    ensures DecodeChar(Utf8Char(c) + rest) == Some((c, 4))
  {
    var cp := c as int;
    var bs := Utf8Char(c) + rest;
    var q := cp / 0x40;
    var q2 := q / 0x40;
    assert cp / 0x1000 == q2;
    assert cp / 0x4_0000 == q2 / 0x40;
    assert bs[0] == 0xF0 + q2 / 0x40 && bs[1] == 0x80 + q2 % 0x40 && bs[2] == 0x80 + q % 0x40 && bs[3] == 0x80 + cp % 0x40;
    assert cp == q * 0x40 + cp % 0x40;
    assert q == q2 * 0x40 + q % 0x40;
    assert q2 == (q2 / 0x40) * 0x40 + q2 % 0x40;
  }

  /** Decoding what `getBytes` produced gives back the string. */
  lemma {:induction false} DecodeUtf8RoundTrip(s: string)
    ensures DecodeUtf8(Utf8(s)) == Some(s)
    decreases |s|
  {
    if s != [] {
      var tail := s[1..];
      Utf8Front(s);
      DecodeCharOf(s[0], Utf8(tail));
      var bs := Utf8Char(s[0]) + Utf8(tail);
      assert bs[|Utf8Char(s[0])|..] == Utf8(tail);
      DecodeUtf8RoundTrip(tail);
      assert [s[0]] + tail == s;
    }
  }

  /** `Utf8` is defined from the back; it splits at the front as well. */
  lemma {:induction false} Utf8Front(s: string)
    requires s != []
    ensures Utf8(s) == Utf8Char(s[0]) + Utf8(s[1..])
    decreases |s|
  {
    if |s| > 1 {
      var init := s[..|s| - 1];
      Utf8Front(init);
      assert init[1..] == s[1..][..|s[1..]| - 1];
      assert init[0] == s[0];
    } else {
      assert s[..0] == [] && s[1..] == [];
    }
  }

  // ---- what a write produces ---------------------------------------------

  /** The bytes written and whether the write ran to its end. */
  datatype Written = Written(bytes: seq<Byte>, complete: bool)

  function Done(bs: seq<Byte>): Written {
    Written(bs, true)
  }

  /** One write after the other: the second happens only if the first did
      not throw. */
  function Then(a: Written, b: Written): Written {
    if a.complete then Written(a.bytes + b.bytes, b.complete) else a
  }

  // ---- opcodes ------------------------------------------------------------

  /** `numericOpcode`: the `int` variant for the type name `"int"`, the
      `float` one otherwise. */
  function NumericOpcode(ty: string, op: Operations.Operation): Result<Opcode> {
    if ty == "int" then
      match op
      case ADD => Ok(ADD_I)
      case SUB => Ok(SUB_I)
      case MUL => Ok(MUL_I)
      case _ => Fail(Thrown("AssertionError"))
    else
      match op
      case ADD => Ok(ADD_F)
      case SUB => Ok(SUB_F)
      case MUL => Ok(MUL_F)
      case _ => Fail(Thrown("AssertionError"))
  }

  /** `byOperation`: one opcode per operator, the arithmetic ones split by
      type; `IDIV` has none and throws. */
  function ByOperation(ty: string, op: Operations.Operation): Result<Opcode> {
    match op
    case ADD => NumericOpcode(ty, op)
    case SUB => NumericOpcode(ty, op)
    case MUL => NumericOpcode(ty, op)
    case MOD => Ok(Opcode.MOD)
    case AND => Ok(Opcode.AND)
    case OR => Ok(Opcode.OR)
    case AND_BIT => Ok(Opcode.AND_BIT)
    case OR_BIT => Ok(Opcode.OR_BIT)
    case XOR => Ok(Opcode.XOR)
    case SHIFT_AL => Ok(Opcode.SHIFT_AL)
    case SHIFT_AR => Ok(Opcode.SHIFT_AR)
    case EQUALS => Ok(Opcode.EQUALS)
    case NOT_EQUALS => Ok(Opcode.NOT_EQUALS)
    case LESS => Ok(Opcode.LESS)
    case GREATER => Ok(Opcode.GREATER)
    case LESS_EQ => Ok(Opcode.LESS_EQ)
    case GREATER_EQ => Ok(Opcode.GREATER_EQ)
    case DIV => Ok(Opcode.DIV)
    case IDIV => Fail(Thrown("UnsupportedOperationException"))
  }

  /** Only `IDIV` throws; addition, subtraction and multiplication pick the
      `int` opcode exactly for the type `"int"`; every other operator has one
      opcode whatever the type. */
  lemma ByOperationSpec(ty: string, ty': string, op: Operations.Operation)
    ensures ByOperation(ty, op).Fail? <==> op == Operations.IDIV
    ensures op == Operations.ADD ==> ByOperation(ty, op) == Ok(if ty == "int" then ADD_I else ADD_F)
    ensures op == Operations.SUB ==> ByOperation(ty, op) == Ok(if ty == "int" then SUB_I else SUB_F)
    ensures op == Operations.MUL ==> ByOperation(ty, op) == Ok(if ty == "int" then MUL_I else MUL_F)
    ensures op != Operations.ADD && op != Operations.SUB && op != Operations.MUL ==> ByOperation(ty, op) == ByOperation(ty', op)
  {
  }

  /** For a fixed type, different operators get different opcodes. */
  lemma ByOperationInjective(ty: string, a: Operations.Operation, b: Operations.Operation)
    requires ByOperation(ty, a).Ok? && ByOperation(ty, a) == ByOperation(ty, b)
    ensures a == b
  {
  }

  // ---- instructions -------------------------------------------------------

  /** An instruction without operand: length byte 1, then the opcode. */
  function Op0(o: Opcode): seq<Byte> {
    [1, Ordinal(o)]
  }

  function Op1(o: Opcode, x: int): seq<Byte> {
    [2, Ordinal(o), Low(x)]
  }

  function Op2(o: Opcode, x: int, y: int): seq<Byte> {
    [3, Ordinal(o), Low(x), Low(y)]
  }

  function OpJump(o: Opcode, a: int): seq<Byte> {
    [3, Ordinal(o)] + TwoBytes(a)
  }

  /** How an instruction is written: the opcode and its operands, or the
      failure the opcode lookup throws. */
  datatype Form =
    | Form0(o: Opcode)
    | Form1(o: Opcode, x: int)
    | Form2(o: Opcode, x: int, y: int)
    | FormJump(o: Opcode, a: int)
    | Throws(f: Failure)

  /** The `visit*` method of each instruction: which opcode it writes and
      which of its fields follow. */
  function FormOf(ins: I.Instruction): Form {
    match ins
    case PushNull => Form0(PUSH_NULL)
    case PushInt(v) => Form1(PUSH_INT, v)
    case PushBool(b) => Form1(PUSH_INT, if b then 1 else 0)
    case LoadConst(a) => Form1(LOAD_CONST, a)
    case LoadLocal(a) => Form1(LOAD_LOCAl, a)
    case StoreLocal(a) => Form1(STORE_LOCAL, a)
    case NullCheck => Form0(NULL_CHECK)
    case CheckCast(a) => Form1(CHECK_CAST, a)
    case Int2Float => Form0(I2F)
    case Float2Int => Form0(F2I)
    case MakeArray(n) => Form1(MAKE_ARRAY, n)
    case ReadArray(a) => Form1(READ_ARRAY, a)
    case WriteArray(a) => Form1(WRITE_ARRAY, a)
    case NewInstance(a) => Form1(NEW, a)
    case Free => Form0(FREE)
    case GetField(a) => Form1(GET_FIELD, a)
    case PutField(a) => Form1(PUT_FIELD, a)
    case InvokeVirtual(a, n) => Form2(INVOKE_VIRTUAL, a, n)
    case InvokeTemplate(a, n) => Form2(INVOKE_TEMPLATE, a, n)
    case InvokeNative(a, n) => Form2(INVOKE_NATIVE, a, n)
    case Return => Form0(RETURN)
    case Dup => Form0(DUP)
    case Swap => Form0(SWAP)
    case Pop => Form0(POP)
    case Not => Form0(NOT)
    case Negate => Form0(NEG)
    case BinaryOperation(op, ty) =>
      (match ByOperation(ty, op)
       case Ok(o) => Form0(o)
       case Fail(f) => Throws(f))
    case Goto(a) => FormJump(GOTO, a)
    case BranchIfFalse(a) => FormJump(BRANCH_ZERO, a)
    case BranchIfTrue(a) => FormJump(BRANCH_NOT_ZERO, a)
    case NewLineNumber(l) => FormJump(NEW_LINE, l)
  }

  /** The bytes of each form; a throwing binary operation has already
      written its length byte. */
  function FormBytes(f: Form): Written {
    match f
    case Form0(o) => Done(Op0(o))
    case Form1(o, x) => Done(Op1(o, x))
    case Form2(o, x, y) => Done(Op2(o, x, y))
    case FormJump(o, a) => Done(OpJump(o, a))
    case Throws(_) => Written([1], false)
  }

  function InstructionBytes(ins: I.Instruction): Written {
    FormBytes(FormOf(ins))
  }

  /** The number of operand bytes each instruction carries. */
  function OperandCount(ins: I.Instruction): nat {
    if ins.PushNull? || ins.NullCheck? || ins.Int2Float? || ins.Float2Int? || ins.Free? || ins.Return?
      || ins.Dup? || ins.Swap? || ins.Pop? || ins.Not? || ins.Negate? || ins.BinaryOperation? then 0
    else if ins.InvokeVirtual? || ins.InvokeTemplate? || ins.InvokeNative? || I.IsJump(ins) || ins.NewLineNumber? then 2
    else 1
  }

  lemma FormCount(ins: I.Instruction)
    ensures OperandCount(ins) == match FormOf(ins)
      case Form0(_) => 0
      case Form1(_, _) => 1
      case Form2(_, _, _) => 2
      case FormJump(_, _) => 2
      case Throws(_) => 0
    ensures FormOf(ins).Throws? <==> ins.BinaryOperation? && ins.op == Operations.IDIV
  {
  }

  /** Every written instruction starts with its length, which counts the
      opcode and the operands, and the opcode byte reads back through
      `Opcode.of`; only a `//` operation throws, after its length byte. */
  lemma InstructionFrame(ins: I.Instruction)
    ensures var w := InstructionBytes(ins);
      w.complete ==> (|w.bytes| == 2 + OperandCount(ins) && w.bytes[0] as int == 1 + OperandCount(ins)
        && Of(w.bytes[1]).Some?)
    ensures !InstructionBytes(ins).complete <==> ins.BinaryOperation? && ins.op == Operations.IDIV
  {
    FormCount(ins);
    var f := FormOf(ins);
    if !f.Throws? {
      OfOrdinal(f.o);
    }
  }

  /** `PushBool` is written as the `PUSH_INT` of 1 or 0. */
  lemma PushBoolIsPushInt(b: bool)
    ensures InstructionBytes(I.PushBool(b)) == InstructionBytes(I.PushInt(if b then 1 else 0))
  {
  }

  /** The three jumps and the line marker carry a two-byte operand. */
  lemma JumpOperand(ins: I.Instruction)
    requires I.IsJump(ins)
    ensures InstructionBytes(ins).bytes[2..] == TwoBytes(ins.address)
  {
  }

  /** `for (Instruction instruction : function)`, in stream order. */
  function InstructionsBytes(stream: seq<I.Instruction>): Written {
    if stream == [] then Done([]) else Then(InstructionsBytes(stream[..|stream| - 1]), InstructionBytes(stream[|stream| - 1]))
  }

  /** Splitting a byte stream by its length bytes. */
  function Frames(bs: seq<Byte>): Option<seq<seq<Byte>>>
    decreases |bs|
  {
    if bs == [] then Some([])
    else if |bs| < bs[0] as int + 1 then None
    else match Frames(bs[bs[0] as int + 1..])
      case None => None
      case Some(fs) => Some([bs[..bs[0] as int + 1]] + fs)
  }

  predicate IsFrame(f: seq<Byte>) {
    |f| > 0 && f[0] as int + 1 == |f|
  }

  lemma {:induction false} FramesSnoc(x: seq<Byte>, fs: seq<seq<Byte>>, f: seq<Byte>)
    requires Frames(x) == Some(fs) && IsFrame(f)
    ensures Frames(x + f) == Some(fs + [f])
    decreases |x|
  {
    if x == [] {
      assert x + f == f && f[f[0] as int + 1..] == [] && f[..f[0] as int + 1] == f;
      assert Frames([]) == Some([]);
      assert fs + [f] == [f] + [];
    } else {
      var n := x[0] as int + 1;
      var fs' := Frames(x[n..]).value;
      assert fs == [x[..n]] + fs';
      FramesSnoc(x[n..], fs', f);
      assert (x + f)[0] == x[0] && |x + f| >= n;
      assert (x + f)[n..] == x[n..] + f;
      assert (x + f)[..n] == x[..n];
      assert [x[..n]] + (fs' + [f]) == fs + [f];
    }
  }

  /** Each instruction's own encoding, in stream order. */
  function Encodings(stream: seq<I.Instruction>): (r: seq<seq<Byte>>)
    ensures |r| == |stream|
    ensures forall k :: 0 <= k < |stream| ==> r[k] == InstructionBytes(stream[k]).bytes
  {
    if stream == [] then []
    else
      var init := stream[..|stream| - 1];
      assert forall k :: 0 <= k < |init| ==> init[k] == stream[k];
      Encodings(init) + [InstructionBytes(stream[|stream| - 1]).bytes]
  }

  /** A stream of written instructions splits back, by length bytes alone,
      into the instructions' own encodings: the format is self-delimiting. */
  lemma {:induction false} InstructionsFrame(stream: seq<I.Instruction>)
    requires forall k :: 0 <= k < |stream| ==> InstructionBytes(stream[k]).complete
    ensures InstructionsBytes(stream).complete
    ensures Frames(InstructionsBytes(stream).bytes) == Some(Encodings(stream))
  {
    if stream != [] {
      var init, last := stream[..|stream| - 1], stream[|stream| - 1];
      assert forall k :: 0 <= k < |init| ==> init[k] == stream[k];
      InstructionsFrame(init);
      InstructionFrame(last);
      FramesSnoc(InstructionsBytes(init).bytes, Encodings(init), InstructionBytes(last).bytes);
    }
  }

  /** A stream stops at the first instruction that throws. */
  lemma {:induction false} InstructionsComplete(stream: seq<I.Instruction>)
    ensures InstructionsBytes(stream).complete <==> forall k :: 0 <= k < |stream| ==> InstructionBytes(stream[k]).complete
  {
    if stream != [] {
      InstructionsComplete(stream[..|stream| - 1]);
      assert forall k :: 0 <= k < |stream| - 1 ==> stream[..|stream| - 1][k] == stream[k];
    }
  }

  // ---- records ------------------------------------------------------------

  /** `PoolTag.ordinal()` of each tag. `PoolTag` is not part of this model,
      so the numbering is a parameter of the writer. */
  datatype TagNumbering = TagNumbering(integer: int, float: int, str: int, virtual: int, native: int, struct: int, utf8: int)

  function TagNumber(n: TagNumbering, t: P.PoolTag): int {
    match t
    case INTEGER => n.integer
    case FLOAT => n.float
    case STRING => n.str
    case VIRTUAL_FUNCTION => n.virtual
    case NATIVE_FUNCTION => n.native
    case STRUCT => n.struct
    case UTF8 => n.utf8
  }

  /** The value of a constant: an `int` for the numbers (a float as its
      bit pattern), a string for the five named kinds. */
  function Payload(c: P.PoolConstant): seq<Byte> {
    match c
    case IntegerConstant(v) => IntBytes(v)
    case FloatConstant(bits) => IntBytes(bits)
    case StringConstant(s) => StringBytes(s)
    case VFunctionConstant(s) => StringBytes(s)
    case NFunctionConstant(s) => StringBytes(s)
    case StructConstant(s) => StringBytes(s)
    case UTF8Constant(s) => StringBytes(s)
  }

  /** `visitXConstant`: the tag byte, then the value. */
  function ConstantBytes(tagNumber: TagNumbering, c: P.PoolConstant): seq<Byte> {
    [Low(TagNumber(tagNumber, P.Tag(c)))] + Payload(c)
  }

  function ConstantsBytes(tagNumber: TagNumbering, es: seq<P.PoolConstant>): seq<Byte> {
    if es == [] then [] else ConstantsBytes(tagNumber, es[..|es| - 1]) + ConstantBytes(tagNumber, es[|es| - 1])
  }

  lemma NextConstant(tagNumber: TagNumbering, es: seq<P.PoolConstant>, i: nat)
    requires i < |es|
    ensures ConstantsBytes(tagNumber, es[..i + 1]) == ConstantsBytes(tagNumber, es[..i]) + ConstantBytes(tagNumber, es[i])
  {
    assert es[..i + 1][..i] == es[..i];
  }

  /** `visitPool`: the size as one byte, then the constants in address order. */
  function PoolBytes(tagNumber: TagNumbering, es: seq<P.PoolConstant>): seq<Byte> {
    [Low(|es|)] + ConstantsBytes(tagNumber, es)
  }

  /** `keys` is an iteration order of the map `m`: each key once. */
  predicate KeyOrder(m: map<string, int>, keys: seq<string>) {
    |keys| == |m| && (forall i, j :: 0 <= i < j < |keys| ==> keys[i] != keys[j])
    && forall k :: 0 <= k < |keys| ==> keys[k] in m
  }

  /** What `visitFunction` reads from a function. */
  datatype FunctionRecord = FunctionRecord(name: string, stackSize: int, locals: int, instructions: seq<I.Instruction>)

  /** `visitFunction`: the name, the stack size and the locals as one byte
      each, the number of instructions as an `int`, then the instructions. */
  function FunctionBytes(f: FunctionRecord): Written {
    Then(Done(FunctionHead(f.name, f.stackSize, f.locals, |f.instructions|)), InstructionsBytes(f.instructions))
  }

  function FunctionHead(name: string, stackSize: int, locals: int, count: int): seq<Byte> {
    StringBytes(name) + [Low(stackSize), Low(locals)] + IntBytes(count)
  }

  function FunctionsBytes(fs: seq<FunctionRecord>): Written {
    if fs == [] then Done([]) else Then(FunctionsBytes(fs[..|fs| - 1]), FunctionBytes(fs[|fs| - 1]))
  }

  /** The methods of a struct in the order `keys` of an iteration of its
      map: each name, then its pool address as one byte. */
  function MethodEntriesBytes(keys: seq<string>, methods: map<string, int>): seq<Byte>
    requires forall k :: 0 <= k < |keys| ==> keys[k] in methods
  {
    if keys == [] then []
    else MethodEntriesBytes(keys[..|keys| - 1], methods) + StringBytes(keys[|keys| - 1]) + [Low(methods[keys[|keys| - 1]])]
  }

  /** What `visitStruct` reads from a struct: the name, the number of
      fields, the method map and an iteration order `keys` of it. */
  datatype StructRecord = StructRecord(name: string, size: int, keys: seq<string>, methods: map<string, int>)

  predicate WellKeyed(s: StructRecord) {
    forall k :: 0 <= k < |s.keys| ==> s.keys[k] in s.methods
  }

  /** `visitStruct`: the name, the field count and the method count as one
      byte each, then the methods. */
  function StructBytes(s: StructRecord): seq<Byte>
    requires WellKeyed(s)
  {
    StructHead(s) + MethodEntriesBytes(s.keys, s.methods)
  }

  function StructHead(s: StructRecord): seq<Byte> {
    StringBytes(s.name) + [Low(s.size), Low(|s.methods|)]
  }

  lemma NextMethodEntry(keys: seq<string>, methods: map<string, int>, i: nat)
    requires i < |keys| && forall k :: 0 <= k < |keys| ==> keys[k] in methods
    ensures MethodEntriesBytes(keys[..i + 1], methods)
      == MethodEntriesBytes(keys[..i], methods) + StringBytes(keys[i]) + [Low(methods[keys[i]])]
  {
    assert keys[..i + 1][..i] == keys[..i];
  }

  function StructsBytes(ss: seq<StructRecord>): seq<Byte>
    requires forall k :: 0 <= k < |ss| ==> WellKeyed(ss[k])
  {
    if ss == [] then []
    else StructsBytes(ss[..|ss| - 1]) + StructBytes(ss[|ss| - 1])
  }

  /** The fixed header: the magic number `0xDEAD`, the minor and the major
      version (both 1) and the entry point as one byte. */
  function HeaderBytes(entryPoint: int): seq<Byte> {
    [0xDE, 0xAD] + IntBytes(1) + IntBytes(1) + [Low(entryPoint)]
  }

  /** `write(IRUnit)`: the header, the pool, the function count and the
      functions, the struct count and the structs. */
  function UnitBytes(tagNumber: TagNumbering, entryPoint: int, pool: seq<P.PoolConstant>,
                     fs: seq<FunctionRecord>, ss: seq<StructRecord>): Written
    requires forall k :: 0 <= k < |ss| ==> WellKeyed(ss[k])
  {
    Then(Then(Done(UnitHead(tagNumber, entryPoint, pool, |fs|)), FunctionsBytes(fs)),
         Done([Low(|ss|)] + StructsBytes(ss)))
  }

  /** The header, the pool and the function count. */
  function UnitHead(tagNumber: TagNumbering, entryPoint: int, pool: seq<P.PoolConstant>, count: int): seq<Byte> {
    HeaderBytes(entryPoint) + PoolBytes(tagNumber, pool) + [Low(count)]
  }

  /** The unit's bytes in the three parts the writer produces. */
  lemma UnitSplit(tagNumber: TagNumbering, entryPoint: int, pool: seq<P.PoolConstant>, count: int,
                  fs: seq<FunctionRecord>, ss: seq<StructRecord>)
    requires forall k :: 0 <= k < |ss| ==> WellKeyed(ss[k])
    requires count == |fs|
    ensures UnitBytes(tagNumber, entryPoint, pool, fs, ss).complete == FunctionsBytes(fs).complete
    ensures FunctionsBytes(fs).complete ==> (UnitBytes(tagNumber, entryPoint, pool, fs, ss).bytes
      == (UnitHead(tagNumber, entryPoint, pool, count) + FunctionsBytes(fs).bytes) + ([Low(|ss|)] + StructsBytes(ss)))
    ensures !FunctionsBytes(fs).complete ==> (UnitBytes(tagNumber, entryPoint, pool, fs, ss).bytes
      == UnitHead(tagNumber, entryPoint, pool, count) + FunctionsBytes(fs).bytes)
  {
  }

  /** The output starts with `DE AD`, the minor and the major version 1 as
      four bytes each, then the entry point's low byte, then the pool size
      (`HeadStart` reads the versions back). */
  lemma HeaderLayout(tagNumber: TagNumbering, entryPoint: int, pool: seq<P.PoolConstant>,
                     fs: seq<FunctionRecord>, ss: seq<StructRecord>)
    requires forall k :: 0 <= k < |ss| ==> WellKeyed(ss[k])
    ensures |UnitBytes(tagNumber, entryPoint, pool, fs, ss).bytes| >= 12
    ensures UnitBytes(tagNumber, entryPoint, pool, fs, ss).bytes[..12]
      == [0xDE, 0xAD, 0, 0, 0, 1, 0, 0, 0, 1, Low(entryPoint), Low(|pool|)]
  {
    var first := HeadStart(tagNumber, entryPoint, pool, |fs|);
    HeadPrefix(tagNumber, entryPoint, pool, fs, ss);
  }

  /** The first twelve bytes of the head. */
  lemma HeadStart(tagNumber: TagNumbering, entryPoint: int, pool: seq<P.PoolConstant>, count: int)
    returns (first: seq<Byte>)
    ensures first == [0xDE, 0xAD, 0, 0, 0, 1, 0, 0, 0, 1, Low(entryPoint), Low(|pool|)]
    ensures |UnitHead(tagNumber, entryPoint, pool, count)| >= 12
    ensures UnitHead(tagNumber, entryPoint, pool, count)[..12] == first
    ensures ReadInt(first[2..6]) == 1 && ReadInt(first[6..10]) == 1
  {
    assert IntBytes(1) == [0, 0, 0, 1];
    first := [0xDE, 0xAD, 0, 0, 0, 1, 0, 0, 0, 1, Low(entryPoint), Low(|pool|)];
    assert HeaderBytes(entryPoint) + [Low(|pool|)] == first;
    AppendAssoc(HeaderBytes(entryPoint), [Low(|pool|)], ConstantsBytes(tagNumber, pool));
    AppendAssoc(first, ConstantsBytes(tagNumber, pool), [Low(count)]);
  }

  /** The unit's bytes start with its head, whether or not the functions
      could all be written. */
  lemma HeadPrefix(tagNumber: TagNumbering, entryPoint: int, pool: seq<P.PoolConstant>,
                   fs: seq<FunctionRecord>, ss: seq<StructRecord>)
    requires forall k :: 0 <= k < |ss| ==> WellKeyed(ss[k])
    ensures var h := UnitHead(tagNumber, entryPoint, pool, |fs|);
      |h| <= |UnitBytes(tagNumber, entryPoint, pool, fs, ss).bytes|
      && UnitBytes(tagNumber, entryPoint, pool, fs, ss).bytes[..|h|] == h
  {
    UnitSplit(tagNumber, entryPoint, pool, |fs|, fs, ss);
  }

  /** An entry point from 256 on is written as its low byte only. */
  lemma EntryPointTruncated()
    ensures HeaderBytes(256)[10] == HeaderBytes(0)[10]
  {
  }

  /** Whether a unit's functions can all be written: none holds a `//`. */
  lemma {:induction false} FunctionsComplete(fs: seq<FunctionRecord>)
    ensures FunctionsBytes(fs).complete <==>
      forall k, j :: 0 <= k < |fs| && 0 <= j < |fs[k].instructions| ==> InstructionBytes(fs[k].instructions[j]).complete
  {
    if fs != [] {
      FunctionsComplete(fs[..|fs| - 1]);
      InstructionsComplete(fs[|fs| - 1].instructions);
      assert forall k :: 0 <= k < |fs| - 1 ==> fs[..|fs| - 1][k] == fs[k];
    }
  }

  // ---- the writer ---------------------------------------------------------

  /** What the writer reads from a struct, with its methods in the order
      `keys`. */
  ghost function StructOf(s: I.Struct, keys: seq<string>): StructRecord
    reads s
  {
    StructRecord(s.name, |s.fields|, keys, s.methods)
  }

  class BytecodeWriter {
    /** Everything written to the output stream so far. */
    var out: seq<Byte>
    const tagNumber: TagNumbering

    constructor (tagNumber: TagNumbering)
      ensures out == [] && this.tagNumber == tagNumber
    {
      out := [];
      this.tagNumber := tagNumber;
    }

    /** `write(int)`: the low byte. */
    method Write(b: int)
      modifies this
      ensures out == old(out) + [Low(b)]
    {
      out := out + [Low(b)];
    }

    /** `write(byte[])`. */
    method WriteBytes(bs: seq<Byte>)
      modifies this
      ensures out == old(out) + bs
    {
      out := out + bs;
    }

    method WriteInt(v: int)
      modifies this
      ensures out == old(out) + IntBytes(v)
    {
      WriteBytes(IntBytes(v));
    }

    method WriteString(s: string)
      modifies this
      ensures out == old(out) + StringBytes(s)
    {
      WriteInt(Utf16Length(s));
      WriteBytes(Utf8(s));
    }

    method WriteOpcode(o: Opcode)
      modifies this
      ensures out == old(out) + [Ordinal(o)]
    {
      Write(Ordinal(o));
    }

    method Emit0(o: Opcode)
      modifies this
      ensures out == old(out) + Op0(o)
    {
      Write(1);
      WriteOpcode(o);
    }

    method Emit1(o: Opcode, x: int)
      modifies this
      ensures out == old(out) + Op1(o, x)
    {
      Write(2);
      WriteOpcode(o);
      Write(x);
    }

    method Emit2(o: Opcode, x: int, y: int)
      modifies this
      ensures out == old(out) + Op2(o, x, y)
    {
      Write(3);
      WriteOpcode(o);
      Write(x);
      Write(y);
    }

    method EmitJump(o: Opcode, a: int)
      modifies this
      ensures out == old(out) + OpJump(o, a)
    {
      Write(3);
      WriteOpcode(o);
      WriteBytes(TwoBytes(a));
    }

    /** The instruction visitor: the `visit*` method of the instruction's
        class writes its form. */
    method VisitInstruction(ins: I.Instruction) returns (r: Result<()>)
      modifies this
      ensures out == old(out) + InstructionBytes(ins).bytes
      ensures r.Ok? <==> InstructionBytes(ins).complete
    {
      r := WriteForm(FormOf(ins));
    }

    method WriteForm(f: Form) returns (r: Result<()>)
      modifies this
      ensures out == old(out) + FormBytes(f).bytes
      ensures r.Ok? <==> FormBytes(f).complete
    {
      r := Ok(());
      match f
      case Form0(o) => Emit0(o);
      case Form1(o, x) => Emit1(o, x);
      case Form2(o, x, y) => Emit2(o, x, y);
      case FormJump(o, a) => EmitJump(o, a);
      case Throws(e) =>
        // `visitBinaryOperation` writes the length before `byOperation` throws
        Write(1);
        r := Fail(e);
    }

    /** The loop of `visitFunction` over the instruction stream. */
    method VisitInstructions(stream: seq<I.Instruction>) returns (r: Result<()>)
      modifies this
      ensures out == old(out) + InstructionsBytes(stream).bytes
      ensures r.Ok? <==> InstructionsBytes(stream).complete
    {
      var i := 0;
      while i < |stream|
        invariant 0 <= i <= |stream|
        invariant InstructionsBytes(stream[..i]).complete
        invariant out == old(out) + InstructionsBytes(stream[..i]).bytes
      {
        ghost var before, item := InstructionsBytes(stream[..i]), InstructionBytes(stream[i]);
        NextInstruction(stream, i);
        r := VisitInstruction(stream[i]);
        AppendAssoc(old(out), before.bytes, item.bytes);
        if r.Fail? {
          PrefixStops(stream, i + 1);
          return;
        }
        i := i + 1;
      }
      assert stream[..|stream|] == stream;
      r := Ok(());
    }

    method VisitFunction(f: I.Function) returns (r: Result<()>)
      requires f.Valid()
      modifies this
      ensures out == old(out) + FunctionBytes(RecordOf(f)).bytes
      ensures r.Ok? <==> FunctionBytes(RecordOf(f)).complete
    {
      ghost var head := FunctionHead(f.name, f.stackSize, f.Locals(), |f.instructions|);
      WriteFunctionHead(f.name, f.stackSize, f.Locals(), f.StreamSize());
      r := VisitInstructions(f.instructions);
      AppendAssoc(old(out), head, InstructionsBytes(f.instructions).bytes);
    }

    /** The part of `visitFunction` before the instruction loop. */
    method WriteFunctionHead(name: string, stackSize: int, locals: int, count: int)
      modifies this
      ensures out == old(out) + FunctionHead(name, stackSize, locals, count)
    {
      ghost var nameBytes := StringBytes(name);
      WriteString(name);
      Write(stackSize);
      AppendAssoc(old(out), nameBytes, [Low(stackSize)]);
      Write(locals);
      AppendAssoc(old(out), nameBytes + [Low(stackSize)], [Low(locals)]);
      assert nameBytes + [Low(stackSize)] + [Low(locals)] == nameBytes + [Low(stackSize), Low(locals)];
      WriteInt(count);
      AppendAssoc(old(out), nameBytes + [Low(stackSize), Low(locals)], IntBytes(count));
    }

    method VisitConstant(c: P.PoolConstant)
      modifies this
      ensures out == old(out) + ConstantBytes(tagNumber, c)
    {
      ghost var tag, value := Low(TagNumber(tagNumber, P.Tag(c))), Payload(c);
      assert ConstantBytes(tagNumber, c) == [tag] + value;
      Write(TagNumber(tagNumber, P.Tag(c)));
      WritePayload(c);
    }

    method WritePayload(c: P.PoolConstant)
      modifies this
      ensures out == old(out) + Payload(c)
    {
      match c
      case IntegerConstant(v) => WriteInt(v);
      case FloatConstant(bits) => WriteInt(bits);
      case StringConstant(s) => WriteString(s);
      case VFunctionConstant(s) => WriteString(s);
      case NFunctionConstant(s) => WriteString(s);
      case StructConstant(s) => WriteString(s);
      case UTF8Constant(s) => WriteString(s);
    }

    method VisitPool(pool: P.Pool)
      modifies this
      ensures out == old(out) + PoolBytes(tagNumber, pool.entries)
    {
      var es := pool.entries;
      ghost var all := ConstantsBytes(tagNumber, es);
      assert PoolBytes(tagNumber, es) == [Low(|es|)] + all;
      Write(pool.Size());
      ghost var start := out;
      var i := 0;
      while i < |es|
        invariant 0 <= i <= |es|
        invariant out == start + ConstantsBytes(tagNumber, es[..i])
      {
        ghost var before, item := ConstantsBytes(tagNumber, es[..i]), ConstantBytes(tagNumber, es[i]);
        NextConstant(tagNumber, es, i);
        VisitConstant(es[i]);
        AppendAssoc(start, before, item);
        i := i + 1;
      }
      assert es[..|es|] == es;
      AppendAssoc(old(out), [Low(|es|)], all);
    }

    /** `visitStruct`; the method map is iterated in an order the model
        leaves open, returned as `keys`. */
    method VisitStruct(s: I.Struct) returns (ghost keys: seq<string>)
      modifies this
      ensures KeyOrder(s.methods, keys)
      ensures out == old(out) + StructBytes(StructOf(s, keys))
    {
      ghost var head := StructHead(StructRecord(s.name, |s.fields|, [], s.methods));
      WriteString(s.name);
      Write(s.Size());
      Write(|s.methods|);
      assert out == old(out) + head;
      ghost var start := out;
      var ks, vs := EnumerateMap(s.methods);
      keys := ks;
      assert KeyOrder(s.methods, keys);
      var i := 0;
      while i < |ks|
        invariant 0 <= i <= |ks|
        invariant out == start + MethodEntriesBytes(ks[..i], s.methods)
      {
        ghost var before, name := MethodEntriesBytes(ks[..i], s.methods), StringBytes(ks[i]);
        NextMethodEntry(ks, s.methods, i);
        WriteString(ks[i]);
        AppendAssoc(start, before, name);
        Write(vs[i]);
        AppendAssoc(start, before + name, [Low(s.methods[ks[i]])]);
        i := i + 1;
      }
      assert ks[..|ks|] == ks;
      assert StructBytes(StructOf(s, keys)) == head + MethodEntriesBytes(ks, s.methods);
      AppendAssoc(old(out), head, MethodEntriesBytes(ks, s.methods));
    }

    /** `write(IRUnit)`: the functions and the structs in an iteration
        order of their maps the model leaves open (`fkeys`, `skeys`). */
    method WriteUnit(m: I.IRMediator) returns (r: Result<()>, ghost fkeys: seq<string>, ghost fs: seq<FunctionRecord>,
                                               ghost skeys: seq<string>, ghost ss: seq<StructRecord>)
      requires m.pool != null && forall n :: n in m.functions ==> m.functions[n].Valid()
      modifies this
      ensures KeyOrderOf(m.functions, fkeys) && fs == old(Records(m, fkeys))
      ensures KeyOrderOf(m.structs, skeys) && |ss| <= |skeys|
      ensures r.Ok? ==> |ss| == |skeys|
      ensures forall k :: 0 <= k < |ss| ==> old(StructWritten(m, skeys[k], ss[k]))
      ensures forall k :: 0 <= k < |ss| ==> WellKeyed(ss[k])
      ensures out == old(out) + UnitBytes(tagNumber, m.entryPoint, m.pool.entries, fs, ss).bytes
      ensures r.Ok? <==> UnitBytes(tagNumber, m.entryPoint, m.pool.entries, fs, ss).complete
    {
      var fks, functions := EnumerateMap(m.functions);
      var sks, structs := EnumerateMap(m.structs);
      fkeys, skeys := fks, sks;
      fs := Records(m, fks);
      assert forall k :: 0 <= k < |functions| ==> functions[k] == m.functions[fks[k]];
      assert forall k :: 0 <= k < |structs| ==> structs[k] == m.structs[sks[k]];
      r, ss := WriteParts(m.entryPoint, m.pool, functions, fs, structs);
    }

    /** The body of `write(IRUnit)` once both maps are enumerated. */
    method WriteParts(entryPoint: int, pool: P.Pool, functions: seq<I.Function>, ghost fs: seq<FunctionRecord>,
                      structs: seq<I.Struct>) returns (r: Result<()>, ghost ss: seq<StructRecord>)
      requires |functions| == |fs|
      requires forall k :: 0 <= k < |functions| ==> functions[k].Valid() && RecordOf(functions[k]) == fs[k]
      modifies this
      ensures |ss| <= |structs| && (r.Ok? ==> |ss| == |structs|)
      ensures forall k :: 0 <= k < |ss| ==> ss[k] == old(StructOf(structs[k], ss[k].keys)) && KeyOrder(ss[k].methods, ss[k].keys)
      ensures forall k :: 0 <= k < |ss| ==> WellKeyed(ss[k])
      ensures out == old(out) + UnitBytes(tagNumber, entryPoint, pool.entries, fs, ss).bytes
      ensures r.Ok? <==> UnitBytes(tagNumber, entryPoint, pool.entries, fs, ss).complete
    {
      ss := [];
      ghost var head := UnitHead(tagNumber, entryPoint, pool.entries, |fs|);
      WriteHead(entryPoint, pool, |functions|);
      r := VisitFunctions(functions, fs);
      ghost var funcs := FunctionsBytes(fs);
      AppendAssoc(old(out), head, funcs.bytes);
      if r.Fail? {
        UnitSplit(tagNumber, entryPoint, pool.entries, |fs|, fs, ss);
        return;
      }
      ghost var o2 := out;
      Write(|structs|);
      ss := VisitStructs(structs);
      ghost var tail := [Low(|ss|)] + StructsBytes(ss);
      AppendAssoc(o2, [Low(|ss|)], StructsBytes(ss));
      UnitSplit(tagNumber, entryPoint, pool.entries, |fs|, fs, ss);
      AppendAssoc(old(out), head + funcs.bytes, tail);
    }

    /** The header, the pool and the function count. */
    method WriteHead(entryPoint: int, pool: P.Pool, count: int)
      modifies this
      ensures out == old(out) + UnitHead(tagNumber, entryPoint, pool.entries, count)
    {
      ghost var header, entries := HeaderBytes(entryPoint), PoolBytes(tagNumber, pool.entries);
      WriteHeader(entryPoint);
      VisitPool(pool);
      AppendAssoc(old(out), header, entries);
      Write(count);
      AppendAssoc(old(out), header + entries, [Low(count)]);
    }

    /** The magic number, the two versions and the entry point. */
    method WriteHeader(entryPoint: int)
      modifies this
      ensures out == old(out) + HeaderBytes(entryPoint)
    {
      ghost var version := IntBytes(1);
      Write(0xDE);
      Write(0xAD);
      WriteInt(1);
      WriteInt(1);
      Write(entryPoint);
      assert out == old(out) + ([0xDE, 0xAD] + version + version + [Low(entryPoint)]);
    }

    /** The function loop of `write(IRUnit)`: it stops after the first
        function that throws. */
    method VisitFunctions(values: seq<I.Function>, ghost fs: seq<FunctionRecord>) returns (r: Result<()>)
      requires |values| == |fs|
      requires forall k :: 0 <= k < |values| ==> values[k].Valid() && RecordOf(values[k]) == fs[k]
      modifies this
      ensures out == old(out) + FunctionsBytes(fs).bytes
      ensures r.Ok? <==> FunctionsBytes(fs).complete
    {
      ghost var done: seq<FunctionRecord> := [];
      var i := 0;
      while i < |values|
        invariant 0 <= i <= |values| && done == fs[..i]
        invariant FunctionsBytes(done).complete
        invariant out == old(out) + FunctionsBytes(done).bytes
      {
        ghost var before, item := FunctionsBytes(done), FunctionBytes(fs[i]);
        r := VisitFunction(values[i]);
        NextFunction(done, fs[i]);
        AppendAssoc(old(out), before.bytes, item.bytes);
        TakeNext(fs, i);
        done := done + [fs[i]];
        if r.Fail? {
          FunctionsPrefixStops(fs, i + 1);
          return;
        }
        i := i + 1;
      }
      assert fs[..i] == fs;
      r := Ok(());
    }

    /** The struct loop of `write(IRUnit)`, each struct's methods in an
        iteration order of its own map. */
    method VisitStructs(structs: seq<I.Struct>) returns (ghost ss: seq<StructRecord>)
      modifies this
      ensures |ss| == |structs|
      ensures forall k :: 0 <= k < |ss| ==> ss[k] == old(StructOf(structs[k], ss[k].keys)) && KeyOrder(ss[k].methods, ss[k].keys)
      ensures forall k :: 0 <= k < |ss| ==> WellKeyed(ss[k])
      ensures out == old(out) + StructsBytes(ss)
    {
      ss := [];
      var i := 0;
      while i < |structs|
        invariant 0 <= i <= |structs| && |ss| == i
        invariant forall k :: 0 <= k < i ==> ss[k] == StructOf(structs[k], ss[k].keys) && KeyOrder(ss[k].methods, ss[k].keys)
        invariant forall k :: 0 <= k < i ==> WellKeyed(ss[k])
        invariant out == old(out) + StructsBytes(ss)
      {
        ghost var before := StructsBytes(ss);
        var mkeys := VisitStruct(structs[i]);
        ghost var rec := StructOf(structs[i], mkeys);
        NextStruct(ss, rec);
        AppendAssoc(old(out), before, StructBytes(rec));
        ss := ss + [rec];
        i := i + 1;
      }
    }
  }

  /** `s` is what `visitStruct` wrote for the struct `m.structs[key]`, its
      methods in the order `s.keys`. */
  ghost predicate StructWritten(m: I.IRMediator, key: string, s: StructRecord)
    reads m, m.structs.Values
  {
    key in m.structs && s == StructOf(m.structs[key], s.keys) && KeyOrder(s.methods, s.keys)
  }

  /** `keys` lists every key of `m` once. */
  ghost predicate KeyOrderOf<E>(m: map<string, E>, keys: seq<string>) {
    |keys| == |m| && (forall i, j :: 0 <= i < j < |keys| ==> keys[i] != keys[j])
    && forall k :: 0 <= k < |keys| ==> keys[k] in m
  }

  /** The records of the functions `keys`, in that order. */
  ghost function Records(m: I.IRMediator, keys: seq<string>): (r: seq<FunctionRecord>)
    reads m, m.functions.Values
    requires forall k :: 0 <= k < |keys| ==> keys[k] in m.functions
    ensures |r| == |keys|
    ensures forall k :: 0 <= k < |keys| ==> r[k] == RecordOf(m.functions[keys[k]])
  {
    if keys == [] then [] else Records(m, keys[..|keys| - 1]) + [RecordOf(m.functions[keys[|keys| - 1]])]
  }

  /** What `visitFunction` reads from a function. */
  ghost function RecordOf(f: I.Function): FunctionRecord
    reads f
  {
    FunctionRecord(f.name, f.stackSize, f.locals + 1, f.instructions)
  }

  lemma TakeNext<T>(s: seq<T>, i: nat)
    requires i < |s|
    ensures s[..i + 1] == s[..i] + [s[i]]
  {
  }

  lemma NextStruct(ss: seq<StructRecord>, s: StructRecord)
    requires (forall k :: 0 <= k < |ss| ==> WellKeyed(ss[k])) && WellKeyed(s)
    ensures forall k :: 0 <= k < |ss + [s]| ==> WellKeyed((ss + [s])[k])
    ensures StructsBytes(ss + [s]) == StructsBytes(ss) + StructBytes(s)
  {
    assert (ss + [s])[..|ss|] == ss;
  }

  lemma NextFunction(fs: seq<FunctionRecord>, f: FunctionRecord)
    ensures FunctionsBytes(fs + [f]) == Then(FunctionsBytes(fs), FunctionBytes(f))
  {
    assert (fs + [f])[..|fs|] == fs;
  }

  /** A function record is written completely exactly when its stream is. */
  lemma FunctionIncomplete(f: FunctionRecord)
    ensures FunctionBytes(f).complete <==> InstructionsBytes(f.instructions).complete
    ensures !FunctionBytes(f).complete ==> exists j :: 0 <= j < |f.instructions| && !InstructionBytes(f.instructions[j]).complete
  {
    InstructionsComplete(f.instructions);
  }

  lemma NextInstruction(stream: seq<I.Instruction>, i: nat)
    requires i < |stream|
    ensures InstructionsBytes(stream[..i + 1]) == Then(InstructionsBytes(stream[..i]), InstructionBytes(stream[i]))
  {
    assert stream[..i + 1][..i] == stream[..i];
  }

  /** Once a function throws, no later function is written. */
  lemma {:induction false} FunctionsPrefixStops(fs: seq<FunctionRecord>, n: nat)
    requires n <= |fs| && !FunctionsBytes(fs[..n]).complete
    ensures FunctionsBytes(fs) == FunctionsBytes(fs[..n])
    decreases |fs| - n
  {
    if n == |fs| {
      assert fs[..n] == fs;
    } else {
      assert fs[..|fs| - 1][..n] == fs[..n];
      FunctionsPrefixStops(fs[..|fs| - 1], n);
    }
  }

  /** Once a prefix of the stream throws, nothing after it is written. */
  lemma {:induction false} PrefixStops(stream: seq<I.Instruction>, n: nat)
    requires n <= |stream| && !InstructionsBytes(stream[..n]).complete
    ensures InstructionsBytes(stream) == InstructionsBytes(stream[..n])
    decreases |stream| - n
  {
    if n == |stream| {
      assert stream[..n] == stream;
    } else {
      assert stream[..|stream| - 1][..n] == stream[..n];
      PrefixStops(stream[..|stream| - 1], n);
    }
  }
}
