/** `computil.generation.targets.rbt.Opcode`: the opcodes of the Rabbit
    bytecode, numbered by their position in the declaration, and the lookup
    `of(int)` from a number back to the opcode. */
module Opcodes {
  import opened Wrappers

  datatype Opcode =
    | PUSH_NULL | PUSH_INT | LOAD_CONST
    | LOAD_LOCAl | STORE_LOCAL
    | NEW | FREE | NULL_CHECK | CHECK_CAST | I2F | F2I
    | MAKE_ARRAY | READ_ARRAY | WRITE_ARRAY
    | GET_FIELD | PUT_FIELD
    | INVOKE_VIRTUAL | INVOKE_TEMPLATE | INVOKE_NATIVE | RETURN
    | DUP | SWAP | POP
    | NOT | NEG
    | ADD_I | SUB_I | MUL_I | MOD | AND | OR | AND_BIT | OR_BIT | XOR | SHIFT_AL | SHIFT_AR
    | ADD_F | SUB_F | MUL_F | DIV | EQUALS | NOT_EQUALS | LESS | GREATER | LESS_EQ | GREATER_EQ
    | GOTO | BRANCH_NOT_ZERO | BRANCH_ZERO
    | NEW_LINE

  /** `Opcode.values()`, in declaration order, as five literal runs of ten. */
  const Run0: seq<Opcode> := [PUSH_NULL, PUSH_INT, LOAD_CONST, LOAD_LOCAl, STORE_LOCAL, NEW, FREE, NULL_CHECK, CHECK_CAST, I2F]
  const Run1: seq<Opcode> := [F2I, MAKE_ARRAY, READ_ARRAY, WRITE_ARRAY, GET_FIELD, PUT_FIELD, INVOKE_VIRTUAL, INVOKE_TEMPLATE, INVOKE_NATIVE, RETURN]
  const Run2: seq<Opcode> := [DUP, SWAP, POP, NOT, NEG, ADD_I, SUB_I, MUL_I, MOD, AND]
  const Run3: seq<Opcode> := [OR, AND_BIT, OR_BIT, XOR, SHIFT_AL, SHIFT_AR, ADD_F, SUB_F, MUL_F, DIV]
  const Run4: seq<Opcode> := [EQUALS, NOT_EQUALS, LESS, GREATER, LESS_EQ, GREATER_EQ, GOTO, BRANCH_NOT_ZERO, BRANCH_ZERO, NEW_LINE]
  const Values: seq<Opcode> := Run0 + Run1 + Run2 + Run3 + Run4

  /** `ordinal()`: the position in the declaration, the byte the writer emits. */
  function Ordinal(o: Opcode): (r: nat)
    ensures r < 50
  {
    match o
    case PUSH_NULL => 0
    case PUSH_INT => 1
    case LOAD_CONST => 2
    case LOAD_LOCAl => 3
    case STORE_LOCAL => 4
    case NEW => 5
    case FREE => 6
    case NULL_CHECK => 7
    case CHECK_CAST => 8
    case I2F => 9
    case F2I => 10
    case MAKE_ARRAY => 11
    case READ_ARRAY => 12
    case WRITE_ARRAY => 13
    case GET_FIELD => 14
    case PUT_FIELD => 15
    case INVOKE_VIRTUAL => 16
    case INVOKE_TEMPLATE => 17
    case INVOKE_NATIVE => 18
    case RETURN => 19
    case DUP => 20
    case SWAP => 21
    case POP => 22
    case NOT => 23
    case NEG => 24
    case ADD_I => 25
    case SUB_I => 26
    case MUL_I => 27
    case MOD => 28
    case AND => 29
    case OR => 30
    case AND_BIT => 31
    case OR_BIT => 32
    case XOR => 33
    case SHIFT_AL => 34
    case SHIFT_AR => 35
    case ADD_F => 36
    case SUB_F => 37
    case MUL_F => 38
    case DIV => 39
    case EQUALS => 40
    case NOT_EQUALS => 41
    case LESS => 42
    case GREATER => 43
    case LESS_EQ => 44
    case GREATER_EQ => 45
    case GOTO => 46
    case BRANCH_NOT_ZERO => 47
    case BRANCH_ZERO => 48
    case NEW_LINE => 49
  }

  /** `toString()`: the constant's name as declared. */
  function Name(o: Opcode): (r: string)
    ensures IsWord(r)
  {
    var k := Ordinal(o);
    if k < 10 then Names0[k] else if k < 20 then Names1[k - 10]
    else if k < 30 then Names2[k - 20] else if k < 40 then Names3[k - 30]
    else Names4[k - 40]
  }

  /** A non-empty text without blanks or line breaks. */
  predicate IsWord(s: string) {
    |s| > 0 && forall i :: 0 <= i < |s| ==> s[i] != ' ' && s[i] != '\n'
  }

  type Word = s: string | IsWord(s) witness "X"

  const Names0: seq<Word> := ["PUSH_NULL", "PUSH_INT", "LOAD_CONST", "LOAD_LOCAl", "STORE_LOCAL", "NEW", "FREE", "NULL_CHECK", "CHECK_CAST", "I2F"]
  const Names1: seq<Word> := ["F2I", "MAKE_ARRAY", "READ_ARRAY", "WRITE_ARRAY", "GET_FIELD", "PUT_FIELD", "INVOKE_VIRTUAL", "INVOKE_TEMPLATE", "INVOKE_NATIVE", "RETURN"]
  const Names2: seq<Word> := ["DUP", "SWAP", "POP", "NOT", "NEG", "ADD_I", "SUB_I", "MUL_I", "MOD", "AND"]
  const Names3: seq<Word> := ["OR", "AND_BIT", "OR_BIT", "XOR", "SHIFT_AL", "SHIFT_AR", "ADD_F", "SUB_F", "MUL_F", "DIV"]
  const Names4: seq<Word> := ["EQUALS", "NOT_EQUALS", "LESS", "GREATER", "LESS_EQ", "GREATER_EQ", "GOTO", "BRANCH_NOT_ZERO", "BRANCH_ZERO", "NEW_LINE"]

  /** `Opcode.of(b)`: the map filled with `ordinal() -> opcode` for every
      value; `null` for any other number. */
  function Of(b: int): Option<Opcode> {
    if b < 0 || b >= 50 then None
    else if b < 10 then Some(Run0[b])
    else if b < 20 then Some(Run1[b - 10])
    else if b < 30 then Some(Run2[b - 20])
    else if b < 40 then Some(Run3[b - 30])
    else Some(Run4[b - 40])
  }

  /** The ordinals are the positions in the declaration. */
  lemma OrdinalIsPosition(o: Opcode)
    ensures Ordinal(o) < |Values| && Values[Ordinal(o)] == o
  {
    var k := Ordinal(o);
    assert Values[k] == Of(k).value;
    OfOrdinal(o);
  }

  /** `of` inverts `ordinal`. */
  lemma OfOrdinal(o: Opcode)
    ensures Of(Ordinal(o)) == Some(o)
  {
    match o
    case PUSH_NULL => assert Run0[0] == PUSH_NULL;
    case PUSH_INT => assert Run0[1] == PUSH_INT;
    case LOAD_CONST => assert Run0[2] == LOAD_CONST;
    case LOAD_LOCAl => assert Run0[3] == LOAD_LOCAl;
    case STORE_LOCAL => assert Run0[4] == STORE_LOCAL;
    case NEW => assert Run0[5] == NEW;
    case FREE => assert Run0[6] == FREE;
    case NULL_CHECK => assert Run0[7] == NULL_CHECK;
    case CHECK_CAST => assert Run0[8] == CHECK_CAST;
    case I2F => assert Run0[9] == I2F;
    case F2I => assert Run1[0] == F2I;
    case MAKE_ARRAY => assert Run1[1] == MAKE_ARRAY;
    case READ_ARRAY => assert Run1[2] == READ_ARRAY;
    case WRITE_ARRAY => assert Run1[3] == WRITE_ARRAY;
    case GET_FIELD => assert Run1[4] == GET_FIELD;
    case PUT_FIELD => assert Run1[5] == PUT_FIELD;
    case INVOKE_VIRTUAL => assert Run1[6] == INVOKE_VIRTUAL;
    case INVOKE_TEMPLATE => assert Run1[7] == INVOKE_TEMPLATE;
    case INVOKE_NATIVE => assert Run1[8] == INVOKE_NATIVE;
    case RETURN => assert Run1[9] == RETURN;
    case DUP => assert Run2[0] == DUP;
    case SWAP => assert Run2[1] == SWAP;
    case POP => assert Run2[2] == POP;
    case NOT => assert Run2[3] == NOT;
    case NEG => assert Run2[4] == NEG;
    case ADD_I => assert Run2[5] == ADD_I;
    case SUB_I => assert Run2[6] == SUB_I;
    case MUL_I => assert Run2[7] == MUL_I;
    case MOD => assert Run2[8] == MOD;
    case AND => assert Run2[9] == AND;
    case OR => assert Run3[0] == OR;
    case AND_BIT => assert Run3[1] == AND_BIT;
    case OR_BIT => assert Run3[2] == OR_BIT;
    case XOR => assert Run3[3] == XOR;
    case SHIFT_AL => assert Run3[4] == SHIFT_AL;
    case SHIFT_AR => assert Run3[5] == SHIFT_AR;
    case ADD_F => assert Run3[6] == ADD_F;
    case SUB_F => assert Run3[7] == SUB_F;
    case MUL_F => assert Run3[8] == MUL_F;
    case DIV => assert Run3[9] == DIV;
    case EQUALS => assert Run4[0] == EQUALS;
    case NOT_EQUALS => assert Run4[1] == NOT_EQUALS;
    case LESS => assert Run4[2] == LESS;
    case GREATER => assert Run4[3] == GREATER;
    case LESS_EQ => assert Run4[4] == LESS_EQ;
    case GREATER_EQ => assert Run4[5] == GREATER_EQ;
    case GOTO => assert Run4[6] == GOTO;
    case BRANCH_NOT_ZERO => assert Run4[7] == BRANCH_NOT_ZERO;
    case BRANCH_ZERO => assert Run4[8] == BRANCH_ZERO;
    case NEW_LINE => assert Run4[9] == NEW_LINE;
  }

  /** `of` yields `null` exactly outside `0 .. 49`, and otherwise the opcode
      whose ordinal is the argument. */
  lemma OrdinalOf(b: int)
    ensures Of(b).None? <==> b < 0 || b >= 50
    ensures Of(b).Some? ==> Ordinal(Of(b).value) == b
  {
    if 0 <= b < 10 { RunOrdinals0a(); RunOrdinals0b(); }
    else if 10 <= b < 20 { RunOrdinals1a(); RunOrdinals1b(); }
    else if 20 <= b < 30 { RunOrdinals2a(); RunOrdinals2b(); }
    else if 30 <= b < 40 { RunOrdinals3a(); RunOrdinals3b(); }
    else if 40 <= b < 50 { RunOrdinals4a(); RunOrdinals4b(); }
  }

  // RunOrdinals0a to RunOrdinals4b check `Ordinal` five opcodes at a time
  // for `OrdinalOf`; they are proof-cost scaffolding only.

  lemma RunOrdinals0a()
    ensures forall j :: 0 <= j < 5 ==> Ordinal(Run0[j]) == 0 + j
  {
    assert Ordinal(Run0[0]) == 0;
    assert Ordinal(Run0[1]) == 1;
    assert Ordinal(Run0[2]) == 2;
    assert Ordinal(Run0[3]) == 3;
    assert Ordinal(Run0[4]) == 4;
  }

  lemma RunOrdinals0b()
    ensures forall j :: 5 <= j < 10 ==> Ordinal(Run0[j]) == 0 + j
  {
    assert Ordinal(Run0[5]) == 5;
    assert Ordinal(Run0[6]) == 6;
    assert Ordinal(Run0[7]) == 7;
    assert Ordinal(Run0[8]) == 8;
    assert Ordinal(Run0[9]) == 9;
  }

  lemma RunOrdinals1a()
    ensures forall j :: 0 <= j < 5 ==> Ordinal(Run1[j]) == 10 + j
  {
    assert Ordinal(Run1[0]) == 10;
    assert Ordinal(Run1[1]) == 11;
    assert Ordinal(Run1[2]) == 12;
    assert Ordinal(Run1[3]) == 13;
    assert Ordinal(Run1[4]) == 14;
  }

  lemma RunOrdinals1b()
    ensures forall j :: 5 <= j < 10 ==> Ordinal(Run1[j]) == 10 + j
  {
    assert Ordinal(Run1[5]) == 15;
    assert Ordinal(Run1[6]) == 16;
    assert Ordinal(Run1[7]) == 17;
    assert Ordinal(Run1[8]) == 18;
    assert Ordinal(Run1[9]) == 19;
  }

  lemma RunOrdinals2a()
    ensures forall j :: 0 <= j < 5 ==> Ordinal(Run2[j]) == 20 + j
  {
    assert Ordinal(Run2[0]) == 20;
    assert Ordinal(Run2[1]) == 21;
    assert Ordinal(Run2[2]) == 22;
    assert Ordinal(Run2[3]) == 23;
    assert Ordinal(Run2[4]) == 24;
  }

  lemma RunOrdinals2b()
    ensures forall j :: 5 <= j < 10 ==> Ordinal(Run2[j]) == 20 + j
  {
    assert Ordinal(Run2[5]) == 25;
    assert Ordinal(Run2[6]) == 26;
    assert Ordinal(Run2[7]) == 27;
    assert Ordinal(Run2[8]) == 28;
    assert Ordinal(Run2[9]) == 29;
  }

  lemma RunOrdinals3a()
    ensures forall j :: 0 <= j < 5 ==> Ordinal(Run3[j]) == 30 + j
  {
    assert Ordinal(Run3[0]) == 30;
    assert Ordinal(Run3[1]) == 31;
    assert Ordinal(Run3[2]) == 32;
    assert Ordinal(Run3[3]) == 33;
    assert Ordinal(Run3[4]) == 34;
  }

  lemma RunOrdinals3b()
    ensures forall j :: 5 <= j < 10 ==> Ordinal(Run3[j]) == 30 + j
  {
    assert Ordinal(Run3[5]) == 35;
    assert Ordinal(Run3[6]) == 36;
    assert Ordinal(Run3[7]) == 37;
    assert Ordinal(Run3[8]) == 38;
    assert Ordinal(Run3[9]) == 39;
  }

  lemma RunOrdinals4a()
    ensures forall j :: 0 <= j < 5 ==> Ordinal(Run4[j]) == 40 + j
  {
    assert Ordinal(Run4[0]) == 40;
    assert Ordinal(Run4[1]) == 41;
    assert Ordinal(Run4[2]) == 42;
    assert Ordinal(Run4[3]) == 43;
    assert Ordinal(Run4[4]) == 44;
  }

  lemma RunOrdinals4b()
    ensures forall j :: 5 <= j < 10 ==> Ordinal(Run4[j]) == 40 + j
  {
    assert Ordinal(Run4[5]) == 45;
    assert Ordinal(Run4[6]) == 46;
    assert Ordinal(Run4[7]) == 47;
    assert Ordinal(Run4[8]) == 48;
    assert Ordinal(Run4[9]) == 49;
  }
}
