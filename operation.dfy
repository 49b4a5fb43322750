/** `computil.tree.Operation`: the binary operators of the syntax tree, each
    with the source-text encoding the parser and the C backend use. */
module Operations {
  import opened Wrappers

  datatype Operation =
    | ADD | SUB | MUL | DIV | IDIV | MOD | AND | OR | AND_BIT | OR_BIT | XOR
    | SHIFT_AL | SHIFT_AR | LESS | GREATER | LESS_EQ | GREATER_EQ | EQUALS | NOT_EQUALS

  /** `Operation.values()`, in declaration order. */
  const Values: seq<Operation> :=
    [ADD, SUB, MUL, DIV, IDIV, MOD, AND, OR, AND_BIT, OR_BIT, XOR,
     SHIFT_AL, SHIFT_AR, LESS, GREATER, LESS_EQ, GREATER_EQ, EQUALS, NOT_EQUALS]

  function Encoding(op: Operation): string {
    match op
    case ADD => "+"
    case SUB => "-"
    case MUL => "*"
    case DIV => "/"
    case IDIV => "//"
    case MOD => "%"
    case AND => "&&"
    case OR => "||"
    case AND_BIT => "&"
    case OR_BIT => "|"
    case XOR => "^"
    case SHIFT_AL => "<<"
    case SHIFT_AR => ">>"
    case LESS => "<"
    case GREATER => ">"
    case LESS_EQ => "<="
    case GREATER_EQ => ">="
    case EQUALS => "=="
    case NOT_EQUALS => "!="
  }

  /** The first operation of `ops` whose encoding is `name`. */
  function Search(ops: seq<Operation>, name: string): (r: Option<Operation>)
    ensures r.Some? ==> r.value in ops && Encoding(r.value) == name
    ensures r.None? ==> forall op :: op in ops ==> Encoding(op) != name
  {
    if ops == [] then None
    else if name == Encoding(ops[0]) then Some(ops[0])
    else Search(ops[1..], name)
  }

  /** `Operation.of`: the operation encoded as `name`; `None` where the
      source throws `AssertionError`. */
  function Of(name: string): Option<Operation> {
    Search(Values, name)
  }

  /** `Operation.withoutAssign`: drop one trailing '=' and look up the rest. */
  function WithoutAssign(name: string): Option<Operation> {
    if |name| == 0 || name[|name| - 1] != '=' then Of(name)
    else Of(name[..|name| - 1])
  }

  lemma ValuesComplete(op: Operation)
    ensures op in Values
  {
  }

  /** No two operations share an encoding. */
  lemma EncodingInjective(a: Operation, b: Operation)
    requires Encoding(a) == Encoding(b)
    ensures a == b
  {
  }

  lemma {:induction false} SearchFinds(ops: seq<Operation>, op: Operation)
    requires op in ops
    ensures Search(ops, Encoding(op)) == Some(op)
  {
    if ops[0] != op {
      if Encoding(ops[0]) == Encoding(op) { EncodingInjective(ops[0], op); }
      SearchFinds(ops[1..], op);
    }
  }

  /** `of` inverts `encoding`. */
  lemma OfEncoding(op: Operation)
    ensures Of(Encoding(op)) == Some(op)
  {
    ValuesComplete(op);
    SearchFinds(Values, op);
  }

  /** `of` succeeds exactly on the nineteen encodings. */
  lemma OfSound(name: string)
    ensures Of(name).Some? <==> exists op :: Encoding(op) == name
    ensures Of(name).Some? ==> Encoding(Of(name).value) == name
  {
    if exists op :: Encoding(op) == name {
      var op :| Encoding(op) == name;
      OfEncoding(op);
    }
  }

  /** Without a trailing '=', `withoutAssign` is `of`. */
  lemma WithoutAssignPlain(name: string)
    requires |name| == 0 || name[|name| - 1] != '='
    ensures WithoutAssign(name) == Of(name)
  {
  }

  /** With a trailing '=', `withoutAssign` is `of` of the rest. */
  lemma WithoutAssignOf(op: Operation)
    ensures WithoutAssign(Encoding(op) + "=") == Some(op)
  {
    var s := Encoding(op) + "=";
    assert s[..|s| - 1] == Encoding(op);
    OfEncoding(op);
  }

  /** ">>>" encodes no operation, so `withoutAssign(">>>=")` fails. */
  lemma WithoutAssignUnsignedShift()
    ensures WithoutAssign(">>>=") == None
  {
    assert ">>>=" [..3] == ">>>";
    forall op: Operation ensures Encoding(op) != ">>>" {
      assert |Encoding(op)| <= 2;
    }
  }

  /** A comparison's own encoding loses its '=' too: `withoutAssign("<=")` is LESS. */
  lemma WithoutAssignLessEq()
    ensures WithoutAssign("<=") == Some(LESS)
  {
    WithoutAssignOf(LESS); assert Encoding(LESS) + "=" == "<=";
  }

  /** `withoutAssign("==")` fails, because "=" alone encodes nothing. */
  lemma WithoutAssignEquals()
    ensures WithoutAssign("==") == None
  {
    assert "==" [..1] == "=";
    forall op: Operation ensures Encoding(op) != "=" {
    }
  }
}
