/** `rabbitc.TokenKind` and `computil.parse.Token`: the lexer's token kinds,
    the keyword and operator spellings, and tokens with their tag test. */
module Tokens {
  import opened Wrappers
  import opened Diags

  datatype TokenKind =
    | INTEGER | FLOAT | TRUE | FALSE | STRING | NULL | FUN | RETURN | NAT | NEW | DEL
    | STRUCT | TEMPLATE | IMPL | FOR | AS | LET | MUT
    | EQ_ASSIGN | ADD_ASSIGN | SUB_ASSIGN | MUL_ASSIGN | DIV_ASSIGN | IDIV_ASSIGN | MOD_ASSIGN
    | POW_ASSIGN | AND_ASSIGN | OR_ASSIGN | SHIFT_AL_ASSIGN | SHIFT_AR_ASSIGN | SHIFT_LR_ASSIGN
    | ARROW | IF | ELSE | WHILE | DO | BREAK | CONTINUE
    | PLUS | MINUS | MUL | DIV | IDIV | MOD | AND | OR | AND_BIT | OR_BIT | XOR
    | EX_MARK | QU_MARK | SHIFT_AL | SHIFT_AR | EQUALS | NOT_EQUALS | LESS | GREATER
    | LESS_EQ | GREATER_EQ | CURVED_OPEN | CURVED_CLOSED | BRACKET_OPEN | BRACKET_CLOSED
    | PARENTHESES_OPEN | PARENTHESES_CLOSED | DOT | COMMA | SEMI | COLON
    | PLUS_PLUS | MINUS_MINUS | IMPORT | EOF | ERROR | IDENTIFIER

  /** The kinds whose lexeme varies; their `name` field is `null`. */
  predicate Varies(k: TokenKind) {
    k.INTEGER? || k.FLOAT? || k.STRING? || k.EOF? || k.ERROR? || k.IDENTIFIER?
  }

  /** The fixed spelling of a kind; the kinds whose lexeme varies, which have
      none, get the empty string. */
  function Spelling(k: TokenKind): string {
    match k
    case INTEGER => ""
    case FLOAT => ""
    case TRUE => "true"
    case FALSE => "false"
    case STRING => ""
    case NULL => "null"
    case FUN => "fun"
    case RETURN => "return"
    case NAT => "nat"
    case NEW => "new"
    case DEL => "del"
    case STRUCT => "struct"
    case TEMPLATE => "template"
    case IMPL => "impl"
    case FOR => "for"
    case AS => "as"
    case LET => "let"
    case MUT => "mut"
    case EQ_ASSIGN => "="
    case ADD_ASSIGN => "+="
    case SUB_ASSIGN => "-="
    case MUL_ASSIGN => "*="
    case DIV_ASSIGN => "/="
    case IDIV_ASSIGN => "//="
    case MOD_ASSIGN => "%="
    case POW_ASSIGN => "^="
    case AND_ASSIGN => "&="
    case OR_ASSIGN => "|="
    case SHIFT_AL_ASSIGN => "<<="
    case SHIFT_AR_ASSIGN => ">>="
    case SHIFT_LR_ASSIGN => ">>>="
    case ARROW => "->"
    case IF => "if"
    case ELSE => "else"
    case WHILE => "while"
    case DO => "do"
    case BREAK => "break"
    case CONTINUE => "continue"
    case PLUS => "+"
    case MINUS => "-"
    case MUL => "*"
    case DIV => "/"
    case IDIV => "//"
    case MOD => "%"
    case AND => "&&"
    case OR => "||"
    case AND_BIT => "&"
    case OR_BIT => "|"
    case XOR => "^"
    case EX_MARK => "!"
    case QU_MARK => "?"
    case SHIFT_AL => "<<"
    case SHIFT_AR => ">>"
    case EQUALS => "=="
    case NOT_EQUALS => "!="
    case LESS => "<"
    case GREATER => ">"
    case LESS_EQ => "<="
    case GREATER_EQ => ">="
    case CURVED_OPEN => "{"
    case CURVED_CLOSED => "}"
    case BRACKET_OPEN => "["
    case BRACKET_CLOSED => "]"
    case PARENTHESES_OPEN => "("
    case PARENTHESES_CLOSED => ")"
    case DOT => "."
    case COMMA => ","
    case SEMI => ";"
    case COLON => ":"
    case PLUS_PLUS => "++"
    case MINUS_MINUS => "--"
    case IMPORT => "import"
    case EOF => ""
    case ERROR => ""
    case IDENTIFIER => ""
  }

  /** The kind's `name` field: its fixed spelling, or `None` (Java `null`)
      for the kinds whose lexeme varies. */
  function Name(k: TokenKind): Option<string> {
    if Varies(k) then None else Some(Spelling(k))
  }

  /** A decision table over length and characters that undoes `Name`. */
  ghost function Spelled(s: string): Option<TokenKind> {
    if |s| == 1 then
      match s[0]
      case '=' => Some(EQ_ASSIGN)
      case '+' => Some(PLUS)
      case '-' => Some(MINUS)
      case '*' => Some(MUL)
      case '/' => Some(DIV)
      case '%' => Some(MOD)
      case '&' => Some(AND_BIT)
      case '|' => Some(OR_BIT)
      case '^' => Some(XOR)
      case '!' => Some(EX_MARK)
      case '?' => Some(QU_MARK)
      case '<' => Some(LESS)
      case '>' => Some(GREATER)
      case '{' => Some(CURVED_OPEN)
      case '}' => Some(CURVED_CLOSED)
      case '[' => Some(BRACKET_OPEN)
      case ']' => Some(BRACKET_CLOSED)
      case '(' => Some(PARENTHESES_OPEN)
      case ')' => Some(PARENTHESES_CLOSED)
      case '.' => Some(DOT)
      case ',' => Some(COMMA)
      case ';' => Some(SEMI)
      case ':' => Some(COLON)
      case _ => None
    else if |s| == 2 then
      match (s[0], s[1])
      case ('a', 's') => Some(AS)
      case ('+', '=') => Some(ADD_ASSIGN)
      case ('-', '=') => Some(SUB_ASSIGN)
      case ('*', '=') => Some(MUL_ASSIGN)
      case ('/', '=') => Some(DIV_ASSIGN)
      case ('%', '=') => Some(MOD_ASSIGN)
      case ('^', '=') => Some(POW_ASSIGN)
      case ('&', '=') => Some(AND_ASSIGN)
      case ('|', '=') => Some(OR_ASSIGN)
      case ('-', '>') => Some(ARROW)
      case ('i', 'f') => Some(IF)
      case ('d', 'o') => Some(DO)
      case ('/', '/') => Some(IDIV)
      case ('&', '&') => Some(AND)
      case ('|', '|') => Some(OR)
      case ('<', '<') => Some(SHIFT_AL)
      case ('>', '>') => Some(SHIFT_AR)
      case ('=', '=') => Some(EQUALS)
      case ('!', '=') => Some(NOT_EQUALS)
      case ('<', '=') => Some(LESS_EQ)
      case ('>', '=') => Some(GREATER_EQ)
      case ('+', '+') => Some(PLUS_PLUS)
      case ('-', '-') => Some(MINUS_MINUS)
      case _ => None
    else if |s| == 3 then
      match (s[0], s[1], s[2])
      case ('f', 'u', 'n') => Some(FUN)
      case ('n', 'a', 't') => Some(NAT)
      case ('n', 'e', 'w') => Some(NEW)
      case ('d', 'e', 'l') => Some(DEL)
      case ('f', 'o', 'r') => Some(FOR)
      case ('l', 'e', 't') => Some(LET)
      case ('m', 'u', 't') => Some(MUT)
      case ('/', '/', '=') => Some(IDIV_ASSIGN)
      case ('<', '<', '=') => Some(SHIFT_AL_ASSIGN)
      case ('>', '>', '=') => Some(SHIFT_AR_ASSIGN)
      case _ => None
    else if |s| == 4 then
      match (s[0], s[1], s[2], s[3])
      case ('t', 'r', 'u', 'e') => Some(TRUE)
      case ('n', 'u', 'l', 'l') => Some(NULL)
      case ('i', 'm', 'p', 'l') => Some(IMPL)
      case ('>', '>', '>', '=') => Some(SHIFT_LR_ASSIGN)
      case ('e', 'l', 's', 'e') => Some(ELSE)
      case _ => None
    else if |s| == 5 then
      match (s[0], s[1], s[2], s[3], s[4])
      case ('f', 'a', 'l', 's', 'e') => Some(FALSE)
      case ('w', 'h', 'i', 'l', 'e') => Some(WHILE)
      case ('b', 'r', 'e', 'a', 'k') => Some(BREAK)
      case _ => None
    else if |s| == 6 then
      match (s[0], s[1], s[2], s[3], s[4], s[5])
      case ('r', 'e', 't', 'u', 'r', 'n') => Some(RETURN)
      case ('s', 't', 'r', 'u', 'c', 't') => Some(STRUCT)
      case ('i', 'm', 'p', 'o', 'r', 't') => Some(IMPORT)
      case _ => None
    else if |s| == 8 then
      match (s[0], s[1], s[2], s[3], s[4], s[5], s[6], s[7])
      case ('t', 'e', 'm', 'p', 'l', 'a', 't', 'e') => Some(TEMPLATE)
      case ('c', 'o', 'n', 't', 'i', 'n', 'u', 'e') => Some(CONTINUE)
      case _ => None
    else None
  }

  /** No two kinds share a spelling: `Spelled` reads every fixed spelling
      back to its kind. The kinds are taken a few at a time, in declaration
      order. */
  lemma SpelledName(k: TokenKind)
    requires !Varies(k)
    ensures Spelled(Spelling(k)) == Some(k)
  {
    if k == TRUE || k == FALSE || k == NULL {
      SpelledRun0(k);
    }
    else if k == FUN || k == RETURN || k == NAT {
      SpelledRun1(k);
    }
    else if k == NEW || k == DEL || k == STRUCT {
      SpelledRun2(k);
    }
    else if k == TEMPLATE || k == IMPL || k == FOR {
      SpelledRun3(k);
    }
    else if k == AS || k == LET || k == MUT {
      SpelledRun4(k);
    }
    else if k == EQ_ASSIGN || k == ADD_ASSIGN || k == SUB_ASSIGN {
      SpelledRun5(k);
    }
    else if k == MUL_ASSIGN || k == DIV_ASSIGN || k == IDIV_ASSIGN {
      SpelledRun6(k);
    }
    else if k == MOD_ASSIGN || k == POW_ASSIGN || k == AND_ASSIGN {
      SpelledRun7(k);
    }
    else if k == OR_ASSIGN || k == SHIFT_AL_ASSIGN || k == SHIFT_AR_ASSIGN {
      SpelledRun8(k);
    }
    else if k == SHIFT_LR_ASSIGN || k == ARROW || k == IF {
      SpelledRun9(k);
    }
    else if k == ELSE || k == WHILE || k == DO {
      SpelledRun10(k);
    }
    else if k == BREAK || k == CONTINUE || k == PLUS {
      SpelledRun11(k);
    }
    else if k == MINUS || k == MUL || k == DIV {
      SpelledRun12(k);
    }
    else if k == IDIV || k == MOD || k == AND {
      SpelledRun13(k);
    }
    else if k == OR || k == AND_BIT || k == OR_BIT {
      SpelledRun14(k);
    }
    else if k == XOR || k == EX_MARK || k == QU_MARK {
      SpelledRun15(k);
    }
    else if k == SHIFT_AL || k == SHIFT_AR || k == EQUALS {
      SpelledRun16(k);
    }
    else if k == NOT_EQUALS || k == LESS || k == GREATER {
      SpelledRun17(k);
    }
    else if k == LESS_EQ || k == GREATER_EQ || k == CURVED_OPEN {
      SpelledRun18(k);
    }
    else if k == CURVED_CLOSED || k == BRACKET_OPEN || k == BRACKET_CLOSED {
      SpelledRun19(k);
    }
    else if k == PARENTHESES_OPEN || k == PARENTHESES_CLOSED || k == DOT {
      SpelledRun20(k);
    }
    else if k == COMMA || k == SEMI || k == COLON {
      SpelledRun21(k);
    }
    else if k == PLUS_PLUS || k == MINUS_MINUS || k == IMPORT {
      SpelledRun22(k);
    }
  }

  // SpelledRun0 to SpelledRun22 split the check of `SpelledName` into
  // groups of a few kinds each; they are proof-cost scaffolding only and
  // state nothing beyond `SpelledName`.

  lemma SpelledRun0(k: TokenKind)
    requires k == TRUE || k == FALSE || k == NULL
    ensures Spelled(Spelling(k)) == Some(k)
  {
    if k == TRUE {
      assert Spelling(TRUE) == "true";
    } else if k == FALSE {
      assert Spelling(FALSE) == "false";
    } else {
      assert Spelling(NULL) == "null";
    }
  }

  lemma SpelledRun1(k: TokenKind)
    requires k == FUN || k == RETURN || k == NAT
    ensures Spelled(Spelling(k)) == Some(k)
  {
    if k == FUN {
      assert Spelling(FUN) == "fun";
    } else if k == RETURN {
      assert Spelling(RETURN) == "return";
    } else {
      assert Spelling(NAT) == "nat";
    }
  }

  lemma SpelledRun2(k: TokenKind)
    requires k == NEW || k == DEL || k == STRUCT
    ensures Spelled(Spelling(k)) == Some(k)
  {
    if k == NEW {
      assert Spelling(NEW) == "new";
    } else if k == DEL {
      assert Spelling(DEL) == "del";
    } else {
      assert Spelling(STRUCT) == "struct";
    }
  }

  lemma SpelledRun3(k: TokenKind)
    requires k == TEMPLATE || k == IMPL || k == FOR
    ensures Spelled(Spelling(k)) == Some(k)
  {
    if k == TEMPLATE {
      assert Spelling(TEMPLATE) == "template";
    } else if k == IMPL {
      assert Spelling(IMPL) == "impl";
    } else {
      assert Spelling(FOR) == "for";
    }
  }

  lemma SpelledRun4(k: TokenKind)
    requires k == AS || k == LET || k == MUT
    ensures Spelled(Spelling(k)) == Some(k)
  {
    if k == AS {
      assert Spelling(AS) == "as";
    } else if k == LET {
      assert Spelling(LET) == "let";
    } else {
      assert Spelling(MUT) == "mut";
    }
  }

  lemma SpelledRun5(k: TokenKind)
    requires k == EQ_ASSIGN || k == ADD_ASSIGN || k == SUB_ASSIGN
    ensures Spelled(Spelling(k)) == Some(k)
  {
    if k == EQ_ASSIGN {
      assert Spelling(EQ_ASSIGN) == "=";
    } else if k == ADD_ASSIGN {
      assert Spelling(ADD_ASSIGN) == "+=";
    } else {
      assert Spelling(SUB_ASSIGN) == "-=";
    }
  }

  lemma SpelledRun6(k: TokenKind)
    requires k == MUL_ASSIGN || k == DIV_ASSIGN || k == IDIV_ASSIGN
    ensures Spelled(Spelling(k)) == Some(k)
  {
    if k == MUL_ASSIGN {
      assert Spelling(MUL_ASSIGN) == "*=";
    } else if k == DIV_ASSIGN {
      assert Spelling(DIV_ASSIGN) == "/=";
    } else {
      assert Spelling(IDIV_ASSIGN) == "//=";
    }
  }

  lemma SpelledRun7(k: TokenKind)
    requires k == MOD_ASSIGN || k == POW_ASSIGN || k == AND_ASSIGN
    ensures Spelled(Spelling(k)) == Some(k)
  {
    if k == MOD_ASSIGN {
      assert Spelling(MOD_ASSIGN) == "%=";
    } else if k == POW_ASSIGN {
      assert Spelling(POW_ASSIGN) == "^=";
    } else {
      assert Spelling(AND_ASSIGN) == "&=";
    }
  }

  lemma SpelledRun8(k: TokenKind)
    requires k == OR_ASSIGN || k == SHIFT_AL_ASSIGN || k == SHIFT_AR_ASSIGN
    ensures Spelled(Spelling(k)) == Some(k)
  {
    if k == OR_ASSIGN {
      assert Spelling(OR_ASSIGN) == "|=";
    } else if k == SHIFT_AL_ASSIGN {
      assert Spelling(SHIFT_AL_ASSIGN) == "<<=";
    } else {
      assert Spelling(SHIFT_AR_ASSIGN) == ">>=";
    }
  }

  lemma SpelledRun9(k: TokenKind)
    requires k == SHIFT_LR_ASSIGN || k == ARROW || k == IF
    ensures Spelled(Spelling(k)) == Some(k)
  {
    if k == SHIFT_LR_ASSIGN {
      assert Spelling(SHIFT_LR_ASSIGN) == ">>>=";
    } else if k == ARROW {
      assert Spelling(ARROW) == "->";
    } else {
      assert Spelling(IF) == "if";
    }
  }

  lemma SpelledRun10(k: TokenKind)
    requires k == ELSE || k == WHILE || k == DO
    ensures Spelled(Spelling(k)) == Some(k)
  {
    if k == ELSE {
      assert Spelling(ELSE) == "else";
    } else if k == WHILE {
      assert Spelling(WHILE) == "while";
    } else {
      assert Spelling(DO) == "do";
    }
  }

  lemma SpelledRun11(k: TokenKind)
    requires k == BREAK || k == CONTINUE || k == PLUS
    ensures Spelled(Spelling(k)) == Some(k)
  {
    if k == BREAK {
      assert Spelling(BREAK) == "break";
    } else if k == CONTINUE {
      assert Spelling(CONTINUE) == "continue";
    } else {
      assert Spelling(PLUS) == "+";
    }
  }

  lemma SpelledRun12(k: TokenKind)
    requires k == MINUS || k == MUL || k == DIV
    ensures Spelled(Spelling(k)) == Some(k)
  {
    if k == MINUS {
      assert Spelling(MINUS) == "-";
    } else if k == MUL {
      assert Spelling(MUL) == "*";
    } else {
      assert Spelling(DIV) == "/";
    }
  }

  lemma SpelledRun13(k: TokenKind)
    requires k == IDIV || k == MOD || k == AND
    ensures Spelled(Spelling(k)) == Some(k)
  {
    if k == IDIV {
      assert Spelling(IDIV) == "//";
    } else if k == MOD {
      assert Spelling(MOD) == "%";
    } else {
      assert Spelling(AND) == "&&";
    }
  }

  lemma SpelledRun14(k: TokenKind)
    requires k == OR || k == AND_BIT || k == OR_BIT
    ensures Spelled(Spelling(k)) == Some(k)
  {
    if k == OR {
      assert Spelling(OR) == "||";
    } else if k == AND_BIT {
      assert Spelling(AND_BIT) == "&";
    } else {
      assert Spelling(OR_BIT) == "|";
    }
  }

  lemma SpelledRun15(k: TokenKind)
    requires k == XOR || k == EX_MARK || k == QU_MARK
    ensures Spelled(Spelling(k)) == Some(k)
  {
    if k == XOR {
      assert Spelling(XOR) == "^";
    } else if k == EX_MARK {
      assert Spelling(EX_MARK) == "!";
    } else {
      assert Spelling(QU_MARK) == "?";
    }
  }

  lemma SpelledRun16(k: TokenKind)
    requires k == SHIFT_AL || k == SHIFT_AR || k == EQUALS
    ensures Spelled(Spelling(k)) == Some(k)
  {
    if k == SHIFT_AL {
      assert Spelling(SHIFT_AL) == "<<";
    } else if k == SHIFT_AR {
      assert Spelling(SHIFT_AR) == ">>";
    } else {
      assert Spelling(EQUALS) == "==";
    }
  }

  lemma SpelledRun17(k: TokenKind)
    requires k == NOT_EQUALS || k == LESS || k == GREATER
    ensures Spelled(Spelling(k)) == Some(k)
  {
    if k == NOT_EQUALS {
      assert Spelling(NOT_EQUALS) == "!=";
    } else if k == LESS {
      assert Spelling(LESS) == "<";
    } else {
      assert Spelling(GREATER) == ">";
    }
  }

  lemma SpelledRun18(k: TokenKind)
    requires k == LESS_EQ || k == GREATER_EQ || k == CURVED_OPEN
    ensures Spelled(Spelling(k)) == Some(k)
  {
    if k == LESS_EQ {
      assert Spelling(LESS_EQ) == "<=";
    } else if k == GREATER_EQ {
      assert Spelling(GREATER_EQ) == ">=";
    } else {
      assert Spelling(CURVED_OPEN) == "{";
    }
  }

  lemma SpelledRun19(k: TokenKind)
    requires k == CURVED_CLOSED || k == BRACKET_OPEN || k == BRACKET_CLOSED
    ensures Spelled(Spelling(k)) == Some(k)
  {
    if k == CURVED_CLOSED {
      assert Spelling(CURVED_CLOSED) == "}";
    } else if k == BRACKET_OPEN {
      assert Spelling(BRACKET_OPEN) == "[";
    } else {
      assert Spelling(BRACKET_CLOSED) == "]";
    }
  }

  lemma SpelledRun20(k: TokenKind)
    requires k == PARENTHESES_OPEN || k == PARENTHESES_CLOSED || k == DOT
    ensures Spelled(Spelling(k)) == Some(k)
  {
    if k == PARENTHESES_OPEN {
      assert Spelling(PARENTHESES_OPEN) == "(";
    } else if k == PARENTHESES_CLOSED {
      assert Spelling(PARENTHESES_CLOSED) == ")";
    } else {
      assert Spelling(DOT) == ".";
    }
  }

  lemma SpelledRun21(k: TokenKind)
    requires k == COMMA || k == SEMI || k == COLON
    ensures Spelled(Spelling(k)) == Some(k)
  {
    if k == COMMA {
      assert Spelling(COMMA) == ",";
    } else if k == SEMI {
      assert Spelling(SEMI) == ";";
    } else {
      assert Spelling(COLON) == ":";
    }
  }

  lemma SpelledRun22(k: TokenKind)
    requires k == PLUS_PLUS || k == MINUS_MINUS || k == IMPORT
    ensures Spelled(Spelling(k)) == Some(k)
  {
    if k == PLUS_PLUS {
      assert Spelling(PLUS_PLUS) == "++";
    } else if k == MINUS_MINUS {
      assert Spelling(MINUS_MINUS) == "--";
    } else {
      assert Spelling(IMPORT) == "import";
    }
  }

  /** Two kinds with the same non-null `name` are the same kind. */
  lemma NameInjective(a: TokenKind, b: TokenKind)
    requires Name(a).Some? && Name(a) == Name(b)
    ensures a == b
  {
    SpelledName(a);
    SpelledName(b);
  }

  /** `TokenKind.values()`, in declaration order, as four literal runs. */
  const Run0: seq<TokenKind> := [INTEGER, FLOAT, TRUE, FALSE, STRING, NULL, FUN, RETURN, NAT, NEW, DEL, STRUCT, TEMPLATE, IMPL, FOR, AS, LET, MUT, EQ_ASSIGN]
  const Run1: seq<TokenKind> := [ADD_ASSIGN, SUB_ASSIGN, MUL_ASSIGN, DIV_ASSIGN, IDIV_ASSIGN, MOD_ASSIGN, POW_ASSIGN, AND_ASSIGN, OR_ASSIGN, SHIFT_AL_ASSIGN, SHIFT_AR_ASSIGN, SHIFT_LR_ASSIGN, ARROW, IF, ELSE, WHILE, DO, BREAK, CONTINUE]
  const Run2: seq<TokenKind> := [PLUS, MINUS, MUL, DIV, IDIV, MOD, AND, OR, AND_BIT, OR_BIT, XOR, EX_MARK, QU_MARK, SHIFT_AL, SHIFT_AR, EQUALS, NOT_EQUALS, LESS, GREATER]
  const Run3: seq<TokenKind> := [LESS_EQ, GREATER_EQ, CURVED_OPEN, CURVED_CLOSED, BRACKET_OPEN, BRACKET_CLOSED, PARENTHESES_OPEN, PARENTHESES_CLOSED, DOT, COMMA, SEMI, COLON, PLUS_PLUS, MINUS_MINUS, IMPORT, EOF, ERROR, IDENTIFIER]
  const Values: seq<TokenKind> := Run0 + Run1 + Run2 + Run3

  predicate InRun0(k: TokenKind) {
    k.INTEGER? || k.FLOAT? || k.TRUE? || k.FALSE? || k.STRING? || k.NULL? || k.FUN? || k.RETURN? || k.NAT? || k.NEW? || k.DEL? || k.STRUCT? || k.TEMPLATE? || k.IMPL? || k.FOR? || k.AS? || k.LET? || k.MUT? || k.EQ_ASSIGN?
  }

  predicate InRun1(k: TokenKind) {
    k.ADD_ASSIGN? || k.SUB_ASSIGN? || k.MUL_ASSIGN? || k.DIV_ASSIGN? || k.IDIV_ASSIGN? || k.MOD_ASSIGN? || k.POW_ASSIGN? || k.AND_ASSIGN? || k.OR_ASSIGN? || k.SHIFT_AL_ASSIGN? || k.SHIFT_AR_ASSIGN? || k.SHIFT_LR_ASSIGN? || k.ARROW? || k.IF? || k.ELSE? || k.WHILE? || k.DO? || k.BREAK? || k.CONTINUE?
  }

  predicate InRun2(k: TokenKind) {
    k.PLUS? || k.MINUS? || k.MUL? || k.DIV? || k.IDIV? || k.MOD? || k.AND? || k.OR? || k.AND_BIT? || k.OR_BIT? || k.XOR? || k.EX_MARK? || k.QU_MARK? || k.SHIFT_AL? || k.SHIFT_AR? || k.EQUALS? || k.NOT_EQUALS? || k.LESS? || k.GREATER?
  }

  predicate InRun3(k: TokenKind) {
    k.LESS_EQ? || k.GREATER_EQ? || k.CURVED_OPEN? || k.CURVED_CLOSED? || k.BRACKET_OPEN? || k.BRACKET_CLOSED? || k.PARENTHESES_OPEN? || k.PARENTHESES_CLOSED? || k.DOT? || k.COMMA? || k.SEMI? || k.COLON? || k.PLUS_PLUS? || k.MINUS_MINUS? || k.IMPORT? || k.EOF? || k.ERROR? || k.IDENTIFIER?
  }

  lemma RunComplete0(k: TokenKind)
    requires InRun0(k)
    ensures k in Run0
  {
  }

  lemma RunComplete1(k: TokenKind)
    requires InRun1(k)
    ensures k in Run1
  {
  }

  lemma RunComplete2(k: TokenKind)
    requires InRun2(k)
    ensures k in Run2
  {
  }

  lemma RunComplete3(k: TokenKind)
    requires InRun3(k)
    ensures k in Run3
  {
  }

  lemma ValuesComplete(k: TokenKind)
    ensures k in Values
  {
    assert InRun0(k) || InRun1(k) || InRun2(k) || InRun3(k);
    if InRun0(k) { RunComplete0(k); }
    else if InRun1(k) { RunComplete1(k); }
    else if InRun2(k) { RunComplete2(k); }
    else { RunComplete3(k); }
  }

  /** The first kind in `kinds` spelled `lexem`. */
  function Search(kinds: seq<TokenKind>, lexem: string): (r: Option<TokenKind>)
    ensures r.Some? ==> r.value in kinds && Name(r.value) == Some(lexem)
    ensures r.None? ==> forall k :: k in kinds ==> Name(k) != Some(lexem)
  {
    if |kinds| == 0 then None
    else if Name(kinds[0]) == Some(lexem) then Some(kinds[0])
    else Search(kinds[1..], lexem)
  }

  /** `TokenKind.fromLexem`: the first kind whose spelling is `lexem`, or
      IDENTIFIER when no kind has that spelling. */
  function FromLexem(lexem: string): TokenKind {
    match Search(Values, lexem)
    case Some(k) => k
    case None => IDENTIFIER
  }

  /** Every fixed spelling leads back to its own kind. */
  lemma FromLexemName(k: TokenKind)
    requires Name(k).Some?
    ensures FromLexem(Name(k).value) == k
  {
    ValuesComplete(k);
    var r := Search(Values, Name(k).value);
    NameInjective(k, r.value);
  }

  /** `fromLexem` yields a kind other than IDENTIFIER exactly for the fixed
      spellings, and then the kind spelled that way. */
  lemma FromLexemSpec(lexem: string)
    ensures FromLexem(lexem) != IDENTIFIER <==> exists k :: Name(k) == Some(lexem)
    ensures FromLexem(lexem) != IDENTIFIER ==> Name(FromLexem(lexem)) == Some(lexem)
  {
    var r := Search(Values, lexem);
    if r.None? {
      forall k | Name(k) == Some(lexem)
        ensures false
      {
        ValuesComplete(k);
      }
    }
  }

  /** The kinds whose lexeme varies are never the result of `fromLexem`. */
  lemma FromLexemNeverVariable(lexem: string)
    ensures FromLexem(lexem) != INTEGER && FromLexem(lexem) != FLOAT && FromLexem(lexem) != STRING
    ensures FromLexem(lexem) != EOF && FromLexem(lexem) != ERROR
  {
  }

  /** `computil.parse.BasicToken`: where the token was read, its kind, and
      its text (`None` for the end-of-file token). */
  datatype Token = Token(loc: Loc, tag: TokenKind, lexem: Option<string>)

  /** The varargs part of `hasTag`: does some element of `tags` equal `tag`? */
  function AnyIs(tags: seq<TokenKind>, tag: TokenKind): bool {
    if tags == [] then false
    else tags[0] == tag || AnyIs(tags[1..], tag)
  }

  /** `Token.hasTag(tag, tags...)` */
  function HasTag(t: Token, tag: TokenKind, tags: seq<TokenKind>): bool {
    tag == t.tag || AnyIs(tags, t.tag)
  }

  lemma {:induction false} AnyIsMembership(tags: seq<TokenKind>, tag: TokenKind)
    ensures AnyIs(tags, tag) <==> tag in tags
  {
    if tags != [] {
      AnyIsMembership(tags[1..], tag);
      assert tags == [tags[0]] + tags[1..];
    }
  }

  /** `hasTag` holds iff the token's tag is the first argument or one of the rest. */
  lemma HasTagSpec(t: Token, tag: TokenKind, tags: seq<TokenKind>)
    ensures HasTag(t, tag, tags) <==> t.tag == tag || t.tag in tags
  {
    AnyIsMembership(tags, t.tag);
    assert HasTag(t, tag, tags) == (tag == t.tag || AnyIs(tags, t.tag));
  }

  /** The order of the alternatives does not matter. */
  lemma HasTagOrderIrrelevant(t: Token, tag: TokenKind, tags: seq<TokenKind>, tags': seq<TokenKind>)
    requires multiset(tags) == multiset(tags')
    ensures HasTag(t, tag, tags) == HasTag(t, tag, tags')
  {
    HasTagSpec(t, tag, tags);
    HasTagSpec(t, tag, tags');
    assert t.tag in tags <==> t.tag in multiset(tags);
    assert t.tag in tags' <==> t.tag in multiset(tags');
  }
}
