/** `rabbitc.Scanner` reading through `computil.parse.UnicodeReader`: the
    lexer. The reader hands out the input one byte at a time, each byte as a
    `char` below 256; the input still to be read is a `seq<char>`. Two
    reader quirks shape everything here: once the stream is exhausted,
    `peek` and `consume` answer `(char) -1`, the character U+FFFF; and
    `hasNext` casts the byte it reads to `byte`, so a 0xFF byte looks like
    the end of the input to every rule that asks `hasNext`.

    The first half of the module states what one `scan` does as pure
    functions of the remaining input; the `Scanner` class below does it
    step by step, as the source does, and each of its methods is proved to
    agree with those functions. */
module Scanning {
  import opened Wrappers
  import opened Diags
  import opened Tokens
  import opened Decimal
  import opened Int32
  import EM = ErrorMessages

  /** What the reader answers once the stream is exhausted. The input is
      not restricted to characters below 256 here, so a U+FFFF inside it
      reads exactly like this end marker to every rule that peeks for it. */
  const EndChar: char := '\U{FFFF}'
  /** The byte that `hasNext` mistakes for the end of the stream. */
  const LastByte: char := '\U{00FF}'

  /** `UnicodeReader.hasNext` */
  predicate Available(s: seq<char>) { |s| > 0 && s[0] != LastByte }

  /** `UnicodeReader.peek` */
  function PeekChar(s: seq<char>): char { if |s| > 0 then s[0] else EndChar }

  /** The input after `UnicodeReader.consume`; nothing is consumed at the end. */
  function Rest(s: seq<char>): seq<char> { if |s| > 0 then s[1..] else s }

  // ---------------------------------------------------------------------
  // Character classes, as `java.lang.Character` answers them for the
  // characters a byte can give (Latin-1) and for U+FFFF.

  /** `Character.isWhitespace`: no-break space (0xA0) and 0x85 are not. */
  predicate IsWhitespace(c: char) {
    c == '\t' || c == '\n' || c == '\U{000B}' || c == '\U{000C}' || c == '\r'
    || ('\U{001C}' <= c <= '\U{001F}') || c == ' '
  }

  /** `Character.isLetter` */
  predicate IsLetter(c: char) {
    ('A' <= c <= 'Z') || ('a' <= c <= 'z') || c == '\U{00AA}' || c == '\U{00B5}' || c == '\U{00BA}'
    || ('\U{00C0}' <= c <= '\U{00D6}') || ('\U{00D8}' <= c <= '\U{00F6}') || ('\U{00F8}' <= c <= '\U{00FF}')
  }

  /** The characters `scanIdentifierOrKeyword` keeps. */
  predicate IsWordChar(c: char) { IsLetter(c) || c == '_' || IsDigit(c) }

  /** The characters `scanSpecial` turns into a one-character token. */
  predicate IsSingleSpecial(c: char) {
    c == '?' || c == '[' || c == ']' || c == '(' || c == ')' || c == '{' || c == '}'
    || c == ';' || c == ',' || c == '.' || c == ':'
  }

  /** The characters that start `scanPossibleEqualOperation`. */
  predicate IsOperatorChar(c: char) {
    c == '+' || c == '-' || c == '*' || c == '/' || c == '%' || c == '^'
    || c == '<' || c == '>' || c == '=' || c == '!' || c == '|' || c == '&'
  }

  /** The number of '\n' in `s`. */
  function Newlines(s: seq<char>): nat {
    if s == [] then 0 else Newlines(s[..|s| - 1]) + (if s[|s| - 1] == '\n' then 1 else 0)
  }

  lemma {:induction false} NewlinesAppend(a: seq<char>, b: seq<char>)
    ensures Newlines(a + b) == Newlines(a) + Newlines(b)
    decreases |b|
  {
    if b != [] {
      assert (a + b)[..|a + b| - 1] == a + b[..|b| - 1];
      NewlinesAppend(a, b[..|b| - 1]);
    } else {
      assert a + b == a;
    }
  }

  lemma {:induction false} NoNewlines(s: seq<char>)
    requires forall i :: 0 <= i < |s| ==> s[i] != '\n'
    ensures Newlines(s) == 0
  {
    if s != [] {
      NoNewlines(s[..|s| - 1]);
    }
  }

  /** The '\n' in `s[..i + n]` are those in `s[..i]` and those in the `n`
      characters after. */
  lemma CountSkipped(s: seq<char>, i: nat, n: nat)
    requires i + n <= |s|
    ensures Newlines(s[..i + n]) == Newlines(s[..i]) + Newlines(s[i..][..n])
  {
    assert s[..i + n] == s[..i] + s[i..][..n];
    NewlinesAppend(s[..i], s[i..][..n]);
  }

  // ---------------------------------------------------------------------
  // Whitespace and comments.

  /** `skipWhitespace`: how many characters it consumes. */
  function Whitespace(s: seq<char>): (n: nat)
    ensures n <= |s|
  {
    if |s| > 0 && IsWhitespace(s[0]) then 1 + Whitespace(s[1..]) else 0
  }

  /** `skipWhitespace` takes a maximal run: whitespace only, and no
      whitespace after it. */
  lemma {:induction false} WhitespaceRun(s: seq<char>)
    ensures forall i :: 0 <= i < Whitespace(s) ==> IsWhitespace(s[i])
    ensures !IsWhitespace(PeekChar(s[Whitespace(s)..]))
    decreases |s|
  {
    if |s| > 0 && IsWhitespace(s[0]) {
      WhitespaceRun(s[1..]);
      assert s[1..][Whitespace(s[1..])..] == s[Whitespace(s)..];
    }
  }

  /** The loop of a line comment: up to, not including, the next '\n', and
      never past a 0xFF byte. */
  function LineCommentBody(s: seq<char>): (n: nat)
    ensures n <= |s|
  {
    if Available(s) && s[0] != '\n' then 1 + LineCommentBody(s[1..]) else 0
  }

  /** A line comment ends before its '\n'. */
  lemma {:induction false} LineCommentRun(s: seq<char>)
    ensures forall i :: 0 <= i < LineCommentBody(s) ==> s[i] != '\n'
    ensures LineCommentBody(s) < |s| ==> s[LineCommentBody(s)] == '\n' || !Available(s[LineCommentBody(s)..])
    decreases |s|
  {
    if Available(s) && s[0] != '\n' {
      LineCommentRun(s[1..]);
      assert s[1..][LineCommentBody(s[1..])..] == s[LineCommentBody(s)..];
    }
  }

  /** The do-while loop of a block comment: through the closing "*\/", or
      until the reader says it has no more. */
  function BlockCommentBody(s: seq<char>): (n: nat)
    ensures n <= |s|
  {
    if s == [] then 0
    else if s[0] == '*' && PeekChar(s[1..]) == '/' then 2
    else if Available(s[1..]) then 1 + BlockCommentBody(s[1..])
    else 1
  }

  /** `skipComment`: how many characters it consumes (0 when `s` does not
      start a comment: the character read is pushed back). */
  function Comment(s: seq<char>): (n: nat)
    ensures n <= |s|
    ensures n > 0 <==> |s| >= 2 && s[0] == '/' && (s[1] == '/' || s[1] == '*')
  {
    if |s| >= 2 && s[0] == '/' && s[1] == '/' then 2 + LineCommentBody(s[2..])
    else if |s| >= 2 && s[0] == '/' && s[1] == '*' then 2 + BlockCommentBody(s[2..])
    else 0
  }

  /** One round of `skipWhitespace() || skipComment()`: the whitespace
      run, or else the comment. */
  function SkipWidth(s: seq<char>): (n: nat)
    ensures n <= |s|
  {
    var w := Whitespace(s);
    if w > 0 then w else Comment(s)
  }

  /** `skipWhitespaceAndComments`: rounds until one skips nothing. */
  function Skipped(s: seq<char>): (n: nat)
    ensures n <= |s|
    decreases |s|
  {
    var n := SkipWidth(s);
    if n == 0 then 0 else n + Skipped(s[n..])
  }

  /** After skipping, the input starts with neither whitespace nor a comment. */
  lemma {:induction false} SkippedStops(s: seq<char>)
    ensures !IsWhitespace(PeekChar(s[Skipped(s)..]))
    ensures Comment(s[Skipped(s)..]) == 0
    decreases |s|
  {
    var n := SkipWidth(s);
    if n > 0 {
      SkippedStops(s[n..]);
      assert s[n..][Skipped(s[n..])..] == s[Skipped(s)..];
    }
  }

  // ---------------------------------------------------------------------
  // Identifiers and keywords.

  /** The loop of `scanIdentifierOrKeyword`: word characters, and never past
      a 0xFF byte (the loop breaks when `hasNext` fails). */
  function WordLength(s: seq<char>): (n: nat)
    ensures n <= |s|
  {
    if Available(s) && IsWordChar(s[0]) then 1 + WordLength(s[1..]) else 0
  }

  // ---------------------------------------------------------------------
  // Strings.

  /** One result of `scanNextStringChar`: the character, how many input
      characters it took, and whether it reported an invalid escape. */
  datatype StringChar = StringChar(c: char, width: nat, badEscape: bool)

  /** `scanNextStringChar`: a character, or one of the escapes `\n`, `\b`,
      `\t`, `\\`, `\"`; any other escape is reported and read as '\0'. */
  function NextStringChar(s: seq<char>): (r: StringChar)
    ensures r.width <= |s| && (s != [] ==> r.width >= 1)
  {
    if s == [] then StringChar(EndChar, 0, false)
    else if s[0] != '\\' then StringChar(s[0], 1, false)
    else
      var e := Escape(PeekChar(s[1..]));
      StringChar(e.0, if |s| >= 2 then 2 else 1, e.1)
  }

  /** The character an escape stands for, and whether it is invalid. */
  function Escape(e: char): (char, bool) {
    if e == 'n' then ('\n', false)
    else if e == 'b' then ('\U{0008}', false)
    else if e == 't' then ('\t', false)
    else if e == '\\' || e == '"' then (e, false)
    else ('\0', true)
  }

  /** A lexeme and what producing it cost: the characters consumed and the
      messages logged. */
  datatype Lexeme = Lexeme(text: string, width: nat, diags: seq<Diagnostic>)

  lemma DropDrop<T>(s: seq<T>, a: nat, b: nat)
    requires a + b <= |s|
    ensures s[a..][b..] == s[a + b..]
  {
  }

  /** The invalid escape `scanNextStringChar` reported, if any. */
  function EscapeDiags(n: StringChar, loc: Loc): seq<Diagnostic> {
    if n.badEscape then [EM.InvalidEscapeCharacter(loc)] else []
  }

  /** What one round of the string loop logs when it does not close the
      string: the invalid escape, then a missing '"' if the reader has no
      more after the character. */
  function RoundDiags(n: StringChar, rest: seq<char>, loc: Loc): seq<Diagnostic> {
    EscapeDiags(n, loc) + (if Available(rest) then [] else [EM.MissingSymbol(loc, "\"")])
  }

  /** One round of the do-while loop of `scanString` on non-empty input:
      the characters it adds to the string, how many it consumes, what it
      logs, and whether it closes the string. */
  datatype Round = Round(text: string, width: nat, diags: seq<Diagnostic>, closed: bool)

  /** A character read as '"' (the closing quote, but also the escape `\"`)
      closes the string at once; after any other character, a 0xFF byte or
      the end of the input is reported as a missing '"', and a '"' next is
      consumed and closes the string. */
  function StringRound(s: seq<char>, loc: Loc): (r: Round)
    requires s != []
    ensures 1 <= r.width <= |s| && |r.text| <= 1
  {
    var n := NextStringChar(s);
    if n.c == '"' then Round([], n.width, EscapeDiags(n, loc), true)
    else
      var rest := s[n.width..];
      if PeekChar(rest) == '"' then Round([n.c], n.width + 1, RoundDiags(n, rest, loc), true)
      else Round([n.c], n.width, RoundDiags(n, rest, loc), false)
  }

  /** The do-while loop of `scanString` with `text` in the buffer, `width`
      characters consumed and `diags` logged so far: rounds until one closes
      the string. Once the input is exhausted the loop never ends. */
  function StringLoop(s: seq<char>, loc: Loc, text: string, width: nat, diags: seq<Diagnostic>): (r: Result<Lexeme>)
    decreases |s|
  {
    if s == [] then Fail(Diverges("unterminated string"))
    else
      var r := StringRound(s, loc);
      if r.closed then Ok(Lexeme(text + r.text, width + r.width, diags + r.diags))
      else StringLoop(s[r.width..], loc, text + r.text, width + r.width, diags + r.diags)
  }

  /** The loop consumes at least one character, and no more than it has. */
  lemma {:induction false} StringLoopWidth(s: seq<char>, loc: Loc, text: string, width: nat, diags: seq<Diagnostic>)
    ensures var r := StringLoop(s, loc, text, width, diags);
      r.Ok? ==> width < r.value.width <= width + |s|
    decreases |s|
  {
    if s != [] {
      var r := StringRound(s, loc);
      if !r.closed {
        StringLoopWidth(s[r.width..], loc, text + r.text, width + r.width, diags + r.diags);
      }
    }
  }

  /** A round that closes the string ends the loop. */
  lemma StringLoopClosed(s: seq<char>, loc: Loc, text: string, width: nat, diags: seq<Diagnostic>)
    requires s != [] && StringRound(s, loc).closed
    ensures var r := StringRound(s, loc);
      StringLoop(s, loc, text, width, diags) == Ok(Lexeme(text + r.text, width + r.width, diags + r.diags))
  {
  }

  /** A round that does not close the string is followed by the rest of
      the loop. */
  lemma StringLoopOpen(s: seq<char>, loc: Loc, text: string, width: nat, diags: seq<Diagnostic>)
    requires s != [] && !StringRound(s, loc).closed
    ensures var r := StringRound(s, loc);
      StringLoop(s, loc, text, width, diags) == StringLoop(s[r.width..], loc, text + r.text, width + r.width, diags + r.diags)
  {
  }

  /** The string after the opening quote: its characters, how many input
      characters it spans up to and including the closing quote, and what
      was logged on the way. */
  function StringBody(s: seq<char>, loc: Loc): (r: Result<Lexeme>)
    ensures r.Ok? ==> 0 < r.value.width <= |s|
  {
    StringLoopWidth(s, loc, [], 0, []);
    StringLoop(s, loc, [], 0, [])
  }

  // ---------------------------------------------------------------------
  // Numbers.

  /** The four digit sets: `binaries`, `octal`, `decimals`, `hexadecimals`. */
  datatype DigitSet = Binaries | Octal | Decimals | Hexadecimals

  /** The `n` consecutive characters from `lo`. */
  function CharRange(lo: char, n: nat): (r: string)
    requires lo as int + n <= 0xD800
    ensures |r| == n && forall i :: 0 <= i < n ==> r[i] as int == lo as int + i
  {
    if n == 0 then [] else CharRange(lo, n - 1) + [(lo as int + n - 1) as char]
  }

  /** The members of a digit set, each once. */
  function Members(d: DigitSet): (m: string)
    ensures forall i, j :: 0 <= i < j < |m| ==> m[i] != m[j]
  {
    match d
    case Binaries => CharRange('0', 2)
    case Octal => CharRange('0', 8)
    case Decimals => CharRange('0', 10)
    case Hexadecimals => CharRange('0', 10) + CharRange('a', 6) + CharRange('A', 6)
  }

  /** Membership in a digit set, by character ranges. */
  predicate InSet(c: char, d: DigitSet) {
    match d
    case Binaries => '0' <= c <= '1'
    case Octal => '0' <= c <= '7'
    case Decimals => '0' <= c <= '9'
    case Hexadecimals => '0' <= c <= '9' || 'a' <= c <= 'f' || 'A' <= c <= 'F'
  }

  lemma CharRangeMembers(lo: char, n: nat, c: char)
    requires lo as int + n <= 0xD800
    ensures c in CharRange(lo, n) <==> lo as int <= c as int < lo as int + n
  {
    if lo as int <= c as int < lo as int + n {
      assert CharRange(lo, n)[c as int - lo as int] == c;
    }
  }

  /** The ranges are exactly the members. */
  lemma InSetMembers(c: char, d: DigitSet)
    ensures InSet(c, d) <==> c in Members(d)
  {
    if d != Hexadecimals {
      CharRangeMembers('0', RadixOf(d), c);
    } else {
      CharRangeMembers('0', 10, c);
      CharRangeMembers('a', 6, c);
      CharRangeMembers('A', 6, c);
    }
  }

  /** `radixSet.size()`, the radix `completeToNumericToken` parses with: 2,
      8, 10, and 22 for the hexadecimal set, which holds both cases of the
      six letters. */
  function RadixOf(d: DigitSet): (radix: nat)
    ensures radix == |Members(d)|
    ensures d == Hexadecimals ==> radix == 22
  {
    match d
    case Binaries => 2
    case Octal => 8
    case Decimals => 10
    case Hexadecimals => 22
  }

  /** `isValidRadixIdentifier` */
  predicate IsRadixLetter(c: char) {
    c == 'b' || c == 'B' || c == 'x' || c == 'X' || c == 'o' || c == 'O'
  }

  /** `getDigitSet` */
  function DigitSetOf(c: char): DigitSet {
    if c == 'b' || c == 'B' then Binaries
    else if c == 'o' || c == 'O' then Octal
    else if c == 'x' || c == 'X' then Hexadecimals
    else Decimals
  }

  /** `Character.digit` on the hexadecimal set. */
  function DigitValue(c: char): nat {
    if '0' <= c <= '9' then c as int - '0' as int
    else if 'a' <= c <= 'f' then c as int - 'a' as int + 10
    else if 'A' <= c <= 'F' then c as int - 'A' as int + 10
    else 0
  }

  /** The value of `s` read in `radix`, most significant digit first. */
  function Value(s: string, radix: nat): nat {
    if s == [] then 0 else Value(s[..|s| - 1], radix) * radix + DigitValue(s[|s| - 1])
  }

  predicate AllIn(s: string, d: DigitSet) {
    forall i :: 0 <= i < |s| ==> InSet(s[i], d)
  }

  /** The characters the loop of `scanNumberByRadixSet` took, how many, and
      whether a '.' was among them. */
  datatype DigitRun = DigitRun(text: string, width: nat, fraction: bool)

  /** The loop of `scanNumberByRadixSet`. It stops at a character that is
      neither in the set nor '_' nor '.', and at a second '.'. A '.' after a
      radix prefix is reported over and over and the loop never ends. A '_'
      calls the token-level `consume`, which this model does not follow. */
  function DigitLoop(s: seq<char>, d: DigitSet, fraction: bool): (r: Result<DigitRun>)
    requires fraction ==> d == Decimals
    ensures r.Ok? ==> r.value.width == |r.value.text| <= |s| && r.value.text == s[..r.value.width]
    ensures r.Ok? ==> (fraction ==> r.value.fraction) && (r.value.fraction ==> d == Decimals)
    ensures r.Ok? && !r.value.fraction ==> AllIn(r.value.text, d)
    decreases |s|
  {
    var c := PeekChar(s);
    if !(InSet(c, d) || c == '_' || c == '.') then Ok(DigitRun([], 0, fraction))
    else if c == '_' then Fail(Unmodelled("digit separator"))
    else if c == '.' && d != Decimals then Fail(Diverges("fraction after a radix prefix"))
    else if c == '.' && fraction then Ok(DigitRun([], 0, fraction))
    else
      var r :- DigitLoop(s[1..], d, fraction || c == '.');
      Ok(DigitRun([c] + r.text, 1 + r.width, r.fraction))
  }

  /** `r` with `text` read before it; failures pass through. */
  function RunPrefixed(text: string, r: Result<DigitRun>): Result<DigitRun> {
    if r.Fail? then r else Ok(DigitRun(text + r.value.text, |text| + r.value.width, r.value.fraction))
  }

  lemma RunPrefixedNothing(r: Result<DigitRun>)
    ensures RunPrefixed([], r) == r
  {
    if r.Ok? {
      assert [] + r.value.text == r.value.text;
    }
  }

  /** One character taken by the loop. */
  lemma DigitLoopStep(s: seq<char>, d: DigitSet, fraction: bool, text: string)
    requires fraction ==> d == Decimals
    requires |s| > 0 && (InSet(s[0], d) || (s[0] == '.' && d == Decimals && !fraction))
    ensures RunPrefixed(text, DigitLoop(s, d, fraction))
         == RunPrefixed(text + [s[0]], DigitLoop(s[1..], d, fraction || s[0] == '.'))
  {
    var r := DigitLoop(s[1..], d, fraction || s[0] == '.');
    if r.Ok? {
      assert text + ([s[0]] + r.value.text) == (text + [s[0]]) + r.value.text;
    }
  }

  /** `completeToNumericToken`: a decimal literal with a fraction keeps its
      text as a FLOAT; otherwise the text is parsed in the set's radix. If
      the value fits an `int` it is an INTEGER written in decimal, else a
      FLOAT written in decimal (the `BigInteger` fallback). Text holding a
      character outside the set, which only a bad first digit can put
      there, makes both parses throw. */
  function NumericToken(text: string, fraction: bool, d: DigitSet, loc: Loc): Result<Token> {
    if d == Decimals && fraction then Ok(Token(loc, FLOAT, Some(text)))
    else if !AllIn(text, d) then Fail(Thrown("NumberFormatException"))
    else
      var v := Value(text, RadixOf(d));
      if v <= MaxInt then Ok(Token(loc, INTEGER, Some(IntText(v))))
      else Ok(Token(loc, FLOAT, Some(NatText(v))))
  }

  /** `b` to the power `n`. */
  function Power(b: nat, n: nat): nat {
    if n == 0 then 1 else Power(b, n - 1) * b
  }

  /** The radix a digit set is meant to be read in: the number of distinct
      digit values it holds, so 16 for the hexadecimal set, whose 22
      characters name only 16 values. */
  function IntendedRadix(d: DigitSet): (radix: nat)
    ensures radix <= RadixOf(d)
    ensures forall c :: InSet(c, d) ==> DigitValue(c) < radix
    ensures d != Hexadecimals ==> radix == RadixOf(d)
  {
    match d
    case Binaries => 2
    case Octal => 8
    case Decimals => 10
    case Hexadecimals => 16
  }

  /** Every value below the intended radix is the value of some digit of
      the set, so the radix counts the digit values exactly. */
  lemma IntendedRadixCountsDigits(d: DigitSet, v: nat)
    requires v < IntendedRadix(d)
    ensures exists c :: InSet(c, d) && DigitValue(c) == v
  {
    var c := if v < 10 then ('0' as int + v) as char else ('a' as int + v - 10) as char;
    assert InSet(c, d) && DigitValue(c) == v;
  }

  /** Read in the intended radix, a literal of `n` digits stays below
      `radix^n`, so every digit contributes its own place. */
  lemma {:induction false} IntendedValueBelowPower(s: string, d: DigitSet)
    requires AllIn(s, d)
    ensures Value(s, IntendedRadix(d)) < Power(IntendedRadix(d), |s|)
    decreases |s|
  {
    if s != [] {
      var r := IntendedRadix(d);
      var init := s[..|s| - 1];
      assert AllIn(init, d) by {
        forall i | 0 <= i < |init| ensures InSet(init[i], d) { assert init[i] == s[i]; }
      }
      IntendedValueBelowPower(init, d);
      assert InSet(s[|s| - 1], d);
      var p := Power(r, |s| - 1);
      assert Value(init, r) + 1 <= p;
      assert DigitValue(s[|s| - 1]) + 1 <= r;
      calc {
        Value(s, r) + 1;
        Value(init, r) * r + DigitValue(s[|s| - 1]) + 1;
      <= Value(init, r) * r + r;
        (Value(init, r) + 1) * r;
      <= { assert (Value(init, r) + 1) * r <= p * r; } p * r;
      }
    }
  }

  /** `completeToNumericToken` with the intended radix. */
  function IntendedNumericToken(text: string, fraction: bool, d: DigitSet, loc: Loc): (r: Result<Token>)
    ensures d != Hexadecimals ==> r == NumericToken(text, fraction, d, loc)
  {
    if d == Decimals && fraction then Ok(Token(loc, FLOAT, Some(text)))
    else if !AllIn(text, d) then Fail(Thrown("NumberFormatException"))
    else
      var v := Value(text, IntendedRadix(d));
      if v <= MaxInt then Ok(Token(loc, INTEGER, Some(IntText(v))))
      else Ok(Token(loc, FLOAT, Some(NatText(v))))
  }

  /** The hexadecimal literal `0xff` reads as 345 (fifteen twenty-twos and
      fifteen) and `0x10` as 22, where 255 and 16 are meant; the radix 22
      exceeds every digit value by more than one. */
  lemma HexReadInRadix22(loc: Loc)
    ensures NumericToken("ff", false, Hexadecimals, loc) == Ok(Token(loc, INTEGER, Some(IntText(345))))
    ensures IntendedNumericToken("ff", false, Hexadecimals, loc) == Ok(Token(loc, INTEGER, Some(IntText(255))))
    ensures NumericToken("10", false, Hexadecimals, loc) == Ok(Token(loc, INTEGER, Some(IntText(22))))
    ensures forall c :: InSet(c, Hexadecimals) ==> DigitValue(c) + 6 < RadixOf(Hexadecimals)
  {
    assert AllIn("ff", Hexadecimals);
    assert "ff"[..1] == "f" && "f"[..0] == [];
    assert Value("ff", 22) == 345 && Value("ff", 16) == 255;
    assert AllIn("10", Hexadecimals);
    assert "10"[..1] == "1" && "1"[..0] == [];
    assert Value("10", 22) == 22;
  }

  /** `scanDigit`: the first digit after a radix prefix. A '_' is taken as
      it is; a character outside the hexadecimal set is reported as a
      missing digit, one outside the radix's set as an invalid digit, and
      both are read as '\0' without being consumed. */
  function FirstDigit(s: seq<char>, d: DigitSet, loc: Loc): (r: Lexeme)
    ensures |r.text| == 1 && r.width <= 1 && r.width <= |s|
  {
    var c := PeekChar(s);
    if c == '_' then Lexeme([c], 1, [])
    else if !InSet(c, Hexadecimals) then Lexeme(['\0'], 0, [EM.MissingDigitOnRadixSpecs(loc)])
    else if !InSet(c, d) then Lexeme(['\0'], 0, [EM.InvalidDigitOnRadixSpecs(loc)])
    else Lexeme([c], 1, [])
  }

  /** A token and what reading it cost. */
  datatype Lexed = Lexed(token: Token, width: nat, diags: seq<Diagnostic>)

  /** `scanNumber` on input starting with a digit: a '0' followed by one of
      `bBoOxX` selects that radix's set and reads the first digit with
      `scanDigit`; then the loop, then `completeToNumericToken`. */
  function NumberToken(s: seq<char>, loc: Loc): (r: Result<Lexed>)
    requires |s| > 0 && IsDigit(s[0])
    ensures r.Ok? ==> 1 <= r.value.width <= |s|
  {
    if s[0] == '0' && IsRadixLetter(PeekChar(s[1..])) then
      var d := DigitSetOf(s[1]);
      var first := FirstDigit(s[2..], d, loc);
      var run :- DigitLoop(s[2 + first.width..], d, false);
      var t :- NumericToken(first.text + run.text, run.fraction, d, loc);
      Ok(Lexed(t, 2 + first.width + run.width, first.diags))
    else
      var run :- DigitLoop(s[1..], Decimals, false);
      var t :- NumericToken([s[0]] + run.text, run.fraction, Decimals, loc);
      Ok(Lexed(t, 1 + run.width, []))
  }

  // ---------------------------------------------------------------------
  // Operators.

  /** The first part of an operator: the character; for '<' a second and
      a third '<'; for '-' a '>'; for '>' a second '>'. */
  function OperatorHead(s: seq<char>): (n: nat)
    requires |s| > 0
    ensures 1 <= n <= 3 && n <= |s|
  {
    var c := s[0];
    if c == '<' && PeekChar(s[1..]) == '<' then (if PeekChar(s[2..]) == '<' then 3 else 2)
    else if (c == '-' || c == '>') && PeekChar(s[1..]) == if c == '-' then '>' else '>' then 2
    else 1
  }

  /** Then an '=', then, for '&' and '|', the same character again. */
  function OperatorLength(s: seq<char>): (n: nat)
    requires |s| > 0
    ensures 1 <= n <= 5 && n <= |s|
  {
    var h := OperatorHead(s);
    var e := if PeekChar(s[h..]) == '=' then h + 1 else h;
    if (s[0] == '&' || s[0] == '|') && PeekChar(s[e..]) == s[0] then e + 1 else e
  }

  /** `scanPossibleEqualOperation`: the lexeme it reads. */
  function Operator(s: seq<char>): (r: string)
    requires |s| > 0
    ensures 1 <= |r| <= |s| && r == s[..|r|] && r[0] == s[0]
  {
    s[..OperatorLength(s)]
  }

  // ---------------------------------------------------------------------
  // One token.

  /** The token `scan` produces from the input after whitespace and comments. */
  function TokenAt(t: seq<char>, loc: Loc): (r: Result<Lexed>)
    requires Available(t)
    ensures r.Ok? ==> 1 <= r.value.width <= |t| && r.value.token.loc == loc
    ensures r.Ok? ==> r.value.token.tag != EOF
  {
    if IsDigit(t[0]) then NumberToken(t, loc)
    else if t[0] == '"' then
      var body :- StringBody(t[1..], loc);
      Ok(Lexed(Token(loc, STRING, Some(body.text)), 1 + body.width, body.diags))
    else if IsLetter(t[0]) || t[0] == '_' then
      var x := t[..WordLength(t)];
      FromLexemNeverVariable(x);
      Ok(Lexed(Token(loc, FromLexem(x), Some(x)), |x|, []))
    else if IsSingleSpecial(t[0]) then
      FromLexemNeverVariable([t[0]]);
      Ok(Lexed(Token(loc, FromLexem([t[0]]), Some([t[0]])), 1, []))
    else if IsOperatorChar(t[0]) then
      var x := Operator(t);
      FromLexemNeverVariable(x);
      Ok(Lexed(Token(loc, FromLexem(x), Some(x)), |x|, []))
    else
      Ok(Lexed(Token(loc, ERROR, Some([t[0]])), 1, [EM.UnexpectedToken(loc, t[0])]))
  }

  /** What one `scan` does to the reader's input, the line counter and the
      logged messages, and what it returns: whitespace and comments are
      skipped, counting their '\n'; then an EOF token if the reader has no
      more, otherwise the token `TokenAt` reads there, on the line reached. A
      failure leaves the state unconstrained: the run ends there. */
  ghost predicate Scans(s0: seq<char>, line0: int, errors0: seq<Diagnostic>,
                        s1: seq<char>, line1: int, errors1: seq<Diagnostic>, r: Result<Token>)
  {
    var k := Skipped(s0);
    line1 == line0 + Newlines(s0[..k])
    && (!Available(s0[k..]) ==> s1 == s0[k..] && errors1 == errors0 && r == Ok(Token(Line(line1), EOF, None)))
    && (Available(s0[k..]) ==>
          var l := TokenAt(s0[k..], Line(line1));
          (l.Fail? ==> r == Fail(l.failure))
          && (l.Ok? ==> s1 == s0[k + l.value.width..] && errors1 == errors0 + l.value.diags
                        && r == Ok(l.value.token)))
  }

  // ---------------------------------------------------------------------
  // The scanner object.

  /** `rabbitc.Scanner`: the reader's remaining input, the line counter, the
      token `peek` has looked at (`current`), the stack of tokens handed back
      with `pushBack` (top last), and the messages passed to the logger.
      The character positions `startPos` and `endPos`, which only feed the
      columns of locations, are not kept. */
  class Scanner {
    var input: seq<char>
    var line: int
    var current: Option<Token>
    var pushedBack: seq<Token>
    var errors: seq<Diagnostic>

    constructor (text: seq<char>)
      ensures input == text && line == 1 && current == None && pushedBack == [] && errors == []
    {
      input := text;
      line := 1;
      current := None;
      pushedBack := [];
      errors := [];
    }

    /** `consumeChar` */
    method ConsumeChar() returns (c: char)
      modifies this`input
      ensures input == Rest(old(input)) && c == PeekChar(old(input))
    {
      c := PeekChar(input);
      input := Rest(input);
    }

    /** `skipWhitespace`: consumes the run of whitespace, counting the '\n'
        among it; answers whether it consumed anything. */
    method SkipWhitespace() returns (skipped: bool)
      modifies this`input, this`line
      ensures input == old(input)[Whitespace(old(input))..]
      ensures line == old(line) + Newlines(old(input)[..Whitespace(old(input))])
      ensures skipped <==> Whitespace(old(input)) > 0
    {
      ghost var s0 := input;
      ghost var i := 0;
      skipped := false;
      var c := PeekChar(input);
      while IsWhitespace(c)
        invariant 0 <= i <= |s0| && input == s0[i..] && c == PeekChar(input)
        invariant i + Whitespace(input) == Whitespace(s0)
        invariant line == old(line) + Newlines(s0[..i])
        invariant skipped <==> i > 0
        decreases |input|
      {
        skipped := true;
        assert s0[..i + 1][..i] == s0[..i];
        if c == '\n' {
          line := line + 1;
        }
        c := ConsumeChar();
        i := i + 1;
        c := PeekChar(input);
      }
    }

    /** The loop of a line comment. */
    method SkipLineCommentBody()
      modifies this`input
      ensures input == old(input)[LineCommentBody(old(input))..]
    {
      ghost var s0 := input;
      ghost var i := 0;
      while Available(input) && PeekChar(input) != '\n'
        invariant 0 <= i <= |s0| && input == s0[i..]
        invariant i + LineCommentBody(input) == LineCommentBody(s0)
        decreases |input|
      {
        var c := ConsumeChar();
        i := i + 1;
      }
    }

    /** The do-while loop of a block comment, counting the '\n' consumed. */
    method SkipBlockCommentBody()
      modifies this`input, this`line
      ensures input == old(input)[BlockCommentBody(old(input))..]
      ensures line == old(line) + Newlines(old(input)[..BlockCommentBody(old(input))])
    {
      ghost var s0 := input;
      ghost var i := 0;
      var more := true;
      while more
        invariant 0 <= i <= |s0| && input == s0[i..]
        invariant more ==> i + BlockCommentBody(input) == BlockCommentBody(s0)
        invariant !more ==> i == BlockCommentBody(s0)
        invariant line == old(line) + Newlines(s0[..i])
        decreases |input|, more
      {
        ghost var before := input;
        var first := ConsumeChar();
        if input != before {
          assert s0[..i + 1][..i] == s0[..i];
          i := i + 1;
        }
        if first == '\n' {
          line := line + 1;
        } else if first == '*' && PeekChar(input) == '/' {
          assert s0[..i + 1][..i] == s0[..i];
          first := ConsumeChar();
          i := i + 1;
          more := false;
        }
        if more {
          more := Available(input);
        }
      }
    }

    /** `skipComment`: a line or block comment, or nothing (the character
        read is pushed back). */
    method SkipComment() returns (skipped: bool)
      modifies this`input, this`line
      ensures input == old(input)[Comment(old(input))..]
      ensures line == old(line) + Newlines(old(input)[..Comment(old(input))])
      ensures skipped <==> Comment(old(input)) > 0
    {
      ghost var s0 := input;
      var first := PeekChar(input);
      if first == '/' && PeekChar(Rest(input)) == '/' {
        input := input[2..];
        SkipLineCommentBody();
        skipped := true;
        assert Newlines(s0[..Comment(s0)]) == 0 by {
          LineCommentRun(s0[2..]);
          NoNewlines(s0[..Comment(s0)]);
        }
      } else if first == '/' && PeekChar(Rest(input)) == '*' {
        input := input[2..];
        ghost var line0 := line;
        SkipBlockCommentBody();
        skipped := true;
        assert s0[..Comment(s0)] == s0[..2] + s0[2..][..BlockCommentBody(s0[2..])];
        NewlinesAppend(s0[..2], s0[2..][..BlockCommentBody(s0[2..])]);
        NoNewlines(s0[..2]);
      } else {
        skipped := false;
        assert s0[..Comment(s0)] == [];
      }
    }
 
    /** One round of `skipWhitespace() || skipComment()` at position `i`
        of `s0`: `n` characters consumed. */
    method SkipRound(ghost s0: seq<char>, ghost i: nat) returns (n: nat)
      requires i <= |s0| && input == s0[i..]
      modifies this`input, this`line
      ensures i + n <= |s0| && input == s0[i + n..]
      ensures line - Newlines(s0[..i + n]) == old(line) - Newlines(s0[..i])
      ensures n > 0 ==> Skipped(s0[i..]) == n + Skipped(s0[i + n..])
      ensures n == 0 ==> Skipped(s0[i..]) == 0
    {
      var length := |input|;
      var skipped := SkipWhitespace();
      if !skipped {
        skipped := SkipComment();
      }
      n := length - |input|;
      CountSkipped(s0, i, n);
      DropDrop(s0, i, n);
    }

    /** `skipWhitespaceAndComments` */
    method SkipWhitespaceAndComments()
      modifies this`input, this`line
      ensures input == old(input)[Skipped(old(input))..]
      ensures line == old(line) + Newlines(old(input)[..Skipped(old(input))])
    {
      ghost var s0 := input;
      ghost var i: nat := 0;
      var more := true;
      while more
        invariant i <= |s0| && input == s0[i..]
        invariant more ==> i + Skipped(s0[i..]) == Skipped(s0)
        invariant !more ==> i == Skipped(s0)
        invariant line - Newlines(s0[..i]) == old(line)
        decreases |input|, more
      {
        ghost var rest := Skipped(s0[i..]);
        var n := SkipRound(s0, i);
        assert n > 0 ==> rest == n + Skipped(s0[i + n..]);
        assert n == 0 ==> rest == 0;
        i := i + n;
        more := n > 0;
      }
    }

    /** `scanIdentifierOrKeyword`: the word at the input, tagged by
        `fromLexem`. */
    method ScanIdentifierOrKeyword() returns (t: Token)
      requires Available(input) && (IsLetter(input[0]) || input[0] == '_')
      modifies this`input
      ensures input == old(input)[WordLength(old(input))..]
      ensures var x := old(input)[..WordLength(old(input))];
        t == Token(Line(line), FromLexem(x), Some(x))
    {
      ghost var s0 := input;
      ghost var i := 0;
      var buffer := "";
      var c := PeekChar(input);
      while IsWordChar(c)
        invariant 0 <= i <= |s0| && input == s0[i..] && buffer == s0[..i] && c == PeekChar(input)
        invariant i + WordLength(input) == WordLength(s0)
        invariant IsWordChar(c) ==> Available(input)
        decreases |input|
      {
        ghost var rest := WordLength(input);
        assert rest == 1 + WordLength(input[1..]);
        buffer := buffer + [c];
        assert buffer == s0[..i + 1];
        c := ConsumeChar();
        i := i + 1;
        if !Available(input) {
          break;
        }
        c := PeekChar(input);
      }
      assert WordLength(input) == 0;
      t := Token(Line(line), FromLexem(buffer), Some(buffer));
    }

    /** `scanNextStringChar` */
    method ScanNextStringChar() returns (c: char)
      modifies this`input, this`errors
      ensures var n := NextStringChar(old(input));
        input == old(input)[n.width..] && c == n.c
        && errors == old(errors) + EscapeDiags(n, Line(line))
    {
      c := ConsumeChar();
      if c == '\\' {
        c := ConsumeChar();
        if c == 'n' {
          c := '\n';
        } else if c == 'b' {
          c := '\U{0008}';
        } else if c == 't' {
          c := '\t';
        } else if c != '\\' && c != '"' {
          errors := errors + [EM.InvalidEscapeCharacter(Line(line))];
          c := '\0';
        }
      }
    }

    /** One round of the do-while loop of `scanString`: the next string
        character, which closes the string if it is read as '"'; otherwise a
        missing quote is logged if the reader has no more, and a '"' next
        is consumed and closes the string. */
    method ScanStringRound(loc: Loc, buffer: string) returns (next: string, closed: bool)
      requires input != [] && loc == Line(line)
      modifies this`input, this`errors
      ensures var r := StringRound(old(input), loc);
        input == old(input)[r.width..] && errors == old(errors) + r.diags && closed == r.closed
        && next == buffer + r.text
    {
      var c := ScanNextStringChar();
      if c == '"' {
        assert buffer + [] == buffer;
        return buffer, true;
      }
      next := buffer + [c];
      if !Available(input) {
        errors := errors + [EM.MissingSymbol(loc, "\"")];
      }
      closed := PeekChar(input) == '"';
      if closed {
        var quote := ConsumeChar();
        DropDrop(old(input), NextStringChar(old(input)).width, 1);
      }
    }

    /** The do-while loop of `scanString`. Where the source would loop for
        ever (the input ends before the closing quote) the method stops and
        answers that failure. */
    method ScanStringBody(loc: Loc) returns (r: Result<Lexeme>)
      requires loc == Line(line)
      modifies this`input, this`errors
      ensures r == StringBody(old(input), loc)
      ensures r.Ok? ==> input == old(input)[r.value.width..] && errors == old(errors) + r.value.diags
    {
      ghost var s1 := input;
      var length := |input|;
      var logged := |errors|;
      var buffer := "";
      ghost var i: nat := 0;
      ghost var diags: seq<Diagnostic> := [];
      ghost var body := StringBody(s1, loc);
      while true
        invariant i <= |s1| && input == s1[i..] && length == |s1|
        invariant errors == old(errors) + diags && logged == |old(errors)|
        invariant body == StringLoop(input, loc, buffer, i, diags)
        decreases |input|
      {
        if input == [] {
          return Fail(Diverges("unterminated string"));
        }
        ghost var round := StringRound(input, loc);
        if round.closed {
          StringLoopClosed(input, loc, buffer, i, diags);
        } else {
          StringLoopOpen(input, loc, buffer, i, diags);
        }
        DropDrop(s1, i, round.width);
        AppendAssoc(old(errors), diags, round.diags);
        var closed;
        buffer, closed := ScanStringRound(loc, buffer);
        i := i + round.width;
        diags := diags + round.diags;
        if closed {
          DropAppend(old(errors), diags);
          assert length - |input| == i && errors[logged..] == diags;
          return Ok(Lexeme(buffer, length - |input|, errors[logged..]));
        }
      }
    }

    /** `scanString`, on input starting with '"': a STRING token holding the
        characters read. */
    method ScanString() returns (r: Result<Token>)
      requires |input| > 0 && input[0] == '"'
      modifies this`input, this`errors
      ensures var b := StringBody(old(input)[1..], Line(line));
        (b.Fail? ==> r == Fail(b.failure))
        && (b.Ok? ==> input == old(input)[1 + b.value.width..] && errors == old(errors) + b.value.diags
                      && r == Ok(Token(Line(line), STRING, Some(b.value.text))))
    {
      var quote := ConsumeChar();
      var body := ScanStringBody(Line(line));
      if body.Fail? {
        return Fail(body.failure);
      }
      DropDrop(old(input), 1, body.value.width);
      r := Ok(Token(Line(line), STRING, Some(body.value.text)));
    }
 
    /** `scanDigit` */
    method ScanDigit(d: DigitSet) returns (c: char)
      modifies this`input, this`errors
      ensures var f := FirstDigit(old(input), d, Line(line));
        input == old(input)[f.width..] && errors == old(errors) + f.diags && [c] == f.text
    {
      c := PeekChar(input);
      if c != '_' {
        if !InSet(c, Hexadecimals) {
          errors := errors + [EM.MissingDigitOnRadixSpecs(Line(line))];
          return '\0';
        }
        if !InSet(c, d) {
          errors := errors + [EM.InvalidDigitOnRadixSpecs(Line(line))];
          return '\0';
        }
      }
      c := ConsumeChar();
    }

    /** `scanNumberByRadixSet`: the loop, then `completeToNumericToken` on
        `buffer` followed by what the loop read. Where the source would loop
        for ever (a '.' after a radix prefix) or call the token-level
        `consume` (a '_'), the method stops and answers that. */
    method ScanNumberByRadixSet(buffer: string, d: DigitSet) returns (r: Result<Token>)
      modifies this`input
      ensures var run := DigitLoop(old(input), d, false);
        (run.Fail? ==> r == Fail(run.failure))
        && (run.Ok? ==> input == old(input)[run.value.width..]
                        && r == NumericToken(buffer + run.value.text, run.value.fraction, d, Line(line)))
    {
      ghost var s0 := input;
      var fraction := false;
      var text := "";
      var c := PeekChar(input);
      RunPrefixedNothing(DigitLoop(s0, d, false));
      while InSet(c, d) || c == '_' || c == '.'
        invariant |text| <= |s0| && input == s0[|text|..] && c == PeekChar(input)
        invariant fraction ==> d == Decimals
        invariant DigitLoop(s0, d, false) == RunPrefixed(text, DigitLoop(input, d, fraction))
        decreases |input|
      {
        if c == '_' {
          return Fail(Unmodelled("digit separator"));
        }
        if c == '.' {
          if d != Decimals {
            return Fail(Diverges("fraction after a radix prefix"));
          }
          if fraction {
            break;
          }
        }
        DigitLoopStep(input, d, fraction, text);
        fraction := fraction || c == '.';
        text := text + [c];
        c := ConsumeChar();
        c := PeekChar(input);
      }
      assert text + [] == text;
      r := NumericToken(buffer + text, fraction, d, Line(line));
    }

    /** `scanNumber`, on input starting with a digit. */
    method ScanNumber() returns (r: Result<Token>)
      requires |input| > 0 && IsDigit(input[0])
      modifies this`input, this`errors
      ensures var n := NumberToken(old(input), Line(line));
        (n.Fail? ==> r == Fail(n.failure))
        && (n.Ok? ==> input == old(input)[n.value.width..] && errors == old(errors) + n.value.diags
                      && r == Ok(n.value.token))
    {
      if input[0] == '0' && IsRadixLetter(PeekChar(input[1..])) {
        r := ScanRadixNumber();
      } else {
        ghost var s0 := input;
        var c := ConsumeChar();
        ghost var run := DigitLoop(input, Decimals, false);
        r := ScanNumberByRadixSet([c], Decimals);
        if run.Ok? {
          DropDrop(s0, 1, run.value.width);
          assert input == s0[1 + run.value.width..];
          assert r == NumericToken([s0[0]] + run.value.text, run.value.fraction, Decimals, Line(line));
        }
        assert errors == old(errors) + [];
      }
    }

    /** `scanNumber` on a '0' and a radix letter. */
    method ScanRadixNumber() returns (r: Result<Token>)
      requires |input| > 1 && input[0] == '0' && IsRadixLetter(input[1])
      modifies this`input, this`errors
      ensures var n := NumberToken(old(input), Line(line));
        (n.Fail? ==> r == Fail(n.failure))
        && (n.Ok? ==> input == old(input)[n.value.width..] && errors == old(errors) + n.value.diags
                      && r == Ok(n.value.token))
    {
      ghost var s0 := input;
      var c := ConsumeChar();
      var letter := ConsumeChar();
      var d := DigitSetOf(letter);
      ghost var afterPrefix := input;
      c := ScanDigit(d);
      ghost var first := FirstDigit(afterPrefix, d, Line(line));
      DropDrop(s0, 2, first.width);
      ghost var run := DigitLoop(input, d, false);
      r := ScanNumberByRadixSet([c], d);
      if run.Ok? {
        DropDrop(s0, 2 + first.width, run.value.width);
      }
    }

    /** The first part of `scanPossibleEqualOperation`: the character and
        what may follow it before an '='. */
    method ScanOperatorHead(c: char) returns (lexem: string)
      requires |input| > 0 && input[0] == c
      modifies this`input
      ensures |lexem| == OperatorHead(old(input)) && lexem == old(input)[..|lexem|]
      ensures input == old(input)[|lexem|..]
    {
      ghost var s0 := input;
      lexem := [c];
      var next := ConsumeChar();
      if c == '<' && PeekChar(input) == '<' {
        next := ConsumeChar();
        lexem := lexem + [next];
        if PeekChar(input) == '<' {
          next := ConsumeChar();
          lexem := lexem + [next];
        }
      }
      if c == '-' && PeekChar(input) == '>' {
        next := ConsumeChar();
        lexem := lexem + [next];
      } else if c == '>' && PeekChar(input) == '>' {
        next := ConsumeChar();
        lexem := lexem + [next];
      }
    }

    /** `scanPossibleEqualOperation`, on input starting with `c`. */
    method ScanPossibleEqualOperation(c: char) returns (t: Token)
      requires |input| > 0 && input[0] == c
      modifies this`input
      ensures var x := Operator(old(input));
        input == old(input)[|x|..] && t == Token(Line(line), FromLexem(x), Some(x))
    {
      ghost var s0 := input;
      var lexem := ScanOperatorHead(c);
      var next;
      if PeekChar(input) == '=' {
        next := ConsumeChar();
        lexem := lexem + [next];
      }
      assert lexem == s0[..|lexem|] && input == s0[|lexem|..];
      if c == '&' && PeekChar(input) == '&' {
        next := ConsumeChar();
        lexem := lexem + [next];
      } else if c == '|' && PeekChar(input) == '|' {
        next := ConsumeChar();
        lexem := lexem + [next];
      }
      assert |lexem| == OperatorLength(s0) && lexem == Operator(s0);
      t := Token(Line(line), FromLexem(lexem), Some(lexem));
    }

    /** `scanSpecial`: a one-character token, an operator, or nothing. */
    method ScanSpecial() returns (t: Option<Token>)
      requires |input| > 0
      modifies this`input
      ensures IsSingleSpecial(old(input)[0]) ==>
        input == old(input)[1..] && t == Some(Token(Line(line), FromLexem([old(input)[0]]), Some([old(input)[0]])))
      ensures !IsSingleSpecial(old(input)[0]) && IsOperatorChar(old(input)[0]) ==>
        var x := Operator(old(input)); input == old(input)[|x|..] && t == Some(Token(Line(line), FromLexem(x), Some(x)))
      ensures !IsSingleSpecial(old(input)[0]) && !IsOperatorChar(old(input)[0]) ==> input == old(input) && t == None
    {
      var c := PeekChar(input);
      if IsSingleSpecial(c) {
        c := ConsumeChar();
        var lexem := [c];
        return Some(Token(Line(line), FromLexem(lexem), Some(lexem)));
      } else if IsOperatorChar(c) {
        var token := ScanPossibleEqualOperation(c);
        return Some(token);
      }
      return None;
    }

    /** The part of `scan` after whitespace and comments, when the reader
        has more: a number, a string, a word, a special token, or an ERROR
        token for any other character, which is reported. */
    method ScanToken() returns (r: Result<Token>)
      requires Available(input)
      modifies this`input, this`errors
      ensures var l := TokenAt(old(input), Line(line));
        (l.Fail? ==> r == Fail(l.failure))
        && (l.Ok? ==> input == old(input)[l.value.width..] && errors == old(errors) + l.value.diags
                      && r == Ok(l.value.token))
    {
      var c := PeekChar(input);
      if IsDigit(c) {
        r := ScanNumber();
      } else if c == '"' {
        r := ScanString();
      } else if IsLetter(c) || c == '_' {
        var token := ScanIdentifierOrKeyword();
        r := Ok(token);
        assert errors == old(errors) + [];
      } else {
        var special := ScanSpecial();
        if special.Some? {
          r := Ok(special.value);
          assert errors == old(errors) + [];
        } else {
          c := ConsumeChar();
          errors := errors + [EM.UnexpectedToken(Line(line), c)];
          r := Ok(Token(Line(line), ERROR, Some([c])));
        }
      }
    }

    /** `scan`, as the `Scans` relation states it. */
    method Scan() returns (r: Result<Token>)
      modifies this`input, this`line, this`errors
      ensures Scans(old(input), old(line), old(errors), input, line, errors, r)
    {
      SkipWhitespaceAndComments();
      if !Available(input) {
        return Ok(Token(Line(line), EOF, None));
      }
      ghost var l := TokenAt(input, Line(line));
      r := ScanToken();
      if l.Ok? {
        DropDrop(old(input), Skipped(old(input)), l.value.width);
      }
    }

    /** `peek`: the current token, scanned first when there is none. */
    method Peek() returns (r: Result<Token>)
      modifies this`input, this`line, this`errors, this`current
      ensures old(current).Some? ==>
        r == Ok(old(current).value) && current == old(current)
        && input == old(input) && line == old(line) && errors == old(errors)
      ensures old(current).None? ==>
        Scans(old(input), old(line), old(errors), input, line, errors, r)
        && current == (if r.Ok? then Some(r.value) else None)
      ensures pushedBack == old(pushedBack)
    {
      if current.None? {
        r := Scan();
        if r.Ok? {
          current := Some(r.value);
        }
      } else {
        r := Ok(current.value);
      }
    }

    /** `consume`: with no current token, the scanned token becomes current
        and is returned without moving past it; otherwise the current token
        is returned and the next one is popped from the pushed-back stack or,
        when that is empty, scanned. */
    method Consume() returns (r: Result<Token>)
      modifies this`input, this`line, this`errors, this`current, this`pushedBack
      ensures old(current).None? ==>
        Scans(old(input), old(line), old(errors), input, line, errors, r)
        && current == (if r.Ok? then Some(r.value) else None) && pushedBack == old(pushedBack)
      ensures old(current).Some? && old(pushedBack) != [] ==>
        r == Ok(old(current).value) && current == Some(old(pushedBack)[|old(pushedBack)| - 1])
        && pushedBack == old(pushedBack)[..|old(pushedBack)| - 1]
        && input == old(input) && line == old(line) && errors == old(errors)
      ensures old(current).Some? && old(pushedBack) == [] ==>
        pushedBack == [] &&
        exists next :: Scans(old(input), old(line), old(errors), input, line, errors, next)
          && (next.Ok? ==> r == Ok(old(current).value) && current == Some(next.value))
          && (next.Fail? ==> r == next)
    {
      if current.None? {
        r := Scan();
        if r.Ok? {
          current := Some(r.value);
        }
        return;
      }
      var ret := current.value;
      if pushedBack == [] {
        var next := Scan();
        if next.Fail? {
          return next;
        }
        current := Some(next.value);
      } else {
        current := Some(pushedBack[|pushedBack| - 1]);
        pushedBack := pushedBack[..|pushedBack| - 1];
      }
      r := Ok(ret);
    }

    /** `pushBack`: the current token goes onto the stack and `token`
        becomes current. With no current token, `ArrayDeque.push(null)`
        throws and nothing changes. */
    method PushBack(token: Token) returns (s: Status)
      modifies this`current, this`pushedBack
      ensures old(current).None? ==>
        s == Threw(Thrown("NullPointerException")) && current == old(current) && pushedBack == old(pushedBack)
      ensures old(current).Some? ==>
        s == Completed && current == Some(token) && pushedBack == old(pushedBack) + [old(current).value]
    {
      if current.None? {
        return Threw(Thrown("NullPointerException"));
      }
      pushedBack := pushedBack + [current.value];
      current := Some(token);
      s := Completed;
    }

    /** `hasNext`: whether `peek` is at the EOF token, which is the opposite
        of what the name says. */
    method HasNext() returns (r: Result<bool>)
      modifies this`input, this`line, this`errors, this`current
      ensures old(current).Some? ==> r == Ok(old(current).value.tag == EOF) && current == old(current)
      ensures old(current).None? ==>
        exists t :: Scans(old(input), old(line), old(errors), input, line, errors, t)
          && (t.Fail? ==> r == Fail(t.failure)) && (t.Ok? ==> r == Ok(t.value.tag == EOF))
    {
      var t := Peek();
      if t.Fail? {
        return Fail(t.failure);
      }
      r := Ok(t.value.tag == EOF);
    }
  }
}
