# Rabbit compiler core, modelled in Dafny

This project models the core of Rabbit, a compiler written in Java for a
small language with structs, templates, implementations and native
functions. The modelled pipeline takes a program from source text to its
output:

- the scanner turns the text into tokens;
- the parser builds a syntax tree by recursive descent and precedence
  climbing;
- three checkers run over the tree: the main-function checker, the type
  checker and the dangling-reference checker;
- the constant folder optimizes the tree, pass after pass;
- the generator fills an intermediate representation (functions, structs
  and a constant pool);
- two targets write that IR: the binary bytecode writer and the text
  disassembler;
- a separate back end prints the tree as C source;
- the driver ties these steps together and turns the logged errors into
  an exit code.

Every operation is stated against a specification, and what the source
promises is proved about that specification.

## Layout

One Dafny module per component. Each module follows its source's own
form. Code that changes state step by step becomes a class with fields
and methods that carry `modifies` clauses and loop invariants. Code that
only computes becomes datatypes, functions and lemmas.

| file | module | models |
|---|---|---|
| wrappers.dfy | Wrappers, Diags | `Result`/`Option`/`Status`; diagnostics with a line-only location |
| int32.dfy | Int32 | Java `int` arithmetic: 32-bit wrap, truncating `/` and `%`, shift counts masked to five bits |
| decimal.dfy | Decimal | `Integer.toString` and reading it back |
| hashmaps.dfy | HashMaps | `HashMap` iteration in an order left open |
| tokens.dfy | Tokens | `TokenKind`, `Token` |
| scanner.dfy | Scanning | `Scanner` over `UnicodeReader` |
| precedence.dfy | Precedence | `PrecedenceCalculator` |
| climbing.dfy | Climbing | precedence climbing over any operator table |
| parser.dfy | Parsing | `RabbitParser` |
| ast.dfy, operation.dfy, types.dfy | Ast, Operations, Types | the syntax tree, `Operation`, the type descriptors |
| treescanner.dfy | TreeScanning | `TreeScanner` with no overrides |
| trees.dfy | Trees | `Trees`: the mutable tree the optimizer rewrites |
| folder.dfy | Folding | `Optimizer` and `ConstantFolder` |
| scopes.dfy | Scopes | the four scope kinds and their finders |
| errors.dfy | ErrorMessages | `Errors` |
| typerules.dfy, typechecker.dfy | TypeRules, TypeChecking | `TypeChecker`: the pure typing rules and the stateful registration and statement visits |
| mainchecker.dfy | MainChecker | `MainFunctionChecker` |
| dangling.dfy | Dangling | `DanglingChecker` |
| ir.dfy, pool.dfy, opcode.dfy | IR, Pools, Opcodes | `Function`, `Struct`, `IRMediator`, the instructions; `Pool`, `PoolConstant`; `Opcode` |
| generator.dfy | Generation | `Generator` |
| bytecode.dfy | Bytecode | `RabbitBytecodeV1` |
| printing.dfy | Printing | text written by code that may throw half-way |
| disassembler.dfy | Disassembly | `RabbitBytecodeDisV1` |
| transpiler.dfy | Transpile | `CTranspiler` |
| compiler.dfy | Compiler | `RabbitCompiler` and its `LoggerAdapter` |

## How the source is represented

- **Java `null`.** A `null` child of the tree is `MissingExpr` or
  `MissingStmt`. A `null` type or scope is `None`.
- **Exceptions.** A Java exception is a `Fail(Thrown(name))` result, or a
  `Threw` status that every caller passes on. Two kinds of input do not
  end at all in the source, and these are `Fail(Diverges(...))`:
  - an unterminated string;
  - a `.` after a radix prefix.
- **Output streams.** An output stream is the sequence it has received.
  The bytecode writer and both text back ends can throw half-way. A
  printout is therefore the text written so far, together with whether
  the write ran to its end.
- **Tree identity.** The optimizer compares children by reference and
  rewrites them in place. So the optimized tree is an arena of nodes
  addressed by index, and a replacement is a write to the owner's slot.
- **Shared references.** The dangling checker's references are shared
  between variable entries, so they live in arenas too.
- **Float arithmetic.** It is a parameter: `FloatArith` in the folder,
  `floatText` in the text back ends. A float is its bit pattern.
- **The C back end's resolver.** The C back end owns a type checker, the
  resolver.
  - For a `let` without a type, the resolver is asked for the type of the
    initializer with a `null` scope. This is the type rules of
    `TypeRules.TypeOf` under a `None` scope.
  - A missing initializer is dereferenced and throws. So does any
    variable the visit reaches, because its lookup dereferences the
    `null` scope.
  - The resolver is never given a logger. So any error it logs throws a
    `NullPointerException` too.
  - The root visit runs the resolver over the whole tree first. When that
    check fails or logs an error, nothing is written.

## Behaviour reproduced as written

The model does what the code does, including these behaviours:

- **Hexadecimal radix.** A hexadecimal literal is read in radix 22, the
  size of the digit set: `0xff` is 345.
- **Reader edge cases.**
  - Past the end of the input, the reader answers U+FFFF.
  - A 0xFF byte looks like the end of the input to every rule that asks
    `hasNext`.
- **Parser quirks.**
  - The generic-argument loop never consumes the `,`.
  - `-a + b` parses as `-(a + b)`.
  - An `as T` ends the postfix chain.
- **Type matching.** The generic-count guard compares a type with itself.
  A type with more generics therefore matches, and one with fewer throws.
- **Releasing a primitive** is reported as "ca not release primitive
  type".
- **The main-function checker** returns after the first `main`. So the
  multiple-main error is never reported.
- **The dangling-reference checker** is modelled as written, but the
  driver does not run it: the call is commented out.
- **The folder** replaces a variable by its `let` initializer tree itself.
  This shares that subtree, and it can make a node its own descendant.
- **The generator.**
  - It inserts the int-to-float conversion of a left operand after the
    first instruction of that operand, not after the whole operand.
  - Inside an implementation, every variable loads slot 0.
- **The bytecode writer.**
  - A `//` operation has no opcode and throws.
  - The entry point, the pool size and the counts are written as a single
    low byte.
  - A string's length prefix counts UTF-16 units, not bytes.
- **The disassembler** prints the minor version under the label "major".
- **The C back end.**
  - A do-while prints its condition between the braces and its body
    inside `while(...)`.
  - A nested block prints without braces.

The "## Findings" table below lists the behaviours that are evidently
unintended. Beside each as-written definition, the model carries a
corrected one, and the intended property is proved about it. The rest of
the model follows the code as written.

## Model

| member | source | states |
|---|---|---|
| Tokens.SpelledName | src/rabbitc/TokenKind.java:7-77 | every kind with a fixed spelling is read back to itself by the spelling lookup, so no two kinds share a spelling |
| Tokens.NameInjective | src/rabbitc/TokenKind.java:83-89 | two kinds with the same non-null `name` are the same kind |
| Tokens.ValuesComplete | src/rabbitc/TokenKind.java:7-80 | every kind is in the list `values()` runs through |
| Tokens.FromLexemName | src/rabbitc/TokenKind.java:91-96 | `fromLexem(k.name)` is `k` for every kind with a spelling |
| Tokens.FromLexemSpec | src/rabbitc/TokenKind.java:91-96 | the result differs from IDENTIFIER exactly when some kind is spelled like the lexeme, and is then that kind |
| Tokens.FromLexemNeverVariable | src/rabbitc/TokenKind.java:91-96 | `fromLexem` never yields a literal kind, EOF or ERROR |
| Tokens.HasTagSpec | src/computil/parse/Token.java:13-19 | `hasTag` holds iff the token's tag is the first argument or one of the rest |
| Tokens.HasTagOrderIrrelevant | src/computil/parse/Token.java:13-19 | permuting the alternatives does not change the answer |
| Operations.Search | src/computil/tree/Operation.java:33-38 | the first operation whose encoding is the name, or the `AssertionError` when none is |
| Operations.ValuesComplete | src/computil/tree/Operation.java:5-23 | every operation is in the list `values()` runs through |
| Operations.EncodingInjective | src/computil/tree/Operation.java:5-29 | no two operations share an encoding |
| Operations.OfEncoding | src/computil/tree/Operation.java:33-38 | `of(o.encoding) == o` for every operation |
| Operations.OfSound | src/computil/tree/Operation.java:33-38 | `of` succeeds exactly on the nineteen encodings |
| Operations.WithoutAssignPlain | src/computil/tree/Operation.java:40-43 | without a trailing `=`, `withoutAssign` is `of` |
| Operations.WithoutAssignOf | src/computil/tree/Operation.java:40-43 | with a trailing `=`, `withoutAssign` is `of` of the name minus its last character |
| Operations.WithoutAssignUnsignedShift | src/computil/tree/Operation.java:40-43 | `withoutAssign(">>>=")` throws: `>>>` encodes nothing |
| Operations.WithoutAssignLessEq | src/computil/tree/Operation.java:40-43 | `withoutAssign("<=")` is LESS, not LESS_EQ |
| Operations.WithoutAssignEquals | src/computil/tree/Operation.java:40-43 | `withoutAssign("==")` throws, because `=` alone encodes nothing |
| Precedence.Calculate | src/rabbitc/PrecedenceCalculator.java:53-57 | the table value for a binary operator, `IllegalStateException` for any other tag |
| Precedence.PlainSpelling | src/rabbitc/PrecedenceCalculator.java:77-82 | each plain operator tag is spelled like the encoding of the operation `of` finds for it |
| Precedence.ApplyPlain | src/rabbitc/PrecedenceCalculator.java:77-82 | a plain operator builds the binary operation its spelling denotes, over exactly the two operands, at the operator's location |
| Precedence.ApplyOperator | src/rabbitc/PrecedenceCalculator.java:63-86 | on a tag that is neither `=` nor a compound assignment, `apply` builds the binary operation its name denotes |
| Precedence.PlainIsNoAssignment | src/rabbitc/PrecedenceCalculator.java:67-82 | no plain operator tag is an assignment tag |
| Precedence.ApplyCompound | src/rabbitc/PrecedenceCalculator.java:69-75 | `x op= y` becomes `x = x op y` with the same operand on both sides; `^=` becomes the XOR of the two |
| Precedence.ApplyUnsignedShiftThrows | src/rabbitc/PrecedenceCalculator.java:46-47 | `>>>=` has a precedence but `apply` throws on it |
| Precedence.BinaryOperators | src/rabbitc/PrecedenceCalculator.java:16-48 | the binary operator tags are the plain operators, `.`, `=` and the compound assignments except `&=` and `\|=` |
| Precedence.ApplySucceeds | src/rabbitc/PrecedenceCalculator.java:63-86 | `apply` succeeds exactly on `=`, the plain operators and the compound assignments other than `>>>=`; it rejects `.` |
| Precedence.ZeroExactlyForAssignments | src/rabbitc/PrecedenceCalculator.java:37-47 | a table entry is zero exactly for the assignment tags |
| Precedence.PrecedenceOrdering | src/rabbitc/PrecedenceCalculator.java:17-36 | the table orders multiplication above addition above shifts above relations above equality above the bit operators, and `&&` below `\|\|` |
| Climbing.Climb | src/rabbitc/RabbitParser.java:519-537 | the expression the outer loop of `parseExpression(lhs, min)` builds over a list of operator/operand steps, with the number of steps it uses (never more than given) |
| Climbing.Inner | src/rabbitc/RabbitParser.java:526-533 | the inner loop: the right operand absorbs every following operator that binds tighter, through a nested climb |
| Climbing.ClimbExtend | src/rabbitc/RabbitParser.java:519-537 | steps appended after the point where a climb stopped do not change its result |
| Climbing.InnerExtend | src/rabbitc/RabbitParser.java:526-533 | steps appended to the inner loop that do not bind tighter are not absorbed |
| Climbing.ClimbFinish | src/rabbitc/RabbitParser.java:519-537 | when the lookahead does not bind, the climb has used all steps consumed |
| Climbing.LeftGrouping | src/rabbitc/RabbitParser.java:519-537 | `a op1 b op2 c` with `op2` not binding tighter is `(a op1 b) op2 c` |
| Climbing.TighterGrouping | src/rabbitc/RabbitParser.java:519-537 | `a op1 b op2 c` with `op2` binding tighter is `a op1 (b op2 c)` |
| Int32.Wrap | src/computil/optim/ConstantFolder.java:94-135 | the Java `int` congruent to the exact value modulo 2^32, and the value itself when it already fits |
| Int32.BitNot | src/computil/optim/ConstantFolder.java:31-32 | `~a` is an `int` and `~a + a == -1` |
| Int32.Shr | src/computil/optim/ConstantFolder.java:195-198 | the arithmetic right shift of an `int` is an `int` |
| Int32.Rem | src/computil/optim/ConstantFolder.java:141-145 | Java's `%`: smaller than the divisor and than the dividend in magnitude, with the sign of the dividend when nonzero, and an `int` on `int` inputs |
| Int32.AddIsModular | src/computil/optim/ConstantFolder.java:94-98 | `int` addition is the exact sum modulo 2^32, and the exact sum when it fits |
| Int32.NegMinIsMin | src/computil/optim/ConstantFolder.java:56-57 | negating `Integer.MIN_VALUE` wraps to itself |
| Decimal.NatText | src/computil/transpile/CTranspiler.java:173-176 | a non-empty string of digits, with no leading zero for a positive value and a single digit below ten |
| Decimal.IntText | src/computil/transpile/CTranspiler.java:173-176 | `Integer.toString`: a non-empty text, with a leading `-` exactly for negative values |
| Decimal.IntTextChars | src/computil/transpile/CTranspiler.java:173-176 | the text holds only digits after an optional leading `-` |
| Decimal.ParseNatText | src/rabbitc/Scanner.java:307-320 | reading the digits of a natural gives it back |
| Decimal.IntTextRoundTrip | src/computil/transpile/CTranspiler.java:173-176 | reading the text of any integer gives the integer back |
| Decimal.IntTextInjective | src/computil/transpile/CTranspiler.java:173-176 | two different values never print the same |
| Types.PrimitiveConstants | src/computil/util/PrimitiveType.java:5-42 | the primitive constants have their names, are never nullable, have no generics and no location |
| Types.NullsafeDelegates | src/computil/util/NullsafeType.java:7-20 | a nullsafe view delegates name, generics and location and always denies nullability |
| Types.NullableDelegates | src/computil/check/TypeChecker.java:533-546 | a nullable view delegates everything but nullability, which it always claims; wrapping a nullsafe view back keeps name and generics |
| Types.ArrayShape | src/computil/util/ArrayType.java:7-20 | an array type is named `arr`, never nullable, and its generics are exactly its element type (or an exception when that is `null`) |
| ErrorMessages.TypeStringFails | src/computil/diags/Errors.java:59-70 | rendering a type fails exactly when an array of `null` is reachable in it |
| ErrorMessages.UnwrapSameGenerics | src/computil/diags/Errors.java:59-70 | a wrapper with its wrapped type's generics renders them the same way, so it fails exactly when the wrapped type does |
| ErrorMessages.TypeStringNoGenerics | src/computil/diags/Errors.java:59-70 | a type without generics renders as its name, plus `?` when nullable |
| ErrorMessages.TypeStringEnds | src/computil/diags/Errors.java:59-70 | for a name not ending in `?`, a rendering starts with the name and ends in `?` exactly for nullable types |
| ErrorMessages.TwoTypesDetermines | src/computil/diags/Errors.java:37-57 | the two-type messages carry both renderings on their own lines: when the required rendering has no line break, the text determines both |
| HashMaps.EnumerateMap | src/computil/generation/IRMediator.java:60-67 | running a map's iterator to the end yields each key once with its value, in an order left open |
| HashMaps.DistinctKeysCover | src/computil/generation/IRMediator.java:60-67 | distinct keys, one per entry, cover all keys of the map |
| Folding.Shift | src/computil/optim/ConstantFolder.java:182-199 | `<<` and `>>` on an `int` literal give an `int` |
| Folding.DoubleUnaryCancels | src/computil/optim/ConstantFolder.java:28-29 | `!(!e)` and `-(-e)` are replaced by the tree `e` itself, not by a copy |
| Folding.IntUnaryFoldsInvolutive | src/computil/optim/ConstantFolder.java:31-32 | folding `~` or `-` twice over an `int` literal gives the literal back, `Integer.MIN_VALUE` included |
| Folding.NullCheckFoldSpec | src/computil/optim/ConstantFolder.java:67-75 | a null check is dropped exactly when its operand is a literal other than `null`, and is replaced by that operand |
| Folding.BinaryFoldNeedsLiterals | src/computil/optim/ConstantFolder.java:78-86 | a binary node folds only when both operands are literals |
| Folding.IntArithFolds | src/computil/optim/ConstantFolder.java:94-135 | `int` `+ - *` fold to the 32-bit result: congruent to the exact result modulo 2^32, and equal to it when it fits |
| Folding.ModFolds | src/computil/optim/ConstantFolder.java:141-145 | `int % int` folds to Java's truncated remainder; a zero divisor raises `ArithmeticException` |
| Folding.EqualityFoldsComplement | src/computil/optim/ConstantFolder.java:156-160 | `==` and `!=` fold to opposite booleans on every pair of literals |
| Folding.EqualityFoldsByBox | src/computil/optim/ConstantFolder.java:156-157 | `Objects.equals` on the boxes: `1 == 1.0` folds to false, `null == null` and equal values to true |
| Folding.LogicFolds | src/computil/optim/ConstantFolder.java:146-155 | `&&` and `\|\|` fold on two boolean literals; any other pair throws |
| Folding.ShiftCountMasked | src/computil/optim/ConstantFolder.java:182-199 | shifting an `int` literal always folds, and by `s` and by `s & 31` alike |
| Folding.IntComparisonThrows | src/computil/optim/ConstantFolder.java:136-181 | comparisons and `/` unbox both operands as `Float`, so two `int` literals throw `ClassCastException` and end the pass |
| Folding.UnaryFoldValid | src/computil/optim/ConstantFolder.java:24-75 | the replacement a unary fold produces only refers to existing nodes |
| Folding.BinaryFoldValid | src/computil/optim/ConstantFolder.java:88-209 | the replacement a binary fold produces only refers to existing nodes |
| Folding.ConstantFolder.Replace | src/computil/optim/Optimizer.java:20-22 | the owner's node becomes its `replace` result and the owner's answer is OR-ed into the performed flag |
| Folding.ConstantFolder.Remove | src/computil/optim/Optimizer.java:24-26 | the owner's node becomes its `remove` result and the answer is OR-ed into the flag |
| Folding.ConstantFolder.Apply | src/computil/optim/ConstantFolder.java:29-60 | installs a fold's replacement (an existing tree or a new literal) in the parent in place of the target |
| Folding.ConstantFolder.FoldUnary | src/computil/optim/ConstantFolder.java:26-75 | after the operand is visited: no fold leaves the arena and the flag alone, a fold replaces the node in its parent |
| Folding.ConstantFolder.FoldBinaryAt | src/computil/optim/ConstantFolder.java:81-209 | the folding outcome: an exception leaves the arena unchanged and is reported, no fold changes nothing, a fold replaces the node in its parent |
| Folding.ConstantFolder.VisitVariable | src/computil/optim/ConstantFolder.java:219-225 | a name bound by an earlier `let` with a live initializer is replaced, in its parent, by that initializer tree itself; otherwise nothing changes |
| Folding.ConstantFolder.Visit | src/computil/optim/ConstantFolder.java:17-225 | every visit keeps the arena valid, only grows it, never clears the performed flag, and changes nothing old while the flag stays false |
| Folding.ConstantFolder.VisitChildren | src/computil/optim/Optimizer.java:42-227 | the inherited traversal keeps the arena valid and the same frame facts as `Visit` |
| Folding.ConstantFolder.VisitUnary | src/computil/optim/ConstantFolder.java:24-75 | visits the operand, then folds, with `Visit`'s guarantees |
| Folding.ConstantFolder.VisitBinary | src/computil/optim/ConstantFolder.java:78-86 | visits both operands, then folds, with `Visit`'s guarantees |
| Folding.ConstantFolder.VisitVarDec | src/computil/optim/ConstantFolder.java:212-216 | after a normal completion the declared name is bound to the initializer the declaration now holds |
| Trees.ReplaceAll | src/computil/tree/Trees.java:748-758 | the list keeps its length |
| Trees.ReplaceAllEvery | src/computil/tree/Trees.java:748-758 | every element identical to the old tree becomes the new one, every other element stays |
| Trees.ReplacedOnlyRewritesOld | src/computil/tree/Trees.java:300-724 | `replace` only ever turns a child identical to the old tree into the new tree; list lengths stay, and a node that reports no change is unchanged |
| Trees.ReplacedValid | src/computil/tree/Trees.java:300-724 | a valid node stays valid when the new child is a valid reference |
| Trees.ListReplacesEvery | src/computil/tree/Trees.java:232-234 | a list owner replaces every element identical to the old tree and reports a change exactly when there was one |
| Trees.BinaryReplacesOneSlot | src/computil/tree/Trees.java:428-438 | a binary node swaps its left operand if that is the old tree, otherwise its right: at most one operand changes |
| Trees.MethodCallReceiverFirst | src/computil/tree/Trees.java:498-504 | a method call tries its receiver first and searches the arguments only when the receiver is not the old tree |
| Trees.ControlReplacesConditionOnly | src/computil/tree/Trees.java:638-711 | in `if`, `while` and `do-while`, `replace` reaches only the condition |
| Trees.NoOverrideKeeps | src/computil/tree/Trees.java:11-760 | nodes without a `replace` override report false and keep their fields |
| Trees.FirstIndex | src/computil/tree/Trees.java:227-229 | the position of the first occurrence: it holds the element and no earlier position does |
| Trees.RemoveFirstAt | src/computil/tree/Trees.java:227-229 | `List.remove` cuts out exactly the first occurrence |
| Trees.RemoveFirstAbsent | src/computil/tree/Trees.java:227-229 | removing an absent element leaves the list as it is |
| Trees.BlockRemovesFirst | src/computil/tree/Trees.java:227-229 | a block's `remove` deletes the first statement identical to the target, keeps the others in order, and reports whether it found one |
| Trees.RemovedBodyIsFresh | src/computil/tree/Trees.java:647-724 | removing a loop body or a branch installs the new empty block there and changes nothing else; the `then` branch is tried first |
| Trees.RemovedKeepsValid | src/computil/tree/Trees.java:647-724 | a removal that installs no block keeps a valid node valid |
| Trees.Forest.Add | src/computil/tree/Trees.java:239-263 | allocation appends the node and returns its new reference |
| Trees.Forest.Replace | src/computil/tree/Tree.java:12-14 | the owner's node becomes its `replace` result and nothing else changes; no change reported means no change made |
| Trees.Forest.Remove | src/computil/tree/Tree.java:16-18 | the owner's node becomes its `remove` result, with a fresh empty block allocated only when the owner installs one |
| TreeScanning.TypeResult | src/computil/util/TreeScanner.java:253-255 | scanning a type yields `null` or the visitor's default result |
| TreeScanning.ExprResult | src/computil/util/TreeScanner.java:153-250 | scanning an expression yields `null` or the default; a missing expression yields `null`, a literal or variable the default |
| TreeScanning.StmtResult | src/computil/util/TreeScanner.java:102-148 | scanning a statement yields `null` or the default; a missing statement yields `null` |
| TreeScanning.CallableResult | src/computil/util/TreeScanner.java:82-94 | scanning a callable yields `null` or the default |
| TreeScanning.RootResult | src/computil/util/TreeScanner.java:46-52 | scanning the root yields `null` or the default |
| TreeScanning.ExprsResultLast | src/computil/util/TreeScanner.java:34-42 | `scanSelective` over a list yields the last element's result (`selectResult` keeps the newer one), or the incoming result for an empty list |
| TreeScanning.StmtsResultLast | src/computil/util/TreeScanner.java:34-42 | the same for a list of statements |
| TreeScanning.ScanList | src/computil/util/TreeScanner.java:27-32 | the loop over a list returns the last element's result, and `null` for an empty list |
| TreeScanning.ExprTrace | src/computil/util/TreeScanner.java:23-25 | the trees an expression's scan visits: nothing for a missing expression, otherwise the expression itself first |
| TreeScanning.ExprTraceInside | src/computil/util/TreeScanner.java:178-250 | every tree an expression's scan visits is the expression or a proper part of it |
| TreeScanning.MethodCallSkipsReceiver | src/computil/util/TreeScanner.java:207-209 | the default method-call visit scans only the arguments, never the receiver |
| TreeScanning.BinaryOrder | src/computil/util/TreeScanner.java:239-243 | a binary node visits itself, then all of its left operand, then all of its right operand |
| TreeScanning.DoWhileOrder | src/computil/util/TreeScanner.java:139-143 | a `do-while` visits its body before its condition |
| TreeScanning.RootTrace | src/computil/util/TreeScanner.java:46-52 | the root visits its structs first and its callables last, templates and implementations in between |
| Scopes.Add | src/computil/scope/StructScope.java:12-15 | `add` inserts or overwrites the name in the scope's own map and keeps its kind and parent; a struct scope also appends the entry to its ordered list (the block, function and global `add` are the same map update) |
| Scopes.Iterate | src/computil/scope/BlockScope.java:27-43 | iterating a block scope yields all of its parent's entries first, then its own in an order left open; a struct scope yields its ordered list |
| Scopes.AddThenFind | src/computil/check/TypeChecker.java:490-521 | after `add`, the type checker's finder (and the generator's, in block and function scopes) sees the new entry, and every other name resolves as before |
| Scopes.BlockShadows | src/computil/scope/BlockScope.java:17-43 | a block entry shadows an outer one in lookup while an iteration still yields both, the outer among the parent's entries |
| Scopes.FunctionScopeOwnOnly | src/computil/check/TypeChecker.java:507-509 | a function scope never consults its parent: lookups see only its own map |
| Scopes.StructScopeDuplicate | src/computil/scope/StructScope.java:12-15 | adding the same name twice leaves the latest entry in the map but both entries, in order, in the ordered list |
| Scopes.StructFindsFirstImpl | src/computil/check/TypeChecker.java:512-521 | with no own entry, the first implementation scope that knows the name decides the struct lookup |
| Scopes.GenFindGlobalNull | src/computil/generation/Generator.java:694-696 | the generator's finder never finds anything in a global scope |
| Scanning.NewlinesAppend | src/rabbitc/Scanner.java:113-126 | the line counter is additive: the '\n' in `a + b` are those in `a` plus those in `b`, so counting while consuming step by step agrees with counting the whole skipped text |
| Scanning.CountSkipped | src/rabbitc/Scanner.java:108-111 | the '\n' in a prefix of `i + n` characters are those in the first `i` plus those in the next `n` |
| Scanning.WhitespaceRun | src/rabbitc/Scanner.java:113-126 | `skipWhitespace` consumes only whitespace, and the character after what it consumed is not whitespace |
| Scanning.LineCommentRun | src/rabbitc/Scanner.java:128-156 | a line comment consumes no '\n' and stops at a '\n', at the end of the input, or at a 0xFF byte |
| Scanning.Comment | src/rabbitc/Scanner.java:128-156 | `skipComment` consumes something exactly when the input starts with "//" or "/*", and never more than there is |
| Scanning.SkippedStops | src/rabbitc/Scanner.java:108-111 | after `skipWhitespaceAndComments` the input starts with neither whitespace nor a comment |
| Scanning.NextStringChar | src/rabbitc/Scanner.java:246-259 | `scanNextStringChar` consumes at least one character of non-empty input and never more than there is |
| Scanning.StringRound | src/rabbitc/Scanner.java:226-244 | one round of the string loop consumes between one character and the whole input and adds at most one character to the string |
| Scanning.StringLoopWidth | src/rabbitc/Scanner.java:226-244 | the string loop, from any state, consumes at least one character and never more than there is |
| Scanning.StringLoopClosed | src/rabbitc/Scanner.java:232-234 | a round that reads '"' ends the loop, with that round's text, width and diagnostics |
| Scanning.StringLoopOpen | src/rabbitc/Scanner.java:235-239 | a round that does not close the string is followed by the rest of the loop on the remaining input |
| Scanning.StringBody | src/rabbitc/Scanner.java:226-244 | a closed string spans at least its closing quote and no more than the input |
| Scanning.CharRange | src/rabbitc/Scanner.java:16-21 | the `n` characters from `lo`, in order, as the digit sets are built |
| Scanning.Members | src/rabbitc/Scanner.java:16-21 | the members of a digit set have no repetition, so their count is the set's size |
| Scanning.CharRangeMembers | src/rabbitc/Scanner.java:16-21 | a character is in a range exactly when its code lies between the range's ends |
| Scanning.InSetMembers | src/rabbitc/Scanner.java:280-305 | the membership test the digit loop uses is exactly membership in the set's listed members |
| Scanning.RadixOf | src/rabbitc/Scanner.java:307-320 | the radix is the size of the digit set; for the hexadecimal set, which holds both cases of `a` to `f`, it is 22 |
| Scanning.DigitLoop | src/rabbitc/Scanner.java:280-305 | the digits read are exactly a prefix of the input, all in the set unless a fraction was read, and a fraction only in decimal |
| Scanning.DigitLoopStep | src/rabbitc/Scanner.java:283-302 | one digit (or the first '.') taken by the loop moves to the rest of the input with that character appended to the text |
| Scanning.FirstDigit | src/rabbitc/Scanner.java:322-336 | `scanDigit` yields exactly one character and consumes at most one |
| Scanning.NumberToken | src/rabbitc/Scanner.java:265-278 | a number consumes at least its first digit and no more than the input |
| Scanning.OperatorHead | src/rabbitc/Scanner.java:173-200 | the head of an operator is one to three characters of the input |
| Scanning.OperatorLength | src/rabbitc/Scanner.java:173-200 | an operator, with its '=' and doubled '&' or '|', is one to five characters of the input |
| Scanning.Operator | src/rabbitc/Scanner.java:173-200 | the operator's lexeme is a non-empty prefix of the input |
| Scanning.TokenAt | src/rabbitc/Scanner.java:74-96 | a token scanned from available input consumes at least one character, carries the current line and is never EOF |
| Scanning.Scanner.ConsumeChar | src/rabbitc/Scanner.java:102-106 | `consumeChar` answers the reader's next character and advances by one, answering U+FFFF at the end |
| Scanning.Scanner.SkipWhitespace | src/rabbitc/Scanner.java:113-126 | consumes exactly the whitespace run, adds its '\n' to the line, and answers whether the run was non-empty |
| Scanning.Scanner.SkipLineCommentBody | src/rabbitc/Scanner.java:136-137 | consumes exactly the body of a line comment |
| Scanning.Scanner.SkipBlockCommentBody | src/rabbitc/Scanner.java:141-152 | consumes exactly the body of a block comment and counts its '\n' |
| Scanning.Scanner.SkipComment | src/rabbitc/Scanner.java:128-156 | consumes exactly one comment, or nothing, counts its '\n' and answers whether it consumed anything |
| Scanning.Scanner.SkipRound | src/rabbitc/Scanner.java:108-111 | one round of the skipping loop agrees with `Skipped`: it consumes nothing only where `Skipped` is 0, and otherwise leaves exactly `Skipped` of the rest to do |
| Scanning.Scanner.SkipWhitespaceAndComments | src/rabbitc/Scanner.java:108-111 | consumes exactly what `Skipped` says and adds the '\n' in it to the line |
| Scanning.Scanner.ScanIdentifierOrKeyword | src/rabbitc/Scanner.java:207-220 | consumes the word and answers a token whose tag is `fromLexem` of the word and whose text is the word, at the current line |
| Scanning.Scanner.ScanNextStringChar | src/rabbitc/Scanner.java:246-259 | consumes and answers what `NextStringChar` says, logging a bad escape |
| Scanning.Scanner.ScanStringRound | src/rabbitc/Scanner.java:231-239 | one round of the string loop, as `StringRound` states it: consumed width, logged diagnostics, text appended and whether the string closed |
| Scanning.Scanner.ScanStringBody | src/rabbitc/Scanner.java:226-244 | the string loop agrees with `StringBody`, including its failure where the input ends unclosed |
| Scanning.Scanner.ScanString | src/rabbitc/Scanner.java:226-244 | after the opening quote, a STRING token whose text is the characters read, with the input and the log advanced as `StringBody` says |
| Scanning.Scanner.ScanDigit | src/rabbitc/Scanner.java:322-336 | consumes and answers the digit `FirstDigit` describes, logging a missing or foreign digit |
| Scanning.Scanner.ScanNumberByRadixSet | src/rabbitc/Scanner.java:280-305 | consumes the digit run `DigitLoop` describes and completes the buffer plus that run to a numeric token |
| Scanning.Scanner.ScanNumber | src/rabbitc/Scanner.java:265-278 | a number token exactly as `NumberToken` states it, input and log advanced by its width and diagnostics |
| Scanning.Scanner.ScanRadixNumber | src/rabbitc/Scanner.java:270-273 | the radix-prefixed branch of `scanNumber` agrees with `NumberToken` |
| Scanning.Scanner.ScanOperatorHead | src/rabbitc/Scanner.java:173-187 | consumes and answers the operator's head, a prefix of the input of `OperatorHead` characters |
| Scanning.Scanner.ScanPossibleEqualOperation | src/rabbitc/Scanner.java:173-200 | consumes the operator `Operator` describes and answers the token `fromLexem` gives it |
| Scanning.Scanner.ScanSpecial | src/rabbitc/Scanner.java:158-171 | a one-character token for `?[](){};,.:`, an operator token for an operator character, and otherwise nothing consumed and no token |
| Scanning.Scanner.ScanToken | src/rabbitc/Scanner.java:80-95 | the token after whitespace and comments is exactly `TokenAt`, input and log advanced by its width and diagnostics |
| Scanning.Scanner.Scan | src/rabbitc/Scanner.java:74-96 | `scan` relates the old and new input, line and log as `Scans` states: skip, then EOF at the end of the input, else `TokenAt` |
| Scanning.Scanner.Peek | src/rabbitc/Scanner.java:41-44 | with a current token, answers it and changes nothing; otherwise scans one and makes it current |
| Scanning.Scanner.Consume | src/rabbitc/Scanner.java:47-52 | with no current token, the scanned one becomes current and is answered; otherwise answers the current one and replaces it with the top of the push-back stack, or a freshly scanned token |
| Scanning.Scanner.PushBack | src/rabbitc/Scanner.java:55-58 | the current token goes onto the stack and the given one becomes current; with no current token the push of null throws and nothing changes |
| Scanning.Scanner.HasNext | src/rabbitc/Scanner.java:61-63 | answers whether the next token is EOF, the opposite of what the name says |
| Scanning.HexReadInRadix22 | src/rabbitc/Scanner.java:311-314 | read in radix 22, the hexadecimal literal `ff` becomes the INTEGER 345 and `10` becomes 22, where the corrected reading gives 255; every hexadecimal digit value lies more than six below the radix used |
| Scanning.IntendedRadix | src/rabbitc/Scanner.java:15-21 | corrected radix: every digit of the set has a value below it, and it equals the written radix for the binary, octal and decimal sets |
| Scanning.IntendedRadixCountsDigits | src/rabbitc/Scanner.java:15-21 | every value below the corrected radix is the value of some digit of the set, so the radix counts the digit values exactly |
| Scanning.IntendedValueBelowPower | src/rabbitc/Scanner.java:311-314 | read in the corrected radix, an `n`-digit literal stays below radix^n |
| Scanning.IntendedNumericToken | src/rabbitc/Scanner.java:305-320 | corrected `completeToNumericToken`: it agrees with the written one on every set but the hexadecimal one |
| IR.Retarget | src/computil/generation/instructions/Goto.java:10-12 | `setJumpAddress` keeps the kind of jump (goto, branch if false, branch if true) and gives it the new target |
| IR.MaxDepthIsMaximum | src/computil/generation/Function.java:73-76 | the recorded stack size is the largest running depth ever reached, or 0: it bounds every prefix sum of the growths and equals one of them unless it is 0 |
| IR.MaxDepthMonotone | src/computil/generation/Function.java:73-76 | a further growth never lowers the recorded stack size, and moves the running depth by exactly that growth |
| IR.Function.Locals | src/computil/generation/Function.java:40-42 | `getLocals` is one more than the largest address used (above every used address and reached by one), 0 when none was |
| IR.Function.Append | src/computil/generation/Function.java:57-59 | the instruction goes last; nothing else in the function changes |
| IR.Function.Insert | src/computil/generation/Function.java:60-62 | the instruction goes in at `index` with the rest shifted up; nothing else changes |
| IR.Function.SetJumpAddress | src/computil/generation/instructions/BranchIfFalse.java:11-13 | only the jump at that position is retargeted; every other instruction and field is unchanged |
| IR.Function.PutParameter | src/computil/generation/Function.java:65-67 | the parameter map gets the address; a new name goes last in the insertion order, an existing one keeps its place |
| IR.Function.MarkAsMethod | src/computil/generation/Function.java:69-71 | the function is a method afterwards and nothing else changes |
| IR.Function.StackGrows | src/computil/generation/Function.java:73-76 | the running depth moves by the growth and the stack size becomes the larger of itself and the new depth |
| IR.Function.UseLocal | src/computil/generation/Function.java:78-80 | the recorded largest local becomes the larger of itself and the address |
| IR.Struct.PutField | src/computil/generation/Struct.java:38-40 | the field goes last; the methods are unchanged |
| IR.Struct.PutMethod | src/computil/generation/Struct.java:42-44 | the method's pool address is recorded under its name; the fields are unchanged |
| IR.IRMediator.RegisterFunction | src/computil/generation/IRMediator.java:16-21 | a name already registered throws `IllegalStateException` and changes nothing; otherwise a fresh empty function with stack size 0 and no locals is added under it and nothing else changes |
| IR.IRMediator.RegisterStruct | src/computil/generation/IRMediator.java:23-28 | the same rule for structs: a duplicate throws, otherwise a fresh struct with no fields and no methods is added |
| IR.IRMediator.RegisterPool | src/computil/generation/IRMediator.java:30-34 | only the first pool is accepted; a second one throws and leaves the first in place |
| IR.IRMediator.SetEntryPoint | src/computil/generation/IRMediator.java:36-38 | sets the entry point and nothing else |
| IR.IRMediator.GetFunction | src/computil/generation/IRMediator.java:41-43 | `null` exactly when no function has that name, otherwise the registered one |
| IR.IRMediator.GetStruct | src/computil/generation/IRMediator.java:45-47 | `null` exactly when no struct has that name, otherwise the registered one |
| IR.IRMediator.GetFunctions | src/computil/generation/IRMediator.java:60-62 | the registered functions, each once, in some order of their names |
| IR.IRMediator.GetStructs | src/computil/generation/IRMediator.java:65-67 | the registered structs, each once, in some order of their names |
| IR.NewPool | src/computil/generation/pool/Pool.java:13-16 | a new pool registers itself with its mediator; a second pool for the same mediator throws |
| IR.RegisterTwice | src/computil/generation/IRMediator.java:16-21 | registering one name twice: the first call succeeds with an empty function and the second throws `IllegalStateException` |
| Pools.ConstEqualsIsEquality | src/computil/generation/pool/PoolConstant.java:26-32 | `equals` is exactly equality of kind and value: reflexive, false for null, false across classes |
| Pools.StringHash | src/computil/generation/pool/PoolConstant.java:35-37 | `String.hashCode` stays a 32-bit `int` |
| Pools.HashCode | src/computil/generation/pool/PoolConstant.java:35-37 | `Objects.hash(value)` stays a 32-bit `int` |
| Pools.HashOnlyValue | src/computil/generation/pool/PoolConstant.java:26-37 | the hash depends on the value only, while `equals` also compares the class: a string and a virtual function of one name hash alike but differ |
| Pools.IndexOf | src/computil/generation/pool/Pool.java:59-65 | `indexOf` is -1 exactly when the constant is absent, and otherwise the first position holding it |
| Pools.InternedSpec | src/computil/generation/pool/Pool.java:59-65 | a put returns an address holding the constant, keeps every earlier entry in place, appends exactly when the constant was absent, and keeps the entries free of duplicates |
| Pools.TwoPutsDistinct | src/computil/generation/pool/Pool.java:59-65 | two different constants put one after the other get different addresses, and the first still holds its constant |
| Pools.InternAllFirstUse | src/computil/generation/pool/Pool.java:59-65 | putting a sequence of constants into an empty pool yields each distinct constant once, in the order of first use |
| Pools.InternStepOrder | src/computil/generation/pool/Pool.java:59-65 | one more put keeps the entries in first-use order |
| Pools.IndexOfExtend | src/computil/generation/pool/Pool.java:59-65 | appending an entry leaves the index of every earlier constant as it was and gives a new one the last position |
| Pools.Pool.PutIfAbsent | src/computil/generation/pool/Pool.java:59-65 | the linear search and append agree with `Interned`, and the address returned holds the constant |
| Pools.Pool.PutInteger | src/computil/generation/pool/Pool.java:30-32 | interns an integer constant |
| Pools.Pool.PutFloat | src/computil/generation/pool/Pool.java:34-36 | interns a float constant |
| Pools.Pool.PutString | src/computil/generation/pool/Pool.java:38-40 | interns a string constant |
| Pools.Pool.PutVirtual | src/computil/generation/pool/Pool.java:42-44 | interns a virtual-function constant |
| Pools.Pool.PutNative | src/computil/generation/pool/Pool.java:46-48 | interns a native-function constant |
| Pools.Pool.PutStruct | src/computil/generation/pool/Pool.java:50-52 | interns a struct constant |
| Pools.Pool.PutUTF8 | src/computil/generation/pool/Pool.java:54-56 | interns a UTF-8 constant |
| Opcodes.Ordinal | src/computil/generation/targets/rbt/Opcode.java:6-68 | every opcode's ordinal, the byte written for it, is below 50 |
| Opcodes.Name | src/computil/generation/targets/rbt/Opcode.java:6-68 | every opcode's name, as declared, is non-empty and holds no blank or line break |
| Opcodes.OrdinalIsPosition | src/computil/generation/targets/rbt/Opcode.java:6-68 | the ordinal is the opcode's position in the declaration |
| Opcodes.OfOrdinal | src/computil/generation/targets/rbt/Opcode.java:71-80 | `of` inverts `ordinal` |
| Opcodes.OrdinalOf | src/computil/generation/targets/rbt/Opcode.java:78-80 | `of` yields `null` exactly outside 0 to 49, and otherwise the opcode with that ordinal |
| Parsing.SubtractionGroupsLeft | src/rabbitc/RabbitParser.java:519-537 | `a - b - c` parses as `(a - b) - c` |
| Parsing.ProductBindsTighter | src/rabbitc/RabbitParser.java:519-537 | `a + b * c` parses as `a + (b * c)` |
| Parsing.AssignmentsGroupLeft | src/rabbitc/RabbitParser.java:519-537 | all assignments share one precedence, so `a = b = c` parses as `(a = b) = c` |
| Parsing.ParseJavaInt | src/rabbitc/RabbitParser.java:553 | `Integer.parseInt` yields only 32-bit values |
| Parsing.ParseJavaIntText | src/rabbitc/RabbitParser.java:553 | `Integer.parseInt` inverts the decimal rendering inside the `int` range and throws `NumberFormatException` outside it |
| Parsing.ParseJavaIntPlus | src/rabbitc/RabbitParser.java:553 | a leading '+' on decimal digits changes nothing |
| Parsing.ParseBoolean | src/rabbitc/RabbitParser.java:564-565 | `Boolean.parseBoolean` answers true only for a four-character text |
| Parsing.ParseBooleanSpellings | src/rabbitc/RabbitParser.java:564-565 | `parseBoolean` ignores case: "true" and "TRUE" are true, "false" and "tru" are not |
| Parsing.TypesAtAppend | src/rabbitc/RabbitParser.java:375-378 | one more parsed generic keeps every generic named by the token at its start, inside the consumed range |
| Parsing.HeadsOf | src/rabbitc/RabbitParser.java:36-45 | the declaration heads of one kind are among all heads and start with a token of that kind |
| Parsing.HeadsOfAppend | src/rabbitc/RabbitParser.java:36-45 | a new head is appended to the heads of its own kind and leaves those of the other kinds unchanged |
| Parsing.AscendingAppend | src/rabbitc/RabbitParser.java:35-47 | declaration heads stay strictly ascending inside the consumed range as the program loop advances |
| Parsing.CollectedAppend | src/rabbitc/RabbitParser.java:36-45 | the `switch` of `parseProgram` adds a struct, template, implementation or callable to the list of its kind, named by the token after its head, and a stray token adds nothing |
| Parsing.StructsAtAppend | src/rabbitc/RabbitParser.java:37 | a parsed struct goes last in the root's structs, named by the token after its head |
| Parsing.TemplatesAtAppend | src/rabbitc/RabbitParser.java:38 | a parsed template goes last in the root's templates, named by the token after its head |
| Parsing.ImplsAtAppend | src/rabbitc/RabbitParser.java:39 | a parsed implementation goes last in the root's implementations, named by the token after its head |
| Parsing.CallablesAtAppend | src/rabbitc/RabbitParser.java:40-44 | a parsed callable goes last in the root's callables, a function exactly when its head is `fun` |
| Parsing.Parser.Consume | src/rabbitc/RabbitParser.java:521-523 | `consume` answers the token `peek` shows and moves past it, except at the final EOF |
| Parsing.Parser.Report | src/rabbitc/RabbitParser.java:26-28 | `error` appends one error at the token's location |
| Parsing.Parser.Unwrap | src/rabbitc/RabbitParser.java:513-517 | `unwrap` passes the expression through and reports "expression expected" exactly when it is missing |
| Parsing.Parser.ParseEOS | src/rabbitc/RabbitParser.java:753-759 | a ';' is consumed silently; anything else is left in place and reported as "missing ';'" |
| Parsing.Parser.ParseExpression | src/rabbitc/RabbitParser.java:509-511 | a parsed expression consumes input, and the next token does not continue it |
| Parsing.Parser.ParseClimb | src/rabbitc/RabbitParser.java:519-537 | the precedence-climbing loop computes `Climb` over the operator steps it consumed, stops at a token that does not bind at `min`, and returns `lhs` untouched when the first token does not bind |
| Parsing.Parser.ClimbRound | src/rabbitc/RabbitParser.java:523-534 | one round of the outer loop (operand, inner loop on tighter operators, `apply`) keeps the `Climb` computation on track |
| Parsing.Parser.ParsePrimary | src/rabbitc/RabbitParser.java:547-655 | the expression starts as its first token dictates, then takes suffixes until a token that is not one (or a cast ends them); a token that starts no expression yields null and consumes nothing |
| Parsing.Parser.ParseAtom | src/rabbitc/RabbitParser.java:552-600 | the expression built from the first token, as `Leads` states for each kind; a token that starts no expression yields null and consumes nothing |
| Parsing.Parser.ParseLiteral | src/rabbitc/RabbitParser.java:552-566 | a literal consumes its token and carries the parsed value; it throws exactly when `Integer.parseInt` or `Float.parseFloat` rejects the lexeme |
| Parsing.Parser.ParseName | src/rabbitc/RabbitParser.java:567-577 | an identifier becomes a global call exactly when '(' follows it, otherwise a variable, with the identifier's name and location |
| Parsing.Parser.ParseUnary | src/rabbitc/RabbitParser.java:581-588 | '?' gives a not and '-' a negation at the operator's location, whose operand is a whole expression climbed from the next primary, reported when missing |
| Parsing.Parser.ParseParenthesized | src/rabbitc/RabbitParser.java:589-597 | a parenthesized expression consumes at least the '(' |
| Parsing.Parser.ParsePostfix | src/rabbitc/RabbitParser.java:603-652 | the suffix loop wraps its base in suffixes and at most one final cast, and stops where no suffix follows |
| Parsing.Parser.ParseSuffix | src/rabbitc/RabbitParser.java:604-651 | one round of the suffix loop: a suffix that consumes input and wraps the operand, or a stop with a cast of the operand or nothing |
| Parsing.Parser.ParseMember | src/rabbitc/RabbitParser.java:606-624 | `.name` becomes a method call when '(' follows and a field access otherwise, named and located by the token after the dot |
| Parsing.Parser.ParseIndex | src/rabbitc/RabbitParser.java:626-635 | `[key]` becomes a container access of the operand at the '[' |
| Parsing.Parser.ParseCallArguments | src/rabbitc/RabbitParser.java:696-721 | the argument list is empty exactly when ')' follows the '(' |
| Parsing.Parser.ParseArray | src/rabbitc/RabbitParser.java:723-750 | an array literal at the '[' whose contents are empty exactly when ']' follows the '[' |
| Parsing.Parser.ParseStructInit | src/rabbitc/RabbitParser.java:657-668 | `new T(...)` builds a struct initialisation at `new` whose type is never nullable |
| Parsing.Parser.ParseType | src/rabbitc/RabbitParser.java:362-393 | the type is named by its first token (reported unless an identifier), has generics only after '<', and is nullable exactly when a '?' was consumed |
| Parsing.Parser.ParseTypeWithoutNullable | src/rabbitc/RabbitParser.java:670-694 | the same type without the trailing '?', never nullable |
| Parsing.Parser.ParseGenerics | src/rabbitc/RabbitParser.java:368-385 | nothing without '<'; "type expected" for `<>`; otherwise each generic is named by the token it starts at, and since the loop never consumes the ',' the second generic is the comma, reported as "identifier expected" |
| Parsing.Parser.ParseStatement | src/rabbitc/RabbitParser.java:396-408 | the statement kind follows the first token, the expression statement being the default |
| Parsing.Parser.ParseExpressionStatement | src/rabbitc/RabbitParser.java:410-418 | an expression statement at the expression's location, or null with "not a statement" reported at the next token |
| Parsing.Parser.ParseDelete | src/rabbitc/RabbitParser.java:420-425 | `del` gives a free statement at the `del` token |
| Parsing.Parser.ParseVarDec | src/rabbitc/RabbitParser.java:427-457 | `let` gives a declaration, mutable exactly when `mut` follows, named and located by the next token |
| Parsing.Parser.ParseVarDecRest | src/rabbitc/RabbitParser.java:440-456 | a type exactly after ':'; a typed declaration ended by ';' is initialised to null at once; any other token where '=' belongs is reported as "missing '='" |
| Parsing.Parser.ParseReturn | src/rabbitc/RabbitParser.java:459-465 | a return statement located at the token after `return` |
| Parsing.Parser.ParseCondition | src/rabbitc/RabbitParser.java:467-474 | a condition never moves backwards and only adds errors |
| Parsing.Parser.ParseIfElse | src/rabbitc/RabbitParser.java:476-487 | an if-else statement at the `if` token |
| Parsing.Parser.ParseWhileDo | src/rabbitc/RabbitParser.java:489-494 | a while statement at the `while` token |
| Parsing.Parser.ParseDoWhile | src/rabbitc/RabbitParser.java:496-506 | a do-while statement at the `do` token |
| Parsing.Parser.ParseBlock | src/rabbitc/RabbitParser.java:337-360 | a block holds no missing statement (a null statement is skipped by consuming a token) and ends after a '}' or at the end of input |
| Parsing.Parser.ParseBinding | src/rabbitc/RabbitParser.java:314-330 | the name is the first token, or the one after `mut`, which makes the binding mutable |
| Parsing.Parser.ParseParam | src/rabbitc/RabbitParser.java:314-335 | a parameter is mutable exactly after `mut` and named and located by its name token |
| Parsing.Parser.ParseField | src/rabbitc/RabbitParser.java:77-99 | a field is mutable exactly after `mut` and named and located by its name token |
| Parsing.Parser.ParseParams | src/rabbitc/RabbitParser.java:241-255 | no parameter exactly when ')' or the end of input follows, and then nothing is consumed or reported |
| Parsing.Parser.ParseParamList | src/rabbitc/RabbitParser.java:237-259 | after '(', no parameter exactly when ')' or the end of input follows |
| Parsing.Parser.ParseSignature | src/rabbitc/RabbitParser.java:233-265 | the callable's name is its first token, reported unless an identifier |
| Parsing.Parser.ParseFunction | src/rabbitc/RabbitParser.java:232-269 | a function named and located by its name token whose body is a block with no missing statement |
| Parsing.Parser.ParseNative | src/rabbitc/RabbitParser.java:271-312 | a native function named and located by the token after `fun` |
| Parsing.Parser.ParseTemplateMethod | src/rabbitc/RabbitParser.java:127-167 | a template method named and located by the token after `fun` |
| Parsing.Parser.ParseCallable | src/rabbitc/RabbitParser.java:220-230 | a callable exactly for `fun` (a function) and `nat` (a native); any other token yields null and one "unexpected token" report |
| Parsing.Parser.ParseStruct | src/rabbitc/RabbitParser.java:51-75 | a struct named and located by the token after `struct` |
| Parsing.Parser.ParseTemplate | src/rabbitc/RabbitParser.java:101-125 | a template named and located by the token after `template` |
| Parsing.Parser.ParseImplementation | src/rabbitc/RabbitParser.java:169-218 | an implementation named and located by the token after `impl` |
| Parsing.Parser.ParseImplHead | src/rabbitc/RabbitParser.java:170-198 | the implementation's name is the token after `impl` |
| Parsing.Parser.ParseImplBody | src/rabbitc/RabbitParser.java:200-211 | the body's loop stops at '}' or the end of input |
| Parsing.Parser.ParseObjectName | src/rabbitc/RabbitParser.java:187-195 | an object name exactly after `as`, taken from the following token; without `as` nothing is reported |
| Parsing.Parser.CloseBrace | src/rabbitc/RabbitParser.java:213-215 | consumes the closing token and reports "missing '}'" exactly at the end of input |
| Parsing.Parser.ParseProgram | src/rabbitc/RabbitParser.java:31-49 | the loop ends at EOF; one declaration head per round, ascending, none exactly for empty input; each declaration lands in the list of its kind, named by its tokens |
| Parsing.Parser.ParseDeclaration | src/rabbitc/RabbitParser.java:36-45 | one round of the `switch`: consumes input and adds the declaration to its kind's list; a stray token adds nothing and is reported once as unexpected |
| TypeRules.NameOf | src/computil/check/TypeChecker.java:230-233 | `type.name()` on a `null` type throws; otherwise it is the type's name |
| TypeRules.LocOf | src/computil/check/TypeChecker.java:258-268 | `getLocation()` on a `null` expression throws, on any other it succeeds |
| TypeRules.GenericsMatchPairwise | src/computil/check/TypeChecker.java:467-473 | the generics walk succeeds exactly when the given list is at least as long and each required generic matches the given one at the same position |
| TypeRules.MatchesReflexive | src/computil/check/TypeChecker.java:457-474 | every type without an array of `null` inside matches itself |
| TypeRules.SelfPairs | src/computil/check/TypeChecker.java:467-473 | the generics walk of a list against itself succeeds |
| TypeRules.NoNullArrayGenerics | src/computil/check/TypeChecker.java:543-545 | without an array of `null` inside, the generics exist and none of them holds one |
| TypeRules.MatchesGuards | src/computil/check/TypeChecker.java:460-464 | a nullable required type accepts NULL; different names without an implementation reject; a nullable given type never fits a non-nullable one; a match means equal names or an implemented template |
| TypeRules.GenericsCountIgnored | src/computil/check/TypeChecker.java:465-471 | the count guard compares the required count with itself: `list<int>` matches `list<int, str>`, and against a bare `list` the walk throws |
| TypeRules.CheckAnyTypeMatches | src/computil/check/TypeChecker.java:448-455 | a `null` given type is accepted silently; otherwise at most one mismatch error, logged exactly when no required type matches |
| TypeRules.CheckTypesMatches | src/computil/check/TypeChecker.java:444-446 | a `null` required type throws; a `null` given type passes; otherwise no error exactly when the types match |
| TypeRules.NonNumericPair | src/computil/check/TypeChecker.java:420-425 | whether either operand is not numeric, throwing only on a `null` operand that is read |
| TypeRules.CheckNumeric | src/computil/check/TypeChecker.java:420-425 | the result is int exactly for two ints outside DIV, otherwise float; an error exactly when an operand is not numeric |
| TypeRules.CheckShift | src/computil/check/TypeChecker.java:427-433 | the result follows the left operand (int or float), and a non-int shift count is reported |
| TypeRules.CheckIntegerOnly | src/computil/check/TypeChecker.java:408-412 | the result is int, with an error exactly when an operand is not int |
| TypeRules.CheckBoolOnly | src/computil/check/TypeChecker.java:414-418 | the result is bool, with an error exactly when an operand is not bool |
| TypeRules.CheckBoolOrInt | src/computil/check/TypeChecker.java:389-399 | bool for two bools, int for two ints, otherwise a `null` type exactly when an error is logged |
| TypeRules.CheckCompare | src/computil/check/TypeChecker.java:383-387 | the result is bool, with an error exactly when an operand is not numeric |
| TypeRules.CheckEquality | src/computil/check/TypeChecker.java:401-406 | the result is bool; comparing a primitive with a reference is reported first; otherwise no error exactly when the types match |
| TypeRules.BinaryResultKinds | src/computil/check/TypeChecker.java:366-381 | comparisons, equality and AND/OR yield bool, MOD int, DIV float, the other arithmetic int or float |
| TypeRules.CastRule | src/computil/check/TypeChecker.java:215-228 | the result is the target type; numeric to numeric is never reported; a reported cast is one that neither matches nor is a template-to-struct cast |
| TypeRules.NullCheckRule | src/computil/check/TypeChecker.java:236-241 | the result is the non-nullable view of the operand's type, reported exactly for `void` |
| TypeRules.Search | src/computil/check/TypeChecker.java:490-492 | `search` throws on a `null` scope and otherwise is the finder's answer |
| TypeRules.ImmutableAssignment | src/computil/check/TypeChecker.java:340-350 | only a variable target is looked up (throwing on a `null` scope), and it is reported exactly when it is found immutable |
| TypeRules.AccessRule | src/computil/check/TypeChecker.java:258-268 | an `arr` access has the container's first generic as its type, or `null` without generics |
| TypeRules.FieldRule | src/computil/check/TypeChecker.java:328-337 | a primitive operand is reported; the type is the field's entry in the struct scope, `null` for an unknown struct |
| TypeRules.ArrayFold | src/computil/check/TypeChecker.java:271-283 | an array literal always has an array type, whose element type is the type reached after the last element |
| TypeRules.ArrayStep | src/computil/check/TypeChecker.java:273-281 | one element: its own typing, then the next element type from it |
| TypeRules.NextElement | src/computil/check/TypeChecker.java:276-280 | the element type follows each element, except that NULL after a typed element makes it nullable |
| TypeRules.ArrayFoldLast | src/computil/check/TypeChecker.java:271-283 | an array literal's element type is its last element's type, or for a trailing NULL either NULL or a nullable type |
| TypeRules.CheckCallTypes | src/computil/check/TypeChecker.java:308-325 | too few arguments puts "too few parameters given" first; too many always ends in an exception |
| TypeRules.ArgsFold | src/computil/check/TypeChecker.java:314-324 | the argument loop throws once the parameters run out |
| TypeRules.TooManyArgumentsThrow | src/computil/check/TypeChecker.java:286-325 | a global call with more arguments than parameters always fails |
| TypeRules.UncheckedGlobalCall | src/computil/check/TypeChecker.java:286-293 | a call to an unknown function, or one without parameter list, scans no argument, logs nothing and never throws |
| TypeRules.MatchesIntended | src/computil/check/TypeChecker.java:457-474 | corrected `typeMatches`: a match other than NULL against a nullable type implies both types have generics of the same count |
| TypeRules.MatchesIntendedTotal | src/computil/check/TypeChecker.java:465-472 | with the corrected guard, two types without an array of `null` inside never make the check throw |
| TypeRules.GenericsIntendedTotal | src/computil/check/TypeChecker.java:467-471 | the corrected pairwise walk over lists of equal length never throws when no element holds an array of `null` |
| TypeRules.MatchesIntendedStricter | src/computil/check/TypeChecker.java:457-474 | whatever the corrected check accepts, the written one accepts too |
| TypeRules.GenericsIntendedStricter | src/computil/check/TypeChecker.java:467-471 | an accepting corrected walk is an accepting written walk |
| TypeRules.CountGuardRejects | src/computil/check/TypeChecker.java:465 | with the corrected guard, `list<int>` against `list<int, str>` and against a bare `list` are plain mismatches |
| TypeChecking.ParamEntries | src/computil/check/TypeChecker.java:72-75 | each parameter becomes an entry with its name, type and mutability and no parameter list |
| TypeChecking.FieldEntries | src/computil/check/TypeChecker.java:87-90 | each field becomes an entry with its name, type and mutability and no parameter list |
| TypeChecking.ParamTypes | src/computil/check/TypeChecker.java:52-57 | a callable's parameter types, in order |
| TypeChecking.MethodEntries | src/computil/check/TypeChecker.java:101-106 | each template method becomes an immutable entry with its return type and parameter types |
| TypeChecking.CallableEntries | src/computil/check/TypeChecker.java:52-58 | each callable becomes an immutable entry with its return type and parameter types |
| TypeChecking.AddAll | src/computil/check/TypeChecker.java:82 | adding entries one by one keeps the kind of scope, a function scope's parent, and appends them to a struct scope's ordered list |
| TypeChecking.LastNamed | src/computil/check/TypeChecker.java:82 | the last entry of a name in a list, and none exactly when no entry has that name |
| TypeChecking.AddAllEntries | src/computil/scope/StructScope.java:12-15 | after adding a list, a name maps to its last entry in the list, or else to what it mapped to before |
| TypeChecking.AddAllSnoc | src/computil/check/TypeChecker.java:82 | adding one more entry is one more `add` |
| TypeChecking.DeclareAll | src/computil/check/TypeChecker.java:82 | the loop of `add` calls agrees with `AddAll` |
| TypeChecking.AddAllAppend | src/computil/check/TypeChecker.java:115 | adding two lists one after the other is adding their concatenation |
| TypeChecking.StructFieldsLookup | src/computil/check/TypeChecker.java:78-84 | a struct's scope lists its fields in order, and a field lookup finds the last field of that name |
| TypeChecking.TypedConditionCheck | src/computil/check/TypeChecker.java:176-181 | a condition that passes has a type; the log only grows; a nullable type ends the log with "branch condition required null safety"; for a non-nullable type nothing is added exactly when the type matches `bool` |
| TypeChecking.ConditionCheck | src/computil/check/TypeChecker.java:176-181 | a condition that passes types to some type, and the log holds its own errors before the condition's |
| TypeChecking.ReportCheck | src/computil/check/TypeChecker.java:138-142 | the scope is kept; `returned` is set exactly when it was set or the scope is a function scope; exactly one error is added exactly when the type does not match the required one |
| TypeChecking.ReturnCheck | src/computil/check/TypeChecker.java:136-144 | the scope is kept; `returned` is set exactly when it was set or the value has a type in a function scope; the value's own errors come first |
| TypeChecking.DeclareCheck | src/computil/check/TypeChecker.java:124-130 | `returned` is kept; a defined name keeps the scope, an undefined one is added with the declared type or else the initializer's; with both types present nothing is added exactly when they match |
| TypeChecking.VarDecCheck | src/computil/check/TypeChecker.java:120-133 | a declaration that passes has a typed initializer whose errors come first; `returned` is kept |
| TypeChecking.TypedFreeCheck | src/computil/check/TypeChecker.java:148-150 | for a value already typed: fails exactly when the value has no type (`null` throws at `isPrimitive`); otherwise the value's errors, then one error exactly when the type is primitive and not NULL |
| TypeChecking.FreeCheck | src/computil/check/TypeChecker.java:146-152 | a free that passes has a typed expression; its errors, then one error exactly when the type is primitive and not NULL; scope and flag kept |
| TypeChecking.StmtCheck | src/computil/check/TypeChecker.java:120-181 | every statement only extends the function scope, never clears `returned` and only appends to the log |
| TypeChecking.IfElseCheck | src/computil/check/TypeChecker.java:155-160 | the condition, the `if` body, then the `else` body in the scope the `if` body left: the scope only grows, the flag stays set, the log only grows |
| TypeChecking.WhileDoCheck | src/computil/check/TypeChecker.java:170-174 | the condition, then the body once, with the same growth guarantees |
| TypeChecking.DoWhileCheck | src/computil/check/TypeChecker.java:163-167 | the body, then the condition in the scope the body left, with the same growth guarantees |
| TypeChecking.StmtsCheck | src/computil/util/TreeScanner.java:106-109 | the statements one after another, each in the state the previous one left, with the same growth guarantees |
| TypeChecking.StmtsCheckSplit | src/computil/util/TreeScanner.java:106-109 | checking a block is checking a prefix, then the rest from the state the prefix left |
| TypeChecking.ReturnInBlockSetsReturned | src/computil/check/TypeChecker.java:136-144 | a block holding a `return` whose value has a type ends, when it completes, with `returned` set |
| TypeChecking.FunctionCheck | src/computil/check/TypeChecker.java:61-69 | the function check's log extends the log it started from |
| TypeChecking.FunctionCheckMissingReturn | src/computil/check/TypeChecker.java:66-67 | the function check adds something after the body's errors exactly when the body did not return and `void` does not match the declared type |
| TypeChecking.ReturningFunctionNeedsNoVoid | src/computil/check/TypeChecker.java:61-67 | a function whose body block holds a typed `return` at top level gets no missing-return error |
| TypeChecking.FunctionEntry | src/computil/check/TypeChecker.java:62 | the scope a body is checked in is a function scope whose parent is the given scope |
| TypeChecking.CallablesCheck | src/computil/check/TypeChecker.java:33-34 | checking the callables in turn only appends to the log |
| TypeChecking.CallablesDeclared | src/computil/check/TypeChecker.java:52-58 | after `registerFunctions` every callable's name is a global |
| TypeChecking.ImplCheck | src/computil/check/TypeChecker.java:115 | checking an impl's callables only appends to the log, and leaves the target's struct scope as `ImplScope` gives and every other struct scope unchanged |
| TypeChecking.ImplScopeAddsNativeParams | src/computil/check/TypeChecker.java:115 | the scope an impl leaves is the starting scope with all its native callables' parameters added in order |
| TypeChecking.ImplVisit | src/computil/check/TypeChecker.java:109-117 | registering an implementation only appends to the log, keeps the globals and adds no struct scope |
| TypeChecking.ImplsVisit | src/computil/check/TypeChecker.java:47-49 | registering the implementations in turn only appends to the log, keeps the globals and adds no struct scope |
| TypeChecking.TypeChecker.ImplStep | src/computil/check/TypeChecker.java:115 | one callable of an impl: after it the rest of `ImplCheck` is the check of the callables that follow; a native callable's parameters go into the target's scope |
| TypeChecking.TypeChecker.VisitStruct | src/computil/check/TypeChecker.java:78-84 | the struct gets an empty implementation set and a struct scope holding its fields |
| TypeChecking.TypeChecker.VisitTemplate | src/computil/check/TypeChecker.java:93-98 | the template gets a struct scope holding its methods |
| TypeChecking.TypeChecker.VisitImpl | src/computil/check/TypeChecker.java:109-117 | fails exactly when `ImplVisit` fails, and otherwise leaves the implementation sets, struct scopes, globals and log it gives; the implementation's name joins the target's set when the target is a struct; an unknown target changes nothing else; the target's scope gets the native callables' parameters |
| TypeChecking.TypeChecker.ImplCallables | src/computil/check/TypeChecker.java:115 | fails exactly when `ImplCheck` fails, and otherwise leaves the struct scopes and the log it gives; the target's scope ends holding the native callables' parameters in order |
| TypeChecking.TypeChecker.RegisterFunctions | src/computil/check/TypeChecker.java:52-58 | the global scope gets one entry per callable, in order |
| TypeChecking.TypeChecker.VisitRoot | src/computil/check/TypeChecker.java:30-36 | after a complete visit every struct has an implementation set and a scope, every template a scope, and every callable a global entry |
| TypeChecking.TypeChecker.RegisterStructs | src/computil/check/TypeChecker.java:40-41 | every struct gets an implementation set and a scope |
| TypeChecking.TypeChecker.RegisterTemplates | src/computil/check/TypeChecker.java:44-45 | every template gets a scope |
| TypeChecking.TypeChecker.RegisterImpls | src/computil/check/TypeChecker.java:48-49 | fails exactly when `ImplsVisit` fails, and otherwise leaves the implementation sets, struct scopes and log it gives; adds no new type or implementation set and leaves the globals alone |
| TypeChecking.TypeChecker.VisitCallables | src/computil/check/TypeChecker.java:33-34 | fails exactly when `CallablesCheck` fails, and otherwise leaves the globals and the log it gives; the types and implementations stay as they were |
| TypeChecking.TypeChecker.VisitFunction | src/computil/check/TypeChecker.java:61-69 | fails exactly when `FunctionCheck` fails, and otherwise logs what it gives: the body checked in a function scope holding the parameters against the declared return type, and a missing-return error exactly when no return was seen and the return type does not accept NULL |
| TypeChecking.TypeChecker.VisitStmt | src/computil/check/TypeChecker.java:120-181 | ends (scope left, `returned` flag, log, or exception) exactly as `StmtCheck` says for the statement; only extends the function scope, never forgets a seen return and only adds errors |
| TypeChecking.TypeChecker.VisitIfElse | src/computil/check/TypeChecker.java:155-160 | ends exactly as `StmtCheck` (through `IfElseCheck`) says for the `if` |
| TypeChecking.TypeChecker.VisitWhileDo | src/computil/check/TypeChecker.java:170-174 | ends exactly as `StmtCheck` (through `WhileDoCheck`) says for the `while` |
| TypeChecking.TypeChecker.VisitDoWhile | src/computil/check/TypeChecker.java:163-167 | ends exactly as `StmtCheck` (through `DoWhileCheck`) says for the `do ... while` |
| TypeChecking.TypeChecker.VisitSimpleStmt | src/computil/check/TypeChecker.java:120-152 | declarations, returns, frees and expression statements end exactly as `StmtCheck` says |
| TypeChecking.TypeChecker.VisitStmts | src/computil/util/TreeScanner.java:106-109 | ends exactly as `StmtsCheck` says for the block's statements from the first |
| TypeChecking.TypeChecker.VisitReturn | src/computil/check/TypeChecker.java:136-144 | fails exactly when `ReturnCheck` fails and otherwise leaves its flag and log; the returned expression's errors, then one return-type error exactly when a non-null type does not match; `returned` is set exactly for a non-null type in a function scope |
| TypeChecking.TypeChecker.TypeReturn | src/computil/check/TypeChecker.java:136-144 | fails exactly when `ReturnCheck` fails and otherwise leaves its flag and log; `returned` is never cleared and the log only grows |
| TypeChecking.TypeChecker.ReportReturn | src/computil/check/TypeChecker.java:138-142 | ends as `ReportCheck` says: one return-type error exactly on a mismatch; `returned` is set in a function scope |
| TypeChecking.TypeChecker.VisitVarDec | src/computil/check/TypeChecker.java:120-133 | ends exactly as `VarDecCheck` says; an already defined name leaves the scope unchanged; otherwise it is added with the declared type, or the initializer's; a declared type the initializer does not match adds one error |
| TypeChecking.TypeChecker.DeclareVar | src/computil/check/TypeChecker.java:124-130 | ends exactly as `DeclareCheck` says for the declaration after the initializer's typing |
| TypeChecking.TypeChecker.CheckCondition | src/computil/check/TypeChecker.java:176-181 | fails exactly when `ConditionCheck` fails and otherwise logs what it gives; a condition of a `null` type throws; a nullable one ends in "branch condition required null safety"; a non-nullable bool adds only the condition's own errors |
| TypeChecking.TypeChecker.CheckTypedCondition | src/computil/check/TypeChecker.java:178-180 | ends exactly as `TypedConditionCheck` says: a nullable type is reported last, a non-nullable bool adds nothing |
| TypeChecking.TypeChecker.VisitFree | src/computil/check/TypeChecker.java:147-152 | fails exactly when `FreeCheck` fails; the freed expression's errors, plus one error exactly when its type is primitive and not NULL |
| TypeChecking.TypeChecker.TypeFree | src/computil/check/TypeChecker.java:147-152 | fails exactly when `FreeCheck` fails and otherwise leaves its log; the log only grows |
| TypeChecking.TypeChecker.FreeTyped | src/computil/check/TypeChecker.java:148-150 | for a value already typed: fails exactly when `TypedFreeCheck` fails and otherwise leaves its log; the log only grows |
| MainChecker.CheckMainFunction | src/computil/check/MainFunctionChecker.java:26-31 | the parameters error is reported exactly when `main` has parameters and the return type error exactly when it does not return `void`; nothing is reported otherwise, and both sit at `main`'s location |
| MainChecker.FirstMain | src/computil/check/MainFunctionChecker.java:12-13 | the index found names a callable called `main` with none before it; no index is found exactly when no callable is called `main` |
| MainChecker.FirstMainPrefix | src/computil/check/MainFunctionChecker.java:12-13 | the first callable called `main` is the one the search finds |
| MainChecker.MissingMainExactly | src/computil/check/MainFunctionChecker.java:10-24 | "missing main function" is the whole report exactly when no callable is called `main` |
| MainChecker.OnlyFirstMainChecked | src/computil/check/MainFunctionChecker.java:12-17 | the report is the check of the first `main`, and whatever follows it does not change the report |
| MainChecker.NoMultipleMainError | src/computil/check/MainFunctionChecker.java:14-18 | "can not declare multiple main functions" is never reported, since the visit returns at the first `main` |
| MainChecker.BothErrors | src/computil/check/MainFunctionChecker.java:26-31 | a first `main` with parameters and a non-`void` return type draws both errors, the parameters error first |
| Dangling.DanglingReport | src/computil/check/DanglingChecker.java:167-172 | a scanned operand draws at most one report, and one exactly when its reference is DEAD |
| Dangling.ReleaseReport | src/computil/check/DanglingChecker.java:95-98 | `free` reports nothing about an ALIVE reference and exactly one error about a DEAD or IMMUTABLE one |
| Dangling.DoubleFreeReportsBoth | src/computil/check/DanglingChecker.java:93-98 | freeing a released reference again reports "dangling reference" at the operand, then "can not release dangling reference" at the `free` |
| Dangling.DeepDanglerSpec | src/computil/check/DanglingChecker.java:179-186 | `hasDeepDangler` holds exactly when a chain of member links from the reference reaches a DEAD reference |
| Dangling.DanglerPath | src/computil/check/DanglingChecker.java:179-186 | a deep dangler comes with a member path that starts at the reference and ends at a DEAD one |
| Dangling.PathDangles | src/computil/check/DanglingChecker.java:179-186 | a member path ending at a DEAD reference makes its start a deep dangler |
| Dangling.Leaks | src/computil/check/DanglingChecker.java:45-47 | the leak scan reports at most one error per entry it visits |
| Dangling.LeaksSpec | src/computil/check/DanglingChecker.java:113-115 | every leak report is the leak message at the last location of a visited entry that is ALIVE and held once; nothing is reported exactly when no visited entry is |
| Dangling.LookupSpec | src/computil/check/DanglingChecker.java:121-127 | the lookup finds the binding of the outermost frame that holds the name, and nothing when no frame does |
| Dangling.Chain | src/computil/check/DanglingChecker.java:37-43 | the innermost scope of the chain holds the innermost frame's bindings |
| Dangling.FirstNamedSpec | src/computil/check/DanglingChecker.java:122-126 | the first entry with the name carries it and no entry before it does; there is none exactly when no entry has the name |
| Dangling.FirstNamedAppend | src/computil/check/DanglingChecker.java:122-126 | searching two enumerations one after the other finds the first one's hit, else the second one's |
| Dangling.EnumFirstNamed | src/computil/check/DanglingChecker.java:122-126 | in the entries of one scope, the first entry with the name is the one the scope binds to it |
| Dangling.ChainBounds | src/computil/check/DanglingChecker.java:113 | every entry an iteration of the scope chain yields is allocated |
| Dangling.ChainLookup | src/computil/check/DanglingChecker.java:121-127 | `visitVariableTree` over any iteration of the chain finds what the outermost-first lookup finds |
| Dangling.ChainLookupBlock | src/computil/check/DanglingChecker.java:121-127 | the block-scope step of the same: the parent chain's entries, then the block's own |
| Dangling.BindInner | src/computil/scope/BlockScope.java:17-43 | `scope.add` on the innermost scope changes no outer frame and binds the name in the innermost one |
| Dangling.NamesAgreeBind | src/computil/check/DanglingChecker.java:56-59 | binding an entry under its own name keeps every scope's keys equal to its entries' names |
| Dangling.DanglingChecker.NewReference | src/computil/check/DanglingChecker.java:207-211 | a new reference with the given state, count and location and no members, appended to the store; nothing else changes |
| Dangling.DanglingChecker.NewEntry | src/computil/check/DanglingChecker.java:191-194 | a new entry with the given name and reference, appended; nothing else changes |
| Dangling.DanglingChecker.Bind | src/computil/check/DanglingChecker.java:56-59 | the innermost scope binds the name to the entry; nothing else changes |
| Dangling.DanglingChecker.CheckDangling | src/computil/check/DanglingChecker.java:167-172 | a DEAD scanned reference adds "dangling reference" at the expression; no entry or any other state adds nothing |
| Dangling.DanglingChecker.FreeEntry | src/computil/check/DanglingChecker.java:91-103 | the release report for the reference's old state is logged and the reference is DEAD afterwards; no other reference changes |
| Dangling.DanglingChecker.Declare | src/computil/check/DanglingChecker.java:52-64 | without a reference initializer a new IMMUTABLE reference held once is bound; otherwise the new variable shares the initializer's reference, whose count grows by one |
| Dangling.DanglingChecker.AddParameter | src/computil/check/DanglingChecker.java:67-71 | a parameter is bound to a new IMMUTABLE reference held once |
| Dangling.DanglingChecker.AssignDrop | src/computil/check/DanglingChecker.java:75-79 | the left side's reference loses a holder, and a leak is reported at its last location if it is ALIVE and now held by no one |
| Dangling.DanglingChecker.AssignBind | src/computil/check/DanglingChecker.java:81-87 | the left entry points at the right side's reference when there is one; that reference gains a holder, turns ALIVE and takes the assignment's location |
| Dangling.DanglingChecker.FreshResult | src/computil/check/DanglingChecker.java:131-141 | a call yields a temporary entry for a new ALIVE reference held by no one |
| Dangling.DanglingChecker.StructReference | src/computil/check/DanglingChecker.java:159-165 | a type naming no struct fails (the `null` member list); otherwise a new ALIVE reference held by no one with one ALIVE member, held once, per declared field |
| Dangling.DanglingChecker.FieldEntry | src/computil/check/DanglingChecker.java:151-157 | an existing member is returned as it is; a missing one is created ALIVE and held once at the access, and only the owner's member map changes |
| Dangling.DanglingChecker.Resolve | src/computil/check/DanglingChecker.java:121-128 | the outermost binding of the name, or an `AssertionError` when no scope binds it |
| Dangling.DanglingChecker.ReportLeaks | src/computil/check/DanglingChecker.java:113-115 | the leak reports of the visited entries are appended in visiting order; nothing else changes |
| Dangling.DanglingChecker.ReturnEntry | src/computil/check/DanglingChecker.java:106-118 | the returned reference becomes IMMUTABLE; a deep dangler inside it is reported, then every entry of the chain's iteration that leaks |
| Dangling.DanglingChecker.ExitBlock | src/computil/check/DanglingChecker.java:45-48 | the leaks of the block's own entries are reported in the map's order and the block's frame is dropped |
| Dangling.DanglingChecker.ScanAndCheck | src/computil/check/DanglingChecker.java:167-172 | the scopes and struct table are unchanged, the stores only grow, and a returned entry is allocated |
| Dangling.DanglingChecker.CheckArguments | src/computil/check/DanglingChecker.java:174-177 | the scopes and struct table are unchanged and the stores only grow |
| Dangling.DanglingChecker.VisitExpr | src/computil/check/DanglingChecker.java:120-157 | a literal yields no entry; a variable yields its outermost binding or an `AssertionError`; the scopes are unchanged and a returned entry is allocated |
| Dangling.DanglingChecker.VisitAssign | src/computil/check/DanglingChecker.java:74-88 | the scopes are unchanged, the stores only grow, and the returned entry is allocated |
| Dangling.DanglingChecker.VisitStmt | src/computil/check/DanglingChecker.java:52-118 | a statement leaves the depth of the scope chain as it was and the stores only grow |
| Dangling.DanglingChecker.VisitBlock | src/computil/check/DanglingChecker.java:42-49 | a block leaves the depth of the scope chain as it was and the stores only grow |
| Dangling.DanglingChecker.VisitCallable | src/computil/check/DanglingChecker.java:37-39 | a callable is checked in a fresh function scope, and no scope is left open afterwards |
| Dangling.DanglingChecker.VisitStruct | src/computil/check/DanglingChecker.java:28-34 | the struct's field names are recorded in order under its name; no other struct's entry changes |
| Dangling.DanglingChecker.Check | src/computil/check/DanglingChecker.java:21-25 | after the root is scanned, no scope is left open |
| Generation.ImplicitCastOneSide | src/computil/generation/Generator.java:585-591 | at most one operand is ever converted, only under `+ - *`, and a conversion makes the operation a `float` one |
| Generation.ResultTypeCases | src/computil/generation/Generator.java:593-601 | the bit, shift and `+ - *` operators give `int` exactly when neither operand is `float`; `/` always gives `float`, `//` and `%` always `int`, the logical and comparison operators `bool` |
| Generation.AsWrittenSplit | src/computil/generation/Generator.java:569-582 | the stream after a binary operation is the stream before it followed by the as-written operation code, which exists whenever there is an instruction to insert after |
| Generation.BinOpCodeConvertsLeftValue | src/computil/generation/Generator.java:568-583 | corrected layout: the left operand's conversion comes right after the left operand's code and before any of the right operand's |
| Generation.AsWrittenAgreesOnSingleInstruction | src/computil/generation/Generator.java:569-575 | as written, the conversion is in the right place when the left operand is one instruction or nothing is converted |
| Generation.AsWrittenConvertsInsideLeftOperand | src/computil/generation/Generator.java:569-575 | for `a * b + 1.5`, the as-written conversion lands between the loads of `a` and `b`, where the corrected one converts the product |
| Generation.IfJumpTargets | src/computil/generation/Generator.java:319-344 | a false condition jumps to right after the body (the end, or the start of the else part), and the body's closing `Goto` jumps past the else part |
| Generation.DoWhileJumpsBack | src/computil/generation/Generator.java:347-354 | the last instruction of a do-while jumps back to the first instruction of its body |
| Generation.PatchAt | src/computil/generation/instructions/BranchIfFalse.java:11-13 | patching a jump changes only the instruction at its own position |
| Generation.DeclareFresh | src/computil/generation/Generator.java:299-308 | a declaration at the next free address keeps every address of the scope below the new bound, and the new slot belongs to no other entry |
| Generation.Formals | src/computil/generation/Generator.java:113-133 | a function's formals are its declared parameters, preceded by the receiver inside an implementation |
| Generation.Stores | src/computil/generation/Generator.java:146-154 | the prologue holds one store per formal |
| Generation.ParamTableAt | src/computil/generation/Generator.java:146-154 | with distinct names, formal `i` is recorded at address `base + i`, and the table holds the formals' names only |
| Generation.ParamOrderAt | src/computil/generation/Generator.java:146-154 | with distinct names, the parameter order is the formals' order |
| Generation.DeclaredParamsAt | src/computil/generation/Generator.java:146-154 | with distinct names, every formal resolves to its own parameter entry at `base + i` |
| Generation.DeclaredFinds | src/computil/generation/Generator.java:83-92 | after registration every callable resolves to its entry under its qualified name, the last one of a name winning |
| Generation.FieldScope | src/computil/generation/Generator.java:95-110 | the struct scope has one ordered entry per field and no implementations |
| Generation.FieldLayout | src/computil/generation/Generator.java:95-110 | field `i` is slot `i` of the laid-out struct; every field name is in the scope at the slot of its last declaration |
| Generation.FieldSlots | src/computil/generation/Generator.java:105-110 | the ordered entries of a struct scope are its fields, slot by slot |
| Generation.FieldAddresses | src/computil/generation/Generator.java:105-110 | every field name is in the struct scope, at the slot of its last declaration |
| Generation.MethodTableLast | src/computil/generation/Generator.java:65-72 | a template method declared last under its name gives the return type used for calls on that template |
| Generation.MethodsLaidStep | src/computil/generation/Generator.java:157-179 | one more method overrides its name's table entry and keeps every earlier entry's pool constant |
| Generation.MethodLaidEarlier | src/computil/generation/Generator.java:157-179 | an earlier method that is the last of its name keeps its table entry and pool constant |
| Generation.NextMethodLaid | src/computil/generation/Generator.java:157-179 | the loop over an implementation's methods lays out one more prefix per turn |
| Generation.ImplMethodNamesCover | src/computil/generation/Generator.java:74-81 | every implementation's method names are among the names registered for all implementations |
| Generation.TemplateMethods | src/computil/generation/Generator.java:65-72 | the return-type table of a template: each method name maps to the return type of its last declaration |
| Generation.Generator.constructor | src/computil/generation/Generator.java:30-36 | a fresh state: a new mediator with the pool registered, no functions, no structs |
| Generation.Generator.NewLine | src/computil/generation/Generator.java:38-44 | a line marker is emitted exactly when the node has a line beyond the current one, which it then becomes; nothing else is emitted |
| Generation.Generator.GenNull | src/computil/generation/Generator.java:196-200 | `PushNull`, one stack slot, type NULL |
| Generation.Generator.GenInt | src/computil/generation/Generator.java:203-214 | a byte-sized value is pushed directly; any other is interned in the pool and loaded from its entry; the type is `int` |
| Generation.Generator.GenFloat | src/computil/generation/Generator.java:217-222 | the value is interned in the pool and loaded from its entry; the type is `float` |
| Generation.Generator.GenBool | src/computil/generation/Generator.java:225-229 | `PushBool` of the value; the type is `bool` |
| Generation.Generator.GenString | src/computil/generation/Generator.java:232-237 | the string is interned in the pool and loaded from its entry; the type is `str` |
| Generation.Generator.GenVariable | src/computil/generation/Generator.java:477-488 | inside an implementation slot 0 is read; elsewhere the finder's entry is loaded, and an unknown name throws; the slot is marked as used |
| Generation.Generator.GenExpr | src/computil/util/TreeScanner.java:23-25 | one expression's code is appended to the stream and logged with its type; a missing expression generates nothing and has type `null` |
| Generation.Generator.GenNot | src/computil/generation/Generator.java:276-280 | the operand's code, then `Not`; the type is `bool` |
| Generation.Generator.GenNegation | src/computil/generation/Generator.java:283-287 | the operand's code, then `Negate`; the type is the operand's |
| Generation.Generator.GenNullCheck | src/computil/generation/Generator.java:268-273 | the operand's code, a line marker, then `NullCheck`; the type is the operand's |
| Generation.Generator.GenCast | src/computil/generation/Generator.java:240-261 | between `int` and `float` the numeric conversion (nothing for the same type); any other cast is a line marker and a `CheckCast` against the target's struct constant; the type is the target |
| Generation.Generator.EmitCast | src/computil/generation/Generator.java:244-260 | the conversion or the checked cast that follows the operand |
| Generation.Generator.EmitCheckCast | src/computil/generation/Generator.java:257-259 | a line marker, then `CheckCast` naming the target type's struct constant |
| Generation.Generator.GenList | src/computil/util/TreeScanner.java:27-32 | the expressions' codes in order; the type of the last one, or `null` for none |
| Generation.Generator.GenArray | src/computil/generation/Generator.java:290-296 | the elements' codes in order, then `MakeArray` of their number, which pops them; the type is an array of the last element's type |
| Generation.Generator.GenFieldAccess | src/computil/generation/Generator.java:449-456 | the operand's code, then `GetField` of the field's address in the operand type's struct scope; the type is the field's |
| Generation.Generator.GenContainerAccess | src/computil/generation/Generator.java:491-498 | a key other than an integer literal fails; otherwise the operand's code, a line marker and `ReadArray` of the key; the type is the array's first generic |
| Generation.Generator.GenAssign | src/computil/generation/Generator.java:501-520 | the right operand's code, then the store for the target: `StoreLocal` of a variable's slot, an array write, or `PutField` after the object; any other target fails |
| Generation.Generator.WriteLocal | src/computil/generation/Generator.java:522-527 | `StoreLocal` of the finder's entry, which is marked used; an unknown name throws |
| Generation.Generator.ContainerWrite | src/computil/generation/Generator.java:529-536 | the container's code, a line marker and `WriteArray` of the integer-literal key, which pops the container; other keys fail |
| Generation.Generator.WriteArrayAt | src/computil/generation/Generator.java:532-535 | the `WriteArray` is emitted exactly when the key is an integer literal |
| Generation.Generator.WriteField | src/computil/generation/Generator.java:538-545 | the object's code, then `PutField` of the field's address in the object type's struct scope, which pops the object |
| Generation.Generator.GenBinOp | src/computil/generation/Generator.java:568-583 | both operands' codes with the conversion and the operation laid out as written; the type is the operation's result type |
| Generation.Generator.GenOperands | src/computil/generation/Generator.java:569-571 | the left operand's code then the right one's, from the stream size recorded before them |
| Generation.Generator.EmitOperation | src/computil/generation/Generator.java:572-582 | the left conversion is inserted at the recorded index, which throws past the end of the stream, then the right conversion and the operation named after the result type |
| Generation.Generator.EmitRightAndOperation | src/computil/generation/Generator.java:576-582 | the right operand's conversion if needed, then the operation named after the result type |
| Generation.Generator.CallVirtual | src/computil/generation/Generator.java:398-401 | one virtual invoke naming the function's pool entry and the argument count |
| Generation.Generator.CallNative | src/computil/generation/Generator.java:403-406 | one native invoke naming the function's pool entry and the argument count |
| Generation.Generator.GenCall | src/computil/generation/Generator.java:386-396 | an unknown name throws; a global entry that is no function fails; otherwise the native or virtual invoke, which pops the arguments; the type is the function's return type |
| Generation.Generator.GenArguments | src/computil/generation/Generator.java:441-446 | the arguments' codes from the last to the first |
| Generation.Generator.GenCallGlobal | src/computil/generation/Generator.java:378-384 | the arguments last to first, a line marker, then the invoke chosen by the global entry, which pops the arguments |
| Generation.Generator.GenCallMethod | src/computil/generation/Generator.java:409-439 | the arguments last to first, the operand, then a template invoke on a template type (typed by the template table, `null` for an unknown method) or the struct method's invoke otherwise (typed by its entry) |
| Generation.Generator.InvokeOn | src/computil/generation/Generator.java:416-437 | on a template type `Dup`, a line marker and a template invoke of the method name, typed by the template table; on a struct type the invoke of the `type$name` entry of its struct scope |
| Generation.Generator.GenArgumentsAndOperand | src/computil/generation/Generator.java:410-414 | the arguments last to first, then the operand, whose type must not be `null` |
| Generation.Generator.InvokeTemplateMethod | src/computil/generation/Generator.java:417-422 | `Dup`, a line marker and `InvokeTemplate` of the method name's UTF-8 pool entry with the arguments plus the receiver, all of which it pops |
| Generation.Generator.InvokeStructMethod | src/computil/generation/Generator.java:426-436 | a missing struct scope or `type$name` entry throws; a virtual method gets a line marker and the virtual invoke of `type$name`, a native one the native invoke of the bare name; nothing is popped |
| Generation.Generator.GenStructInit | src/computil/generation/Generator.java:548-565 | `NewInstance` of the struct constant of the type, then per argument `Dup`, its code, `Swap` and `PutField` of its position; the type is the struct type |
| Generation.Generator.InitArgument | src/computil/generation/Generator.java:556-563 | argument `i` extends the field initialisations of the arguments before it by one |
| Generation.Generator.GenStmt | src/computil/util/TreeScanner.java:23-25 | one statement's code is appended and logged; a declaration keeps the scope's addresses below the next free one; a missing statement generates nothing |
| Generation.Generator.GenStmts | src/computil/generation/Generator.java:459-462 | the statements' codes in order, in the same scope, with the scope's addresses kept below the next free one |
| Generation.Generator.GenExprStmt | src/computil/generation/Generator.java:465-474 | the expression's code, then a `Pop` exactly when it is a call |
| Generation.Generator.GenReturn | src/computil/generation/Generator.java:311-316 | the value's code, then `Return`, which pops it |
| Generation.Generator.GenFree | src/computil/generation/Generator.java:371-375 | the value's code, then `Free`; the stack size is not adjusted |
| Generation.Generator.GenVarDec | src/computil/generation/Generator.java:299-308 | the initialiser's code, then `StoreLocal` of the next free address, which is marked used and bound in the scope under the declared type, or the initialiser's type when none is declared |
| Generation.Generator.DeclareLocal | src/computil/generation/Generator.java:301-306 | the next free address is taken, marked used, bound in the scope and stored to, and the scope's addresses stay below the new bound |
| Generation.Generator.GenIfElse | src/computil/generation/Generator.java:319-344 | the condition, a `BranchIfFalse` past the body, the body, and with an else part a `Goto` past it, laid out as the if layout functions say |
| Generation.Generator.CloseIf | src/computil/generation/Generator.java:328-331 | the branch is patched to the stream size, which completes the if layout |
| Generation.Generator.GenGuard | src/computil/generation/Generator.java:320-324 | the condition's code and a `BranchIfFalse` with no target yet, which pops the condition |
| Generation.Generator.GenElse | src/computil/generation/Generator.java:332-341 | the `Goto`, the else part, and both jumps patched, which completes the if-else layout |
| Generation.Generator.CloseElse | src/computil/generation/Generator.java:338-340 | the branch is patched to the start of the else part and the `Goto` to the stream size |
| Generation.Generator.GenDoWhile | src/computil/generation/Generator.java:347-354 | the body, the condition, then a `BranchIfTrue` back to where the body starts |
| Generation.Generator.GenLoop | src/computil/generation/Generator.java:347-354 | the do-while layout over a body and a condition |
| Generation.Generator.GenWhileDo | src/computil/generation/Generator.java:357-368 | a while loop is an if whose body is a do-while of the same condition: the condition is generated twice |
| Generation.Generator.VisitParameter | src/computil/generation/Generator.java:146-154 | the next free address is taken, marked used, recorded as the parameter's, stored to from the stack and bound in the scope |
| Generation.Generator.VisitParameters | src/computil/generation/Generator.java:126-127 | the formals take consecutive addresses, with one store each, the parameter table and order of the formals, and the stack shrinks by their number |
| Generation.Generator.VisitNextParameter | src/computil/generation/Generator.java:126-127 | formal `i` extends what the formals before it laid out |
| Generation.Generator.VisitFunction | src/computil/generation/Generator.java:113-133 | `main` at the top level becomes the entry point; an unregistered name throws; otherwise the function gets the formals' stores, its body and `PushNull`, `Return`, with the formals' parameter table |
| Generation.Generator.EnterFunction | src/computil/generation/Generator.java:114-118 | the entry point for a top-level `main`, then the registered function is entered with address 0 and no current line |
| Generation.Generator.GenFunction | src/computil/generation/Generator.java:119-132 | the formals' stores, the body, then `PushNull` and `Return` |
| Generation.Generator.VisitNative | src/computil/generation/Generator.java:140-143 | only the pool entry of the native function's name |
| Generation.Generator.RegisterCallables | src/computil/generation/Generator.java:83-92 | registration succeeds exactly when no name of a non-native callable is taken, before or by an earlier one; the new functions are exactly those names, and every callable is bound in the scope; a missing scope fails unless the list is empty |
| Generation.Generator.RegisterAll | src/computil/generation/Generator.java:84-89 | the functions registered are exactly the non-native names, and registration fails exactly when one is taken |
| Generation.Generator.RegisterCallable | src/computil/generation/Generator.java:85-90 | one callable: a non-native one is registered, which fails exactly when its name is taken |
| Generation.Generator.RegisterGlobals | src/computil/generation/Generator.java:52 | the top-level callables are registered and bound in the global scope |
| Generation.Generator.RegisterImplementations | src/computil/generation/Generator.java:74-81 | every method is registered as `type$name`; an implementation with methods for a type that has no struct scope fails |
| Generation.Generator.RegisterImplementation | src/computil/generation/Generator.java:76-80 | one implementation: its methods are registered and added to the struct scope of its type, which must exist when there are methods; earlier registrations are kept |
| Generation.Generator.VisitField | src/computil/generation/Generator.java:105-110 | the next free address is the field's slot; its name is appended to the struct and bound in its scope |
| Generation.Generator.VisitStruct | src/computil/generation/Generator.java:95-102 | a fresh struct scope holding the fields at slots 0, 1, ..., and the field names appended to the registered struct |
| Generation.Generator.GenStructs | src/computil/generation/Generator.java:59-63 | it fails exactly when a struct name is taken; otherwise every struct is registered with its field names, in order, and its field scope |
| Generation.Generator.RegisterStructs | src/computil/generation/Generator.java:60-61 | the structs are registered in order, fresh and empty, and registration fails exactly when a name is taken |
| Generation.Generator.RegisterStruct | src/computil/generation/Generator.java:61 | one struct registration, which fails exactly when the name is taken |
| Generation.Generator.VisitStructs | src/computil/generation/Generator.java:62 | every registered struct gets its field scope and its field names; no other struct scope changes |
| Generation.Generator.VisitNextStruct | src/computil/generation/Generator.java:62 | struct `i` gets its scope and fields; structs not yet visited keep no fields |
| Generation.Generator.GenTemplates | src/computil/generation/Generator.java:65-72 | each template maps to the return types of its methods |
| Generation.Generator.VisitMethod | src/computil/generation/Generator.java:167-175 | the function `type$name` is marked as a method and the struct's method table maps the name to its pool entry; a missing function or struct throws |
| Generation.Generator.VisitBody | src/computil/generation/Generator.java:174 | a function method is generated; a native one only gets its pool entry and never fails |
| Generation.Generator.RegisterMethod | src/computil/generation/Generator.java:168-172 | the mark, the pool entry and the method table entry; a missing function or struct throws |
| Generation.Generator.VisitImpl | src/computil/generation/Generator.java:157-179 | every method is marked and laid out in the struct's method table, and the receiver entry is cleared afterwards |
| Generation.Generator.VisitMethods | src/computil/generation/Generator.java:167-175 | every method of the list is marked and laid out in the struct's method table |
| Generation.Generator.VisitNextMethod | src/computil/generation/Generator.java:167-175 | one turn of the methods loop extends the laid-out prefix by one method |
| Generation.Generator.VisitCallable | src/computil/generation/Generator.java:113-143 | a top-level `main` becomes the entry point; a native callable gets its pool entry; a function gets its stores, body, `PushNull` and `Return` |
| Generation.Generator.VisitCallables | src/computil/generation/Generator.java:54 | the entry point changes only when a callable is `main`; every native callable is in the pool and every function is registered |
| Generation.Generator.VisitImpls | src/computil/generation/Generator.java:55 | every implementation's methods are marked, and no receiver entry is left set |
| Generation.Generator.VisitRoot | src/computil/generation/Generator.java:47-57 | on success the struct names were free, every struct, template table and top-level function is in place, natives are in the pool, a `main` is the entry point, and every method is marked |
| Generation.Generator.DeclareRoot | src/computil/generation/Generator.java:48-52 | structs, templates, implementation methods and top-level callables are declared before any code is generated |
| Generation.Generator.GenerateRoot | src/computil/generation/Generator.java:54-55 | the callables' code, then the implementations' |
| Bytecode.IntBytes | src/computil/generation/targets/rbt/RabbitBytecodeV1.java:37-43 | an `int` is written as exactly four bytes |
| Bytecode.ReadIntBytes | src/computil/generation/targets/rbt/RabbitBytecodeV1.java:37-43 | the four bytes read back big-endian give the value wrapped to 32 bits, which is the value itself for a Java `int` |
| Bytecode.TwoBytes | src/computil/generation/targets/rbt/RabbitBytecodeV1.java:365-369 | a jump target or line number is written as exactly two bytes |
| Bytecode.TwoBytesRoundTrip | src/computil/generation/targets/rbt/RabbitBytecodeV1.java:365-369 | the two bytes read back give the value modulo 2^16, the value itself below 2^16 |
| Bytecode.Utf8Char | src/computil/generation/targets/rbt/RabbitBytecodeV1.java:45-48 | one character takes one to four bytes of UTF-8 |
| Bytecode.StringLengthPrefix | src/computil/generation/targets/rbt/RabbitBytecodeV1.java:45-48 | the length prefix counts UTF-16 units, never more than the bytes that follow, and equal to them exactly when the string is ASCII |
| Bytecode.NonAsciiLengthExample | src/computil/generation/targets/rbt/RabbitBytecodeV1.java:45-48 | `"é"` is announced as one unit but takes two bytes |
| Bytecode.DecodeCharOf | src/computil/generation/targets/rbt/RabbitBytecodeV1.java:45-48 | each character's UTF-8 bytes decode back to it, whatever follows |
| Bytecode.DecodeUtf8RoundTrip | src/computil/generation/targets/rbt/RabbitBytecodeV1.java:45-48 | decoding the bytes `getBytes(UTF_8)` produces gives back the string |
| Bytecode.Utf8Front | src/computil/generation/targets/rbt/RabbitBytecodeV1.java:45-48 | a string's UTF-8 bytes are its first character's bytes followed by the rest's |
| Bytecode.ByOperationSpec | src/computil/generation/targets/rbt/RabbitBytecodeV1.java:392-434 | only `//` throws; `+ - *` take the `int` opcode exactly for the type `"int"` and the `float` one otherwise; every other operator has one opcode whatever the type |
| Bytecode.ByOperationInjective | src/computil/generation/targets/rbt/RabbitBytecodeV1.java:392-434 | for a fixed type, different operators get different opcodes |
| Bytecode.FormCount | src/computil/generation/targets/rbt/RabbitBytecodeV1.java:157-363 | every instruction's operand count matches the form it is written in, and only a `//` operation has no form |
| Bytecode.InstructionFrame | src/computil/generation/targets/rbt/RabbitBytecodeV1.java:157-363 | a written instruction starts with its length, which counts the opcode and the operands, and its opcode byte reads back through `Opcode.of`; only `//` throws, after its length byte |
| Bytecode.PushBoolIsPushInt | src/computil/generation/targets/rbt/RabbitBytecodeV1.java:171-175 | `PushBool` is written as the `PUSH_INT` of 1 or 0 |
| Bytecode.JumpOperand | src/computil/generation/targets/rbt/RabbitBytecodeV1.java:337-363 | the three jumps and the line marker carry their operand in two bytes |
| Bytecode.Encodings | src/computil/generation/targets/rbt/RabbitBytecodeV1.java:149-150 | one encoding per instruction, in stream order |
| Bytecode.InstructionsFrame | src/computil/generation/targets/rbt/RabbitBytecodeV1.java:149-150 | a written stream splits back, by its length bytes alone, into the instructions' own encodings |
| Bytecode.InstructionsComplete | src/computil/generation/targets/rbt/RabbitBytecodeV1.java:149-150 | a stream is written completely exactly when each of its instructions is |
| Bytecode.NextConstant | src/computil/generation/targets/rbt/RabbitBytecodeV1.java:83-87 | the pool loop writes one more constant per turn |
| Bytecode.NextMethodEntry | src/computil/generation/targets/rbt/RabbitBytecodeV1.java:384-387 | the method loop writes one more name and low-byte address per turn |
| Bytecode.UnitSplit | src/computil/generation/targets/rbt/RabbitBytecodeV1.java:59-77 | the unit is the head, the functions, then the struct count and the structs; after a function that throws nothing more is written |
| Bytecode.HeaderLayout | src/computil/generation/targets/rbt/RabbitBytecodeV1.java:59-66 | the output starts with `DE AD`, the minor and major versions 1 as four bytes each, the entry point's low byte and the pool size's low byte |
| Bytecode.HeadStart | src/computil/generation/targets/rbt/RabbitBytecodeV1.java:59-66 | the first twelve bytes of the head, whose two version fields read back as 1 |
| Bytecode.HeadPrefix | src/computil/generation/targets/rbt/RabbitBytecodeV1.java:59-69 | the output starts with the head whether or not every function can be written |
| Bytecode.EntryPointTruncated | src/computil/generation/targets/rbt/RabbitBytecodeV1.java:63 | `write(int)` keeps only the low byte: entry point 256 is written like entry point 0 |
| Bytecode.FunctionsComplete | src/computil/generation/targets/rbt/RabbitBytecodeV1.java:68-71 | the functions are written completely exactly when none of their instructions is a `//` operation |
| Bytecode.FunctionIncomplete | src/computil/generation/targets/rbt/RabbitBytecodeV1.java:142-151 | a function is written completely exactly when its stream is; otherwise one of its instructions throws |
| Bytecode.FunctionsPrefixStops | src/computil/generation/targets/rbt/RabbitBytecodeV1.java:70-71 | once a function throws, no later function is written |
| Bytecode.PrefixStops | src/computil/generation/targets/rbt/RabbitBytecodeV1.java:149-150 | once an instruction throws, nothing after it is written |
| Bytecode.Records | src/computil/generation/targets/rbt/RabbitBytecodeV1.java:142-147 | one record per function key, read from that function |
| Bytecode.BytecodeWriter.Write | src/computil/generation/targets/rbt/RabbitBytecodeV1.java:25-29 | the low byte of the value is appended |
| Bytecode.BytecodeWriter.WriteBytes | src/computil/generation/targets/rbt/RabbitBytecodeV1.java:31-35 | the bytes are appended |
| Bytecode.BytecodeWriter.WriteInt | src/computil/generation/targets/rbt/RabbitBytecodeV1.java:37-43 | the four bytes of the value are appended |
| Bytecode.BytecodeWriter.WriteString | src/computil/generation/targets/rbt/RabbitBytecodeV1.java:45-48 | the UTF-16 length as four bytes, then the UTF-8 bytes, are appended |
| Bytecode.BytecodeWriter.WriteOpcode | src/computil/generation/targets/rbt/RabbitBytecodeV1.java:153-155 | the opcode's ordinal is appended |
| Bytecode.BytecodeWriter.Emit0 | src/computil/generation/targets/rbt/RabbitBytecodeV1.java:157-161 | an instruction without operands: length 1, then the opcode |
| Bytecode.BytecodeWriter.Emit1 | src/computil/generation/targets/rbt/RabbitBytecodeV1.java:164-168 | an instruction with one byte operand: length 2, the opcode, the operand's low byte |
| Bytecode.BytecodeWriter.Emit2 | src/computil/generation/targets/rbt/RabbitBytecodeV1.java:272-277 | an instruction with two byte operands: length 3, the opcode, both operands' low bytes |
| Bytecode.BytecodeWriter.EmitJump | src/computil/generation/targets/rbt/RabbitBytecodeV1.java:338-342 | a jump: length 3, the opcode, the target's two bytes |
| Bytecode.BytecodeWriter.VisitInstruction | src/computil/generation/targets/rbt/RabbitBytecodeV1.java:157-363 | the instruction's encoding is appended, and the call fails exactly for `//` |
| Bytecode.BytecodeWriter.WriteForm | src/computil/generation/targets/rbt/RabbitBytecodeV1.java:157-363 | the bytes of one instruction form are appended, failing exactly for the form that throws |
| Bytecode.BytecodeWriter.VisitInstructions | src/computil/generation/targets/rbt/RabbitBytecodeV1.java:149-150 | the instructions' encodings are appended up to the first that throws, and the loop fails exactly when one does |
| Bytecode.BytecodeWriter.VisitFunction | src/computil/generation/targets/rbt/RabbitBytecodeV1.java:142-151 | the name, the stack size's and the locals' low bytes, the stream size as four bytes, then the instructions |
| Bytecode.BytecodeWriter.WriteFunctionHead | src/computil/generation/targets/rbt/RabbitBytecodeV1.java:143-147 | the part of a function record before its instructions |
| Bytecode.BytecodeWriter.VisitConstant | src/computil/generation/targets/rbt/RabbitBytecodeV1.java:93-134 | the constant's tag ordinal, then its value: four bytes for an integer or a float's bits, a length-prefixed string otherwise |
| Bytecode.BytecodeWriter.WritePayload | src/computil/generation/targets/rbt/RabbitBytecodeV1.java:94-134 | the value part of a constant |
| Bytecode.BytecodeWriter.VisitPool | src/computil/generation/targets/rbt/RabbitBytecodeV1.java:83-87 | the pool size's low byte, then every constant in order |
| Bytecode.BytecodeWriter.VisitStruct | src/computil/generation/targets/rbt/RabbitBytecodeV1.java:377-389 | the name, the size's and method count's low bytes, then each method's name and address in some iteration order of the method map |
| Bytecode.BytecodeWriter.WriteUnit | src/computil/generation/targets/rbt/RabbitBytecodeV1.java:59-77 | the header, the pool, the function count, the functions up to the first that throws, then the struct count and the structs; it fails exactly when a function throws |
| Bytecode.BytecodeWriter.WriteParts | src/computil/generation/targets/rbt/RabbitBytecodeV1.java:59-77 | the unit's bytes once the function and struct maps are enumerated |
| Bytecode.BytecodeWriter.WriteHead | src/computil/generation/targets/rbt/RabbitBytecodeV1.java:60-69 | the header, the pool and the function count's low byte |
| Bytecode.BytecodeWriter.WriteHeader | src/computil/generation/targets/rbt/RabbitBytecodeV1.java:60-63 | the magic number, the two versions and the entry point's low byte |
| Bytecode.BytecodeWriter.VisitFunctions | src/computil/generation/targets/rbt/RabbitBytecodeV1.java:70-71 | the functions' records in order, stopping after the first one that throws |
| Bytecode.BytecodeWriter.VisitStructs | src/computil/generation/targets/rbt/RabbitBytecodeV1.java:75-76 | every struct's record in order |
| Disassembly.ConstantLinesNext | src/computil/generation/targets/rbt/RabbitBytecodeDisV1.java:56-60 | the pool loop prints one more constant line per turn, numbered by the running address |
| Disassembly.ConstantAt | src/computil/generation/targets/rbt/RabbitBytecodeDisV1.java:56-65 | the line of the constant at position `k` carries the address `start + k`, between the lines before and after it |
| Disassembly.ArgsTextNext | src/computil/generation/targets/rbt/RabbitBytecodeDisV1.java:122-123 | each operand appends a blank and its decimal text |
| Disassembly.UnitLayout | src/computil/generation/targets/rbt/RabbitBytecodeDisV1.java:34-50 | the printout is the header and pool, the functions up to the first that throws and, only when none throws, the structs; it is complete exactly when the functions are |
| Disassembly.LastBlank | src/computil/generation/targets/rbt/RabbitBytecodeDisV1.java:119-126 | the position found is a blank, and when there is none no character is a blank |
| Disassembly.FirstBlank | src/computil/generation/targets/rbt/RabbitBytecodeDisV1.java:119-126 | the position found is the first blank, or the length when there is none |
| Disassembly.NoBlankInNumber | src/computil/generation/targets/rbt/RabbitBytecodeDisV1.java:123 | the decimal text of an operand holds no blank |
| Disassembly.ParseArgsSnoc | src/computil/generation/targets/rbt/RabbitBytecodeDisV1.java:122-123 | reading operands back after one more blank and word adds that word's number |
| Disassembly.ArgsRoundTrip | src/computil/generation/targets/rbt/RabbitBytecodeDisV1.java:122-123 | the operand text reads back as the operands |
| Disassembly.NumberAfter | src/computil/generation/targets/rbt/RabbitBytecodeDisV1.java:123 | one more printed operand reads back as one more operand |
| Disassembly.LastBlankAfter | src/computil/generation/targets/rbt/RabbitBytecodeDisV1.java:123 | after a blank and a word the last blank is that blank |
| Disassembly.ArgsStartWithBlank | src/computil/generation/targets/rbt/RabbitBytecodeDisV1.java:122-123 | the operand text of at least one operand starts with a blank |
| Disassembly.FirstBlankAfterWord | src/computil/generation/targets/rbt/RabbitBytecodeDisV1.java:121-123 | the opcode name ends at the first blank |
| Disassembly.LineRoundTrip | src/computil/generation/targets/rbt/RabbitBytecodeDisV1.java:119-126 | an instruction line reads back as the opcode's name and the operands |
| Disassembly.WordLineRoundTrip | src/computil/generation/targets/rbt/RabbitBytecodeDisV1.java:119-126 | a tab, a word, operands that start with a blank and a line break read back as the word and the operands |
| Disassembly.WordAndRest | src/computil/generation/targets/rbt/RabbitBytecodeDisV1.java:121-123 | the name and the operand text split back apart |
| Disassembly.BodyOfLine | src/computil/generation/targets/rbt/RabbitBytecodeDisV1.java:119-126 | a line between a tab and a line break is read as its body |
| Disassembly.LineMatchesEncoding | src/computil/generation/targets/rbt/RabbitBytecodeDisV1.java:129-281 | the text and the binary writer throw for the same instructions, and otherwise the line names the opcode the binary writer emits, with the operands it encodes |
| Disassembly.FormMatchesEncoding | src/computil/generation/targets/rbt/RabbitBytecodeDisV1.java:129-281 | for each instruction form, the line and the bytes throw together and otherwise name the same opcode and operands |
| Disassembly.StreamMatchesEncoding | src/computil/generation/targets/rbt/RabbitBytecodeDisV1.java:115-116 | a stream prints completely exactly when the binary writer can encode every instruction of it |
| Disassembly.ParamEntries | src/computil/generation/Function.java:17 | the parameter map's entries, in insertion order, one per parameter |
| Disassembly.MapEntries | src/computil/generation/targets/rbt/RabbitBytecodeDisV1.java:292-293 | the methods paired with their addresses, in the iteration order given |
| Disassembly.Pairs | src/computil/generation/targets/rbt/RabbitBytecodeDisV1.java:292-293 | the keys and the values of an iteration, paired up in order |
| Disassembly.Records | src/computil/generation/targets/rbt/RabbitBytecodeDisV1.java:42-45 | one record per function key, read from that function |
| Disassembly.Disassembler.constructor | src/computil/generation/targets/rbt/RabbitBytecodeDisV1.java:21-24 | the output is empty and the pool addresses start at 0 |
| Disassembly.Disassembler.Write | src/computil/generation/targets/rbt/RabbitBytecodeDisV1.java:26-31 | the text is appended |
| Disassembly.Disassembler.WriteUnit | src/computil/generation/targets/rbt/RabbitBytecodeDisV1.java:34-50 | the header, the pool, the functions up to the first that throws and then the structs, over some iteration order of both maps; it fails exactly when the printout is incomplete, and the pool addresses move on by the pool's size |
| Disassembly.Disassembler.WriteParts | src/computil/generation/targets/rbt/RabbitBytecodeDisV1.java:34-50 | the unit's text once both maps are enumerated |
| Disassembly.Disassembler.WriteHead | src/computil/generation/targets/rbt/RabbitBytecodeDisV1.java:35-41 | the header and the pool |
| Disassembly.Disassembler.WriteHeader | src/computil/generation/targets/rbt/RabbitBytecodeDisV1.java:35-38 | the magic number, the minor and the major version, both labelled "major", then the entry point |
| Disassembly.Disassembler.VisitPool | src/computil/generation/targets/rbt/RabbitBytecodeDisV1.java:56-60 | a heading, then one numbered line per constant in pool order; the address moves on by the pool size |
| Disassembly.Disassembler.WriteConstant | src/computil/generation/targets/rbt/RabbitBytecodeDisV1.java:63-65 | the constant's line carries the next address, which moves on by one |
| Disassembly.Disassembler.VisitFunctions | src/computil/generation/targets/rbt/RabbitBytecodeDisV1.java:43-45 | the functions' texts in order, stopping after the first that throws |
| Disassembly.Disassembler.VisitFunction | src/computil/generation/targets/rbt/RabbitBytecodeDisV1.java:109-117 | the head line, then the stream; it fails exactly when the stream cannot be printed |
| Disassembly.Disassembler.ParamsOf | src/computil/generation/targets/rbt/RabbitBytecodeDisV1.java:111-113 | the parameter map's entries in insertion order |
| Disassembly.Disassembler.VisitInstructions | src/computil/generation/targets/rbt/RabbitBytecodeDisV1.java:115-116 | the instructions' lines up to the first that throws, failing exactly when one does |
| Disassembly.Disassembler.VisitInstruction | src/computil/generation/targets/rbt/RabbitBytecodeDisV1.java:129-281 | the instruction's line is appended, and the call fails exactly for a `//` operation |
| Disassembly.Disassembler.WriteInstruction | src/computil/generation/targets/rbt/RabbitBytecodeDisV1.java:119-126 | a tab, the opcode name, a blank before each operand, a line break |
| Disassembly.Disassembler.VisitStructs | src/computil/generation/targets/rbt/RabbitBytecodeDisV1.java:47-49 | every struct's text in order, each over some iteration order of its methods |
| Disassembly.Disassembler.AppendMethods | src/computil/generation/targets/rbt/RabbitBytecodeDisV1.java:292-293 | a line break, tab, name, blank and address per method, in iteration order |
| Disassembly.Disassembler.VisitStruct | src/computil/generation/targets/rbt/RabbitBytecodeDisV1.java:290-295 | the struct's text, its methods in some iteration order of the method map |
| Transpile.ArgListCons | src/computil/transpile/CTranspiler.java:227-241 | read from the front, the argument text is the first argument, a separator and the others |
| Transpile.ArgListNext | src/computil/transpile/CTranspiler.java:233-237 | the loop adds a separator and one more argument per turn |
| Transpile.TypedDeclarationPrints | src/computil/transpile/CTranspiler.java:132-150 | a declaration with a type prints that type, the name and the initializer without asking the resolver, and completes |
| Transpile.UntypedDeclarationThrows | src/computil/transpile/CTranspiler.java:132-140 | a declaration without a type whose initializer is a variable or missing throws before anything is printed |
| Transpile.UntypedLiteralDeclaration | src/computil/transpile/CTranspiler.java:132-150 | `let y = 5;` prints as `int y = 5;` |
| Transpile.BlockComplete | src/computil/util/TreeScanner.java:106-108 | a block prints completely exactly when each of its statements does |
| Transpile.BlockStops | src/computil/util/TreeScanner.java:106-108 | once a prefix of a block throws, nothing after it is printed |
| Transpile.BlockNext | src/computil/util/TreeScanner.java:27-32 | the block loop adds one statement's text per turn |
| Transpile.CallablesStop | src/computil/transpile/CTranspiler.java:44 | once a callable throws, no later callable is printed |
| Transpile.PrototypesNext | src/computil/transpile/CTranspiler.java:54-64 | the prototype loop adds one prototype per turn |
| Transpile.CallablesNext | src/computil/transpile/CTranspiler.java:44 | the definition loop adds one callable's text per turn |
| Transpile.TypeTextShape | src/computil/transpile/CTranspiler.java:74-90 | `str` is printed `char*`, the other primitive names as they are, every other type with a pointer star |
| Transpile.MainReturnsInt | src/computil/transpile/CTranspiler.java:107-124 | in global scope `main` is printed returning `int` and its body ends with `return 0;`; every other function keeps its return type and has no added return |
| Transpile.Wrap | src/computil/transpile/CTranspiler.java:272-296 | parentheses around a balanced text make one group |
| Transpile.ExprBalanced | src/computil/transpile/CTranspiler.java:161-354 | the C text of an expression has balanced parentheses |
| Transpile.OperatorGrouped | src/computil/transpile/CTranspiler.java:197-296 | `!`, unary minus, assignment and binary operations print as one parenthesised group, so C groups their operands as the tree does |
| Transpile.UnaryGrouped | src/computil/transpile/CTranspiler.java:282-296 | `(!x)` and `(-x)` are one group when `x` is balanced |
| Transpile.InfixGrouped | src/computil/transpile/CTranspiler.java:197-204 | `(l op r)` is one group when both operands are balanced |
| Transpile.StructInitBalanced | src/computil/transpile/CTranspiler.java:207-210 | `malloc(sizeof(T))` is balanced |
| Transpile.NullCheckBalanced | src/computil/transpile/CTranspiler.java:264-269 | the null check's text is balanced when its operand is |
| Transpile.ReportBalanced | src/computil/transpile/CTranspiler.java:267 | the null report's text is balanced |
| Transpile.NullCheckShape | src/computil/transpile/CTranspiler.java:264-269 | the null check tests the parenthesised operand against `NULL` inside `if (...)` |
| Transpile.ArgsBalanced | src/computil/transpile/CTranspiler.java:227-241 | an argument list in parentheses is balanced when every argument is |
| Transpile.ArgListBalanced | src/computil/transpile/CTranspiler.java:227-241 | the arguments with their separators are balanced when every argument is |
| Transpile.SeparatedBalanced | src/computil/transpile/CTranspiler.java:235-236 | two balanced texts around `, ` stay balanced |
| Transpile.DepthAppend | src/computil/transpile/CTranspiler.java:197-296 | the parenthesis depth of two texts in a row adds up |
| Transpile.BalancedAppend | src/computil/transpile/CTranspiler.java:197-296 | balanced texts in a row stay balanced |
| Transpile.ParenFreeBalanced | src/computil/transpile/CTranspiler.java:161-195 | a text without parentheses is balanced |
| Transpile.InfixParenFree | src/computil/transpile/CTranspiler.java:275 | an operator's encoding holds no parenthesis |
| Transpile.IntTextParenFree | src/computil/transpile/CTranspiler.java:173-176 | an integer literal holds no parenthesis |
| Transpile.CTranspiler.constructor | src/computil/transpile/CTranspiler.java:14-23 | nothing written, global scope, and a fresh resolver with empty scopes and no diagnostics |
| Transpile.CTranspiler.Write | src/computil/transpile/CTranspiler.java:25-31 | the text is appended |
| Transpile.CTranspiler.VisitType | src/computil/transpile/CTranspiler.java:74-84 | the type's C text is appended |
| Transpile.CTranspiler.WriteExpr | src/computil/transpile/CTranspiler.java:161-354 | the expression's C text is appended |
| Transpile.CTranspiler.WriteLeaf | src/computil/transpile/CTranspiler.java:161-195 | a variable, literal, `null`, array or `malloc` leaf's C text is appended |
| Transpile.CTranspiler.WriteSigned | src/computil/transpile/CTranspiler.java:282-296 | `(!x)` or `(-x)` is appended |
| Transpile.CTranspiler.WriteNullCheck | src/computil/transpile/CTranspiler.java:264-269 | the null check's text is appended |
| Transpile.CTranspiler.WriteBinary | src/computil/transpile/CTranspiler.java:197-204 | an assignment, binary operation or indexing is appended |
| Transpile.CTranspiler.WriteAccess | src/computil/transpile/CTranspiler.java:213-225 | a field access, method call or global call is appended |
| Transpile.CTranspiler.WriteArguments | src/computil/transpile/CTranspiler.java:227-241 | the arguments in parentheses, separated by `, ` |
| Transpile.CTranspiler.WriteStmt | src/computil/transpile/CTranspiler.java:132-336 | the statement's text is appended as far as it gets, and the call completes exactly when the whole statement prints |
| Transpile.CTranspiler.WriteSimple | src/computil/transpile/CTranspiler.java:153-256 | an empty, expression, return or `free` statement prints completely |
| Transpile.CTranspiler.WriteVarDec | src/computil/transpile/CTranspiler.java:132-150 | a declaration prints its type, name and initializer, or throws before printing anything when the resolver cannot type an untyped initializer |
| Transpile.CTranspiler.WriteDeclaredType | src/computil/transpile/CTranspiler.java:133-139 | the declared type, or the resolver's type of the initializer; it throws, with nothing written, exactly when there is no type and the resolver fails |
| Transpile.CTranspiler.WriteInitializer | src/computil/transpile/CTranspiler.java:142-148 | ` = NULL;` without an initializer, ` = e;` with one |
| Transpile.CTranspiler.WriteIfElse | src/computil/transpile/CTranspiler.java:299-314 | the condition, the branch and, when present, `else{...}`, as far as they print |
| Transpile.CTranspiler.WriteIfPart | src/computil/transpile/CTranspiler.java:300-304 | the condition, the branch taken and its closing brace |
| Transpile.CTranspiler.WriteLoop | src/computil/transpile/CTranspiler.java:317-336 | `while(c) {b}`, or for a do-while `do{` with the condition, then `while(` with the body, as written |
| Transpile.CTranspiler.WriteBlock | src/computil/util/TreeScanner.java:106-108 | the statements in order without braces, stopping at the first that throws |
| Transpile.CTranspiler.VisitParameter | src/computil/transpile/CTranspiler.java:67-71 | the type and the name |
| Transpile.CTranspiler.WriteParams | src/computil/transpile/CTranspiler.java:60 | the parameters back to back, without separators |
| Transpile.CTranspiler.VisitField | src/computil/transpile/CTranspiler.java:100-104 | the type, the name and `; ` |
| Transpile.CTranspiler.WriteFields | src/computil/transpile/CTranspiler.java:94 | the fields back to back |
| Transpile.CTranspiler.VisitStruct | src/computil/transpile/CTranspiler.java:92-97 | `typedef struct __N { fields} N;` |
| Transpile.CTranspiler.ScanStructs | src/computil/transpile/CTranspiler.java:43 | every struct's definition in order |
| Transpile.CTranspiler.GenAbstractTypeDefs | src/computil/transpile/CTranspiler.java:49-52 | one `typedef __N N;` per struct |
| Transpile.CTranspiler.WriteSignature | src/computil/transpile/CTranspiler.java:56-61 | the return type (`int` for `main` in global scope), the name and the parameters |
| Transpile.CTranspiler.GenAbstractFunctionDefs | src/computil/transpile/CTranspiler.java:54-64 | one prototype per callable |
| Transpile.CTranspiler.VisitCallable | src/computil/transpile/CTranspiler.java:107-129 | a function's definition as far as it prints; nothing for a native |
| Transpile.CTranspiler.WriteFunctionHead | src/computil/transpile/CTranspiler.java:108-115 | the signature and `){` |
| Transpile.CTranspiler.WriteFunctionEnd | src/computil/transpile/CTranspiler.java:118-121 | `return 0;` for `main` in global scope, then the closing brace |
| Transpile.CTranspiler.ScanCallables | src/computil/transpile/CTranspiler.java:44 | the callables' definitions in order, stopping at the first that throws |
| Transpile.CTranspiler.VisitRoot | src/computil/transpile/CTranspiler.java:34-47 | when the resolver's check of the root fails or logs an error, nothing is written and the call throws; otherwise the root's text is appended and the scope flag clears only when the write completes |
| Transpile.CTranspiler.WriteRoot | src/computil/transpile/CTranspiler.java:36-46 | the header, the declarations and the definitions as far as they print; the scope flag clears exactly when the write completes |
| Transpile.CTranspiler.WriteDeclarations | src/computil/transpile/CTranspiler.java:36-43 | the header, the typedefs, the prototypes and the struct definitions |
| Compiler.ExitCodeSpec | src/rabbitc/RabbitCompiler.java:100-112 | the adapter's exit code is -1 exactly when some forwarded message is an error, and 0 otherwise |
| Compiler.ReportEffect | src/rabbitc/RabbitCompiler.java:106-112 | a warning leaves the exit code as it was; an error sets it to -1 |
| Compiler.LoggerAdapter.constructor | src/rabbitc/RabbitCompiler.java:101-105 | exit code 0 and nothing forwarded |
| Compiler.LoggerAdapter.Error | src/rabbitc/RabbitCompiler.java:106-109 | the error is forwarded and the exit code becomes -1 |
| Compiler.LoggerAdapter.Warning | src/rabbitc/RabbitCompiler.java:110-112 | the warning is forwarded and the exit code is unchanged |
| Compiler.Optimize | src/rabbitc/RabbitCompiler.java:69-81 | between 1 and 100000 passes; the loop ends on a pass that rewrote nothing, on the pass limit or on an exception, and a pass that rewrote nothing left every node as it found it, so the tree is a fixed point of the folder |
| Compiler.Finish | src/rabbitc/RabbitCompiler.java:26-54 | the exit code is -1 exactly when an error was logged, and then nothing is optimized or generated; otherwise the code is 0 and `run` and `dis` optimize before generating while `transpile` leaves the tree alone |
| Printing.ThenStep | src/computil/util/TreeScanner.java:27-32 | a part after a part that threw writes nothing; otherwise the texts follow each other |
| Printing.ConcatNext | src/computil/util/TreeScanner.java:27-32 | scanning one more element appends its text |
| Printing.NumberedSplit | src/computil/generation/targets/rbt/RabbitBytecodeDisV1.java:56-60 | numbering a split list: the second part continues where the first stopped |
| Printing.NumberedAt | src/computil/generation/targets/rbt/RabbitBytecodeDisV1.java:56-60 | the element at position `k` carries the number `start + k` |
| Printing.JoinedComplete | src/computil/util/TreeScanner.java:27-32 | a list's printout is complete exactly when every element's is |
| Printing.JoinedPrefixStops | src/computil/util/TreeScanner.java:27-32 | once a prefix throws, nothing after it is printed |
| Printing.JoinedPrefix | src/computil/util/TreeScanner.java:27-32 | a prefix's printout is a prefix of the whole printout |
| Disassembly.MinorUnderMajor | src/computil/generation/targets/rbt/RabbitBytecodeDisV1.java:35-38 | both version lines are labelled "major", so the printout differs from the corrected header |
| Disassembly.HeaderIntendedFollowsBinary | src/computil/generation/targets/rbt/RabbitBytecodeDisV1.java:35-38 | the corrected header labels the minor and the major version in the order the binary header holds them, each with the value read back from its four bytes |
| MainChecker.LaterMains | src/computil/check/MainFunctionChecker.java:18 | exactly one multiple-main error per later callable named `main`, at its location |
| MainChecker.MultipleMainsReported | src/computil/check/MainFunctionChecker.java:12-18 | with `found` set after the first `main`, every later `main` is reported at its own location |
| MainChecker.IntendedAgreesOnOneMain | src/computil/check/MainFunctionChecker.java:10-24 | for a program with at most one `main`, the corrected loop reports exactly what the source reports |
| Transpile.DoWhileSwapped | src/computil/transpile/CTranspiler.java:327-335 | `do { x; } while (y)` prints `y` between the braces and `x;` inside `while(...)`, where the corrected text has them the other way round |
| Transpile.DoWhileIntendedMirrorsWhileDo | src/computil/transpile/CTranspiler.java:317-335 | the corrected do-while is `do`, the while-do's braced body and the while-do's `while(c)` clause with a semicolon; both print completely exactly when the body does |

## Left out

- Scopes.Add: the scope kinds BlockScope, FunctionScope, StructScope and GlobalScope are values.
  - `add` returns the updated scope, and the caller keeps it. So in-place update of the scope's `HashMap` or list, and aliasing of one scope object through several references, are not captured.
  - This is safe because no scope is mutated while an alias of it is consulted:
    - A block or function scope holds its parent, but only the innermost scope is extended while the block is visited.
    - A StructScope is shared through the `types` map of the type checker and of the generator, and entries are added to it through that map. The model writes each updated scope back into `types`.
    - The type checker checks an implementation's function bodies while it registers the implementation. Each body is checked under the struct scope as it is at that moment, and the scope is not extended until that check has ended.
- Parsing.Text, Parsing.Parser.ParseFunction, Parsing.Parser.ParseType, MainChecker.FirstMain and MainChecker.CheckMainFunction: a name or type name taken from the EOF token, whose lexeme is `null`, is the text "null" in the model.
  - This happens only on input cut off where a name is expected, which the parser has already reported.
  - In the source the name stays a `null` reference. The main checker's `getName().equals("main")` and the type checker's name comparisons then throw a `NullPointerException`.
  - The model instead compares the text "null", so those checkers go on and report diagnostics where the source throws.
- TypeRules.ArgsFold, TypeRules.CheckCallTypes, TypeRules.TooManyArgumentsThrow, TypeChecking.TypeChecker.VisitSimpleStmt and TypeChecking.TypeChecker.VisitStmt: a `Fail` result does not carry the diagnostics logged before the exception.
  - In the source, `Checker.error` hands each diagnostic to the logger at once. So an error such as "too many parameters given", logged before the pairwise argument loop throws, reaches the logger.
  - The model keeps only the exception.
- Dangling.DanglingChecker.VisitExpr, Dangling.DanglingChecker.ScanAndCheck, Dangling.DanglingChecker.CheckArguments, Dangling.DanglingChecker.ScanList, Dangling.DanglingChecker.VisitAssign, Dangling.DanglingChecker.VisitStmt, Dangling.DanglingChecker.VisitBlock, Dangling.DanglingChecker.VisitCallable and Dangling.DanglingChecker.Check: these dispatching visits state well-formedness, the unchanged scope chain and the growth of the stores. They also state the literal and variable cases.
  - The effect of each construct on the reference states is stated by the step methods they call and by the specification lemmas. The step methods include `Declare`, `FreeEntry`, `AssignBind`, `AssignDrop`, `CheckDangling`, `ReportLeaks` and `ExitBlock`.
- Compiler.Finish: parsing, the checkers and code generation are modelled in their own modules. Here they are represented by what they leave behind:
  - the adapter's log of forwarded diagnostics;
  - whether the back end is reached.
- The messages of `Errors.typeMismatch`, `Errors.invalidReturnType` and `Errors.arrayExpectedButGot`: the message text is built directly, not by `.replace` on a template. The two differ only when a type's rendering contains `{2}`, and a type name cannot.
- Diagnostics of different checkers are not interleaved. Each checker's diagnostics are a list of its own, in the order it reports them. The driver only needs whether an error occurred.
- Parsing.Parser.ParseClimb: a compound assignment `a += b` puts the same left-hand tree object on both sides. The model builds a value tree, so that sharing is not represented.
  - Because of this, the optimizer's arena is built from the value tree, with the two occurrences as separate nodes.
- Scanning.DigitLoop and Scanning.Scanner.ScanNumberByRadixSet: the digit separator `_` calls the token-level `consume` of the lexer. The model does not follow that path, so the scan ends in an `Unmodelled` failure.
- Locations keep the line only. Columns and the start and end offsets, which drift on `pushBack`, are dropped.
- Float arithmetic, `Float.floatToIntBits`, `Float.toString` and `Double.toString` are not modelled. Float results come from the `FloatArith` parameter, and float texts from the `floatText` parameter, over bit patterns.
- The iteration order of a `HashMap` is left open. It applies to functions and structs in `IRMediator`, a struct's method map, and a scope's entries. Each method that iterates a map returns the order it used as a ghost value.
- Folding.ConstantFolder.Visit: the recursion is bounded by a `fuel` parameter. Running out of fuel stands for the `StackOverflowError` the JVM raises on a tree the folder made cyclic.
  - Trees: the conversion from the arena back to a value tree is bounded by fuel in the same way.
- Generation.Generator: one generator object runs one `generate`. The source's maps persist across calls, and a second call on the same object is not modelled.
  - A later implementation of the same struct may overwrite method-table entries. Each implementation's table is stated on its own.
- I/O is not modelled:
  - `Main`, `StdLogger`, `System.exit`;
  - the `PushbackInputStream` inside `UnicodeReader`: the input is the sequence of characters the reader hands out;
  - `IOException`s on the output streams: a write always appends.
- The interfaces and visitor boilerplate are folded into the datatypes: `TreeVisitor`, `InstructionVisitor`, `PoolConstantVisitor`, `ScopeVisitor` and the tree interfaces.
- `DefinitionChecker` is an empty stub. `Location`, `Lexer`, `Logger`, `Entry`, `Target` and `PoolTag` are not part of this model, beyond the fields the modelled code reads.

## Findings

| source | as written | input that shows it | evidently intended | confidence | as-written member | corrected member |
|---|---|---|---|---|---|---|
| src/computil/generation/Generator.java:569-575 | the index for the int-to-float conversion of the left operand is taken before that operand is generated, and the conversion is inserted one past it, after the operand's first instruction | `a * b + 1.5` with `int` variables `a` and `b`: the conversion lands between the loads of `a` and `b` | the conversion follows the whole left operand, converting its value | not executed | Generation.AsWrittenConvertsInsideLeftOperand | Generation.BinOpCodeConvertsLeftValue |
| src/computil/check/TypeChecker.java:465 | the guard on the number of generics compares the required type's count with itself | required `list<int>`, given `list<int, str>`: they match; given a bare `list`: the pairwise loop throws | the required and the given count are compared, and different counts do not match | not executed | TypeRules.GenericsCountIgnored | TypeRules.CountGuardRejects |
| src/rabbitc/Scanner.java:312 | the radix is the size of the digit set, which is 22 for hexadecimals (both letter cases) | `0xff` reads as 345, and `0x10` as 22 | radix 16: every hexadecimal digit string reads below 16 to the power of its length | not executed | Scanning.HexReadInRadix22 | Scanning.IntendedValueBelowPower |
| src/computil/transpile/CTranspiler.java:327-335 | the do-while prints its condition where the body belongs and its body inside `while(...)` | `do { x; } while (y)` prints `do{ y}while(x;);` | `do{ x; }while(y);`, the while-do's pieces turned around | not executed | Transpile.DoWhileSwapped | Transpile.DoWhileIntendedMirrorsWhileDo |
| src/computil/check/MainFunctionChecker.java:12-18 | `found` is never set, and the loop returns after the first `main`, so the multiple-main error cannot be reported | two callables named `main`: only the first is checked, and nothing is reported about the second | every `main` after the first is reported at its own location | not executed | MainChecker.NoMultipleMainError | MainChecker.MultipleMainsReported |
| src/computil/generation/targets/rbt/RabbitBytecodeDisV1.java:36 | the minor version is printed under the label "major" | any unit: the header shows "major: 1" twice | "minor: 1" and then "major: 1", in the order the binary header holds them | not executed | Disassembly.MinorUnderMajor | Disassembly.HeaderIntendedFollowsBinary |
