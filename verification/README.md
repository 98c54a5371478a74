# A verified model of the core of an Elixir-flavoured interpreter

The interpreter reads a program text and turns it into tokens (`Lexer`). It parses the tokens
into a tree of match, relational, additive, multiplicative and primary expressions (`Parser`).
It then walks the tree (`Interpreter`) against a parent-linked chain of scopes (`Environment`).
The global scope holds the literals `null`, `true` and `false`, the kind predicates, `len`, and
the `Tuple`, `List`, `Map` and `Enum` modules (`Modules`). Tuples, lists and maps are objects:
the library natives change them in place and return the same object, so every alias sees the
change.

The model follows that structure, one Dafny module per part:

- `Tokens` and `Results`:
  - the token kinds and the character classes;
  - the fatal errors as an `Error` value inside a `Result`. Every `System.exit` and every Java
    exception of the core becomes an `Err`.
- `Lexing`:
  - the scan as a function `Lex`, defined by one loop step `Scan`;
  - a class `Lexer` whose `Tokenize`, `ReadDigits` and `ReadWord` loops advance the index `i`
    in place and are proved equal to `Lex`.
- `Ast` and `Parsing`:
  - the tree datatype;
  - the parser as functions over the remaining token list (`ParseMatch` … `ParsePrimary`, with
    `…Tail` functions for the operator loops);
  - a class `Parser` whose methods consume the `tokens` field from the front and are proved
    to agree with those functions.
- `Printing`: a printer that inserts only the parentheses the grammar needs. It gives round
  trips through the parser and the lexer, and the associativity and precedence facts.
- `Runtime`:
  - the values, with `Aggregate` (the contents of a tuple or list) and `MapObject` (the hash map
    of a map) as heap objects;
  - the class `Environment`, whose scope maps are fields updated in place;
  - a snapshot view of a chain as a sequence of maps, nearest scope first (`Store`), with
    `Nearest`, `Fetch`, `Written`, `Assignment` and `Binding` as its reference operations;
  - the global scope, the `is_*` predicates and `len`.
- `Interpreter`:
  - a reference evaluator `Eval` on snapshots, for trees without tuple nodes;
  - the reference functions for tuples: `EvalItems`, `BindAll`, `CheckKinds` and `MatchTuple`;
  - the imperative `Evaluate…` methods on a live `Environment`, each proved to agree with them
    where they apply. On every tree the methods also keep the constants, keep the names of the
    outer scopes, refuse a reserved match target before evaluating anything, and leave a
    matched name bound to the value of the match.
- `Sorting`: the order `Enum.sort` produces, as a stable sort of each kind group.
- `Library`: the argument guards and the `Tuple`, `List`, `Map` and `Enum` natives, as methods
  that update the argument objects in place.

Numbers are unbounded integers. The arithmetic of two numbers (`evaluateNumericBinaryExpr`) is
a parameter `arith` of the evaluator, so no property depends on what it computes.

## Model

| member | source | states |
|---|---|---|
| Tokens.WordKind | src/Lexer.java:18-21 | a word is `Let` exactly when it is "let", and `Identifier` otherwise |
| Lexing.DigitRun | src/Lexer.java:40-45 | the run is all digits, and the character after it is not a digit |
| Lexing.WordRun | src/Lexer.java:47-54 | the run is all letters, digits and `_`, and the character after it cannot continue it |
| Lexing.Scan | src/Lexer.java:26-66 | one loop step: an emitted token covers a non-empty prefix with that prefix as its text and a well-formed shape; a space is skipped exactly when the first character is a space; the scan fails exactly on an unrecognised character and names it |
| Lexing.ScanPunctuation | src/Lexer.java:27-38 | each of `( ) + - * / % =` is one one-character token of kind OpenParen, CloseParen, BinaryOperator or Match |
| Lexing.ScanDigitRun | src/Lexer.java:40-45 | a maximal digit run is exactly one Number token |
| Lexing.ScanWordRun | src/Lexer.java:47-54 | a letter and the maximal run of word characters after it is one token, `Let` for "let" and `Identifier` otherwise |
| Lexing.LexEndsWithEof | src/Lexer.java:26-68 | a successful scan ends with exactly one EOF token, and EOF occurs nowhere else |
| Lexing.LexTokensWellFormed | src/Lexer.java:26-66 | every token before EOF has one of the shapes the lexer emits |
| Lexing.LexRoundTrip | src/Lexer.java:26-66 | the texts of the tokens before EOF, concatenated, are the input with its spaces removed |
| Lexing.LexErrorIsUnrecognized | src/Lexer.java:56-62 | a failed scan reports a character of the input that no rule accepts (a newline is such a character) |
| Lexing.LexAcceptsRecognized | src/Lexer.java:26-66 | text made only of recognised characters always scans |
| Lexing.UnlexRoundTrip | src/Lexer.java:24-69 | well-formed tokens written out with a space after each scan back to the same tokens followed by EOF |
| Lexing.LexFromIsLex | src/Lexer.java:26-66 | the scan from index `k` of the text is the scan of the text after `k` |
| Lexing.Lexer.ReadDigits | src/Lexer.java:42-45 | the loop advances `i` over the maximal digit run and returns exactly that text |
| Lexing.Lexer.ReadWord | src/Lexer.java:49-52 | the loop advances `i` over a letter and the maximal word run after it and returns exactly that text |
| Lexing.Lexer.Next | src/Lexer.java:27-65 | one pass of the loop of `tokenize` is the step `Scan` takes at `i`, and `i` advances by the width of the emitted token, by one over a space, and not at all on an unrecognised character |
| Lexing.Lexer.Tokenize | src/Lexer.java:24-69 | the imperative scan returns `Lex` of the text from the start index, and ends at the end of the text when it succeeds |
| Parsing.Head | src/Parser.java:10-12 | the head token when there is one; `OutOfTokens` on an empty list |
| Parsing.ParseBodyStopsAtEof | src/Parser.java:32-43 | every statement consumes at least one token, and a program is empty exactly when the first token is EOF |
| Parsing.ProduceAstSpec | src/Parser.java:32-43 | a successful parse is a Program node |
| Parsing.Parser.NotEof | src/Parser.java:6-8 | whether the head token is not EOF; an empty list fails; the list is unchanged |
| Parsing.Parser.At | src/Parser.java:10-12 | the head token, the list unchanged |
| Parsing.Parser.Eat | src/Parser.java:14-18 | returns the head token and removes exactly it |
| Parsing.Parser.Expect | src/Parser.java:20-26 | removes the head token, and fails with it and the expected kind unless it has that kind |
| Parsing.Parser.ProduceAst | src/Parser.java:32-43 | the imperative parse equals `ProduceAstSpec` |
| Parsing.Parser.ParseMatchExpr | src/Parser.java:45-62 | the node and the tokens left are what `ParseMatch` gives |
| Parsing.Parser.ParseRelationalExpr | src/Parser.java:64-76 | the node and the tokens left are what `ParseRelational` gives |
| Parsing.Parser.ParseAdditiveExpr | src/Parser.java:78-90 | the node and the tokens left are what `ParseAdditive` gives |
| Parsing.Parser.ParseMultiplicativeExpr | src/Parser.java:92-104 | the node and the tokens left are what `ParseMultiplicative` gives |
| Parsing.Parser.ParsePrimaryExpr | src/Parser.java:106-132 | the node and the tokens left are what `ParsePrimary` gives |
| Printing.DecimalValueOfDigits | src/Parser.java:113-115 | the decimal value of a number's printed digits is the number |
| Printing.PrimaryRoundTrip | src/Parser.java:106-125 | a printed tree at primary level parses back to itself, leaving the rest |
| Printing.MultiplicativeRoundTrip | src/Parser.java:92-104 | a printed tree at multiplicative level parses as the operator loop continuing after it |
| Printing.AdditiveRoundTrip | src/Parser.java:78-90 | a printed tree at additive level parses as the operator loop continuing after it |
| Printing.RelationalRoundTrip | src/Parser.java:64-76 | a printed tree at relational level parses as the operator loop continuing after it |
| Printing.MatchRoundTrip | src/Parser.java:52-62 | a printed tree followed by a token that cannot continue it parses back to itself |
| Printing.PrintStartsCleanly | src/Parser.java:106-129 | a printed tree starts with a token that can only start a primary |
| Printing.ProgramRoundTrip | src/Parser.java:39-41 | printed statements followed by EOF parse back to the same statements |
| Printing.LexableIsPrintable | src/Lexer.java:47-54 | trees whose names the lexer can produce can be printed |
| Printing.LexableTokens | src/Lexer.java:26-66 | the printed tokens of such a tree are all tokens the lexer emits |
| Printing.LexableProgramTokens | src/Lexer.java:26-66 | the same for a whole program |
| Printing.ProduceAstRoundTrip | src/Parser.java:32-43 | writing statements out as text and running `produceAst` on it gives back the same Program |
| Printing.AdditiveLeftAssociative | src/Parser.java:78-90 | `a-b-c` (any two of `+`, `-`) parses as `(a-b)-c` |
| Printing.MultiplicativeLeftAssociative | src/Parser.java:92-104 | `a*b/c` (any two of `*`, `/`, `%`) parses as `(a*b)/c` |
| Printing.RelationalLeftAssociative | src/Parser.java:64-76 | `a<b<c` (any two relational operators) parses as `(a<b)<c` |
| Printing.MultiplicativeBindsTighter | src/Parser.java:78-104 | `a+b*c` parses as `a+(b*c)` and `a*b+c` as `(a*b)+c` |
| Printing.AdditiveBindsTighter | src/Parser.java:64-90 | `a<b+c` parses as `a<(b+c)` and `a+b<c` as `(a+b)<c` |
| Printing.MatchRightAssociative | src/Parser.java:52-62 | `a = b = c` parses as `MatchExpr(a, MatchExpr(b, c))` |
| Printing.UnclosedParenthesis | src/Parser.java:120-125 | `( a` followed by EOF fails at the EOF, expecting CloseParen |
| Runtime.Environment.constructor | src/Environment.java:11-21 | a new scope has no bindings and no constants, and its chain is itself followed by the parent's chain |
| Runtime.Environment.SafeResolve | src/Environment.java:139-147 | null exactly when no scope of the chain binds the name; otherwise a scope of the chain that binds it |
| Runtime.Environment.ResolveIsNearest | src/Environment.java:139-147 | the scope found is the nearest one binding the name |
| Runtime.Environment.Contains | src/Environment.java:133-136 | true exactly when some scope of the chain binds the name; never fails |
| Runtime.Environment.Resolve | src/Environment.java:182-191 | the scope `SafeResolve` finds, or `NameError` when there is none |
| Runtime.Environment.Lookup | src/Environment.java:176-180 | succeeds exactly when the name is bound; a binding in this scope shadows the parent's; otherwise the parent's lookup |
| Runtime.Environment.LookupIsFetch | src/Environment.java:176-191 | lookup is `Fetch` on the chain's bindings: the value in the nearest scope binding the name |
| Runtime.Environment.ChainDistinct | src/Environment.java:6 | no scope occurs twice in a parent chain |
| Runtime.Environment.Assign | src/Environment.java:166-174 | writes only the nearest scope binding the name (`Written`); constants unchanged; fails on an unbound name or a constant; returns the value passed in |
| Runtime.Environment.Declare | src/Environment.java:153-164 | binds the name in this scope; an existing name is assigned instead (so a constant is fatal); a new name is constant exactly when asked; returns the value passed in; keeps constants bound |
| Runtime.Environment.DeclareVariable | src/Environment.java:149-151 | on the whole chain: only the innermost scope changes, as `Binding` says |
| Runtime.Nearest | src/Environment.java:139-147 | the first scope index binding the name, or the chain length when none does |
| Runtime.Fetch | src/Environment.java:176-191 | succeeds exactly when some scope binds the name; `NameError` otherwise |
| Runtime.Assignment | src/Environment.java:166-174 | fails exactly on an unbound name or a constant of the nearest binding scope; otherwise the `Written` bindings |
| Runtime.Binding | src/Environment.java:153-164 | fails exactly when the name is a constant of the innermost scope; otherwise the innermost scope maps the name to the value |
| Runtime.FetchWritten | src/Environment.java:166-180 | after an assignment the name looks up the new value and every other name looks up as before |
| Runtime.FetchDeclared | src/Environment.java:153-180 | after a declaration the name looks up the new value and every other name looks up as before |
| Runtime.CreateGlobalEnvironment | src/Environment.java:35-131 | a root scope binding the literals, `print`, `date`, the four modules, the `is_*` predicates and `len`, with the literals, `print`, `date` and the modules constant |
| Runtime.DeclareLiterals | src/Environment.java:37-57 | `null`, `true`, `false`, `print` and `date` are declared as constants |
| Runtime.DeclareAllModules | src/Modules.java:480-485 | `Tuple`, `Enum`, `List` and `Map` are declared as constants |
| Runtime.DeclarePredicates | src/Environment.java:64-128 | the `is_*` predicates and `len` are declared as ordinary variables |
| Runtime.GlobalLiteralsAreConstant | src/Environment.java:37-39 | in the global scope `null`, `true` and `false` are constants bound to null and the two booleans |
| Runtime.GlobalKeys | src/Environment.java:35-131 | the global scope binds exactly its constants and the six predicates, and no predicate is constant |
| Runtime.IsKind | src/Environment.java:65-103 | fails exactly when there is not one argument; otherwise a boolean, true exactly when the argument has the kind |
| Runtime.Length | src/Environment.java:107-128 | the element count of a tuple or list, the length minus 2 of a string; fatal for any other kind or argument count |
| Interpreter.CompareTo | src/Interpreter.java:37-49 | zero exactly when the strings are equal |
| Interpreter.CompareToOrders | src/Interpreter.java:37-49 | negative exactly when the first string comes first in dictionary order; swapping the strings negates it |
| Interpreter.AtomComparisonOrders | src/Interpreter.java:26-56 | `==` and `!=` are name (in)equality, `< <= > >=` follow dictionary order, a strict total order; any other operator gives null |
| Interpreter.Evaluate | src/Interpreter.java:161-196 | agrees with `Eval` on trees without tuples; a tuple literal of tuple-free elements agrees with `EvalItems`; on every tree: a tuple literal gives a new tuple with one element per element expression, a match on `true`, `false` or `null` is refused with nothing changed, constants never change, and outer scopes keep exactly their names |
| Interpreter.EvaluateProgram | src/Interpreter.java:4-10 | agrees with `Eval` on programs without tuples: the statements run in order; on every program: an empty one gives null and changes nothing, and outer scopes keep exactly their names |
| Interpreter.EvaluateStatement | src/Interpreter.java:6-8 | one pass of the statement loop: a statement that fails makes the program fail with its error; otherwise the rest of the program runs after it with its value as the last one |
| Interpreter.ProgramSequence | src/Interpreter.java:4-10 | a program's value is its last statement's value, run after the others; an empty program gives null and changes nothing |
| Interpreter.EvaluateBinaryExpr | src/Interpreter.java:12-24 | agrees with `Eval`: left operand, then right, then two numbers go to the arithmetic, two atoms to the comparison, anything else gives null |
| Interpreter.EvaluateTuple | src/Interpreter.java:153-159 | a new tuple whose elements are the values of the element expressions, in order; on every tuple literal, one element per element expression |
| Interpreter.EvaluateElements | src/Interpreter.java:155-157 | the element values, in order, with the bindings `EvalItems` gives; the first failing element's error otherwise; on every tuple literal, one value per element expression |
| Interpreter.EvaluateElement | src/Interpreter.java:156 | one pass of the element loop: a failing element makes the tuple fail with its error; otherwise its value joins the values before it |
| Interpreter.EvaluateMatchExpr | src/Interpreter.java:74-151 | agrees with `Eval` for a name target; a tuple target needs a name or tuple on the right, a tuple of equal size, and then agrees with `MatchTuple` and returns the right-hand tuple; on every tree: a target that is neither a name nor a tuple is `InvalidMatchTarget`, a reserved name is refused before the right side runs, a matched name looks up the result, a constant is refused unless the right side declared the name in the innermost scope, and a tuple target returns a tuple of its own size |
| Interpreter.MatchIdentifier | src/Interpreter.java:85-100 | agrees with `Eval` for a name target: a reserved name is fatal; otherwise the value is assigned where the name was bound before it was evaluated, or declared in this scope; on every right side: a reserved name is refused with nothing changed, on success the name looks up the result, and matching onto a constant succeeds only when the right side declared the name in the innermost scope, over a constant of an outer scope |
| Interpreter.StoreName | src/Interpreter.java:96-99 | `Assignment` of the value when the name was bound, `Binding` otherwise, returning the value; on success the name looks up the value |
| Interpreter.MatchTupleTarget | src/Interpreter.java:119-143 | size check, then destructuring (`BindAll`) or kind checks (`CheckKinds`), returning the same tuple; on every target: a size mismatch is `MatchError` with nothing changed, and success returns the right-hand tuple |
| Interpreter.BindNames | src/Interpreter.java:126-133 | declares each name with the element at its position, as `BindAll` says, and returns the right-hand tuple |
| Interpreter.CheckPattern | src/Interpreter.java:135-143 | agrees with `CheckKinds`: each element of the target is evaluated in order and must have the kind of the element at its position; on every target, success returns the right-hand tuple |
| Interpreter.EvalKeepsScopes | src/Interpreter.java:74-100 | evaluation never moves a binding to another scope, and only declares in the innermost one |
| Interpreter.NearestKept | src/Environment.java:139-164 | when the outer scopes keep their names and the innermost only gains some, a name is found in the same scope as before or has just been declared in the innermost one |
| Interpreter.MatchBindsName | src/Interpreter.java:94-99 | a successful `x = e` binds `x` to the value of `e` and leaves every other name as `e` left it |
| Interpreter.ConstantsCannotBeRebound | src/Interpreter.java:90-97 | matching onto `true`, `false`, `null` or a constant is fatal |
| Interpreter.BindAllKeeps | src/Interpreter.java:126-133 | a destructuring leaves names it does not mention untouched |
| Interpreter.BindAllBinds | src/Interpreter.java:126-133 | each name gets the element at its position, the last occurrence winning |
| Interpreter.DestructuringBinds | src/Interpreter.java:119-133 | a successful all-name tuple match binds each name to the element at its position |
| Sorting.InsertionSort | src/Modules.java:218-225 | the result is in key order and a permutation of the input |
| Sorting.SortStable | src/Modules.java:218-225 | elements with equal keys keep their order |
| Sorting.SortPermutes | src/Modules.java:210-278 | the sort keeps exactly the numbers, atoms, tuples, lists and strings, and nothing else |
| Sorting.SortOrders | src/Modules.java:210-278 | groups come in the order numbers, atoms, tuples, lists, strings, and each group is in key order |
| Sorting.GroupStable | src/Modules.java:218-275 | within each group, elements with equal keys keep their order |
| Library.Expect | src/Modules.java:7-12 | passes exactly when the kind is the expected one |
| Library.ExpectArgs | src/Modules.java:14-19 | passes exactly when the argument count is the required one |
| Library.ExpectEnumerable | src/Modules.java:21-26 | passes exactly for a list or a map |
| Library.Operand | src/Modules.java:290-296 | the argument count is checked first, then the kind of the first argument |
| Library.MapOperand | src/Modules.java:40-42 | the argument count is checked first, then that the first argument is a map |
| Library.RemoveInserted | src/Modules.java:321-359 | `delete_at` undoes `insert_at` at the same index |
| Library.InsertRemoved | src/Modules.java:321-359 | `insert_at` of the removed element undoes `delete_at` |
| Library.At | src/Modules.java:288-304 | the element at the index; fatal out of range; nothing changes |
| Library.Append | src/Modules.java:307-318 | the contents gain the value at the end, in place, and the same object is returned |
| Library.DeleteAt | src/Modules.java:321-336 | the element at the index is removed in place and later ones shift down; fatal out of range |
| Library.InsertAt | src/Modules.java:339-359 | the value is placed at the index in place and later ones shift up; an index equal to the size appends; fatal beyond it |
| Library.TupleToList | src/Modules.java:362-376 | a new list with the tuple's elements |
| Library.Pop | src/Modules.java:455-476 | fatal on an empty list; otherwise a new tuple `{last, list}`, and the list loses exactly its last element |
| Library.AppendThenPop | src/Modules.java:403-476 | `pop` after `append` returns the appended value with the same list, and the list is as before |
| Library.InsertThenDelete | src/Modules.java:416-453 | `delete_at` after `insert_at` at the same index leaves the list as before and returns it |
| Library.MapFetch | src/Modules.java:59-72 | the bound value, or null for an absent key |
| Library.MapDelete | src/Modules.java:39-55 | removes only that key in place and returns the same map; fatal on an absent key |
| Library.MapReplace | src/Modules.java:76-89 | overwrites only that key in place and returns the same map; fatal on an absent key |
| Library.MapToList | src/Modules.java:93-112 | a new list with one new `{key, value}` tuple per entry, each tuple a new object, each key once |
| Library.EnumSort | src/Modules.java:210-278 | a new list holding `SortEntries` of the argument's elements |
| Library.SortGroups | src/Modules.java:216-276 | the five-group loop, stopping early once all elements are placed, gives `SortEntries` |
| Library.EnumMap | src/Modules.java:123-185 | argument checks in order; over a list a new list of the callback's results, of the same length, failing exactly when a call fails, with the first failing element's error; over a map a new map, failing exactly when some result is not a 2-tuple |
| Library.MapList | src/Modules.java:139-153 | a new list whose i-th element is the callback's result for the i-th element; fails exactly when some call fails, with the error of the first failing element |
| Library.MapMap | src/Modules.java:155-178 | fails exactly when some callback result is not a 2-tuple; otherwise every result's key is in the new map, and every entry of the new map comes from some result |

## Left out

- `Main.java` (reading files, the REPL, printing results) is not part of this model.
- The `print` and `date` natives are bound in the global scope, but what they do (standard output
  and the system clock) is not modelled.
- Floating point:
  - numbers are unbounded integers;
  - `evaluateNumericBinaryExpr` is the parameter `arith`, so the null number it gives for a
    non-arithmetic operator is whatever `arith` returns;
  - `Double.parseDouble` reads only digit strings here, since the lexer emits nothing else;
  - the `intValue()` truncation of indices is the identity on integers;
  - `Enum.sum` is not modelled, because it only adds floating-point numbers.
- Character classes are ASCII: `isDigit` is `0-9`, `isLetter` is `a-z A-Z`, and `isSpaceChar`
  is the space character alone.
- Standard error messages are not modelled. A fatal path is an `Err` value, and the state that
  `System.exit` leaves behind is not observed.
- The debug line `insert_at` prints, and its warning for an index at or past the size, are not
  modelled. An index past the size is fatal, because `ArrayList.add` throws.
- Hash map iteration order is left open. `Map.to_list` and `Enum.map` over a map state no
  order, and the way `MapToList` and `MapMap` pick the next key (`:|`) stands for it.
- Library.EnumMap: the callback is two abstract functions, `apply1` and `apply2`, giving the
  value of its body. The child scope `Enum.map` creates, and the call of `evaluate` on the
  closure body, are not modelled, because the evaluator has no call or closure case.
- Library.MapMap: a callback result that is not a 2-tuple is reported as `ArgumentKind`; the
  source prints its own message.
- Map keys use Dafny value equality. Numbers, atoms, strings and booleans compare by content,
  and tuples, lists and maps compare by identity. The Java value classes define no `equals`, so
  every key compares by identity there.
- The `toString` methods of tokens, nodes and values are not modelled.
- Parsing.Parser.Eat: it requires a non-empty list, because every caller has looked at the head
  token first. `parseStmt` and `parseExpr` only forward to `parseMatchExpr`, so they are folded
  into it.
- The reference evaluator `Eval` and `EvalItems`, `CheckKinds` and `MatchTuple` are defined on
  trees without tuple nodes. `BindAll` needs no such condition. The parser builds no tuple
  node, so every tree `produceAst` gives is covered. The forms left uncovered are:
  - a tuple inside an operand, such as `{1} + 2`, which gives null in the source;
  - a tuple literal on the right of a name match, such as `t = {1, 2}`;
  - a tuple literal among the elements of another tuple, such as `{{1}, 2}`;
  - a tuple pattern with a tuple among its elements;
  - a program holding any of these.
- Interpreter.Evaluate: agreement with `Eval` is stated only for trees without tuple nodes, and
  a tuple literal's element values only when no element holds a tuple node. Every tree gets the
  facts listed in its row.
- Interpreter.EvaluateProgram: it is stated to run the statements in order and give the last
  value only for programs without tuple nodes. Every program gets the empty-program and scope
  facts.
- Interpreter.EvaluateStatement: the loop step is stated only for programs without tuple nodes.
- Interpreter.EvaluateBinaryExpr: `Binary` of the two operand values is stated only when
  neither operand holds a tuple node, so `{1} + 2` gets only the scope and constant facts.
- Interpreter.EvaluateTuple: the element values are stated only when no element holds a tuple
  node. Every tuple literal gets a new tuple with one element per element expression.
- Interpreter.EvaluateElements: the element values are stated only when no element holds a
  tuple node. Every tuple literal gets one value per element.
- Interpreter.EvaluateElement: the loop step is stated only when no element holds a tuple node.
- Interpreter.EvaluateMatchExpr: a name target agrees with `Eval` only when the right side has
  no tuple node. A tuple target agrees with `MatchTuple` only when its elements and a literal
  right side hold no tuple node. Every tree gets the target, reserved-name, lookup, constant
  and size facts listed in its row.
- Interpreter.MatchIdentifier: it agrees with `Eval` only when the right side has no tuple node.
  Every right side gets the reserved-name, lookup and constant facts.
- Interpreter.MatchTupleTarget: the dispatch to `BindAll` or `CheckKinds` is stated only when
  the target's elements hold no tuple node. Every target gets the size check and the returned
  tuple.
- Interpreter.CheckPattern: the kind checks are stated only when the target's elements hold no
  tuple node. Every target gets the returned tuple.
- Interpreter.ProgramSequence: proved only for bodies without tuple nodes, since it is about
  `Eval`. The empty-program half holds for every program through `EvaluateProgram`.
- Interpreter.EvalKeepsScopes: proved only for trees without tuple nodes, since it is about
  `Eval`. For every tree, `KeepsKeys` in the method contracts is the weaker fact that holds. A
  destructuring inside the tree can declare a name in the innermost scope that an outer scope
  already binds, which shadows it.
- Interpreter.MatchBindsName: proved only for right sides without tuple nodes. For every right
  side, `MatchIdentifier` states that the name then looks up the result.
- Interpreter.ConstantsCannotBeRebound: proved only for right sides without tuple nodes. For
  every right side, `EvaluateMatchExpr` refuses the reserved names before evaluating anything.
  It also refuses a constant, unless the right side declared the same name in the innermost
  scope over a constant of an outer scope.
- Interpreter.CompareTo: a string is a sequence of Unicode code points. Java's `compareTo` and
  `length()` work on UTF-16 code units, and the two differ on characters outside the Basic
  Multilingual Plane. The same holds for `Interpreter.AtomComparison`, the text keys of
  `Sorting`, and `Runtime.Length`. The lexer accepts only ASCII characters.
- Runtime.Length: the length of a string counts code points, not UTF-16 code units.
- A right-hand side of a tuple match that is a name bound to something other than a tuple fails
  in the source at the cast on line 110. The model reports it as `MatchError`, like the check on
  line 114.
- The `default` branches of `evaluate` and `evaluateMatchExpr` cannot be reached with the node
  kinds the parser builds, so they are not modelled.
- The two Java constructors of `Environment` are one constructor with a nullable parent.
- Library.SortGroups: the new list is filled once, after the group loop. The source adds each
  group to it in turn, which no other code can see before the native returns.
- Library.MapToList: the new list is built in a local sequence and allocated once, for the same
  reason.
- Interpreter.EvaluateTuple: the element values are collected in a local sequence and the tuple
  is allocated after them, for the same reason.
