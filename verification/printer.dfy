/** A printer for expression trees that inserts only the parentheses the parser's precedence
    levels require. Parsing what it prints gives the tree back. The round trip is what pins down
    the parser's precedence and associativity. */
module Printing {
  import opened Tokens
  import opened Results
  import A = Ast
  import Lexing
  import opened Parsing

  /** The parser level that builds `e`: 4 match, 3 relational, 2 additive, 1 multiplicative, 0 primary. */
  function Level(e: A.Node): nat {
    match e
    case MatchExpr(_, _) => 4
    case BinaryExpr(_, _, op) =>
      if IsRelationalOperator(op) then 3 else if IsAdditiveOperator(op) then 2 else if IsMultiplicativeOperator(op) then 1 else 0
    case _ => 0
  }

  /** The decimal digits of `n`, most significant first. */
  function NatDigits(n: nat): (s: string)
    ensures s != [] && AllDigits(s)
  {
    if n < 10 then [('0' as int + n) as char] else NatDigits(n / 10) + [('0' as int + n % 10) as char]
  }

  lemma {:induction false} DecimalValueOfDigits(n: nat)
    ensures DecimalValue(NatDigits(n)) == n
  {
    var s := NatDigits(n);
    if n >= 10 {
      assert s[..|s| - 1] == NatDigits(n / 10);
      DecimalValueOfDigits(n / 10);
    } else {
      assert s[..|s| - 1] == [];
    }
  }

  /** The trees the printer handles: non-negative numbers, identifiers whose names the parser
      cannot mistake for an operator, and binary operators the parser knows. */
  predicate Printable(e: A.Node) {
    match e
    case NumericLiteral(n) => n >= 0
    case Identifier(x) => !IsOperatorText(x)
    case Atom(_) => true
    case BinaryExpr(l, r, op) => IsOperatorText(op) && Printable(l) && Printable(r)
    case MatchExpr(l, r) => Printable(l) && Printable(r)
    case _ => false
  }

  const LParen := Token("(", OpenParen)
  const RParen := Token(")", CloseParen)

  /** The tokens of `e` in a context that parses at level `L`; parenthesised when `e` binds more loosely. */
  function Print(e: A.Node, L: nat): (ts: seq<Token>)
    requires L <= 4
    decreases e, if Level(e) > L then 1 else 0
  {
    if Level(e) > L then [LParen] + Print(e, 4) + [RParen]
    else
      match e
      case NumericLiteral(n) => if n >= 0 then [Token(NatDigits(n), Number)] else []
      case Identifier(x) => [Token(x, Identifier)]
      case Atom(a) => [Token(":" + a, Atom)]
      case BinaryExpr(l, r, op) =>
        // left operand at the same level (left-associative), right operand one level tighter
        Print(l, Level(e)) + [Token(op, BinaryOperator)] + Print(r, if Level(e) == 0 then 0 else Level(e) - 1)
      case MatchExpr(l, r) =>
        // right-associative: the matched value may itself be a match
        Print(l, 3) + [Token("=", Match)] + Print(r, 4)
      case _ => []
  }

  // What may follow a subtree without being read as part of it.
  predicate MulStop(rest: seq<Token>) { rest != [] && !IsMultiplicativeOperator(rest[0].value) }
  predicate AddStop(rest: seq<Token>) { rest != [] && !IsAdditiveOperator(rest[0].value) }
  predicate RelStop(rest: seq<Token>) { rest != [] && !IsRelationalOperator(rest[0].value) }
  predicate Stop(rest: seq<Token>) { MulStop(rest) && AddStop(rest) && RelStop(rest) && rest[0].kind != Match }

  /** The measure that orders the round-trip lemmas on one tree: from the lemma for level L to
      the lemma for the tree's own level. */
  function Rank(e: A.Node, L: nat): nat
    requires L <= 4
  {
    if Level(e) <= L then L - Level(e) else L + 1 + 4 - Level(e)
  }

  lemma {:induction false} PrimaryRoundTrip(e: A.Node, rest: seq<Token>)
    requires Printable(e)
    ensures ParsePrimary(Print(e, 0) + rest) == Ok(Parsed(e, rest))
    decreases e, Rank(e, 0)
  {
    var ts := Print(e, 0) + rest;
    if Level(e) > 0 {
      var inner := Print(e, 4);
      assert ts == [LParen] + (inner + ([RParen] + rest));
      assert ts[1..] == inner + ([RParen] + rest);
      MatchRoundTrip(e, [RParen] + rest);
      assert ([RParen] + rest)[1..] == rest;
    } else {
      match e
      case NumericLiteral(n) =>
        assert ts[1..] == rest;
        DecimalValueOfDigits(n);
      case Identifier(x) =>
        assert ts[1..] == rest;
      case Atom(a) =>
        assert ts[1..] == rest;
        assert (":" + a)[1..] == a;
      case _ =>
        assert false;
    }
  }

  lemma {:induction false} MultiplicativeRoundTrip(e: A.Node, rest: seq<Token>)
    requires Printable(e)
    ensures ParseMultiplicative(Print(e, 1) + rest) == MultiplicativeTail(e, rest)
    decreases e, Rank(e, 1)
  {
    if Level(e) > 1 {
      assert Print(e, 1) == Print(e, 0);
      PrimaryRoundTrip(e, rest);
    } else if Level(e) == 0 {
      PrimaryRoundTrip(e, rest);
    } else {
      var l, r, op := e.left, e.right, e.op;
      var tail := [Token(op, BinaryOperator)] + (Print(r, 0) + rest);
      assert Print(e, 1) + rest == Print(l, 1) + tail;
      MultiplicativeRoundTrip(l, tail);
      assert tail[1..] == Print(r, 0) + rest;
      PrimaryRoundTrip(r, rest);
    }
  }

  lemma {:induction false} AdditiveRoundTrip(e: A.Node, rest: seq<Token>)
    requires Printable(e) && MulStop(rest)
    ensures ParseAdditive(Print(e, 2) + rest) == AdditiveTail(e, rest)
    decreases e, Rank(e, 2)
  {
    if Level(e) > 2 {
      assert Print(e, 2) == Print(e, 1);
      MultiplicativeRoundTrip(e, rest);
    } else if Level(e) < 2 {
      assert Print(e, 2) == Print(e, 1);
      MultiplicativeRoundTrip(e, rest);
    } else {
      var l, r, op := e.left, e.right, e.op;
      var tail := [Token(op, BinaryOperator)] + (Print(r, 1) + rest);
      assert Print(e, 2) + rest == Print(l, 2) + tail;
      AdditiveRoundTrip(l, tail);
      MultiplicativeRoundTrip(r, rest);
      AdditiveStep(l, r, op, rest);
    }
  }

  /** After the left operand, an additive operator and a printed right operand extend it by one step. */
  lemma AdditiveStep(l: A.Node, r: A.Node, op: string, rest: seq<Token>)
    requires IsAdditiveOperator(op) && MulStop(rest)
    requires ParseMultiplicative(Print(r, 1) + rest) == MultiplicativeTail(r, rest)
    ensures AdditiveTail(l, [Token(op, BinaryOperator)] + (Print(r, 1) + rest)) == AdditiveTail(A.BinaryExpr(l, r, op), rest)
  {
    var tail := [Token(op, BinaryOperator)] + (Print(r, 1) + rest);
    assert tail[1..] == Print(r, 1) + rest;
    assert MultiplicativeTail(r, rest) == Ok(Parsed(r, rest));
  }

  lemma {:induction false} RelationalRoundTrip(e: A.Node, rest: seq<Token>)
    requires Printable(e) && MulStop(rest) && AddStop(rest)
    ensures ParseRelational(Print(e, 3) + rest) == RelationalTail(e, rest)
    decreases e, Rank(e, 3)
  {
    if Level(e) != 3 {
      assert Print(e, 3) == Print(e, 2);
      AdditiveRoundTrip(e, rest);
    } else {
      var l, r, op := e.left, e.right, e.op;
      var tail := [Token(op, BinaryOperator)] + (Print(r, 2) + rest);
      assert Print(e, 3) + rest == Print(l, 3) + tail;
      RelationalRoundTrip(l, tail);
      assert tail[1..] == Print(r, 2) + rest;
      AdditiveRoundTrip(r, rest);
    }
  }

  /** Round trip: parsing a printed tree, followed by any token that cannot continue it, gives the
      tree back and stops at that token. */
  lemma {:induction false} MatchRoundTrip(e: A.Node, rest: seq<Token>)
    requires Printable(e) && Stop(rest)
    ensures ParseMatch(Print(e, 4) + rest) == Ok(Parsed(e, rest))
    decreases e, Rank(e, 4)
  {
    if Level(e) < 4 {
      assert Print(e, 4) == Print(e, 3);
      RelationalRoundTrip(e, rest);
    } else {
      var l, r := e.toAssigned, e.value;
      var tail := [Token("=", Match)] + (Print(r, 4) + rest);
      assert Print(e, 4) + rest == Print(l, 3) + tail;
      RelationalRoundTrip(l, tail);
      assert tail[1..] == Print(r, 4) + rest;
      MatchRoundTrip(r, rest);
    }
  }

  /** A printed tree starts with a token that cannot continue an expression before it, and that
      is not EOF. */
  lemma {:induction false} PrintStartsCleanly(e: A.Node, L: nat)
    requires Printable(e) && L <= 4
    ensures Print(e, L) != [] && Stop(Print(e, L)) && Print(e, L)[0].kind != EOF
    decreases e, if Level(e) > L then 1 else 0
  {
    if Level(e) > L {
    } else {
      match e
      case NumericLiteral(n) =>
        var d := NatDigits(n);
        assert IsDigit(d[0]);
      case Identifier(x) =>
      case Atom(a) =>
        assert (":" + a)[0] == ':';
      case BinaryExpr(l, r, op) =>
        PrintStartsCleanly(l, Level(e));
        assert Print(e, L)[0] == Print(l, Level(e))[0];
      case MatchExpr(l, r) =>
        PrintStartsCleanly(l, 3);
        assert Print(e, L)[0] == Print(l, 3)[0];
    }
  }

  /** The tokens of a sequence of statements, one after the other. */
  function PrintProgram(stmts: seq<A.Node>): seq<Token> {
    if stmts == [] then [] else Print(stmts[0], 4) + PrintProgram(stmts[1..])
  }

  /** Program round trip: the statements of a printed program, followed by EOF, parse back one
      by one. */
  lemma {:induction false} ProgramRoundTrip(stmts: seq<A.Node>)
    requires forall k :: 0 <= k < |stmts| ==> Printable(stmts[k])
    ensures ParseBody(PrintProgram(stmts) + [EofToken]) == Ok(stmts)
  {
    if stmts != [] {
      var rest := PrintProgram(stmts[1..]) + [EofToken];
      assert PrintProgram(stmts) + [EofToken] == Print(stmts[0], 4) + rest;
      PrintStartsCleanly(stmts[0], 4);
      if stmts[1..] == [] {
        assert rest == [EofToken];
      } else {
        PrintStartsCleanly(stmts[1], 4);
        assert rest[0] == Print(stmts[1..][0], 4)[0];
      }
      MatchRoundTrip(stmts[0], rest);
      ProgramRoundTrip(stmts[1..]);
      assert stmts == [stmts[0]] + stmts[1..];
    }
  }

  /** Trees whose printed tokens the lexer can also produce: non-negative numbers, identifiers
      made of word characters other than the keyword `let`, and the one-character arithmetic
      operators; the lexer emits no atoms and no relational operators. */
  predicate Lexable(e: A.Node) {
    match e
    case NumericLiteral(n) => n >= 0
    case Identifier(x) => x != [] && IsLetter(x[0]) && AllWordChars(x) && x != "let"
    case BinaryExpr(l, r, op) => (IsAdditiveOperator(op) || IsMultiplicativeOperator(op)) && Lexable(l) && Lexable(r)
    case MatchExpr(l, r) => Lexable(l) && Lexable(r)
    case _ => false
  }

  lemma {:induction false} LexableIsPrintable(e: A.Node)
    requires Lexable(e)
    ensures Printable(e)
  {
    match e
    case NumericLiteral(n) =>
    case Identifier(x) =>
      assert IsLetter(x[0]);
    case BinaryExpr(l, r, op) =>
      LexableIsPrintable(l);
      LexableIsPrintable(r);
    case MatchExpr(l, r) =>
      LexableIsPrintable(l);
      LexableIsPrintable(r);
  }

  lemma {:induction false} LexableTokens(e: A.Node, L: nat)
    requires Lexable(e) && L <= 4
    ensures forall k :: 0 <= k < |Print(e, L)| ==> WellFormedToken(Print(e, L)[k])
    decreases e, if Level(e) > L then 1 else 0
  {
    if Level(e) > L {
      LexableTokens(e, 4);
    } else {
      match e
      case NumericLiteral(n) =>
      case Identifier(x) =>
      case BinaryExpr(l, r, op) =>
        LexableTokens(l, Level(e));
        LexableTokens(r, Level(e) - 1);
      case MatchExpr(l, r) =>
        LexableTokens(l, 3);
        LexableTokens(r, 4);
    }
  }

  lemma {:induction false} LexableProgramTokens(stmts: seq<A.Node>)
    requires forall k :: 0 <= k < |stmts| ==> Lexable(stmts[k])
    ensures forall k :: 0 <= k < |PrintProgram(stmts)| ==> WellFormedToken(PrintProgram(stmts)[k])
  {
    if stmts != [] {
      LexableTokens(stmts[0], 4);
      LexableProgramTokens(stmts[1..]);
    }
  }

  /** The whole front end: writing a program's statements out as text, one space after every
      token, and running produceAst on that text gives the same program back. */
  lemma ProduceAstRoundTrip(stmts: seq<A.Node>)
    requires forall k :: 0 <= k < |stmts| ==> Lexable(stmts[k])
    ensures ProduceAstSpec(Lexing.Unlex(PrintProgram(stmts))) == Ok(A.Program(stmts))
  {
    LexableProgramTokens(stmts);
    Lexing.UnlexRoundTrip(PrintProgram(stmts));
    forall k | 0 <= k < |stmts| {
      LexableIsPrintable(stmts[k]);
    }
    ProgramRoundTrip(stmts);
  }

  function Id(x: string): Token { Token(x, Identifier) }
  function Op(op: string): Token { Token(op, BinaryOperator) }

  lemma PrintName(x: string, L: nat)
    requires L <= 4
    ensures Print(A.Identifier(x), L) == [Id(x)]
  {
  }

  lemma PrintBinary(l: A.Node, r: A.Node, op: string, L: nat)
    requires 1 <= Level(A.BinaryExpr(l, r, op)) <= L <= 4
    ensures Print(A.BinaryExpr(l, r, op), L)
         == Print(l, Level(A.BinaryExpr(l, r, op))) + [Op(op)] + Print(r, Level(A.BinaryExpr(l, r, op)) - 1)
  {
  }

  /** The printed form of `(a op1 b) op2 c` when op2's level is at least op1's. */
  lemma PrintLeftNested(a: string, b: string, c: string, op1: string, op2: string)
    requires 1 <= Level(A.BinaryExpr(A.Identifier(a), A.Identifier(b), op1)) <= Level(A.BinaryExpr(A.Identifier(a), A.Identifier(c), op2))
    ensures Print(A.BinaryExpr(A.BinaryExpr(A.Identifier(a), A.Identifier(b), op1), A.Identifier(c), op2), 4) + [EofToken]
         == [Id(a), Op(op1), Id(b), Op(op2), Id(c), EofToken]
  {
    var inner := A.BinaryExpr(A.Identifier(a), A.Identifier(b), op1);
    var k := Level(A.BinaryExpr(inner, A.Identifier(c), op2));
    PrintBinary(inner, A.Identifier(c), op2, 4);
    PrintBinary(A.Identifier(a), A.Identifier(b), op1, k);
    PrintName(a, Level(inner));
    PrintName(b, Level(inner) - 1);
    PrintName(c, k - 1);
  }

  /** The printed form of `a op1 (b op2 c)` when op2 binds strictly tighter than op1. */
  lemma PrintRightNested(a: string, b: string, c: string, op1: string, op2: string)
    requires 1 <= Level(A.BinaryExpr(A.Identifier(b), A.Identifier(c), op2)) < Level(A.BinaryExpr(A.Identifier(a), A.Identifier(c), op1))
    ensures Print(A.BinaryExpr(A.Identifier(a), A.BinaryExpr(A.Identifier(b), A.Identifier(c), op2), op1), 4) + [EofToken]
         == [Id(a), Op(op1), Id(b), Op(op2), Id(c), EofToken]
  {
    var inner := A.BinaryExpr(A.Identifier(b), A.Identifier(c), op2);
    var k := Level(A.BinaryExpr(A.Identifier(a), inner, op1));
    PrintBinary(A.Identifier(a), inner, op1, 4);
    PrintBinary(A.Identifier(b), A.Identifier(c), op2, k - 1);
    PrintName(a, k);
    PrintName(b, Level(inner));
    PrintName(c, Level(inner) - 1);
  }

  /** A name the parser cannot mistake for an operator. */
  predicate PlainName(x: string) { !IsOperatorText(x) }

  /** `a - b - c` groups as `(a - b) - c`: additive chains are left-associative. */
  lemma AdditiveLeftAssociative(a: string, b: string, c: string, op1: string, op2: string)
    requires PlainName(a) && PlainName(b) && PlainName(c)
    requires IsAdditiveOperator(op1) && IsAdditiveOperator(op2)
    ensures ParseMatch([Id(a), Op(op1), Id(b), Op(op2), Id(c), EofToken])
         == Ok(Parsed(A.BinaryExpr(A.BinaryExpr(A.Identifier(a), A.Identifier(b), op1), A.Identifier(c), op2), [EofToken]))
  {
    var e := A.BinaryExpr(A.BinaryExpr(A.Identifier(a), A.Identifier(b), op1), A.Identifier(c), op2);
    PrintLeftNested(a, b, c, op1, op2);
    MatchRoundTrip(e, [EofToken]);
  }

  /** `a * b / c` groups as `(a * b) / c`: multiplicative chains are left-associative. */
  lemma MultiplicativeLeftAssociative(a: string, b: string, c: string, op1: string, op2: string)
    requires PlainName(a) && PlainName(b) && PlainName(c)
    requires IsMultiplicativeOperator(op1) && IsMultiplicativeOperator(op2)
    ensures ParseMatch([Id(a), Op(op1), Id(b), Op(op2), Id(c), EofToken])
         == Ok(Parsed(A.BinaryExpr(A.BinaryExpr(A.Identifier(a), A.Identifier(b), op1), A.Identifier(c), op2), [EofToken]))
  {
    var e := A.BinaryExpr(A.BinaryExpr(A.Identifier(a), A.Identifier(b), op1), A.Identifier(c), op2);
    PrintLeftNested(a, b, c, op1, op2);
    MatchRoundTrip(e, [EofToken]);
  }

  /** `a < b < c` groups as `(a < b) < c`: relational chains are left-associative. */
  lemma RelationalLeftAssociative(a: string, b: string, c: string, op1: string, op2: string)
    requires PlainName(a) && PlainName(b) && PlainName(c)
    requires IsRelationalOperator(op1) && IsRelationalOperator(op2)
    ensures ParseMatch([Id(a), Op(op1), Id(b), Op(op2), Id(c), EofToken])
         == Ok(Parsed(A.BinaryExpr(A.BinaryExpr(A.Identifier(a), A.Identifier(b), op1), A.Identifier(c), op2), [EofToken]))
  {
    var e := A.BinaryExpr(A.BinaryExpr(A.Identifier(a), A.Identifier(b), op1), A.Identifier(c), op2);
    PrintLeftNested(a, b, c, op1, op2);
    MatchRoundTrip(e, [EofToken]);
  }

  /** `a + b * c` groups as `a + (b * c)` and `a * b + c` as `(a * b) + c`: multiplicative
      binds tighter than additive. */
  lemma MultiplicativeBindsTighter(a: string, b: string, c: string, add: string, mul: string)
    requires PlainName(a) && PlainName(b) && PlainName(c)
    requires IsAdditiveOperator(add) && IsMultiplicativeOperator(mul)
    ensures ParseMatch([Id(a), Op(add), Id(b), Op(mul), Id(c), EofToken])
         == Ok(Parsed(A.BinaryExpr(A.Identifier(a), A.BinaryExpr(A.Identifier(b), A.Identifier(c), mul), add), [EofToken]))
    ensures ParseMatch([Id(a), Op(mul), Id(b), Op(add), Id(c), EofToken])
         == Ok(Parsed(A.BinaryExpr(A.BinaryExpr(A.Identifier(a), A.Identifier(b), mul), A.Identifier(c), add), [EofToken]))
  {
    var e1 := A.BinaryExpr(A.Identifier(a), A.BinaryExpr(A.Identifier(b), A.Identifier(c), mul), add);
    PrintRightNested(a, b, c, add, mul);
    MatchRoundTrip(e1, [EofToken]);
    var e2 := A.BinaryExpr(A.BinaryExpr(A.Identifier(a), A.Identifier(b), mul), A.Identifier(c), add);
    PrintLeftNested(a, b, c, mul, add);
    MatchRoundTrip(e2, [EofToken]);
  }

  /** `a < b + c` groups as `a < (b + c)` and `a + b < c` as `(a + b) < c`: additive binds
      tighter than relational. */
  lemma AdditiveBindsTighter(a: string, b: string, c: string, rel: string, add: string)
    requires PlainName(a) && PlainName(b) && PlainName(c)
    requires IsRelationalOperator(rel) && IsAdditiveOperator(add)
    ensures ParseMatch([Id(a), Op(rel), Id(b), Op(add), Id(c), EofToken])
         == Ok(Parsed(A.BinaryExpr(A.Identifier(a), A.BinaryExpr(A.Identifier(b), A.Identifier(c), add), rel), [EofToken]))
    ensures ParseMatch([Id(a), Op(add), Id(b), Op(rel), Id(c), EofToken])
         == Ok(Parsed(A.BinaryExpr(A.BinaryExpr(A.Identifier(a), A.Identifier(b), add), A.Identifier(c), rel), [EofToken]))
  {
    var e1 := A.BinaryExpr(A.Identifier(a), A.BinaryExpr(A.Identifier(b), A.Identifier(c), add), rel);
    PrintRightNested(a, b, c, rel, add);
    MatchRoundTrip(e1, [EofToken]);
    var e2 := A.BinaryExpr(A.BinaryExpr(A.Identifier(a), A.Identifier(b), add), A.Identifier(c), rel);
    PrintLeftNested(a, b, c, add, rel);
    MatchRoundTrip(e2, [EofToken]);
  }

  /** `a = b = c` groups as `a = (b = c)`: match is right-associative. */
  lemma MatchRightAssociative(a: string, b: string, c: string)
    requires PlainName(a) && PlainName(b) && PlainName(c)
    ensures ParseMatch([Id(a), Token("=", Match), Id(b), Token("=", Match), Id(c), EofToken])
         == Ok(Parsed(A.MatchExpr(A.Identifier(a), A.MatchExpr(A.Identifier(b), A.Identifier(c))), [EofToken]))
  {
    var e := A.MatchExpr(A.Identifier(a), A.MatchExpr(A.Identifier(b), A.Identifier(c)));
    var inner := A.MatchExpr(A.Identifier(b), A.Identifier(c));
    PrintName(a, 3);
    PrintName(b, 3);
    PrintName(c, 4);
    assert Print(inner, 4) == [Id(b), Token("=", Match), Id(c)];
    assert Print(e, 4) + [EofToken] == [Id(a), Token("=", Match), Id(b), Token("=", Match), Id(c), EofToken];
    MatchRoundTrip(e, [EofToken]);
  }

  /** A parenthesised expression must be closed: `( a` followed by EOF is rejected at the EOF. */
  lemma UnclosedParenthesis(a: string)
    requires PlainName(a)
    ensures ParseMatch([LParen, Id(a), EofToken]) == Err(ExpectedToken(EofToken, CloseParen))
  {
    var ts := [LParen, Id(a), EofToken];
    PrintName(a, 4);
    assert ts[1..] == Print(A.Identifier(a), 4) + [EofToken];
    MatchRoundTrip(A.Identifier(a), [EofToken]);
    assert ParsePrimary(ts) == Err(ExpectedToken(EofToken, CloseParen));
    assert ParseMultiplicative(ts) == Err(ExpectedToken(EofToken, CloseParen));
    assert ParseAdditive(ts) == Err(ExpectedToken(EofToken, CloseParen));
    assert ParseRelational(ts) == Err(ExpectedToken(EofToken, CloseParen));
  }
}
