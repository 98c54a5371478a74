/** Parser.java: precedence-climbing recursive descent over a token list consumed from the front.
    Levels, loosest first: match `=` (right-associative), relational, additive, multiplicative
    (these three left-associative), primary. */
module Parsing {
  import opened Tokens
  import opened Results
  import A = Ast
  import Lexing

  /** A parsed node and the tokens left after it. */
  datatype Parsed = Parsed(node: A.Node, rest: seq<Token>)

  /** `at()`: the head token; an empty list has none. */
  function Head(ts: seq<Token>): (r: Result<Token>)
    ensures r.Ok? <==> ts != []
    ensures r.Ok? ==> r.value == ts[0]
    ensures r.Err? ==> r.error == OutOfTokens
  {
    if ts == [] then Err(OutOfTokens) else Ok(ts[0])
  }

  /** The decimal value of a digit string, as `Double.parseDouble` reads it. */
  function DecimalValue(s: string): (v: nat)
    requires AllDigits(s)
  {
    if s == [] then 0 else 10 * DecimalValue(s[..|s| - 1]) + (s[|s| - 1] as int - '0' as int)
  }

  /** parseMatchExpr: a relational expression, then optionally `=` and, recursively, the matched value. */
  function ParseMatch(ts: seq<Token>): (r: Result<Parsed>)
    ensures r.Ok? ==> |r.value.rest| < |ts|
    decreases |ts|, 4
  {
    var left :- ParseRelational(ts);
    var head :- Head(left.rest);
    if head.kind == Match then
      var right :- ParseMatch(left.rest[1..]);
      Ok(Parsed(A.MatchExpr(left.node, right.node), right.rest))
    else
      Ok(left)
  }

  /** parseRelationalExpr */
  function ParseRelational(ts: seq<Token>): (r: Result<Parsed>)
    ensures r.Ok? ==> |r.value.rest| < |ts|
    decreases |ts|, 3
  {
    var left :- ParseAdditive(ts);
    RelationalTail(left.node, left.rest)
  }

  /** The loop of parseRelationalExpr: while the head is a relational operator, fold one more
      additive operand into `left`. */
  function RelationalTail(left: A.Node, ts: seq<Token>): (r: Result<Parsed>)
    ensures r.Ok? ==> |r.value.rest| <= |ts|
    decreases |ts|, 3
  {
    var head :- Head(ts);
    if IsRelationalOperator(head.value) then
      var right :- ParseAdditive(ts[1..]);
      RelationalTail(A.BinaryExpr(left, right.node, head.value), right.rest)
    else
      Ok(Parsed(left, ts))
  }

  /** parseAdditiveExpr */
  function ParseAdditive(ts: seq<Token>): (r: Result<Parsed>)
    ensures r.Ok? ==> |r.value.rest| < |ts|
    decreases |ts|, 2
  {
    var left :- ParseMultiplicative(ts);
    AdditiveTail(left.node, left.rest)
  }

  /** The loop of parseAdditiveExpr over `+` and `-`. */
  function AdditiveTail(left: A.Node, ts: seq<Token>): (r: Result<Parsed>)
    ensures r.Ok? ==> |r.value.rest| <= |ts|
    decreases |ts|, 2
  {
    var head :- Head(ts);
    if IsAdditiveOperator(head.value) then
      var right :- ParseMultiplicative(ts[1..]);
      AdditiveTail(A.BinaryExpr(left, right.node, head.value), right.rest)
    else
      Ok(Parsed(left, ts))
  }

  /** parseMultiplicativeExpr */
  function ParseMultiplicative(ts: seq<Token>): (r: Result<Parsed>)
    ensures r.Ok? ==> |r.value.rest| < |ts|
    decreases |ts|, 1
  {
    var left :- ParsePrimary(ts);
    MultiplicativeTail(left.node, left.rest)
  }

  /** The loop of parseMultiplicativeExpr over `*`, `/` and `%`. */
  function MultiplicativeTail(left: A.Node, ts: seq<Token>): (r: Result<Parsed>)
    ensures r.Ok? ==> |r.value.rest| <= |ts|
    decreases |ts|, 1
  {
    var head :- Head(ts);
    if IsMultiplicativeOperator(head.value) then
      var right :- ParsePrimary(ts[1..]);
      MultiplicativeTail(A.BinaryExpr(left, right.node, head.value), right.rest)
    else
      Ok(Parsed(left, ts))
  }

  /** parsePrimaryExpr: an identifier, a number, an atom or a parenthesised expression. */
  function ParsePrimary(ts: seq<Token>): (r: Result<Parsed>)
    ensures r.Ok? ==> |r.value.rest| < |ts|
    decreases |ts|, 0
  {
    var head :- Head(ts);
    match head.kind
    case Identifier => Ok(Parsed(A.Identifier(head.value), ts[1..]))
    case Number =>
      if AllDigits(head.value) && head.value != [] then Ok(Parsed(A.NumericLiteral(DecimalValue(head.value)), ts[1..]))
      else Err(MalformedNumber(head.value))
    case Atom =>
      if head.value == [] then Err(MalformedAtom) else Ok(Parsed(A.Atom(head.value[1..]), ts[1..]))
    case OpenParen =>
      var inner :- ParseMatch(ts[1..]);
      var close :- Head(inner.rest);
      if close.kind == CloseParen then Ok(Parsed(inner.node, inner.rest[1..]))
      else Err(ExpectedToken(close, CloseParen))
    case _ => Err(UnexpectedToken(head))
  }

  /** The loop of produceAst: statements until the head token is EOF. */
  function ParseBody(ts: seq<Token>): (r: Result<seq<A.Node>>)
    decreases |ts|
  {
    var head :- Head(ts);
    if head.kind == EOF then Ok([])
    else
      var stmt :- ParseMatch(ts);
      var more :- ParseBody(stmt.rest);
      Ok([stmt.node] + more)
  }

  /** produceAst: lex the text, then parse statements until EOF into a Program node. */
  function ProduceAstSpec(code: string): (r: Result<A.Node>)
    ensures r.Ok? ==> r.value.Program?
  {
    var ts :- Lexing.Lex(code);
    var body :- ParseBody(ts);
    Ok(A.Program(body))
  }

  /** The statement-level result `r` and the tokens left, `rest`, are what the specification `spec` says. */
  predicate Agrees(spec: Result<Parsed>, r: Result<A.Node>, rest: seq<Token>) {
    match spec
    case Ok(p) => r == Ok(p.node) && rest == p.rest
    case Err(e) => r == Err(e)
  }

  /** Every statement of a parsed program consumes at least one token, and the program stops
      exactly at an EOF token. */
  lemma {:induction false} ParseBodyStopsAtEof(ts: seq<Token>)
    requires ParseBody(ts).Ok?
    ensures |ParseBody(ts).value| < |ts|
    ensures ParseBody(ts).value == [] <==> ts[0].kind == EOF
    decreases |ts|
  {
    if ts[0].kind != EOF {
      ParseBodyStopsAtEof(ParseMatch(ts).value.rest);
    }
  }

  /** Parser.java: the parser state is the remaining token list. */
  class Parser {
    var tokens: seq<Token>

    constructor ()
      ensures tokens == []
    {
      tokens := [];
    }

    /** not_eof: whether the head token is something other than EOF. */
    method NotEof() returns (r: Result<bool>)
      ensures r.Ok? <==> tokens != []
      ensures r.Ok? ==> (r.value <==> tokens[0].kind != EOF)
      ensures r.Err? ==> r.error == OutOfTokens
    {
      var head :- At();
      return Ok(head.kind != EOF);
    }

    /** at: the head token, leaving the list unchanged. */
    method At() returns (r: Result<Token>)
      ensures r == Head(tokens)
    {
      if tokens == [] {
        return Err(OutOfTokens);
      }
      return Ok(tokens[0]);
    }

    /** eat: removes and returns the head token. Every caller has looked at the head first,
        except `expect`, which handles the empty list itself. */
    method Eat() returns (prev: Token)
      requires tokens != []
      modifies this
      ensures old(tokens) == [prev] + tokens
    {
      prev := tokens[0];
      tokens := tokens[1..];
    }

    /** expect: eats the head token and fails unless it has kind `kind`. */
    method Expect(kind: TokenKind) returns (r: Check)
      modifies this
      ensures old(tokens) == [] ==> r == Fail(OutOfTokens)
      ensures old(tokens) != [] ==> tokens == old(tokens)[1..]
      ensures old(tokens) != [] ==> (r.Pass? <==> old(tokens)[0].kind == kind)
      ensures old(tokens) != [] && r.Fail? ==> r.error == ExpectedToken(old(tokens)[0], kind)
    {
      if tokens == [] {
        return Fail(OutOfTokens);
      }
      var prev := Eat();
      if prev.kind != kind {
        return Fail(ExpectedToken(prev, kind));
      }
      return Pass;
    }

    /** produceAst */
    method ProduceAst(code: string) returns (r: Result<A.Node>)
      modifies this
      ensures r == ProduceAstSpec(code)
    {
      var lexer := new Lexing.Lexer(code);
      var lexed := lexer.Tokenize();
      assert code[0..] == code;
      var ts :- lexed;
      tokens := ts;
      var body: seq<A.Node> := [];
      PrependNothing(ParseBody(ts));
      var more :- NotEof();
      while more
        invariant tokens != [] && (more <==> tokens[0].kind != EOF)
        invariant ParseBody(ts) == PrependAll(body, ParseBody(tokens))
        decreases |tokens|
      {
        ghost var before := tokens;
        var stmt := ParseMatchExpr();
        if stmt.Err? {
          return Err(stmt.error);
        }
        PrependTwice(body, [stmt.value], ParseBody(tokens));
        body := body + [stmt.value];
        more :- NotEof();
      }
      assert body + [] == body;
      return Ok(A.Program(body));
    }

    /** parseMatchExpr (parseStmt and parseExpr only forward to it). */
    method ParseMatchExpr() returns (r: Result<A.Node>)
      modifies this
      ensures Agrees(ParseMatch(old(tokens)), r, tokens)
      decreases |tokens|, 4
    {
      var left :- ParseRelationalExpr();
      var head :- At();
      if head.kind == Match {
        var matchToken := Eat();
        var right :- ParseMatchExpr();
        return Ok(A.MatchExpr(left, right));
      }
      return Ok(left);
    }

    /** parseRelationalExpr */
    method ParseRelationalExpr() returns (r: Result<A.Node>)
      modifies this
      ensures Agrees(ParseRelational(old(tokens)), r, tokens)
      decreases |tokens|, 3
    {
      var left :- ParseAdditiveExpr();
      var head :- At();
      while IsRelationalOperator(head.value)
        invariant tokens != [] && head == tokens[0] && |tokens| < |old(tokens)|
        invariant ParseRelational(old(tokens)) == RelationalTail(left, tokens)
        decreases |tokens|
      {
        var op := Eat();
        var right :- ParseAdditiveExpr();
        left := A.BinaryExpr(left, right, op.value);
        head :- At();
      }
      return Ok(left);
    }

    /** parseAdditiveExpr */
    method ParseAdditiveExpr() returns (r: Result<A.Node>)
      modifies this
      ensures Agrees(ParseAdditive(old(tokens)), r, tokens)
      decreases |tokens|, 2
    {
      var left :- ParseMultiplicativeExpr();
      var head :- At();
      while IsAdditiveOperator(head.value)
        invariant tokens != [] && head == tokens[0] && |tokens| < |old(tokens)|
        invariant ParseAdditive(old(tokens)) == AdditiveTail(left, tokens)
        decreases |tokens|
      {
        var op := Eat();
        var right :- ParseMultiplicativeExpr();
        left := A.BinaryExpr(left, right, op.value);
        head :- At();
      }
      return Ok(left);
    }

    /** parseMultiplicativeExpr */
    method ParseMultiplicativeExpr() returns (r: Result<A.Node>)
      modifies this
      ensures Agrees(ParseMultiplicative(old(tokens)), r, tokens)
      decreases |tokens|, 1
    {
      var left :- ParsePrimaryExpr();
      var head :- At();
      while IsMultiplicativeOperator(head.value)
        invariant tokens != [] && head == tokens[0] && |tokens| < |old(tokens)|
        invariant ParseMultiplicative(old(tokens)) == MultiplicativeTail(left, tokens)
        decreases |tokens|
      {
        var op := Eat();
        var right :- ParsePrimaryExpr();
        left := A.BinaryExpr(left, right, op.value);
        head :- At();
      }
      return Ok(left);
    }

    /** parsePrimaryExpr */
    method ParsePrimaryExpr() returns (r: Result<A.Node>)
      modifies this
      ensures Agrees(ParsePrimary(old(tokens)), r, tokens)
      decreases |tokens|, 0
    {
      var head :- At();
      match head.kind {
        case Identifier =>
          var t := Eat();
          return Ok(A.Identifier(t.value));
        case Number =>
          var t := Eat();
          if !(AllDigits(t.value) && t.value != []) {
            return Err(MalformedNumber(t.value));
          }
          return Ok(A.NumericLiteral(DecimalValue(t.value)));
        case Atom =>
          var t := Eat();
          if t.value == [] {
            return Err(MalformedAtom);
          }
          return Ok(A.Atom(t.value[1..]));
        case OpenParen =>
          var open := Eat();
          var value :- ParseMatchExpr();
          :- Expect(CloseParen);
          return Ok(value);
        case _ =>
          return Err(UnexpectedToken(head));
      }
    }
  }
}
