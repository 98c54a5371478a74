/** Tokens produced by the lexer and consumed by the parser (Token.java, Lexer.java). */
module Tokens {

  /** The token kinds the lexer and the parser actually use. */
  datatype TokenKind =
    | OpenParen
    | CloseParen
    | BinaryOperator
    | Match
    | Number
    | Identifier
    | Let
    | Atom
    | EOF

  datatype Token = Token(value: string, kind: TokenKind)

  /** The token appended at the end of every token list. */
  const EofToken: Token := Token("EndOfFile", EOF)

  // ASCII approximations of Character.isDigit, isLetter and isSpaceChar.
  predicate IsDigit(c: char) { '0' <= c <= '9' }
  predicate IsLetter(c: char) { 'a' <= c <= 'z' || 'A' <= c <= 'Z' }
  predicate IsSpaceChar(c: char) { c == ' ' }

  /** A character that may continue an identifier after its first letter. */
  predicate IsWordChar(c: char) { IsDigit(c) || IsLetter(c) || c == '_' }

  /** The characters that form a one-character token on their own. */
  predicate IsPunctuation(c: char) {
    c == '(' || c == ')' || c == '+' || c == '-' || c == '*' || c == '/' || c == '%' || c == '='
  }

  function PunctuationKind(c: char): TokenKind
    requires IsPunctuation(c)
  {
    if c == '(' then OpenParen
    else if c == ')' then CloseParen
    else if c == '=' then Match
    else BinaryOperator
  }

  /** The KEYWORDS table. */
  const Keywords: map<string, TokenKind> := map["let" := Let]

  /** KEYWORDS.getOrDefault(word, Identifier). */
  function WordKind(word: string): (k: TokenKind)
    ensures k == Let <==> word == "let"
    ensures k == Identifier <==> word != "let"
  {
    if word in Keywords then Keywords[word] else Identifier
  }

  predicate AllDigits(s: string) { forall k :: 0 <= k < |s| ==> IsDigit(s[k]) }
  predicate AllWordChars(s: string) { forall k :: 0 <= k < |s| ==> IsWordChar(s[k]) }

  /** The shapes of token the lexer can emit, apart from the final EOF. */
  predicate WellFormedToken(t: Token) {
    || (|t.value| == 1 && IsPunctuation(t.value[0]) && t.kind == PunctuationKind(t.value[0]))
    || (t.kind == Number && t.value != [] && AllDigits(t.value))
    || (t.value != [] && IsLetter(t.value[0]) && AllWordChars(t.value) && t.kind == WordKind(t.value))
  }

  // Operator texts the parser's precedence levels test for.
  predicate IsMultiplicativeOperator(s: string) { s == "*" || s == "/" || s == "%" }
  predicate IsAdditiveOperator(s: string) { s == "+" || s == "-" }
  /** Parser.checkRelationalOperators. */
  predicate IsRelationalOperator(s: string) {
    s == "==" || s == "<" || s == ">" || s == "<=" || s == ">=" || s == "!="
  }
  predicate IsOperatorText(s: string) {
    IsMultiplicativeOperator(s) || IsAdditiveOperator(s) || IsRelationalOperator(s)
  }
}
