/** Error outcomes. Every `System.exit` and every uncaught Java exception of the core is an `Err`. */
module Results {
  import opened Tokens

  datatype Error =
    | UnrecognizedCharacter(c: char)                  // the lexer meets a character it cannot classify
    | OutOfTokens                                     // tokens.get(0) on an empty token list
    | UnexpectedToken(found: Token)                   // a token that cannot start a primary expression
    | ExpectedToken(found: Token, expected: TokenKind)  // Parser.expect saw another kind
    | MalformedNumber(text: string)                   // Double.parseDouble rejects the text
    | MalformedAtom                                   // substring(1) of an empty atom text
    | NameError(name: string)                         // a name no scope of the chain holds
    | ConstAssignment(name: string)                   // assignment to a constant binding
    | InvalidMatchTarget                              // left side of `=` is neither identifier nor tuple
    | ReservedMatchTarget(name: string)               // `true`, `false` or `null` on the left of `=`
    | MatchError                                      // shape, size or kind mismatch in a match
    | InvalidArguments(fn: string)                    // wrong argument count for a native
    | ArgumentKind(fn: string)                        // argument of the wrong kind for a native
    | IndexError(fn: string)                          // index or key out of range in a native

  datatype Result<+T> = Ok(value: T) | Err(error: Error) {
    predicate IsFailure() { Err? }
    function PropagateFailure<U>(): Result<U> requires Err? { Err(error) }
    function Extract(): T requires Ok? { value }
    /** The same outcome carrying `u` in place of a successful value. */
    function Yield<U>(u: U): Result<U> { if Ok? then Ok(u) else Err(error) }
  }

  /** The outcome of a guard that returns nothing (`expect`, `expectArgs`). */
  datatype Check = Pass | Fail(error: Error) {
    predicate IsFailure() { Fail? }
    function PropagateFailure<U>(): Result<U> requires Fail? { Err(error) }
  }

  /** Puts `xs` in front of a successful list result; a failure passes through. */
  function PrependAll<T>(xs: seq<T>, r: Result<seq<T>>): (p: Result<seq<T>>)
    ensures p.Ok? <==> r.Ok?
    ensures p.Ok? ==> p.value == xs + r.value
    ensures p.Err? ==> p == r
  {
    if r.Ok? then Ok(xs + r.value) else r
  }

  /** Prepending nothing changes nothing. */
  lemma PrependNothing<T>(r: Result<seq<T>>)
    ensures PrependAll([], r) == r
  {
    if r.Ok? { assert [] + r.value == r.value; }
  }

  /** Prepending twice is prepending the concatenation. */
  lemma PrependTwice<T>(xs: seq<T>, ys: seq<T>, r: Result<seq<T>>)
    ensures PrependAll(xs, PrependAll(ys, r)) == PrependAll(xs + ys, r)
  {
    if r.Ok? { assert xs + (ys + r.value) == (xs + ys) + r.value; }
  }
}
