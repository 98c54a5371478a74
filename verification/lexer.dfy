/** Lexer.java: a single left-to-right scan turning source text into tokens. */
module Lexing {
  import opened Tokens
  import opened Results

  /** Length of the maximal run of digits at the start of `s`. */
  function DigitRun(s: string): (n: nat)
    ensures n <= |s| && AllDigits(s[..n])
    ensures n < |s| ==> !IsDigit(s[n])
  {
    if s != [] && IsDigit(s[0]) then 1 + DigitRun(s[1..]) else 0
  }

  /** Length of the maximal run of letters, digits and `_` at the start of `s`. */
  function WordRun(s: string): (n: nat)
    ensures n <= |s| && AllWordChars(s[..n])
    ensures n < |s| ==> !IsWordChar(s[n])
  {
    if s != [] && IsWordChar(s[0]) then 1 + WordRun(s[1..]) else 0
  }

  /** One step of the scan: a token covering the first `width` characters, a skipped space,
      or a character no rule accepts. */
  datatype Step = Emit(token: Token, width: nat) | Skip | Reject(c: char)

  predicate IsRecognized(c: char) {
    IsPunctuation(c) || IsDigit(c) || IsLetter(c) || IsSpaceChar(c)
  }

  /** What one iteration of the scan loop does at the start of `s`. */
  function Scan(s: string): (st: Step)
    requires s != []
    ensures st.Emit? ==> 0 < st.width <= |s| && st.token.value == s[..st.width] && WellFormedToken(st.token)
    ensures st.Skip? <==> IsSpaceChar(s[0]) && !IsPunctuation(s[0])
    ensures st.Reject? <==> !IsRecognized(s[0])
    ensures st.Reject? ==> st.c == s[0]
  {
    var c := s[0];
    if IsPunctuation(c) then
      assert s[..1] == [c];
      Emit(Token([c], PunctuationKind(c)), 1)
    else if IsDigit(c) then
      var n := DigitRun(s);
      assert s[..n][0] == c;
      Emit(Token(s[..n], Number), n)
    else if IsLetter(c) then
      var n := 1 + WordRun(s[1..]);
      assert s[..n] == [c] + s[1..][..n - 1];
      Emit(Token(s[..n], WordKind(s[..n])), n)
    else if IsSpaceChar(c) then Skip
    else Reject(c)
  }

  /** The token list `tokenize` produces for `s`, as a function of the remaining text. */
  function Lex(s: string): Result<seq<Token>>
    decreases |s|
  {
    if s == [] then Ok([EofToken])
    else
      match Scan(s)
      case Emit(t, n) => PrependAll([t], Lex(s[n..]))
      case Skip => Lex(s[1..])
      case Reject(c) => Err(UnrecognizedCharacter(c))
  }

  /** The text the lexer reads, with every space character removed. */
  function RemoveSpaces(s: string): string {
    if s == [] then [] else (if IsSpaceChar(s[0]) then [] else [s[0]]) + RemoveSpaces(s[1..])
  }

  /** The concatenated texts of a token list. */
  function Concat(ts: seq<Token>): string {
    if ts == [] then [] else ts[0].value + Concat(ts[1..])
  }

  /** The inverse direction: each token's text followed by one space. */
  function Unlex(ts: seq<Token>): string {
    if ts == [] then [] else ts[0].value + " " + Unlex(ts[1..])
  }

  lemma RemoveSpacesAppend(a: string, b: string)
    ensures RemoveSpaces(a + b) == RemoveSpaces(a) + RemoveSpaces(b)
  {
    if a == [] {
      assert a + b == b;
    } else {
      assert (a + b)[0] == a[0];
      assert (a + b)[1..] == a[1..] + b;
      RemoveSpacesAppend(a[1..], b);
    }
  }

  lemma ConcatAppend(a: seq<Token>, b: seq<Token>)
    ensures Concat(a + b) == Concat(a) + Concat(b)
  {
    if a == [] {
      assert a + b == b;
    } else {
      assert (a + b)[0] == a[0];
      assert (a + b)[1..] == a[1..] + b;
      ConcatAppend(a[1..], b);
    }
  }

  /** DigitRun is determined by its two ensures clauses. */
  lemma DigitRunIs(s: string, n: nat)
    requires n <= |s| && AllDigits(s[..n])
    requires n < |s| ==> !IsDigit(s[n])
    ensures DigitRun(s) == n
  {
    if n > 0 {
      assert s[0] == s[..n][0];
      assert s[1..][..n - 1] == s[..n][1..];
      DigitRunIs(s[1..], n - 1);
    }
  }

  /** WordRun is determined by its two ensures clauses. */
  lemma WordRunIs(s: string, n: nat)
    requires n <= |s| && AllWordChars(s[..n])
    requires n < |s| ==> !IsWordChar(s[n])
    ensures WordRun(s) == n
  {
    if n > 0 {
      assert s[0] == s[..n][0];
      assert s[1..][..n - 1] == s[..n][1..];
      WordRunIs(s[1..], n - 1);
    }
  }

  lemma RemoveSpacesOfRun(s: string)
    requires forall k :: 0 <= k < |s| ==> !IsSpaceChar(s[k])
    ensures RemoveSpaces(s) == s
  {
    if s != [] { RemoveSpacesOfRun(s[1..]); }
  }

  /** A successful scan ends with exactly one EOF token, and EOF occurs nowhere else. */
  lemma {:induction false} LexEndsWithEof(s: string)
    requires Lex(s).Ok?
    ensures |Lex(s).value| >= 1 && Lex(s).value[|Lex(s).value| - 1] == EofToken
    ensures forall k :: 0 <= k < |Lex(s).value| - 1 ==> Lex(s).value[k].kind != EOF
    decreases |s|
  {
    if s != [] {
      match Scan(s)
      case Emit(t, n) => LexEndsWithEof(s[n..]);
      case Skip => LexEndsWithEof(s[1..]);
    }
  }

  /** Every token of a successful scan but the last has one of the shapes the lexer emits. */
  lemma {:induction false} LexTokensWellFormed(s: string)
    requires Lex(s).Ok?
    ensures forall k :: 0 <= k < |Lex(s).value| - 1 ==> WellFormedToken(Lex(s).value[k])
    decreases |s|
  {
    if s != [] {
      match Scan(s)
      case Emit(t, n) => LexTokensWellFormed(s[n..]);
      case Skip => LexTokensWellFormed(s[1..]);
    }
  }

  /** The text an emitted token covers has no spaces to remove. */
  lemma RemoveSpacesAfterToken(s: string)
    requires s != [] && Scan(s).Emit?
    ensures RemoveSpaces(s) == Scan(s).token.value + RemoveSpaces(s[Scan(s).width..])
  {
    var n := Scan(s).width;
    var t := Scan(s).token;
    assert s == s[..n] + s[n..];
    RemoveSpacesAppend(s[..n], s[n..]);
    assert WellFormedToken(t);
    assert forall k :: 0 <= k < |t.value| ==> !IsSpaceChar(t.value[k]);
    RemoveSpacesOfRun(t.value);
  }

  /** Round trip: the token texts, EOF excluded, spell the input without its spaces. */
  lemma {:induction false} LexRoundTrip(s: string)
    requires Lex(s).Ok?
    ensures |Lex(s).value| >= 1
    ensures Concat(Lex(s).value[..|Lex(s).value| - 1]) == RemoveSpaces(s)
    decreases |s|
  {
    LexEndsWithEof(s);
    if s != [] {
      match Scan(s)
      case Emit(t, n) =>
        LexEmit(s, t, n);
        var rest := Lex(s[n..]).value;
        LexRoundTrip(s[n..]);
        assert Lex(s).value[..|Lex(s).value| - 1] == [t] + rest[..|rest| - 1];
        ConcatAppend([t], rest[..|rest| - 1]);
        RemoveSpacesAfterToken(s);
      case Skip =>
        LexSkip(s);
        LexRoundTrip(s[1..]);
    }
  }

  /** A failed scan names a character of the input that no rule accepts. */
  lemma {:induction false} LexErrorIsUnrecognized(s: string)
    requires Lex(s).Err?
    ensures Lex(s).error.UnrecognizedCharacter?
    ensures Lex(s).error.c in s && !IsRecognized(Lex(s).error.c)
    decreases |s|
  {
    match Scan(s)
    case Emit(t, n) => LexErrorIsUnrecognized(s[n..]);
    case Skip => LexErrorIsUnrecognized(s[1..]);
    case Reject(c) =>
  }

  /** Text built only from recognized characters (so no `_` outside an identifier, no newline) always scans. */
  lemma {:induction false} LexAcceptsRecognized(s: string)
    requires forall k :: 0 <= k < |s| ==> IsRecognized(s[k])
    ensures Lex(s).Ok?
    decreases |s|
  {
    if s != [] {
      match Scan(s)
      case Emit(t, n) => LexAcceptsRecognized(s[n..]);
      case Skip => LexAcceptsRecognized(s[1..]);
    }
  }

  /** Maximal munch for numbers: a digit run that ends the text or meets a non-digit is one Number token. */
  lemma ScanDigitRun(s: string, n: nat)
    requires 0 < n <= |s| && AllDigits(s[..n])
    requires n == |s| || !IsDigit(s[n])
    ensures Scan(s) == Emit(Token(s[..n], Number), n)
  {
    assert s[..n][0] == s[0];
    DigitRunIs(s, n);
  }

  /** Maximal munch for words: a letter followed by the maximal run of word characters is one
      token, of kind Let for "let" and Identifier otherwise. */
  lemma ScanWordRun(s: string, n: nat)
    requires 0 < n <= |s| && IsLetter(s[0]) && AllWordChars(s[..n])
    requires n == |s| || !IsWordChar(s[n])
    ensures Scan(s) == Emit(Token(s[..n], if s[..n] == "let" then Let else Identifier), n)
  {
    var t := s[1..];
    assert t[..n - 1] == s[..n][1..];
    assert n - 1 < |t| ==> t[n - 1] == s[n];
    WordRunIs(t, n - 1);
  }

  /** A lone punctuation character is one token of its kind. */
  lemma ScanPunctuation(s: string)
    requires s != [] && IsPunctuation(s[0])
    ensures Scan(s) == Emit(Token([s[0]], PunctuationKind(s[0])), 1)
    ensures PunctuationKind(s[0]) == (if s[0] == '(' then OpenParen else if s[0] == ')' then CloseParen
                                      else if s[0] == '=' then Match else BinaryOperator)
  {
  }

  /** One emitted token, then the scan of what follows it. */
  lemma LexEmit(s: string, t: Token, n: nat)
    requires s != [] && Scan(s) == Emit(t, n)
    ensures Lex(s) == PrependAll([t], Lex(s[n..]))
  {
  }

  /** A skipped space contributes nothing. */
  lemma LexSkip(s: string)
    requires s != [] && Scan(s) == Skip
    ensures Lex(s) == Lex(s[1..])
  {
  }

  /** `Lex` of the text from index `k` on, counted by index: the form the scan loop keeps. */
  function LexFrom(src: string, k: nat): Result<seq<Token>>
    requires k <= |src|
    decreases |src| - k
  {
    if k == |src| then Ok([EofToken])
    else
      match Scan(src[k..])
      case Emit(t, n) => PrependAll([t], LexFrom(src, k + n))
      case Skip => LexFrom(src, k + 1)
      case Reject(c) => Err(UnrecognizedCharacter(c))
  }

  lemma {:induction false} LexFromIsLex(src: string, k: nat)
    requires k <= |src|
    ensures LexFrom(src, k) == Lex(src[k..])
    decreases |src| - k
  {
    if k < |src| {
      var s := src[k..];
      match Scan(s)
      case Emit(t, n) =>
        LexFromIsLex(src, k + n);
        assert s[n..] == src[k + n..];
      case Skip =>
        LexFromIsLex(src, k + 1);
        assert s[1..] == src[k + 1..];
      case Reject(c) =>
    }
  }

  /** One pass of the scan loop, from `from` to `i`, keeps its invariant: an emitted token
      moves from the scan of the rest to the tokens before it, a skipped space changes nothing,
      and a rejected character fails the whole scan. */
  lemma StepNext(src: string, from: nat, i: nat, tokens: seq<Token>, st: Step)
    requires from < |src| && st == Scan(src[from..])
    requires st.Emit? ==> i == from + st.width
    requires st.Skip? ==> i == from + 1
    ensures st.Emit? ==> i <= |src| && PrependAll(tokens, LexFrom(src, from)) == PrependAll(tokens + [st.token], LexFrom(src, i))
    ensures st.Skip? ==> i <= |src| && LexFrom(src, from) == LexFrom(src, i)
    ensures st.Reject? ==> PrependAll(tokens, LexFrom(src, from)) == Err(UnrecognizedCharacter(st.c))
  {
    if st.Emit? {
      PrependTwice(tokens, [st.token], LexFrom(src, i));
    }
  }

  /** The digits at `src[i..j]`, maximal, are the next token. */
  lemma StepDigits(src: string, i: nat, j: nat)
    requires i < j <= |src| && AllDigits(src[i..j]) && (j == |src| || !IsDigit(src[j]))
    ensures Scan(src[i..]) == Emit(Token(src[i..j], Number), j - i)
  {
    assert src[i..][..j - i] == src[i..j];
    assert j < |src| ==> src[i..][j - i] == src[j];
    ScanDigitRun(src[i..], j - i);
  }

  /** The word at `src[i..j]`, maximal, is the next token. */
  lemma StepWord(src: string, i: nat, j: nat)
    requires i < j <= |src| && IsLetter(src[i]) && AllWordChars(src[i..j]) && (j == |src| || !IsWordChar(src[j]))
    ensures Scan(src[i..]) == Emit(Token(src[i..j], WordKind(src[i..j])), j - i)
  {
    assert src[i..][..j - i] == src[i..j];
    assert src[i..][0] == src[i];
    assert j < |src| ==> src[i..][j - i] == src[j];
    ScanWordRun(src[i..], j - i);
  }

  /** A well-formed token followed by a space is scanned back as itself. */
  lemma ScanWellFormed(t: Token, tail: string)
    requires WellFormedToken(t)
    ensures Scan(t.value + " " + tail) == Emit(t, |t.value|)
  {
    var s := t.value + " " + tail;
    var n := |t.value|;
    assert s[..n] == t.value;
    assert s[n] == ' ';
    if |t.value| == 1 && IsPunctuation(t.value[0]) && t.kind == PunctuationKind(t.value[0]) {
      assert [s[0]] == t.value;
      ScanPunctuation(s);
    } else if t.kind == Number && t.value != [] && AllDigits(t.value) {
      ScanDigitRun(s, n);
    } else {
      assert s[0] == t.value[0];
      ScanWordRun(s, n);
    }
  }

  /** Inverse direction: printing well-formed tokens separated by spaces and scanning the text
      gives the same tokens back, followed by EOF. */
  lemma {:induction false} UnlexRoundTrip(ts: seq<Token>)
    requires forall k :: 0 <= k < |ts| ==> WellFormedToken(ts[k])
    ensures Lex(Unlex(ts)) == Ok(ts + [EofToken])
  {
    if ts == [] {
      assert Unlex(ts) == [];
      assert ts + [EofToken] == [EofToken];
    } else {
      var t := ts[0];
      var tail := Unlex(ts[1..]);
      var s := Unlex(ts);
      var n := |t.value|;
      assert s == t.value + " " + tail;
      ScanWellFormed(t, tail);
      LexEmit(s, t, n);
      assert s[n..] == [' '] + tail;
      assert Scan(s[n..]) == Skip;
      LexSkip(s[n..]);
      assert s[n..][1..] == tail;
      UnlexRoundTrip(ts[1..]);
      assert ts + [EofToken] == [t] + (ts[1..] + [EofToken]);
    }
  }

  /** Lexer.java: the scanner, advancing `i` over `src` in place. */
  class Lexer {
    const src: string
    var i: nat

    constructor (src: string)
      ensures this.src == src && i == 0
    {
      this.src := src;
      i := 0;
    }

    /** The digit loop of `tokenize`: consumes the maximal run of digits at `i`. */
    method ReadDigits() returns (num: string)
      requires i < |src| && IsDigit(src[i])
      modifies this
      ensures old(i) < i <= |src|
      ensures num == src[old(i)..i] && AllDigits(num)
      ensures i == |src| || !IsDigit(src[i])
    {
      num := [];
      while i < |src| && IsDigit(src[i])
        invariant old(i) <= i <= |src|
        invariant num == src[old(i)..i] && AllDigits(num)
        decreases |src| - i
      {
        num := num + [src[i]];
        i := i + 1;
      }
    }

    /** The identifier loop of `tokenize`: consumes a letter and the maximal run of letters,
        digits and `_` after it. */
    method ReadWord() returns (ident: string)
      requires i < |src| && IsLetter(src[i])
      modifies this
      ensures old(i) < i <= |src|
      ensures ident == src[old(i)..i] && IsLetter(ident[0]) && AllWordChars(ident)
      ensures i == |src| || !IsWordChar(src[i])
    {
      ident := [src[i]];
      i := i + 1;
      while i < |src| && (IsDigit(src[i]) || IsLetter(src[i]) || src[i] == '_')
        invariant old(i) < i <= |src|
        invariant ident == src[old(i)..i] && IsLetter(ident[0]) && AllWordChars(ident)
        decreases |src| - i
      {
        ident := ident + [src[i]];
        i := i + 1;
      }
    }

    /** One pass of the loop of `tokenize`: the token or space at `i`, or the character no
        branch accepts, which leaves `i` where it is. It agrees with `Scan`. */
    method Next() returns (st: Step)
      requires i < |src|
      modifies this
      ensures st == Scan(src[old(i)..])
      ensures st.Emit? ==> i == old(i) + st.width
      ensures st.Skip? ==> i == old(i) + 1
      ensures st.Reject? ==> i == old(i)
    {
      var c := src[i];
      assert src[i..][0] == c;
      if IsPunctuation(c) {
        var t: Token;
        if c == '(' {
          t := Token("(", OpenParen);
        } else if c == ')' {
          t := Token(")", CloseParen);
        } else if c == '=' {
          t := Token("=", Match);
        } else {
          t := Token([c], BinaryOperator);
        }
        ScanPunctuation(src[i..]);
        i := i + 1;
        return Emit(t, 1);
      } else if IsDigit(c) {
        ghost var from := i;
        var num := ReadDigits();
        StepDigits(src, from, i);
        return Emit(Token(num, Number), |num|);
      } else if IsLetter(c) {
        ghost var from := i;
        var ident := ReadWord();
        StepWord(src, from, i);
        return Emit(Token(ident, if ident in Keywords then Keywords[ident] else Identifier), |ident|);
      } else if IsSpaceChar(c) {
        i := i + 1;
        return Skip;
      } else {
        return Reject(c);
      }
    }

    /** Scans the text from the current position to the end. */
    method Tokenize() returns (r: Result<seq<Token>>)
      requires i <= |src|
      modifies this
      ensures r == Lex(src[old(i)..])
      ensures r.Ok? ==> i == |src|
    {
      var tokens: seq<Token> := [];
      ghost var start := i;
      LexFromIsLex(src, start);
      PrependNothing(LexFrom(src, start));
      while i < |src|
        invariant start <= i <= |src|
        invariant LexFrom(src, start) == PrependAll(tokens, LexFrom(src, i))
        decreases |src| - i
      {
        ghost var from := i;
        var st := Next();
        StepNext(src, from, i, tokens, st);
        match st
        case Emit(t, _) =>
          tokens := tokens + [t];
        case Skip =>
        case Reject(c) =>
          return Err(UnrecognizedCharacter(c));
      }
      tokens := tokens + [EofToken];
      return Ok(tokens);
    }
  }
}
