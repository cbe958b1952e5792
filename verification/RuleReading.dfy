/** Reading token texts back with the lexer: which tokens it can produce, and that
    each of them is what its own text is read as. */
module RuleReading {
  import opened Outcomes
  import opened RuleTypes
  import opened RuleLexer

  /** No quote stands unescaped, and no backslash is left without the character it escapes. */
  predicate WellEscaped(v: string) {
    EscapedFrom(v, 0)
  }

  predicate EscapedFrom(v: string, i: nat)
    requires i <= |v|
    decreases |v| - i
  {
    || i == |v|
    || (v[i] != '"' && v[i] != '\\' && EscapedFrom(v, i + 1))
    || (v[i] == '\\' && i + 1 < |v| && EscapedFrom(v, i + 2))
  }

  function Quoted(v: string): string {
    "\"" + v + "\""
  }

  predicate IsWord(w: string) {
    w != "" && StartsWord(w[0]) && forall i | 0 <= i < |w| :: IsWordChar(w[i])
  }

  predicate IsFieldName(w: string) {
    IsWord(w) && WordToken(w) == Token(TokIdentifier, w)
  }

  function Text(t: Token): string {
    if t.kind == TokString then Quoted(t.text) else t.text
  }

  predicate Lexable(t: Token) {
    match t.kind
    case TokEof => false
    case TokIdentifier => IsFieldName(t.text)
    case TokString => WellEscaped(t.text)
    case TokNumber => t.text != "" && t.text != "0" && t.text != "1" && forall i | 0 <= i < |t.text| :: IsDigit(t.text[i])
    case TokOperator => IsOperator(t.text)
    case TokLogical => t == AND_TOKEN || t == OR_TOKEN || t == NOT_TOKEN
    case TokLeftParen => t == LEFT_PAREN
    case TokRightParen => t == RIGHT_PAREN
    case TokComma => t == COMMA
    case TokLeftBracket => t == LEFT_BRACKET
    case TokRightBracket => t == RIGHT_BRACKET
  }

  /** What follows the text of a token does not run on from it. */
  predicate Separated(t: Token, rest: string) {
    rest == "" || match t.kind
                  case TokIdentifier => !IsWordChar(rest[0])
                  case TokOperator => !IsWordChar(rest[0])
                  case TokLogical => !IsWordChar(rest[0])
                  case TokNumber => !IsDigit(rest[0])
                  case _ => true
  }

  lemma {:induction false} ClosingQuoteExtends(s: string, rest: string, i: nat)
    requires i <= |s| && ClosingQuote(s, i).Some?
    ensures ClosingQuote(s + rest, i) == ClosingQuote(s, i)
    decreases |s| - i
  {
    if s[i] != '"' {
      ClosingQuoteExtends(s, rest, i + StringStep(s, i));
    }
  }

  /** Between quotes, the reader closes at the final quote exactly for well escaped texts. */
  lemma {:induction false} EscapedIffClosing(v: string, i: nat)
    requires i <= |v|
    ensures ClosingQuote(Quoted(v), i + 1) == Some(|v| + 1) <==> EscapedFrom(v, i)
    decreases |v| - i
  {
    var s := Quoted(v);
    if i < |v| {
      assert s[i + 1] == v[i];
      if v[i] == '\\' && i + 1 < |v| {
        EscapedIffClosing(v, i + 2);
      } else if v[i] != '"' && v[i] != '\\' {
        EscapedIffClosing(v, i + 1);
      }
    }
  }

  /** A text between quotes is read back as itself exactly when it is well escaped:
      otherwise the reader stops too early, too late, or never. */
  lemma QuotedReadsBackIff(v: string, rest: string, at: nat)
    ensures Scan(Quoted(v) + rest, at) == Ok((Token(TokString, v), |v| + 2)) <==> WellEscaped(v)
  {
    var s := Quoted(v);
    EscapedIffClosing(v, 0);
    if ClosingQuote(s, 1) == Some(|v| + 1) {
      ClosingQuoteExtends(s, rest, 1);
      assert (s + rest)[1..|v| + 1] == s[1..|v| + 1];
      assert s[1..|v| + 1] == v;
    } else if ClosingQuote(s, 1).Some? {
      ClosingQuoteExtends(s, rest, 1);
    } else {
      NoEarlyQuote(s, rest, 1);
    }
  }

  /** A string that is still open at the end of `s` closes, if at all, beyond it. */
  lemma {:induction false} NoEarlyQuote(s: string, rest: string, i: nat)
    requires i <= |s| && ClosingQuote(s, i).None?
    ensures match ClosingQuote(s + rest, i) case None => true case Some(n) => n >= |s|
    decreases |s| - i
  {
    if i < |s| {
      var w := StringStep(s, i);
      if s[i] == '\\' && i + 1 == |s| {
      } else {
        assert StringStep(s + rest, i) == w;
        NoEarlyQuote(s, rest, i + w);
      }
    }
  }

  lemma {:induction false} WordLengthOf(w: string, rest: string)
    requires forall i | 0 <= i < |w| :: IsWordChar(w[i])
    requires rest == "" || !IsWordChar(rest[0])
    ensures WordLength(w + rest) == |w|
  {
    if w != "" {
      assert (w + rest)[1..] == w[1..] + rest;
      WordLengthOf(w[1..], rest);
    } else {
      assert w + rest == rest;
    }
  }

  lemma {:induction false} DigitsLengthOf(d: string, rest: string)
    requires forall i | 0 <= i < |d| :: IsDigit(d[i])
    requires rest == "" || !IsDigit(rest[0])
    ensures DigitsLength(d + rest) == |d|
  {
    if d != "" {
      assert (d + rest)[1..] == d[1..] + rest;
      DigitsLengthOf(d[1..], rest);
    } else {
      assert d + rest == rest;
    }
  }

  lemma OperatorsAreWords(word: string)
    requires IsOperator(word)
    ensures IsWord(word) && WordToken(word) == Token(TokOperator, word)
  {
    var u := Upper(word);
    assert u[0] == UpperChar(word[0]) && u[1] == UpperChar(word[1]);
  }

  /** Before `rest`, a text is read as the given tokens. */
  ghost predicate Reads(text: string, ts: seq<Token>, rest: string) {
    forall at: nat :: Lex(text + rest, at) == Prepend(ts, Lex(rest, at + |text|))
  }

  lemma ReadsConcat(a: string, ta: seq<Token>, b: string, tb: seq<Token>, rest: string)
    requires Reads(a, ta, b + rest) && Reads(b, tb, rest)
    ensures Reads(a + b, ta + tb, rest)
  {
    assert a + (b + rest) == (a + b) + rest;
    forall at: nat
      ensures Lex(a + b + rest, at) == Prepend(ta + tb, Lex(rest, at + |a + b|))
    {
      PrependTwice(ta, tb, Lex(rest, at + |a| + |b|));
      assert Lex(a + (b + rest), at) == Prepend(ta, Lex(b + rest, at + |a|));
    }
  }

  lemma ReadsWhole(text: string, ts: seq<Token>)
    requires Reads(text, ts, "")
    ensures Lex(text, 0) == Ok(ts + [EOF_TOKEN])
  {
    assert text + "" == text;
    assert Lex(text + "", 0) == Prepend(ts, Lex("", 0 + |text|));
  }

  lemma ReadsNothing(rest: string)
    ensures Reads("", [], rest)
  {
    ReadsEmpty("", rest);
  }

  lemma ReadsEmpty(nothing: string, rest: string)
    requires nothing == ""
    ensures Reads(nothing, [], rest)
  {
    assert nothing + rest == rest;
    forall at: nat
      ensures Lex(nothing + rest, at) == Prepend([], Lex(rest, at + |nothing|))
    {
      PrependNothing(Lex(rest, at));
    }
  }

  lemma ReadsSpace(rest: string)
    ensures Reads(" ", [], rest)
  {
    assert (" " + rest)[1..] == rest;
    forall at: nat
      ensures Lex(" " + rest, at) == Prepend([], Lex(rest, at + 1))
    {
      PrependNothing(Lex(rest, at + 1));
    }
  }

  lemma LexFront(front: string, t: Token, rest: string, at: nat)
    requires front != "" && !IsSpace(front[0])
    requires Scan(front + rest, at) == Ok((t, |front|))
    ensures Lex(front + rest, at) == Prepend([t], Lex(rest, at + |front|))
  {
    assert (front + rest)[|front|..] == rest;
  }

  lemma ReadsWord(w: string, rest: string)
    requires IsWord(w)
    requires rest == "" || !IsWordChar(rest[0])
    ensures Reads(w, [WordToken(w)], rest)
  {
    WordLengthOf(w, rest);
    assert (w + rest)[..|w|] == w;
    forall at: nat
      ensures Lex(w + rest, at) == Prepend([WordToken(w)], Lex(rest, at + |w|))
    {
      LexFront(w, WordToken(w), rest, at);
    }
  }

  lemma ReadsDigits(d: string, rest: string)
    requires d != "" && forall i | 0 <= i < |d| :: IsDigit(d[i])
    requires rest == "" || !IsDigit(rest[0])
    ensures Reads(d, [DigitsToken(d)], rest)
  {
    DigitsLengthOf(d, rest);
    assert (d + rest)[..|d|] == d;
    forall at: nat
      ensures Lex(d + rest, at) == Prepend([DigitsToken(d)], Lex(rest, at + |d|))
    {
      LexFront(d, DigitsToken(d), rest, at);
    }
  }

  /** A bare 1 is read as the text "true", and a bare 0 as "false". */
  lemma BareBitIsBoolean(d: string, rest: string)
    requires d == "1" || d == "0"
    requires rest == "" || !IsDigit(rest[0])
    ensures Reads(d, [Token(TokString, if d == "1" then "true" else "false")], rest)
  {
    ReadsDigits(d, rest);
  }

  lemma ReadsQuoted(v: string, rest: string)
    requires WellEscaped(v)
    ensures Reads(Quoted(v), [Token(TokString, v)], rest)
  {
    forall at: nat
      ensures Lex(Quoted(v) + rest, at) == Prepend([Token(TokString, v)], Lex(rest, at + |Quoted(v)|))
    {
      QuotedReadsBackIff(v, rest, at);
      LexFront(Quoted(v), Token(TokString, v), rest, at);
    }
  }

  lemma ReadsPunctuation(t: Token, rest: string)
    requires t == LEFT_PAREN || t == RIGHT_PAREN || t == COMMA || t == LEFT_BRACKET || t == RIGHT_BRACKET
    ensures Reads(t.text, [t], rest)
  {
    forall at: nat
      ensures Lex(t.text + rest, at) == Prepend([t], Lex(rest, at + |t.text|))
    {
      LexFront(t.text, t, rest, at);
    }
  }

  lemma ReadsConnective(t: Token, rest: string)
    requires t == AND_TOKEN || t == OR_TOKEN || t == NOT_TOKEN
    requires rest == "" || !IsWordChar(rest[0])
    ensures Reads(t.text, [t], rest)
  {
    ConnectivesAreWords();
    ReadsWord(t.text, rest);
  }

  lemma ReadsOperator(operator: string, rest: string)
    requires IsOperator(operator)
    requires rest == "" || !IsWordChar(rest[0])
    ensures Reads(operator, [Token(TokOperator, operator)], rest)
  {
    OperatorsAreWords(operator);
    ReadsWord(operator, rest);
  }

  lemma ReadsField(field: string, rest: string)
    requires IsFieldName(field)
    requires rest == "" || !IsWordChar(rest[0])
    ensures Reads(field, [Token(TokIdentifier, field)], rest)
  {
    ReadsWord(field, rest);
  }

  lemma ReadsToken(t: Token, rest: string)
    requires Lexable(t) && Separated(t, rest)
    ensures Reads(Text(t), [t], rest)
  {
    match t.kind
    case TokString => ReadsQuoted(t.text, rest);
    case TokNumber => ReadsDigits(t.text, rest);
    case TokIdentifier => ReadsField(t.text, rest);
    case TokOperator => ReadsOperator(t.text, rest);
    case TokLogical => ReadsConnective(t, rest);
    case _ => ReadsPunctuation(t, rest);
  }

  lemma ConnectivesAreWords()
    ensures IsWord("AND") && IsWord("OR") && IsWord("NOT")
    ensures Upper("AND") == "AND" && Upper("OR") == "OR" && Upper("NOT") == "NOT"
    ensures WordToken("AND") == AND_TOKEN && WordToken("OR") == OR_TOKEN && WordToken("NOT") == NOT_TOKEN
  {
  }

  // ----- everything the lexer produces is such a token -----

  lemma {:induction false} PlainTextIsWellEscaped(v: string)
    requires forall i | 0 <= i < |v| :: v[i] != '"' && v[i] != '\\'
    ensures WellEscaped(v)
  {
    PlainTextIsEscapedFrom(v, 0);
  }

  lemma {:induction false} PlainTextIsEscapedFrom(v: string, i: nat)
    requires i <= |v| && forall k | 0 <= k < |v| :: v[k] != '"' && v[k] != '\\'
    ensures EscapedFrom(v, i)
    decreases |v| - i
  {
    if i < |v| {
      PlainTextIsEscapedFrom(v, i + 1);
    }
  }

  lemma {:induction false} ClosingQuoteIsLocal(s: string, n: nat, i: nat)
    requires i <= |s| && ClosingQuote(s, i) == Some(n)
    ensures ClosingQuote(s[..n + 1], i) == Some(n)
    decreases |s| - i
  {
    if s[i] != '"' {
      ClosingQuoteIsLocal(s, n, i + StringStep(s, i));
    }
  }

  lemma ScannedStringIsWellEscaped(s: string, n: nat)
    requires s != "" && s[0] == '"' && ClosingQuote(s, 1) == Some(n)
    ensures WellEscaped(s[1..n])
  {
    ClosingQuoteIsLocal(s, n, 1);
    assert s[..n + 1] == Quoted(s[1..n]);
    EscapedIffClosing(s[1..n], 0);
  }

  lemma ScannedWordIsLexable(w: string)
    requires IsWord(w)
    ensures Lexable(WordToken(w))
  {
    if WordToken(w).kind == TokString {
      PlainTextIsWellEscaped("true");
      PlainTextIsWellEscaped("false");
    }
  }

  lemma ScannedLiteralIsLexable(s: string, at: nat)
    requires s != "" && s[0] == '"' && Scan(s, at).Ok?
    ensures Lexable(Scan(s, at).value.0)
  {
    ScannedStringIsWellEscaped(s, ClosingQuote(s, 1).value);
  }

  lemma DigitsAreLexable(digits: string)
    requires digits != "" && forall i | 0 <= i < |digits| :: IsDigit(digits[i])
    ensures Lexable(DigitsToken(digits))
  {
    PlainTextIsWellEscaped("true");
    PlainTextIsWellEscaped("false");
  }

  lemma ScannedNumberIsLexable(s: string, at: nat)
    requires s != "" && IsDigit(s[0]) && Scan(s, at).Ok?
    ensures Lexable(Scan(s, at).value.0)
  {
    var n := DigitsLength(s);
    assert n > 0 && Scan(s, at).value.0 == DigitsToken(s[..n]);
    DigitsAreLexable(s[..n]);
  }

  lemma ScannedTokenIsLexable(s: string, at: nat)
    requires s != "" && !IsSpace(s[0]) && Scan(s, at).Ok?
    ensures Lexable(Scan(s, at).value.0)
  {
    if s[0] == '"' {
      ScannedLiteralIsLexable(s, at);
    } else if StartsWord(s[0]) {
      ScannedWordIsLexable(s[..WordLength(s)]);
    } else if IsDigit(s[0]) {
      ScannedNumberIsLexable(s, at);
    }
  }

  /** Lexable tokens, and the end of input after them. */
  ghost predicate Terminated(ts: seq<Token>) {
    ts != [] && ts[|ts| - 1] == EOF_TOKEN && forall i | 0 <= i < |ts| - 1 :: Lexable(ts[i])
  }

  lemma TerminatedInFront(t: Token, ts: seq<Token>)
    requires Lexable(t) && Terminated(ts)
    ensures Terminated([t] + ts)
  {
  }

  lemma {:induction false} LexedTokensAreLexable(s: string, at: nat)
    requires Lex(s, at).Ok?
    ensures Terminated(Lex(s, at).value)
    decreases |s|
  {
    if s == "" {
    } else if IsSpace(s[0]) {
      LexedTokensAreLexable(s[1..], at + 1);
    } else {
      var (token, n) := Scan(s, at).value;
      ScannedTokenIsLexable(s, at);
      LexedTokensAreLexable(s[n..], at + n);
      TerminatedInFront(token, Lex(s[n..], at + n).value);
    }
  }
}
