/** The byte lexer of rule expressions.  A text is a byte string: every character
    stands for one byte, classified as the Latin-1 code point of that value. */
module RuleLexer {
  import opened Outcomes
  import opened RuleTypes

  datatype LexError =
    | UnexpectedCharacter(c: char, at: nat)
    | UnterminatedString(at: nat)

  type Tokens = Result<seq<Token>, LexError>

  // ----- character classes -----

  predicate IsSpace(c: char) {
    '\t' <= c <= '\r' || c == ' ' || c == '\U{85}' || c == '\U{A0}'
  }

  predicate IsDigit(c: char) {
    '0' <= c <= '9'
  }

  predicate IsLetter(c: char) {
    || 'a' <= c <= 'z' || 'A' <= c <= 'Z'
    || c == '\U{AA}' || c == '\U{B5}' || c == '\U{BA}'
    || ('\U{C0}' <= c <= '\U{FF}' && c != '\U{D7}' && c != '\U{F7}')
  }

  predicate IsWordChar(c: char) {
    IsLetter(c) || IsDigit(c) || c == '.' || c == '_'
  }

  predicate StartsWord(c: char) {
    IsLetter(c) || c == '.'
  }

  // ----- the specification: one token at a time from the front of the text -----

  function WordLength(s: string): (n: nat)
    ensures n <= |s| && forall i | 0 <= i < n :: IsWordChar(s[i])
    ensures n < |s| ==> !IsWordChar(s[n])
  {
    if s == "" || !IsWordChar(s[0]) then 0 else 1 + WordLength(s[1..])
  }

  function DigitsLength(s: string): (n: nat)
    ensures n <= |s| && forall i | 0 <= i < n :: IsDigit(s[i])
    ensures n < |s| ==> !IsDigit(s[n])
  {
    if s == "" || !IsDigit(s[0]) then 0 else 1 + DigitsLength(s[1..])
  }

  /** How far the string reader moves over a character that is no quote: a backslash
      takes the character after it along, unless it is the last one of the text. */
  function StringStep(s: string, i: nat): (width: nat)
    requires i < |s|
    ensures 1 <= width <= |s| - i
  {
    if s[i] == '\\' && i + 1 < |s| then 2 else 1
  }

  /** The index of the quote that closes a string whose body goes on at `i`. */
  function ClosingQuote(s: string, i: nat): (r: Option<nat>)
    requires i <= |s|
    ensures r.Some? ==> i <= r.value < |s| && s[r.value] == '"'
    decreases |s| - i
  {
    if i == |s| then None
    else if s[i] == '"' then Some(i)
    else ClosingQuote(s, i + StringStep(s, i))
  }

  function WordToken(word: string): Token {
    var u := Upper(word);
    if u == "AND" then AND_TOKEN
    else if u == "OR" then OR_TOKEN
    else if u == "NOT" then NOT_TOKEN
    else if u == "TRUE" then Token(TokString, "true")
    else if u == "FALSE" then Token(TokString, "false")
    else if IsOperator(word) then Token(TokOperator, word)
    else Token(TokIdentifier, word)
  }

  function DigitsToken(digits: string): Token {
    if digits == "1" then Token(TokString, "true")
    else if digits == "0" then Token(TokString, "false")
    else Token(TokNumber, digits)
  }

  /** The first token of a text that starts with no space, and its width. */
  function Scan(s: string, at: nat): (r: Result<(Token, nat), LexError>)
    requires s != "" && !IsSpace(s[0])
    ensures r.Ok? ==> 1 <= r.value.1 <= |s|
  {
    var c := s[0];
    if c == '(' then Ok((LEFT_PAREN, 1))
    else if c == ')' then Ok((RIGHT_PAREN, 1))
    else if c == ',' then Ok((COMMA, 1))
    else if c == '[' then Ok((LEFT_BRACKET, 1))
    else if c == ']' then Ok((RIGHT_BRACKET, 1))
    else if c == '"' then
      match ClosingQuote(s, 1)
      case None => Err(UnterminatedString(at + 1))
      case Some(n) => Ok((Token(TokString, s[1..n]), n + 1))
    else if StartsWord(c) then Ok((WordToken(s[..WordLength(s)]), WordLength(s)))
    else if IsDigit(c) then Ok((DigitsToken(s[..DigitsLength(s)]), DigitsLength(s)))
    else Err(UnexpectedCharacter(c, at))
  }

  function Prepend(tokens: seq<Token>, rest: Tokens): Tokens {
    match rest
    case Err(e) => Err(e)
    case Ok(ts) => Ok(tokens + ts)
  }

  /** All tokens of a text that begins at byte `at` of the input. */
  function Lex(s: string, at: nat): Tokens
    decreases |s|
  {
    if s == "" then Ok([EOF_TOKEN])
    else if IsSpace(s[0]) then Lex(s[1..], at + 1)
    else
      match Scan(s, at)
      case Err(e) => Err(e)
      case Ok((token, n)) => Prepend([token], Lex(s[n..], at + n))
  }

  // ----- the lexer -----

  class Lexer {
    const input: string
    var pos: nat
    var tokens: seq<Token>

    ghost predicate Valid()
      reads this
    {
      pos <= |input|
    }

    constructor (input: string)
      ensures Valid() && this.input == input && pos == 0 && tokens == []
    {
      this.input := input;
      pos := 0;
      tokens := [];
    }

    /** What was already read, in front of the tokens of the rest. */
    ghost function Expected(): Tokens
      requires Valid()
      reads this
    {
      Prepend(tokens, Lex(input[pos..], pos))
    }

    method Tokenize() returns (r: Tokens)
      requires Valid()
      modifies this
      ensures Valid()
      ensures r == old(Expected())
      ensures r.Ok? ==> pos == |input| && tokens == r.value
    {
      while pos < |input|
        invariant Valid() && Expected() == old(Expected())
      {
        var error := ReadNext();
        if error.Some? {
          return Err(error.value);
        }
      }
      assert input[pos..] == "";
      tokens := tokens + [EOF_TOKEN];
      return Ok(tokens);
    }

    /** One turn of the main loop: spaces, then a token unless the text has ended. */
    method ReadNext() returns (error: Option<LexError>)
      requires pos < |input|
      modifies this
      ensures Valid()
      ensures error.None? ==> pos > old(pos) && Expected() == old(Expected())
      ensures error.Some? ==> old(Expected()) == Err(error.value)
    {
      SkipWhitespace();
      if pos >= |input| {
        return None;
      }
      LexStep(tokens, input, pos);
      var token := ReadToken();
      if token.Err? {
        return Some(token.error);
      }
      tokens := tokens + [token.value];
      return None;
    }

    /** One pass through the switch of the main loop. */
    method ReadToken() returns (r: Result<Token, LexError>)
      requires pos < |input| && !IsSpace(input[pos])
      modifies this`pos
      ensures Valid()
      ensures match Scan(input[old(pos)..], old(pos))
              case Err(e) => r == Err(e)
              case Ok((token, n)) => r == Ok(token) && pos == old(pos) + n
    {
      var c := input[pos];
      if c == '(' {
        pos := pos + 1;
        return Ok(LEFT_PAREN);
      } else if c == ')' {
        pos := pos + 1;
        return Ok(RIGHT_PAREN);
      } else if c == ',' {
        pos := pos + 1;
        return Ok(COMMA);
      } else if c == '[' {
        pos := pos + 1;
        return Ok(LEFT_BRACKET);
      } else if c == ']' {
        pos := pos + 1;
        return Ok(RIGHT_BRACKET);
      } else if c == '"' {
        ClosingQuoteOfSuffix(input, pos, 1);
        var value := ReadString();
        if value.Err? {
          return Err(value.error);
        }
        assert value.value == input[old(pos)..][1..pos - 1 - old(pos)];
        return Ok(Token(TokString, value.value));
      } else if StartsWord(c) {
        var word := ReadWord();
        return Ok(WordToken(word));
      } else if IsDigit(c) {
        var digits := ReadNumber();
        return Ok(DigitsToken(digits));
      } else {
        return Err(UnexpectedCharacter(c, pos));
      }
    }

    method SkipWhitespace()
      requires Valid()
      modifies this`pos
      ensures Valid() && old(pos) <= pos
      ensures pos < |input| ==> !IsSpace(input[pos])
      ensures Lex(input[pos..], pos) == old(Lex(input[pos..], pos))
    {
      while pos < |input| && IsSpace(input[pos])
        invariant Valid() && old(pos) <= pos
        invariant Lex(input[pos..], pos) == old(Lex(input[pos..], pos))
      {
        assert input[pos..][1..] == input[pos + 1..];
        pos := pos + 1;
      }
    }

    method ReadWord() returns (word: string)
      requires Valid()
      modifies this`pos
      ensures Valid()
      ensures pos == old(pos + WordLength(input[pos..]))
      ensures word == old(input[pos..][..WordLength(input[pos..])])
    {
      var start := pos;
      while pos < |input| && IsWordChar(input[pos])
        invariant start <= pos <= |input|
        invariant pos + WordLength(input[pos..]) == old(pos + WordLength(input[pos..]))
      {
        assert input[pos..][1..] == input[pos + 1..];
        pos := pos + 1;
      }
      return input[start..pos];
    }

    method ReadNumber() returns (digits: string)
      requires Valid()
      modifies this`pos
      ensures Valid()
      ensures pos == old(pos + DigitsLength(input[pos..]))
      ensures digits == old(input[pos..][..DigitsLength(input[pos..])])
    {
      var start := pos;
      while pos < |input| && IsDigit(input[pos])
        invariant start <= pos <= |input|
        invariant pos + DigitsLength(input[pos..]) == old(pos + DigitsLength(input[pos..]))
      {
        assert input[pos..][1..] == input[pos + 1..];
        pos := pos + 1;
      }
      return input[start..pos];
    }

    method ReadString() returns (r: Result<string, LexError>)
      requires pos < |input|
      modifies this`pos
      ensures Valid()
      ensures match ClosingQuote(input, old(pos) + 1)
              case None => r == Err(UnterminatedString(old(pos) + 1)) && pos == |input|
              case Some(n) => r == Ok(input[old(pos) + 1..n]) && pos == n + 1
    {
      pos := pos + 1;
      var start := pos;
      while pos < |input|
        invariant start <= pos <= |input|
        invariant ClosingQuote(input, start) == ClosingQuote(input, pos)
      {
        if input[pos] == '"' {
          var value := input[start..pos];
          pos := pos + 1;
          return Ok(value);
        }
        if input[pos] == '\\' && pos + 1 < |input| {
          pos := pos + 2;
        } else {
          pos := pos + 1;
        }
      }
      return Err(UnterminatedString(start));
    }
  }

  lemma {:induction false} ClosingQuoteOfSuffix(s: string, start: nat, i: nat)
    requires start + i <= |s|
    ensures match ClosingQuote(s[start..], i)
            case None => ClosingQuote(s, start + i) == None
            case Some(n) => ClosingQuote(s, start + i) == Some(start + n)
    decreases |s| - i
  {
    if start + i < |s| && s[start + i] != '"' {
      ClosingQuoteOfSuffix(s, start, i + StringStep(s, start + i));
    }
  }

  lemma PrependNothing(ts: Tokens)
    ensures Prepend([], ts) == ts
  {
    if ts.Ok? {
      assert [] + ts.value == ts.value;
    }
  }

  /** One token moved from the text to the tokens before it. */
  lemma LexStep(before: seq<Token>, s: string, pos: nat)
    requires pos < |s| && !IsSpace(s[pos])
    ensures Prepend(before, Lex(s[pos..], pos)) ==
            match Scan(s[pos..], pos)
            case Err(e) => Err(e)
            case Ok((token, n)) => Prepend(before + [token], Lex(s[pos + n..], pos + n))
  {
    if Scan(s[pos..], pos).Ok? {
      var (token, n) := Scan(s[pos..], pos).value;
      assert s[pos..][n..] == s[pos + n..];
      PrependTwice(before, [token], Lex(s[pos + n..], pos + n));
    }
  }

  lemma PrependTwice(a: seq<Token>, b: seq<Token>, rest: Tokens)
    ensures Prepend(a, Prepend(b, rest)) == Prepend(a + b, rest)
  {
    if rest.Ok? {
      assert a + (b + rest.value) == a + b + rest.value;
    }
  }
}
