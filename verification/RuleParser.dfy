/** The recursive-descent parser of rule expressions: OR binds weakest, then AND,
    then NOT, and both connectives associate to the left. */
module RuleParser {
  import opened Outcomes
  import opened RuleTypes

  datatype ParseError =
    | ExpectedRightParen(got: TokenType)
    | ExpectedField(got: TokenType)
    | ExpectedOperator(got: TokenType)
    | ExpectedValue(got: TokenType)
    | ExpectedLeftBracket(got: TokenType)
    | EofInList
    | ExpectedListValue(got: TokenType)
    | ExpectedCommaOrBracket(got: TokenType)

  /** What a parsing function leaves behind: its outcome and the next position. */
  datatype Parsed<+T> = Parsed(value: T, next: nat) | Failed(error: ParseError, next: nat)

  // ----- the specification, over a fixed token list -----

  function Current(ts: seq<Token>, p: nat): Token {
    if p >= |ts| then EOF_TOKEN else ts[p]
  }

  function Kind(ts: seq<Token>, p: nat): TokenType {
    Current(ts, p).kind
  }

  predicate AtKeyword(ts: seq<Token>, p: nat, word: string) {
    Kind(ts, p) == TokLogical && Upper(Current(ts, p).text) == word
  }

  predicate AtValue(ts: seq<Token>, p: nat) {
    Kind(ts, p) == TokString || Kind(ts, p) == TokNumber
  }

  function ParseExpression(ts: seq<Token>, p: nat): (r: Parsed<Node>)
    requires p <= |ts|
    ensures p <= r.next <= |ts|
    decreases |ts| - p, 5
  {
    match ParseTerm(ts, p)
    case Failed(e, q) => Failed(e, q)
    case Parsed(n, q) => OrTail(ts, n, q)
  }

  /** The rest of a disjunction whose terms so far are `left`. */
  function OrTail(ts: seq<Token>, left: Node, p: nat): (r: Parsed<Node>)
    requires p <= |ts|
    ensures p <= r.next <= |ts|
    decreases |ts| - p, 4
  {
    if !AtKeyword(ts, p, "OR") then Parsed(left, p)
    else
      match ParseTerm(ts, p + 1)
      case Failed(e, q) => Failed(e, q)
      case Parsed(n, q) => OrTail(ts, Or(left, n), q)
  }

  function ParseTerm(ts: seq<Token>, p: nat): (r: Parsed<Node>)
    requires p <= |ts|
    ensures p <= r.next <= |ts|
    decreases |ts| - p, 3
  {
    match ParseFactor(ts, p)
    case Failed(e, q) => Failed(e, q)
    case Parsed(n, q) => AndTail(ts, n, q)
  }

  /** The rest of a conjunction whose factors so far are `left`. */
  function AndTail(ts: seq<Token>, left: Node, p: nat): (r: Parsed<Node>)
    requires p <= |ts|
    ensures p <= r.next <= |ts|
    decreases |ts| - p, 2
  {
    if !AtKeyword(ts, p, "AND") then Parsed(left, p)
    else
      match ParseFactor(ts, p + 1)
      case Failed(e, q) => Failed(e, q)
      case Parsed(n, q) => AndTail(ts, And(left, n), q)
  }

  function ParseFactor(ts: seq<Token>, p: nat): (r: Parsed<Node>)
    requires p <= |ts|
    ensures p <= r.next <= |ts|
    decreases |ts| - p, 1
  {
    if AtKeyword(ts, p, "NOT") then
      match ParseFactor(ts, p + 1)
      case Failed(e, q) => Failed(e, q)
      case Parsed(n, q) => Parsed(Not(n), q)
    else if Kind(ts, p) == TokLeftParen then
      match ParseExpression(ts, p + 1)
      case Failed(e, q) => Failed(e, q)
      case Parsed(n, q) =>
        if Kind(ts, q) != TokRightParen then Failed(ExpectedRightParen(Kind(ts, q)), q)
        else Parsed(n, q + 1)
    else ParseCondition(ts, p)
  }

  function ParseCondition(ts: seq<Token>, p: nat): (r: Parsed<Node>)
    requires p <= |ts|
    ensures p <= r.next <= |ts|
  {
    if Kind(ts, p) != TokIdentifier then Failed(ExpectedField(Kind(ts, p)), p)
    else if Kind(ts, p + 1) != TokOperator then Failed(ExpectedOperator(Kind(ts, p + 1)), p + 1)
    else
      var field, operator := ts[p].text, ts[p + 1].text;
      match ParseValue(ts, p + 2, operator)
      case Failed(e, q) => Failed(e, q)
      case Parsed(v, q) => Parsed(Comparison(field, operator, v), q)
  }

  function ParseValue(ts: seq<Token>, p: nat, operator: string): (r: Parsed<Value>)
    requires p <= |ts|
    ensures p <= r.next <= |ts|
  {
    if operator == "exists" || operator == "not_exists" then Parsed(NoValue, p)
    else if (operator == "in" || operator == "not_in") && Kind(ts, p) == TokLeftBracket then
      match ListTail(ts, [], p + 1)
      case Failed(e, q) => Failed(e, q)
      case Parsed(vs, q) => Parsed(Many(vs), q)
    else if AtValue(ts, p) then Parsed(One(ts[p].text), p + 1)
    else Failed(ExpectedValue(Kind(ts, p)), p)
  }

  /** The rest of a list whose values so far are `values`. */
  function ListTail(ts: seq<Token>, values: seq<string>, p: nat): (r: Parsed<seq<string>>)
    requires p <= |ts|
    ensures p <= r.next <= |ts|
    decreases |ts| - p
  {
    if Kind(ts, p) == TokRightBracket then Parsed(values, p + 1)
    else if Kind(ts, p) == TokEof then Failed(EofInList, p)
    else if !AtValue(ts, p) then Failed(ExpectedListValue(Kind(ts, p)), p)
    else
      var values' := values + [ts[p].text];
      if Kind(ts, p + 1) == TokComma then ListTail(ts, values', p + 2)
      else if Kind(ts, p + 1) != TokRightBracket then
        Failed(ExpectedCommaOrBracket(Kind(ts, p + 1)), p + 1)
      else ListTail(ts, values', p + 1)
  }

  // ----- the parser -----

  class Parser {
    const tokens: seq<Token>
    var pos: nat

    ghost predicate Valid()
      reads this
    {
      pos <= |tokens|
    }

    /** A method result agrees with the specification started at `start`. */
    ghost predicate Agrees<T(!new)>(spec: Parsed<T>, r: Result<T, ParseError>)
      reads this
    {
      && Valid()
      && pos == spec.next
      && r == (match spec case Parsed(v, _) => Ok(v) case Failed(e, _) => Err(e))
    }

    constructor (tokens: seq<Token>)
      ensures Valid() && this.tokens == tokens && pos == 0
    {
      this.tokens := tokens;
      pos := 0;
    }

    function Look(): (t: Token)
      reads this
      ensures t == Current(tokens, pos)
    {
      if pos >= |tokens| then Token(TokEof, "") else tokens[pos]
    }

    method Advance()
      requires Valid()
      modifies this`pos
      ensures Valid()
      ensures pos == if old(pos) < |tokens| then old(pos) + 1 else old(pos)
    {
      if pos < |tokens| {
        pos := pos + 1;
      }
    }

    /** Starts from wherever the parser is and need not reach the end of the tokens. */
    method Parse() returns (r: Result<Node, ParseError>)
      requires Valid()
      modifies this`pos
      ensures Agrees(ParseExpression(tokens, old(pos)), r)
    {
      r := Expression();
    }

    method Expression() returns (r: Result<Node, ParseError>)
      requires Valid()
      modifies this`pos
      ensures Agrees(ParseExpression(tokens, old(pos)), r)
      decreases |tokens| - pos, 2
    {
      r := Term();
      if r.Err? {
        return;
      }
      var left := r.value;
      while Look().kind == TokLogical && Upper(Look().text) == "OR"
        invariant Valid() && pos >= old(pos)
        invariant ParseExpression(tokens, old(pos)) == OrTail(tokens, left, pos)
        decreases |tokens| - pos
      {
        Advance();
        r := Term();
        if r.Err? {
          return;
        }
        left := Or(left, r.value);
      }
      r := Ok(left);
    }

    method Term() returns (r: Result<Node, ParseError>)
      requires Valid()
      modifies this`pos
      ensures Agrees(ParseTerm(tokens, old(pos)), r)
      decreases |tokens| - pos, 1
    {
      r := Factor();
      if r.Err? {
        return;
      }
      var left := r.value;
      while Look().kind == TokLogical && Upper(Look().text) == "AND"
        invariant Valid() && pos >= old(pos)
        invariant ParseTerm(tokens, old(pos)) == AndTail(tokens, left, pos)
        decreases |tokens| - pos
      {
        Advance();
        r := Factor();
        if r.Err? {
          return;
        }
        left := And(left, r.value);
      }
      r := Ok(left);
    }

    method Factor() returns (r: Result<Node, ParseError>)
      requires Valid()
      modifies this`pos
      ensures Agrees(ParseFactor(tokens, old(pos)), r)
      decreases |tokens| - pos, 0
    {
      if Look().kind == TokLogical && Upper(Look().text) == "NOT" {
        Advance();
        r := Factor();
        if r.Err? {
          return;
        }
        return Ok(Not(r.value));
      }
      if Look().kind == TokLeftParen {
        Advance();
        r := Expression();
        if r.Err? {
          return;
        }
        if Look().kind != TokRightParen {
          return Err(ExpectedRightParen(Look().kind));
        }
        Advance();
        return;
      }
      r := Condition();
    }

    method Condition() returns (r: Result<Node, ParseError>)
      requires Valid()
      modifies this`pos
      ensures Agrees(ParseCondition(tokens, old(pos)), r)
    {
      if Look().kind != TokIdentifier {
        return Err(ExpectedField(Look().kind));
      }
      var field := Look().text;
      Advance();
      if Look().kind != TokOperator {
        return Err(ExpectedOperator(Look().kind));
      }
      var operator := Look().text;
      Advance();
      if operator == "exists" || operator == "not_exists" {
        return Ok(Comparison(field, operator, NoValue));
      }
      if operator == "in" || operator == "not_in" {
        if Look().kind == TokLeftBracket {
          var values := List();
          if values.Err? {
            return Err(values.error);
          }
          return Ok(Comparison(field, operator, Many(values.value)));
        }
      }
      if Look().kind != TokString && Look().kind != TokNumber {
        return Err(ExpectedValue(Look().kind));
      }
      var value := One(Look().text);
      Advance();
      r := Ok(Comparison(field, operator, value));
    }

    method List() returns (r: Result<seq<string>, ParseError>)
      requires Valid()
      modifies this`pos
      ensures Agrees(if Kind(tokens, old(pos)) != TokLeftBracket
                     then Failed(ExpectedLeftBracket(Kind(tokens, old(pos))), old(pos))
                     else ListTail(tokens, [], old(pos) + 1), r)
    {
      if Look().kind != TokLeftBracket {
        return Err(ExpectedLeftBracket(Look().kind));
      }
      Advance();
      var values := [];
      while Look().kind != TokRightBracket
        invariant Valid()
        invariant ListTail(tokens, [], old(pos) + 1) == ListTail(tokens, values, pos)
        decreases |tokens| - pos
      {
        if Look().kind == TokEof {
          return Err(EofInList);
        }
        if Look().kind != TokString && Look().kind != TokNumber {
          return Err(ExpectedListValue(Look().kind));
        }
        values := values + [Look().text];
        Advance();
        if Look().kind == TokComma {
          Advance();
        } else if Look().kind != TokRightBracket {
          return Err(ExpectedCommaOrBracket(Look().kind));
        }
      }
      Advance();
      r := Ok(values);
    }
  }
}
