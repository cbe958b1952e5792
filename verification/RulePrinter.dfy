/** Printing syntax trees back to rule text, and the round trip through the lexer
    and the parser.  The printer is the inverse the compiler is proved against. */
module RulePrinter {
  import opened Outcomes
  import opened RuleTypes
  import opened RuleLexer
  import opened RuleParser
  import opened RuleReading

  // ----- which trees the compiler can produce -----

  predicate ValueFits(operator: string, value: Value) {
    match value
    case NoValue => operator == "exists" || operator == "not_exists"
    case One(v) => operator != "exists" && operator != "not_exists" && WellEscaped(v)
    case Many(vs) => (operator == "in" || operator == "not_in") && forall v | v in vs :: WellEscaped(v)
  }

  predicate WellFormed(n: Node) {
    match n
    case Nil => false
    case Comparison(field, operator, value) =>
      IsFieldName(field) && IsOperator(operator) && ValueFits(operator, value)
    case Logical(Negation, left, right) => WellFormed(left) && right == Nil
    case Logical(Conjunction, left, right) => WellFormed(left) && WellFormed(right)
    case Logical(Disjunction, left, right) => WellFormed(left) && WellFormed(right)
    case Logical(UnknownConnective(_), _, _) => false
    case Other(_) => false
  }

  // ----- the printer: tokens with the parentheses they need, then text -----

  /** How tight the surroundings bind: a whole expression, a term or a factor. */
  datatype Level = InExpression | InTerm | InFactor

  /** The items of a list with the commas between them and the closing bracket. */
  function ListTokens(items: seq<Token>): seq<Token> {
    if items == [] then [RIGHT_BRACKET]
    else if |items| == 1 then [items[0], RIGHT_BRACKET]
    else [items[0], COMMA] + ListTokens(items[1..])
  }

  function Texts(value: Value): seq<string> {
    match value
    case NoValue => []
    case One(v) => [v]
    case Many(vs) => vs
  }

  function Strings(vs: seq<string>): seq<Token> {
    seq(|vs|, i requires 0 <= i < |vs| => Token(TokString, vs[i]))
  }

  /** A value written with the given tokens for its texts. */
  function ValueTokens(value: Value, items: seq<Token>): seq<Token> {
    match value
    case NoValue => []
    case One(_) => items
    case Many(_) => [LEFT_BRACKET] + ListTokens(items)
  }

  /** Strings or numbers with the given texts. */
  predicate Spell(items: seq<Token>, texts: seq<string>) {
    && |items| == |texts|
    && forall i | 0 <= i < |items| ::
         (items[i].kind == TokString || items[i].kind == TokNumber) && items[i].text == texts[i]
  }

  function Print(n: Node, level: Level): (ts: seq<Token>)
    requires WellFormed(n)
  {
    match n
    case Comparison(field, operator, value) =>
      [Token(TokIdentifier, field), Token(TokOperator, operator)] + ValueTokens(value, Strings(Texts(value)))
    case Logical(Negation, operand, _) => [NOT_TOKEN] + Print(operand, InFactor)
    case Logical(Conjunction, left, right) =>
      var body := Print(left, InTerm) + [AND_TOKEN] + Print(right, InFactor);
      if level == InFactor then [LEFT_PAREN] + body + [RIGHT_PAREN] else body
    case Logical(Disjunction, left, right) =>
      var body := Print(left, InExpression) + [OR_TOKEN] + Print(right, InTerm);
      if level == InExpression then body else [LEFT_PAREN] + body + [RIGHT_PAREN]
  }

  function Render(ts: seq<Token>): string {
    if ts == [] then "" else Text(ts[0]) + " " + Render(ts[1..])
  }

  // ----- reading printed text -----

  lemma {:induction false} ReadsRender(ts: seq<Token>)
    requires forall t | t in ts :: Lexable(t)
    ensures Reads(Render(ts), ts, "")
    decreases |ts|
  {
    if ts == [] {
      ReadsNothing("");
    } else {
      var t, rest := ts[0], Render(ts[1..]);
      ReadsRender(ts[1..]);
      assert rest + "" == rest;
      ReadsSpace(rest);
      ReadsConcat(" ", [], rest, ts[1..], "");
      assert [] + ts[1..] == ts[1..] && " " + rest + "" == " " + rest;
      ReadsToken(t, " " + rest);
      ReadsConcat(Text(t), [t], " " + rest, ts[1..], "");
      assert Text(t) + (" " + rest) == Render(ts) && [t] + ts[1..] == ts;
    }
  }

  lemma ValueTokensAreLexable(operator: string, value: Value)
    requires ValueFits(operator, value)
    ensures forall t | t in ValueTokens(value, Strings(Texts(value))) :: Lexable(t)
  {
    if value.Many? {
      ListTokensAreLexable(Strings(value.texts));
    }
  }

  lemma ComparisonTokensAreLexable(n: Node, level: Level)
    requires WellFormed(n) && n.Comparison?
    ensures forall t | t in Print(n, level) :: Lexable(t)
  {
    ValueTokensAreLexable(n.operator, n.value);
    assert Lexable(Token(TokIdentifier, n.field)) && Lexable(Token(TokOperator, n.operator));
  }

  lemma {:induction false} PrintedTokensAreLexable(n: Node, level: Level)
    requires WellFormed(n)
    ensures forall t | t in Print(n, level) :: Lexable(t)
  {
    if n.Comparison? {
      ComparisonTokensAreLexable(n, level);
    } else if n.connective == Negation {
      PrintedTokensAreLexable(n.left, InFactor);
    } else if n.connective == Conjunction {
      PrintedTokensAreLexable(n.left, InTerm);
      PrintedTokensAreLexable(n.right, InFactor);
    } else {
      PrintedTokensAreLexable(n.left, InExpression);
      PrintedTokensAreLexable(n.right, InTerm);
    }
  }

  lemma {:induction false} ListTokensAreLexable(items: seq<Token>)
    requires forall t | t in items :: Lexable(t)
    ensures forall t | t in ListTokens(items) :: Lexable(t)
  {
    if |items| > 1 {
      ListTokensAreLexable(items[1..]);
    }
  }

  // ----- parsing printed tokens -----

  ghost predicate At(ts: seq<Token>, p: nat, part: seq<Token>) {
    p + |part| <= |ts| && ts[p..p + |part|] == part
  }

  lemma AtSplit(ts: seq<Token>, p: nat, a: seq<Token>, b: seq<Token>)
    requires At(ts, p, a + b)
    ensures At(ts, p, a) && At(ts, p + |a|, b)
  {
    var part := ts[p..p + |a + b|];
    assert ts[p..p + |a|] == part[..|a|] == a;
    assert ts[p + |a|..p + |a| + |b|] == part[|a|..] == b;
  }

  lemma AtFirst(ts: seq<Token>, p: nat, part: seq<Token>)
    requires part != [] && At(ts, p, part)
    ensures p < |ts| && ts[p] == part[0]
  {
    assert ts[p] == ts[p..p + |part|][0];
  }

  lemma {:induction false} ParsesList(ts: seq<Token>, p: nat, items: seq<Token>, vs: seq<string>, acc: seq<string>)
    requires At(ts, p, ListTokens(items)) && Spell(items, vs)
    ensures ListTail(ts, acc, p) == Parsed(acc + vs, p + |ListTokens(items)|)
    decreases |vs|
  {
    AtFirst(ts, p, ListTokens(items));
    if |vs| == 0 {
      assert acc + vs == acc;
    } else if |vs| == 1 {
      AtPair(ts, p, items[0], RIGHT_BRACKET, []);
      assert acc + [vs[0]] == acc + vs;
    } else {
      AtPair(ts, p, items[0], COMMA, ListTokens(items[1..]));
      ParsesList(ts, p + 2, items[1..], vs[1..], acc + [vs[0]]);
      assert acc + [vs[0]] + vs[1..] == acc + vs;
    }
  }

  lemma AtPair(ts: seq<Token>, p: nat, t: Token, u: Token, rest: seq<Token>)
    requires At(ts, p, [t, u] + rest)
    ensures p + 2 <= |ts| && ts[p] == t && ts[p + 1] == u && At(ts, p + 2, rest)
  {
    AtSplit(ts, p, [t, u], rest);
    assert ts[p..p + 2][0] == t && ts[p..p + 2][1] == u;
  }

  lemma ParsesValue(ts: seq<Token>, p: nat, operator: string, value: Value, items: seq<Token>)
    requires ValueFits(operator, value) && Spell(items, Texts(value))
    requires At(ts, p, ValueTokens(value, items))
    ensures ParseValue(ts, p, operator) == Parsed(value, p + |ValueTokens(value, items)|)
  {
    match value
    case NoValue =>
    case One(v) => AtFirst(ts, p, items);
    case Many(vs) =>
      AtFirst(ts, p, [LEFT_BRACKET] + ListTokens(items));
      AtSplit(ts, p, [LEFT_BRACKET], ListTokens(items));
      ParsesList(ts, p + 1, items, vs, []);
      assert [] + vs == vs;
  }

  /** Wherever these tokens stand, they are read as this factor. */
  ghost predicate FactorOf(part: seq<Token>, n: Node) {
    forall ts, p: nat | At(ts, p, part) :: ParseFactor(ts, p) == Parsed(n, p + |part|)
  }

  /** Wherever these tokens stand, they are read as this term and whatever factors follow. */
  ghost predicate TermOf(part: seq<Token>, n: Node) {
    forall ts, p: nat | At(ts, p, part) :: ParseTerm(ts, p) == AndTail(ts, n, p + |part|)
  }

  /** Unless another factor follows, they are read as this expression and whatever terms follow. */
  ghost predicate ExpressionOf(part: seq<Token>, n: Node) {
    forall ts, p: nat | At(ts, p, part) && !AtKeyword(ts, p + |part|, "AND") ::
      ParseExpression(ts, p) == OrTail(ts, n, p + |part|)
  }

  lemma ComparisonIsFactor(n: Node, items: seq<Token>)
    requires n.Comparison? && ValueFits(n.operator, n.value) && Spell(items, Texts(n.value))
    ensures FactorOf([Token(TokIdentifier, n.field), Token(TokOperator, n.operator)] + ValueTokens(n.value, items), n)
  {
    var id, op, vt := Token(TokIdentifier, n.field), Token(TokOperator, n.operator), ValueTokens(n.value, items);
    forall ts, p: nat | At(ts, p, [id, op] + vt)
      ensures ParseFactor(ts, p) == Parsed(n, p + |[id, op] + vt|)
    {
      AtPair(ts, p, id, op, vt);
      ParsesValue(ts, p + 2, n.operator, n.value, items);
    }
  }

  lemma KeywordAt(ts: seq<Token>, p: nat)
    requires p < |ts|
    ensures ts[p] == AND_TOKEN ==> AtKeyword(ts, p, "AND")
    ensures ts[p] == OR_TOKEN ==> AtKeyword(ts, p, "OR") && !AtKeyword(ts, p, "AND")
    ensures ts[p] == NOT_TOKEN ==> AtKeyword(ts, p, "NOT")
  {
    ConnectivesAreWords();
  }

  lemma AtInfix(ts: seq<Token>, p: nat, l: seq<Token>, t: Token, r: seq<Token>)
    requires At(ts, p, l + [t] + r)
    ensures p + |l| + 1 + |r| <= |ts| && ts[p + |l|] == t
    ensures At(ts, p, l) && At(ts, p + |l| + 1, r)
  {
    AtSplit(ts, p, l + [t], r);
    AtSplit(ts, p, l, [t]);
    AtFirst(ts, p + |l|, [t]);
  }

  lemma NotIsFactor(part: seq<Token>, operand: Node)
    requires FactorOf(part, operand)
    ensures FactorOf([NOT_TOKEN] + part, Not(operand))
  {
    forall ts, p: nat | At(ts, p, [NOT_TOKEN] + part)
      ensures ParseFactor(ts, p) == Parsed(Not(operand), p + |[NOT_TOKEN] + part|)
    {
      AtSplit(ts, p, [NOT_TOKEN], part);
      AtFirst(ts, p, [NOT_TOKEN]);
      KeywordAt(ts, p);
      assert ParseFactor(ts, p + 1) == Parsed(operand, p + 1 + |part|);
    }
  }

  lemma ParenthesesAreFactor(body: seq<Token>, n: Node)
    requires ExpressionOf(body, n)
    ensures FactorOf([LEFT_PAREN] + body + [RIGHT_PAREN], n)
  {
    var part := [LEFT_PAREN] + body + [RIGHT_PAREN];
    forall ts, p: nat | At(ts, p, part)
      ensures ParseFactor(ts, p) == Parsed(n, p + |part|)
    {
      AtSplit(ts, p, [LEFT_PAREN] + body, [RIGHT_PAREN]);
      AtSplit(ts, p, [LEFT_PAREN], body);
      AtFirst(ts, p, [LEFT_PAREN]);
      AtFirst(ts, p + 1 + |body|, [RIGHT_PAREN]);
      assert ParseExpression(ts, p + 1) == OrTail(ts, n, p + 1 + |body|);
    }
  }

  lemma FactorIsTerm(part: seq<Token>, n: Node)
    requires FactorOf(part, n)
    ensures TermOf(part, n)
  {
    forall ts, p: nat | At(ts, p, part)
      ensures ParseTerm(ts, p) == AndTail(ts, n, p + |part|)
    {
      assert ParseFactor(ts, p) == Parsed(n, p + |part|);
    }
  }

  lemma AndTailStep(ts: seq<Token>, left: Node, right: Node, p: nat, q: nat)
    requires p < |ts| && AtKeyword(ts, p, "AND") && ParseFactor(ts, p + 1) == Parsed(right, q)
    ensures AndTail(ts, left, p) == AndTail(ts, And(left, right), q)
  {
  }

  lemma ConjunctionIsTerm(l: seq<Token>, left: Node, r: seq<Token>, right: Node)
    requires TermOf(l, left) && FactorOf(r, right)
    ensures TermOf(l + [AND_TOKEN] + r, And(left, right))
  {
    var part := l + [AND_TOKEN] + r;
    forall ts, p: nat | At(ts, p, part)
      ensures ParseTerm(ts, p) == AndTail(ts, And(left, right), p + |part|)
    {
      AtInfix(ts, p, l, AND_TOKEN, r);
      KeywordAt(ts, p + |l|);
      assert ParseTerm(ts, p) == AndTail(ts, left, p + |l|);
      assert ParseFactor(ts, p + |l| + 1) == Parsed(right, p + |part|);
      AndTailStep(ts, left, right, p + |l|, p + |part|);
    }
  }

  lemma TermIsExpression(part: seq<Token>, n: Node)
    requires TermOf(part, n)
    ensures ExpressionOf(part, n)
  {
    forall ts, p: nat | At(ts, p, part) && !AtKeyword(ts, p + |part|, "AND")
      ensures ParseExpression(ts, p) == OrTail(ts, n, p + |part|)
    {
      assert ParseTerm(ts, p) == AndTail(ts, n, p + |part|) == Parsed(n, p + |part|);
    }
  }

  lemma OrTailStep(ts: seq<Token>, left: Node, right: Node, p: nat, q: nat)
    requires p < |ts| && AtKeyword(ts, p, "OR") && ParseTerm(ts, p + 1) == Parsed(right, q)
    ensures OrTail(ts, left, p) == OrTail(ts, Or(left, right), q)
  {
  }

  lemma DisjunctionIsExpression(l: seq<Token>, left: Node, r: seq<Token>, right: Node)
    requires ExpressionOf(l, left) && TermOf(r, right)
    ensures ExpressionOf(l + [OR_TOKEN] + r, Or(left, right))
  {
    var part := l + [OR_TOKEN] + r;
    forall ts, p: nat | At(ts, p, part) && !AtKeyword(ts, p + |part|, "AND")
      ensures ParseExpression(ts, p) == OrTail(ts, Or(left, right), p + |part|)
    {
      AtInfix(ts, p, l, OR_TOKEN, r);
      KeywordAt(ts, p + |l|);
      assert ParseExpression(ts, p) == OrTail(ts, left, p + |l|);
      assert ParseTerm(ts, p + |l| + 1) == AndTail(ts, right, p + |part|) == Parsed(right, p + |part|);
      OrTailStep(ts, left, right, p + |l|, p + |part|);
    }
  }

  /** At every level a node is read back from its own tokens. */
  lemma {:induction false} PrintedIsParsed(n: Node)
    requires WellFormed(n)
    ensures FactorOf(Print(n, InFactor), n)
    ensures TermOf(Print(n, InTerm), n)
    ensures ExpressionOf(Print(n, InExpression), n)
  {
    match n
    case Comparison(_, _, value) =>
      ComparisonIsFactor(n, Strings(Texts(value)));
      FactorIsTerm(Print(n, InTerm), n);
      TermIsExpression(Print(n, InExpression), n);
    case Logical(Negation, operand, _) =>
      PrintedIsParsed(operand);
      NotIsFactor(Print(operand, InFactor), operand);
      FactorIsTerm(Print(n, InTerm), n);
      TermIsExpression(Print(n, InExpression), n);
    case Logical(Conjunction, left, right) =>
      PrintedIsParsed(left);
      PrintedIsParsed(right);
      ConjunctionIsTerm(Print(left, InTerm), left, Print(right, InFactor), right);
      TermIsExpression(Print(n, InExpression), n);
      ParenthesesAreFactor(Print(n, InExpression), n);
    case Logical(Disjunction, left, right) =>
      PrintedIsParsed(left);
      PrintedIsParsed(right);
      DisjunctionIsExpression(Print(left, InExpression), left, Print(right, InTerm), right);
      ParenthesesAreFactor(Print(n, InExpression), n);
      FactorIsTerm(Print(n, InTerm), n);
  }

  // ----- the round trip -----

  /** The parser does not look past what it consumed: after a complete expression,
      anything but another connective is ignored. */
  lemma TrailingTokensAreIgnored(part: seq<Token>, n: Node, junk: seq<Token>)
    requires ExpressionOf(part, n)
    requires !AtKeyword(junk, 0, "AND") && !AtKeyword(junk, 0, "OR")
    ensures ParseExpression(part + junk, 0) == Parsed(n, |part|)
  {
    var ts := part + junk;
    assert At(ts, 0, part);
    assert Current(ts, |part|) == Current(junk, 0);
  }

  lemma LexPrinted(n: Node)
    requires WellFormed(n)
    ensures Lex(Render(Print(n, InExpression)), 0) == Ok(Print(n, InExpression) + [EOF_TOKEN])
  {
    PrintedTokensAreLexable(n, InExpression);
    ReadsRender(Print(n, InExpression));
    ReadsWhole(Render(Print(n, InExpression)), Print(n, InExpression));
  }

  /** Every tree the grammar allows comes back from its own text, and the parser
      stops exactly at the end of the printed tokens. */
  lemma RoundTrip(n: Node)
    requires WellFormed(n)
    ensures var ts := Print(n, InExpression);
            && Lex(Render(ts), 0) == Ok(ts + [EOF_TOKEN])
            && ParseExpression(ts + [EOF_TOKEN], 0) == Parsed(n, |ts|)
  {
    LexPrinted(n);
    PrintedIsParsed(n);
    TrailingTokensAreIgnored(Print(n, InExpression), n, [EOF_TOKEN]);
  }

  // ----- and every tree the compiler builds is one of them -----

  ghost predicate FromLexer(ts: seq<Token>) {
    forall i | 0 <= i < |ts| :: Lexable(ts[i]) || ts[i] == EOF_TOKEN
  }

  lemma {:induction false} ParsedListIsWellEscaped(ts: seq<Token>, acc: seq<string>, p: nat)
    requires p <= |ts| && FromLexer(ts) && ListTail(ts, acc, p).Parsed?
    requires forall v | v in acc :: WellEscaped(v)
    ensures forall v | v in ListTail(ts, acc, p).value :: WellEscaped(v)
    decreases |ts| - p
  {
    if Kind(ts, p) != TokRightBracket {
      DigitsAreWellEscaped(ts[p]);
      ParsedListIsWellEscaped(ts, acc + [ts[p].text], if Kind(ts, p + 1) == TokComma then p + 2 else p + 1);
    }
  }

  lemma DigitsAreWellEscaped(t: Token)
    requires Lexable(t) && (t.kind == TokNumber || t.kind == TokString)
    ensures WellEscaped(t.text)
  {
    if t.kind == TokNumber {
      PlainTextIsWellEscaped(t.text);
    }
  }

  lemma ParsedConditionIsWellFormed(ts: seq<Token>, p: nat)
    requires p <= |ts| && FromLexer(ts) && ParseCondition(ts, p).Parsed?
    ensures WellFormed(ParseCondition(ts, p).value)
  {
    var operator := ts[p + 1].text;
    var r := ParseValue(ts, p + 2, operator);
    if r.value.One? {
      DigitsAreWellEscaped(ts[p + 2]);
    } else if r.value.Many? {
      ParsedListIsWellEscaped(ts, [], p + 3);
    }
  }

  lemma {:induction false} ParsedFactorIsWellFormed(ts: seq<Token>, p: nat)
    requires p <= |ts| && FromLexer(ts) && ParseFactor(ts, p).Parsed?
    ensures WellFormed(ParseFactor(ts, p).value)
    decreases |ts| - p, 1
  {
    if AtKeyword(ts, p, "NOT") {
      ParsedFactorIsWellFormed(ts, p + 1);
    } else if Kind(ts, p) == TokLeftParen {
      ParsedExpressionIsWellFormed(ts, p + 1);
    } else {
      ParsedConditionIsWellFormed(ts, p);
    }
  }

  lemma {:induction false} AndTailIsWellFormed(ts: seq<Token>, left: Node, p: nat)
    requires p <= |ts| && FromLexer(ts) && WellFormed(left) && AndTail(ts, left, p).Parsed?
    ensures WellFormed(AndTail(ts, left, p).value)
    decreases |ts| - p, 2
  {
    if AtKeyword(ts, p, "AND") {
      ParsedFactorIsWellFormed(ts, p + 1);
      var r := ParseFactor(ts, p + 1);
      AndTailIsWellFormed(ts, And(left, r.value), r.next);
    }
  }

  lemma {:induction false} ParsedTermIsWellFormed(ts: seq<Token>, p: nat)
    requires p <= |ts| && FromLexer(ts) && ParseTerm(ts, p).Parsed?
    ensures WellFormed(ParseTerm(ts, p).value)
    decreases |ts| - p, 3
  {
    ParsedFactorIsWellFormed(ts, p);
    var r := ParseFactor(ts, p);
    AndTailIsWellFormed(ts, r.value, r.next);
  }

  lemma {:induction false} OrTailIsWellFormed(ts: seq<Token>, left: Node, p: nat)
    requires p <= |ts| && FromLexer(ts) && WellFormed(left) && OrTail(ts, left, p).Parsed?
    ensures WellFormed(OrTail(ts, left, p).value)
    decreases |ts| - p, 4
  {
    if AtKeyword(ts, p, "OR") {
      ParsedTermIsWellFormed(ts, p + 1);
      var r := ParseTerm(ts, p + 1);
      OrTailIsWellFormed(ts, Or(left, r.value), r.next);
    }
  }

  lemma {:induction false} ParsedExpressionIsWellFormed(ts: seq<Token>, p: nat)
    requires p <= |ts| && FromLexer(ts) && ParseExpression(ts, p).Parsed?
    ensures WellFormed(ParseExpression(ts, p).value)
    decreases |ts| - p, 5
  {
    ParsedTermIsWellFormed(ts, p);
    var r := ParseTerm(ts, p);
    OrTailIsWellFormed(ts, r.value, r.next);
  }
}
