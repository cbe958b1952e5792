/** The dashboard's generator of rule text from a flat list of conditions, and what
    the compiled text means. */
module ExpressionBuilder {
  import opened Outcomes
  import opened RuleTypes
  import opened RuleLexer
  import opened RuleParser
  import opened RuleReading
  import opened RulePrinter
  import opened RuleEngine

  datatype FieldType = StringField | NumberField | BooleanField

  datatype OperatorChoice = OperatorChoice(value: string, symbol: string)

  datatype FieldDefinition = FieldDefinition(fieldType: FieldType, allowedOperators: seq<OperatorChoice>)

  type Fields = map<string, FieldDefinition>

  datatype Logic = AndNext | OrNext

  datatype Condition = Condition(
    field: string, operator: string, value: string, values: Option<seq<string>>, logicAfter: Option<Logic>)

  // ----- the generator -----

  function FindOperator(choices: seq<OperatorChoice>, operator: string): Option<OperatorChoice> {
    if choices == [] then None
    else if choices[0].value == operator then Some(choices[0])
    else FindOperator(choices[1..], operator)
  }

  function NonEmpty(vs: seq<string>): seq<string> {
    if vs == [] then []
    else (if vs[0] == "" then [] else [vs[0]]) + NonEmpty(vs[1..])
  }

  function KeptValues(c: Condition): seq<string> {
    if c.values.None? then [] else NonEmpty(c.values.value)
  }

  function Format(t: FieldType, v: string): string {
    if t == StringField then Quoted(v) else v
  }

  function FormatAll(t: FieldType, vs: seq<string>): seq<string> {
    seq(|vs|, i requires 0 <= i < |vs| => Format(t, vs[i]))
  }

  function Join(parts: seq<string>, separator: string): string {
    if parts == [] then ""
    else if |parts| == 1 then parts[0]
    else parts[0] + separator + Join(parts[1..], separator)
  }

  predicate NeedsNoValue(operator: string) {
    operator == "exists" || operator == "not_exists"
  }

  predicate TakesList(operator: string) {
    operator == "in" || operator == "not_in"
  }

  /** The template of every condition: field, operator and what follows them. */
  function Template(field: string, symbol: string, suffix: string): string {
    field + (" " + (symbol + suffix))
  }

  function ListText(t: FieldType, vs: seq<string>): string {
    Join(FormatAll(t, vs), ", ") + "]"
  }

  /** The text one condition contributes, if any. */
  function ConditionText(c: Condition, t: FieldType, symbol: string): seq<string> {
    if NeedsNoValue(c.operator) then [Template(c.field, symbol, "")]
    else if t == BooleanField then
      if c.operator == "eq" then [Template(c.field, "eq", " " + "true")]
      else if c.operator == "neq" then [Template(c.field, "neq", " " + "true")]
      else []
    else if TakesList(c.operator) then
      if KeptValues(c) == [] then []
      else [Template(c.field, symbol, " " + ("[" + ListText(t, KeptValues(c))))]
    else [Template(c.field, symbol, " " + Format(t, c.value))]
  }

  function LogicText(logic: Logic): string {
    if logic == AndNext then "and" else "or"
  }

  /** The pieces pushed for one condition: a condition on an unknown field or with an
      operator the field does not allow leaves nothing, not even its connective. */
  function Pieces(c: Condition, last: bool, fields: Fields): seq<string> {
    if c.field !in fields then []
    else
      match FindOperator(fields[c.field].allowedOperators, c.operator)
      case None => []
      case Some(choice) =>
        ConditionText(c, fields[c.field].fieldType, choice.symbol) +
        (if !last && c.logicAfter.Some? then [LogicText(c.logicAfter.value)] else [])
  }

  function AllPieces(cs: seq<Condition>, fields: Fields): seq<string> {
    if cs == [] then [] else Pieces(cs[0], |cs| == 1, fields) + AllPieces(cs[1..], fields)
  }

  function Generated(cs: seq<Condition>, fields: Fields): string {
    Join(AllPieces(cs, fields), " ")
  }

  method GenerateExpression(cs: seq<Condition>, fields: Fields) returns (text: string)
    ensures text == Generated(cs, fields)
  {
    if |cs| == 0 {
      return "";
    }
    var parts := [];
    for index := 0 to |cs|
      invariant Pushed(parts, cs, index, fields)
    {
      AllPiecesStep(parts, cs, index, fields);
      parts := Push(parts, cs[index], index == |cs| - 1, fields);
    }
    AllPiecesEnd(parts, cs, fields);
    text := Join(parts, " ");
  }

  /** The pieces of the first `index` conditions, seen from those still to come. */
  ghost predicate Pushed(parts: seq<string>, cs: seq<Condition>, index: nat, fields: Fields)
    requires index <= |cs|
  {
    parts + AllPieces(cs[index..], fields) == AllPieces(cs, fields)
  }

  lemma AllPiecesStep(parts: seq<string>, cs: seq<Condition>, index: nat, fields: Fields)
    requires index < |cs| && Pushed(parts, cs, index, fields)
    ensures Pushed(parts + Pieces(cs[index], index == |cs| - 1, fields), cs, index + 1, fields)
  {
    var piece, rest := Pieces(cs[index], index == |cs| - 1, fields), AllPieces(cs[index + 1..], fields);
    assert cs[index..][1..] == cs[index + 1..];
    assert parts + (piece + rest) == parts + piece + rest;
  }

  lemma AllPiecesEnd(parts: seq<string>, cs: seq<Condition>, fields: Fields)
    requires Pushed(parts, cs, |cs|, fields)
    ensures Join(parts, " ") == Generated(cs, fields)
  {
    assert cs[|cs|..] == [] && parts + [] == parts;
  }

  /** The loop body: append what one condition contributes. */
  method Push(parts: seq<string>, c: Condition, last: bool, fields: Fields) returns (parts': seq<string>)
    ensures parts' == parts + Pieces(c, last, fields)
  {
    parts' := parts;
    if c.field in fields {
      var field := fields[c.field];
      var choice := FindOperator(field.allowedOperators, c.operator);
      if choice.Some? {
        parts' := parts' + ConditionText(c, field.fieldType, choice.value.symbol);
        if !last && c.logicAfter.Some? {
          parts' := parts' + [LogicText(c.logicAfter.value)];
        }
      }
    }
  }

  // ----- which lists the theorem covers -----

  /** A value that is read back as itself: anything well escaped in quotes, any number
      but the bare 0 and 1, which the lexer turns into booleans. */
  predicate ValueReadsBack(t: FieldType, v: string) {
    if t == StringField then WellEscaped(v)
    else v != "" && v != "0" && v != "1" && forall i | 0 <= i < |v| :: IsDigit(v[i])
  }

  predicate Renders(c: Condition, fields: Fields) {
    && c.field in fields
    && IsFieldName(c.field)
    && IsOperator(c.operator)
    && FindOperator(fields[c.field].allowedOperators, c.operator) == Some(OperatorChoice(c.operator, c.operator))
    && var t := fields[c.field].fieldType;
       if NeedsNoValue(c.operator) then true
       else if t == BooleanField then c.operator == "eq" || c.operator == "neq"
       else if TakesList(c.operator) then
         KeptValues(c) != [] && forall i | 0 <= i < |KeptValues(c)| :: ValueReadsBack(t, KeptValues(c)[i])
       else ValueReadsBack(t, c.value)
  }

  /** Every condition renders and every condition but the last has a connective. */
  predicate Renderable(cs: seq<Condition>, fields: Fields) {
    && (forall i | 0 <= i < |cs| :: Renders(cs[i], fields))
    && forall i | 0 <= i < |cs| - 1 :: cs[i].logicAfter.Some?
  }

  // ----- the meaning of a flat list: some run of conditions joined by AND holds -----

  function TypeOf(c: Condition, fields: Fields): FieldType {
    if c.field in fields then fields[c.field].fieldType else StringField
  }

  function ConditionValue(c: Condition, fields: Fields): Value {
    if NeedsNoValue(c.operator) then NoValue
    else if TypeOf(c, fields) == BooleanField then One("true")
    else if TakesList(c.operator) then Many(KeptValues(c))
    else One(c.value)
  }

  predicate Holds(lib: Library, c: Condition, fields: Fields, ctx: RequestContext) {
    Meaning(lib, c.operator, ExtractField(lib, c.field, ctx), ConditionValue(c, fields))
  }

  /** The maximal runs of conditions joined by AND. */
  function Runs(cs: seq<Condition>): (runs: seq<seq<Condition>>)
    ensures cs != [] ==> runs != []
  {
    if cs == [] then []
    else if |cs| == 1 then [cs]
    else
      var rest := Runs(cs[1..]);
      if cs[0].logicAfter == Some(AndNext) then [[cs[0]] + rest[0]] + rest[1..]
      else [[cs[0]]] + rest
  }

  predicate AllHold(holds: Condition -> bool, run: seq<Condition>) {
    forall i | 0 <= i < |run| :: holds(run[i])
  }

  predicate SomeRunHolds(holds: Condition -> bool, runs: seq<seq<Condition>>) {
    exists i | 0 <= i < |runs| :: AllHold(holds, runs[i])
  }

  /** The reference meaning of a list: AND binds tighter than OR. */
  predicate FlatMeaning(lib: Library, cs: seq<Condition>, fields: Fields, ctx: RequestContext) {
    SomeRunHolds(c => Holds(lib, c, fields, ctx), Runs(cs))
  }

  // ----- reading generated text -----

  function ItemToken(t: FieldType, v: string): Token {
    if t == StringField then Token(TokString, v) else Token(TokNumber, v)
  }

  function ItemTokens(t: FieldType, vs: seq<string>): seq<Token> {
    seq(|vs|, i requires 0 <= i < |vs| => ItemToken(t, vs[i]))
  }

  function ConditionItems(c: Condition, fields: Fields): seq<Token> {
    if NeedsNoValue(c.operator) then []
    else if TypeOf(c, fields) == BooleanField then [Token(TokString, "true")]
    else if TakesList(c.operator) then ItemTokens(TypeOf(c, fields), KeptValues(c))
    else [ItemToken(TypeOf(c, fields), c.value)]
  }

  function ConditionValueTokens(c: Condition, fields: Fields): seq<Token> {
    ValueTokens(ConditionValue(c, fields), ConditionItems(c, fields))
  }

  function ConditionTokens(c: Condition, fields: Fields): seq<Token> {
    [Token(TokIdentifier, c.field), Token(TokOperator, c.operator)] + ConditionValueTokens(c, fields)
  }

  predicate Delimited(rest: string) {
    rest == "" || rest[0] == ' ' || rest[0] == ',' || rest[0] == ']'
  }

  lemma ReadsItem(t: FieldType, v: string, rest: string)
    requires t != BooleanField && ValueReadsBack(t, v) && Delimited(rest)
    ensures Reads(Format(t, v), [ItemToken(t, v)], rest)
  {
    if t == StringField {
      ReadsQuoted(v, rest);
    } else {
      ReadsDigits(v, rest);
    }
  }

  lemma ListTextStep(t: FieldType, vs: seq<string>)
    requires |vs| > 1
    ensures ListText(t, vs) == Format(t, vs[0]) + ("," + (" " + ListText(t, vs[1..])))
    ensures ListTokens(ItemTokens(t, vs)) == [ItemToken(t, vs[0])] + ([COMMA] + ListTokens(ItemTokens(t, vs[1..])))
  {
    FormatAllTail(t, vs);
    ItemTokensTail(t, vs);
    assert ", " == "," + " ";
  }

  lemma FormatAllTail(t: FieldType, vs: seq<string>)
    requires vs != []
    ensures FormatAll(t, vs)[1..] == FormatAll(t, vs[1..]) && FormatAll(t, vs)[0] == Format(t, vs[0])
  {
  }

  lemma ItemTokensTail(t: FieldType, vs: seq<string>)
    requires vs != []
    ensures ItemTokens(t, vs)[1..] == ItemTokens(t, vs[1..]) && ItemTokens(t, vs)[0] == ItemToken(t, vs[0])
  {
  }

  lemma {:induction false} ReadsList(t: FieldType, vs: seq<string>, rest: string)
    requires t != BooleanField && vs != [] && forall i | 0 <= i < |vs| :: ValueReadsBack(t, vs[i])
    ensures Reads(ListText(t, vs), ListTokens(ItemTokens(t, vs)), rest)
    decreases |vs|
  {
    var first, item := Format(t, vs[0]), [ItemToken(t, vs[0])];
    if |vs| == 1 {
      ReadsItem(t, vs[0], "]" + rest);
      ReadsPunctuation(RIGHT_BRACKET, rest);
      ReadsConcat(first, item, "]", [RIGHT_BRACKET], rest);
      assert ListText(t, vs) == first + "]" && ListTokens(ItemTokens(t, vs)) == item + [RIGHT_BRACKET];
    } else {
      var more, items := ListText(t, vs[1..]), ListTokens(ItemTokens(t, vs[1..]));
      ListTextStep(t, vs);
      ReadsList(t, vs[1..], rest);
      ReadsAfterSpace(more, items, rest);
      ReadsPunctuation(COMMA, " " + more + rest);
      ReadsConcat(",", [COMMA], " " + more, items, rest);
      ReadsItem(t, vs[0], "," + (" " + more) + rest);
      ReadsConcat(first, item, "," + (" " + more), [COMMA] + items, rest);
    }
  }

  lemma ReadsAfterSpace(text: string, ts: seq<Token>, rest: string)
    requires Reads(text, ts, rest)
    ensures Reads(" " + text, ts, rest)
  {
    ReadsSpace(text + rest);
    ReadsConcat(" ", [], text, ts, rest);
    assert [] + ts == ts;
  }

  lemma ReadsTrue(rest: string)
    requires Delimited(rest)
    ensures Reads("true", [Token(TokString, "true")], rest)
  {
    assert Upper("true") == "TRUE";
    ReadsWord("true", rest);
  }

  /** What follows field and operator: nothing, or a space and the value. */
  function ValueSuffix(c: Condition, fields: Fields): string {
    var t := TypeOf(c, fields);
    if NeedsNoValue(c.operator) then ""
    else if t == BooleanField then " " + "true"
    else if TakesList(c.operator) then " " + ("[" + ListText(t, KeptValues(c)))
    else " " + Format(t, c.value)
  }

  lemma ReadsValue(c: Condition, fields: Fields, rest: string)
    requires Renders(c, fields) && Delimited(rest)
    ensures Reads(ValueSuffix(c, fields), ConditionValueTokens(c, fields), rest)
  {
    var t := TypeOf(c, fields);
    if NeedsNoValue(c.operator) {
      ReadsNothing(rest);
    } else if t == BooleanField {
      ReadsTrue(rest);
      ReadsAfterSpace("true", [Token(TokString, "true")], rest);
    } else if TakesList(c.operator) {
      var text, items := ListText(t, KeptValues(c)), ListTokens(ItemTokens(t, KeptValues(c)));
      ReadsList(t, KeptValues(c), rest);
      ReadsPunctuation(LEFT_BRACKET, text + rest);
      ReadsConcat("[", [LEFT_BRACKET], text, items, rest);
      ReadsAfterSpace("[" + text, [LEFT_BRACKET] + items, rest);
    } else {
      ReadsItem(t, c.value, rest);
      ReadsAfterSpace(Format(t, c.value), [ItemToken(t, c.value)], rest);
    }
  }

  function FullText(c: Condition, fields: Fields): string {
    Template(c.field, c.operator, ValueSuffix(c, fields))
  }

  lemma ReadsComparison(operator: string, value: string, vt: seq<Token>, rest: string)
    requires IsOperator(operator) && Reads(value, vt, rest)
    requires value + rest == "" || !IsWordChar((value + rest)[0])
    ensures Reads(" " + (operator + value), [Token(TokOperator, operator)] + vt, rest)
  {
    var op := [Token(TokOperator, operator)];
    ReadsOperator(operator, value + rest);
    ReadsConcat(operator, op, value, vt, rest);
    ReadsAfterSpace(operator + value, op + vt, rest);
  }

  lemma ReadsTemplate(field: string, operator: string, value: string, vt: seq<Token>, rest: string)
    requires IsFieldName(field) && IsOperator(operator) && Reads(value, vt, rest)
    requires value + rest == "" || !IsWordChar((value + rest)[0])
    ensures Reads(Template(field, operator, value), [Token(TokIdentifier, field), Token(TokOperator, operator)] + vt, rest)
  {
    var id, ts := [Token(TokIdentifier, field)], [Token(TokOperator, operator)] + vt;
    var comparison := " " + (operator + value);
    ReadsComparison(operator, value, vt, rest);
    ReadsField(field, comparison + rest);
    ReadsConcat(field, id, comparison, ts, rest);
    assert id + ts == [Token(TokIdentifier, field), Token(TokOperator, operator)] + vt;
  }

  lemma ReadsCondition(c: Condition, fields: Fields, rest: string)
    requires Renders(c, fields) && Delimited(rest)
    ensures Reads(FullText(c, fields), ConditionTokens(c, fields), rest)
  {
    var value := ValueSuffix(c, fields);
    ReadsValue(c, fields, rest);
    assert value == "" || value[0] == ' ';
    assert value == "" ==> value + rest == rest;
    ReadsTemplate(c.field, c.operator, value, ConditionValueTokens(c, fields), rest);
  }

  lemma ConditionTextIsFull(c: Condition, fields: Fields)
    requires Renders(c, fields)
    ensures ConditionText(c, fields[c.field].fieldType, c.operator) == [FullText(c, fields)]
  {
  }

  // ----- the whole list: its text and its tokens -----

  function LogicToken(logic: Logic): Token {
    if logic == AndNext then AND_TOKEN else OR_TOKEN
  }

  /** What follows the first condition of a list. */
  function TailTokens(cs: seq<Condition>, fields: Fields): seq<Token>
    requires cs != [] && Renderable(cs, fields)
  {
    if |cs| == 1 then []
    else [LogicToken(cs[0].logicAfter.value)] + (ConditionTokens(cs[1], fields) + TailTokens(cs[1..], fields))
  }

  function TailText(cs: seq<Condition>, fields: Fields): string
    requires cs != [] && Renderable(cs, fields)
  {
    if |cs| == 1 then ""
    else " " + (LogicText(cs[0].logicAfter.value) + (" " + (FullText(cs[1], fields) + TailText(cs[1..], fields))))
  }

  lemma PiecesOfRendered(c: Condition, last: bool, fields: Fields)
    requires Renders(c, fields) && (last || c.logicAfter.Some?)
    ensures Pieces(c, last, fields) ==
            [FullText(c, fields)] + if last then [] else [LogicText(c.logicAfter.value)]
  {
    ConditionTextIsFull(c, fields);
  }

  lemma {:induction false} GeneratedShape(cs: seq<Condition>, fields: Fields)
    requires cs != [] && Renderable(cs, fields)
    ensures AllPieces(cs, fields) != []
    ensures Generated(cs, fields) == FullText(cs[0], fields) + TailText(cs, fields)
    decreases |cs|
  {
    var full := FullText(cs[0], fields);
    PiecesOfRendered(cs[0], |cs| == 1, fields);
    if |cs| == 1 {
      assert AllPieces(cs, fields) == [full];
      assert full + "" == full;
    } else {
      GeneratedShape(cs[1..], fields);
      JoinThree(full, LogicText(cs[0].logicAfter.value), AllPieces(cs[1..], fields));
    }
  }

  lemma JoinThree(first: string, second: string, rest: seq<string>)
    requires rest != []
    ensures Join([first] + [second] + rest, " ") == first + (" " + (second + (" " + Join(rest, " "))))
  {
    assert [first] + [second] + rest == [first] + ([second] + rest);
    JoinStep(first, [second] + rest);
    JoinStep(second, rest);
  }

  lemma JoinStep(first: string, rest: seq<string>)
    requires rest != []
    ensures Join([first] + rest, " ") == first + (" " + Join(rest, " "))
  {
    assert ([first] + rest)[1..] == rest;
  }

  lemma ReadsLogic(logic: Logic, rest: string)
    requires Delimited(rest)
    ensures Reads(LogicText(logic), [LogicToken(logic)], rest)
  {
    assert Upper("and") == "AND" && Upper("or") == "OR";
    ReadsWord(LogicText(logic), rest);
  }

  lemma {:induction false} ReadsTail(cs: seq<Condition>, fields: Fields)
    requires cs != [] && Renderable(cs, fields)
    ensures Reads(TailText(cs, fields), TailTokens(cs, fields), "")
    ensures Delimited(TailText(cs, fields))
    decreases |cs|
  {
    if |cs| == 1 {
      ReadsNothing("");
    } else {
      var text, ts := TailText(cs[1..], fields), TailTokens(cs[1..], fields);
      var full, conditionTokens := FullText(cs[1], fields), ConditionTokens(cs[1], fields);
      ReadsTail(cs[1..], fields);
      assert text + "" == text;
      ReadsCondition(cs[1], fields, text);
      ReadsConcat(full, conditionTokens, text, ts, "");
      ReadsAfterSpace(full + text, conditionTokens + ts, "");
      ReadsLogicThen(cs[0].logicAfter.value, " " + (full + text), conditionTokens + ts);
    }
  }

  lemma ReadsLogicThen(logic: Logic, text: string, ts: seq<Token>)
    requires Reads(text, ts, "") && Delimited(text)
    ensures Reads(" " + (LogicText(logic) + text), [LogicToken(logic)] + ts, "")
  {
    assert text + "" == text;
    ReadsLogic(logic, text);
    ReadsConcat(LogicText(logic), [LogicToken(logic)], text, ts, "");
    ReadsAfterSpace(LogicText(logic) + text, [LogicToken(logic)] + ts, "");
  }

  lemma LexGenerated(cs: seq<Condition>, fields: Fields)
    requires cs != [] && Renderable(cs, fields)
    ensures Lex(Generated(cs, fields), 0) ==
            Ok(ConditionTokens(cs[0], fields) + TailTokens(cs, fields) + [EOF_TOKEN])
  {
    GeneratedShape(cs, fields);
    ReadsTail(cs, fields);
    var text := TailText(cs, fields);
    assert text + "" == text;
    ReadsCondition(cs[0], fields, text);
    ReadsConcat(FullText(cs[0], fields), ConditionTokens(cs[0], fields), text, TailTokens(cs, fields), "");
    ReadsWhole(Generated(cs, fields), ConditionTokens(cs[0], fields) + TailTokens(cs, fields));
  }

  // ----- parsing it -----

  function ConditionNode(c: Condition, fields: Fields): Node {
    Comparison(c.field, c.operator, ConditionValue(c, fields))
  }

  function Combine(terms: Option<Node>, term: Node): Node {
    if terms.None? then term else Or(terms.value, term)
  }

  /** The tree for `cs` when the terms before the current one are `terms` and the
      current one, which ends with the first condition of `cs`, is `term`. */
  function Build(terms: Option<Node>, term: Node, cs: seq<Condition>, fields: Fields): Node
    requires cs != [] && Renderable(cs, fields)
    decreases |cs|
  {
    if |cs| == 1 then Combine(terms, term)
    else if cs[0].logicAfter.value == AndNext then
      Build(terms, And(term, ConditionNode(cs[1], fields)), cs[1..], fields)
    else
      Build(Some(Combine(terms, term)), ConditionNode(cs[1], fields), cs[1..], fields)
  }

  function FlatNode(cs: seq<Condition>, fields: Fields): Node
    requires cs != [] && Renderable(cs, fields)
  {
    Build(None, ConditionNode(cs[0], fields), cs, fields)
  }

  lemma TrueIsWellEscaped()
    ensures WellEscaped("true")
  {
    PlainTextIsWellEscaped("true");
  }

  lemma ConditionValueFits(c: Condition, fields: Fields)
    requires Renders(c, fields)
    ensures ValueFits(c.operator, ConditionValue(c, fields))
  {
    TrueIsWellEscaped();
    var t := TypeOf(c, fields);
    if t == NumberField && TakesList(c.operator) {
      forall v | v in KeptValues(c)
        ensures WellEscaped(v)
      {
        PlainTextIsWellEscaped(v);
      }
    } else if t == NumberField && !NeedsNoValue(c.operator) {
      PlainTextIsWellEscaped(c.value);
    }
  }

  lemma ConditionItemsSpell(c: Condition, fields: Fields)
    requires Renders(c, fields)
    ensures Spell(ConditionItems(c, fields), Texts(ConditionValue(c, fields)))
  {
  }

  lemma ConditionIsFactor(c: Condition, fields: Fields)
    requires Renders(c, fields)
    ensures FactorOf(ConditionTokens(c, fields), ConditionNode(c, fields))
  {
    ConditionValueFits(c, fields);
    ConditionItemsSpell(c, fields);
    ComparisonIsFactor(ConditionNode(c, fields), ConditionItems(c, fields));
  }

  /** The tokens of the terms so far and of the current one. */
  function Joined(terms: Option<seq<Token>>, term: seq<Token>): seq<Token> {
    if terms.None? then term else terms.value + [OR_TOKEN] + term
  }

  lemma CombineIsExpression(termsPart: Option<seq<Token>>, terms: Option<Node>, termPart: seq<Token>, term: Node)
    requires termsPart.Some? <==> terms.Some?
    requires terms.Some? ==> ExpressionOf(termsPart.value, terms.value)
    requires TermOf(termPart, term)
    ensures ExpressionOf(Joined(termsPart, termPart), Combine(terms, term))
  {
    if terms.None? {
      TermIsExpression(termPart, term);
    } else {
      DisjunctionIsExpression(termsPart.value, terms.value, termPart, term);
    }
  }

  lemma Regroup(a: seq<Token>, t: Token, b: seq<Token>, c: seq<Token>)
    ensures a + [t] + b + c == a + ([t] + (b + c))
  {
  }

  lemma JoinedWithFactor(terms: Option<seq<Token>>, term: seq<Token>, factor: seq<Token>, more: seq<Token>)
    ensures Joined(terms, term + [AND_TOKEN] + factor) + more == Joined(terms, term) + ([AND_TOKEN] + (factor + more))
  {
    Regroup(term, AND_TOKEN, factor, more);
    if terms.Some? {
      var front := terms.value + [OR_TOKEN];
      assert front + (term + [AND_TOKEN] + factor) + more == front + (term + [AND_TOKEN] + factor + more);
      assert front + (term + ([AND_TOKEN] + (factor + more))) == front + term + ([AND_TOKEN] + (factor + more));
    }
  }

  lemma {:induction false} BuildIsExpression(
    termsPart: Option<seq<Token>>, terms: Option<Node>, termPart: seq<Token>, term: Node, cs: seq<Condition>, fields: Fields)
    requires cs != [] && Renderable(cs, fields)
    requires termsPart.Some? <==> terms.Some?
    requires terms.Some? ==> ExpressionOf(termsPart.value, terms.value)
    requires TermOf(termPart, term)
    ensures ExpressionOf(Joined(termsPart, termPart) + TailTokens(cs, fields), Build(terms, term, cs, fields))
    decreases |cs|
  {
    var before := Joined(termsPart, termPart);
    if |cs| == 1 {
      CombineIsExpression(termsPart, terms, termPart, term);
      assert before + [] == before;
    } else {
      var next, part, more := ConditionNode(cs[1], fields), ConditionTokens(cs[1], fields), TailTokens(cs[1..], fields);
      ConditionIsFactor(cs[1], fields);
      if cs[0].logicAfter.value == AndNext {
        ConjunctionIsTerm(termPart, term, part, next);
        BuildIsExpression(termsPart, terms, termPart + [AND_TOKEN] + part, And(term, next), cs[1..], fields);
        JoinedWithFactor(termsPart, termPart, part, more);
      } else {
        CombineIsExpression(termsPart, terms, termPart, term);
        FactorIsTerm(part, next);
        BuildIsExpression(Some(before), Some(Combine(terms, term)), part, next, cs[1..], fields);
        Regroup(before, OR_TOKEN, part, more);
      }
    }
  }

  lemma ParseGenerated(cs: seq<Condition>, fields: Fields)
    requires cs != [] && Renderable(cs, fields)
    ensures ParseTokens(ConditionTokens(cs[0], fields) + TailTokens(cs, fields) + [EOF_TOKEN]) == Ok(FlatNode(cs, fields))
  {
    var part, n := ConditionTokens(cs[0], fields), ConditionNode(cs[0], fields);
    ConditionIsFactor(cs[0], fields);
    FactorIsTerm(part, n);
    BuildIsExpression(None, None, part, n, cs, fields);
    TrailingTokensAreIgnored(part + TailTokens(cs, fields), FlatNode(cs, fields), [EOF_TOKEN]);
  }

  // ----- what the tree means -----

  predicate DenoteOption(lib: Library, n: Option<Node>, ctx: RequestContext) {
    n.Some? && Denote(lib, n.value, ctx)
  }

  lemma RunsStep(holds: Condition -> bool, cs: seq<Condition>)
    requires |cs| > 1
    ensures var rest := Runs(cs[1..]);
            if cs[0].logicAfter == Some(AndNext) then
              && Runs(cs)[1..] == rest[1..]
              && (AllHold(holds, Runs(cs)[0]) <==> holds(cs[0]) && AllHold(holds, rest[0]))
            else
              && Runs(cs)[1..] == rest
              && (AllHold(holds, Runs(cs)[0]) <==> holds(cs[0]))
  {
    var rest := Runs(cs[1..]);
    if cs[0].logicAfter == Some(AndNext) {
      var run := Runs(cs)[0];
      assert run == [cs[0]] + rest[0];
      if AllHold(holds, run) {
        assert holds(run[0]);
        forall i | 0 <= i < |rest[0]| ensures holds(rest[0][i]) {
          assert run[i + 1] == rest[0][i];
        }
      }
    } else if AllHold(holds, Runs(cs)[0]) {
      assert holds(Runs(cs)[0][0]);
    }
  }

  lemma SplitFirstRun(holds: Condition -> bool, runs: seq<seq<Condition>>)
    requires runs != []
    ensures SomeRunHolds(holds, runs) <==> AllHold(holds, runs[0]) || SomeRunHolds(holds, runs[1..])
  {
    if SomeRunHolds(holds, runs[1..]) {
      var i :| 0 <= i < |runs[1..]| && AllHold(holds, runs[1..][i]);
      assert AllHold(holds, runs[i + 1]);
    }
    if SomeRunHolds(holds, runs) {
      var i :| 0 <= i < |runs| && AllHold(holds, runs[i]);
      if i > 0 {
        assert runs[1..][i - 1] == runs[i];
      }
    }
  }

  /** The rest of the run of the first condition, without that condition. */
  predicate RestOfRun(holds: Condition -> bool, cs: seq<Condition>)
    requires cs != []
  {
    |cs| > 1 && cs[0].logicAfter == Some(AndNext) ==> AllHold(holds, Runs(cs[1..])[0])
  }

  lemma FirstRun(holds: Condition -> bool, cs: seq<Condition>)
    requires cs != []
    ensures AllHold(holds, Runs(cs)[0]) <==> holds(cs[0]) && RestOfRun(holds, cs)
  {
    if |cs| > 1 {
      RunsStep(holds, cs);
    }
  }

  /** What the first condition's connective makes of the runs. */
  lemma RunMeaning(holds: Condition -> bool, cs: seq<Condition>)
    requires |cs| > 1
    ensures var next := holds(cs[1]) && RestOfRun(holds, cs[1..]);
            var later := SomeRunHolds(holds, Runs(cs[1..])[1..]);
            if cs[0].logicAfter == Some(AndNext)
            then (RestOfRun(holds, cs) <==> next) && (SomeRunHolds(holds, Runs(cs)[1..]) <==> later)
            else RestOfRun(holds, cs) && (SomeRunHolds(holds, Runs(cs)[1..]) <==> next || later)
  {
    RunsStep(holds, cs);
    FirstRun(holds, cs[1..]);
    SplitFirstRun(holds, Runs(cs[1..]));
  }

  ghost predicate Agrees(lib: Library, holds: Condition -> bool, c: Condition, fields: Fields, ctx: RequestContext) {
    holds(c) <==> Denote(lib, ConditionNode(c, fields), ctx)
  }

  /** The tree means what is left of the runs: an earlier term, the current term with the rest
      of its run, or a later run. */
  ghost predicate Means(
    lib: Library, holds: Condition -> bool, terms: Option<Node>, term: Node, cs: seq<Condition>, fields: Fields, ctx: RequestContext)
    requires cs != [] && Renderable(cs, fields)
  {
    Denote(lib, Build(terms, term, cs, fields), ctx) <==>
    || DenoteOption(lib, terms, ctx)
    || (Denote(lib, term, ctx) && RestOfRun(holds, cs))
    || SomeRunHolds(holds, Runs(cs)[1..])
  }

  lemma MeansOne(lib: Library, holds: Condition -> bool, terms: Option<Node>, term: Node, cs: seq<Condition>, fields: Fields, ctx: RequestContext)
    requires |cs| == 1 && Renderable(cs, fields)
    ensures Means(lib, holds, terms, term, cs, fields, ctx)
  {
  }

  lemma MeansAnd(lib: Library, holds: Condition -> bool, terms: Option<Node>, term: Node, cs: seq<Condition>, fields: Fields, ctx: RequestContext)
    requires |cs| > 1 && Renderable(cs, fields) && cs[0].logicAfter.value == AndNext && Agrees(lib, holds, cs[1], fields, ctx)
    requires Means(lib, holds, terms, And(term, ConditionNode(cs[1], fields)), cs[1..], fields, ctx)
    ensures Means(lib, holds, terms, term, cs, fields, ctx)
  {
    var next := ConditionNode(cs[1], fields);
    RunMeaning(holds, cs);
    assert Denote(lib, And(term, next), ctx) <==> Denote(lib, term, ctx) && Denote(lib, next, ctx);
  }

  lemma MeansOr(lib: Library, holds: Condition -> bool, terms: Option<Node>, term: Node, cs: seq<Condition>, fields: Fields, ctx: RequestContext)
    requires |cs| > 1 && Renderable(cs, fields) && cs[0].logicAfter.value != AndNext && Agrees(lib, holds, cs[1], fields, ctx)
    requires Means(lib, holds, Some(Combine(terms, term)), ConditionNode(cs[1], fields), cs[1..], fields, ctx)
    ensures Means(lib, holds, terms, term, cs, fields, ctx)
  {
    RunMeaning(holds, cs);
    assert DenoteOption(lib, Some(Combine(terms, term)), ctx) <==> DenoteOption(lib, terms, ctx) || Denote(lib, term, ctx);
  }

  lemma {:induction false} BuildMeaning(
    lib: Library, holds: Condition -> bool, terms: Option<Node>, term: Node, cs: seq<Condition>, fields: Fields, ctx: RequestContext)
    requires cs != [] && Renderable(cs, fields)
    requires forall c :: Agrees(lib, holds, c, fields, ctx)
    ensures Means(lib, holds, terms, term, cs, fields, ctx)
    decreases |cs|
  {
    if |cs| == 1 {
      MeansOne(lib, holds, terms, term, cs, fields, ctx);
    } else if cs[0].logicAfter.value == AndNext {
      BuildMeaning(lib, holds, terms, And(term, ConditionNode(cs[1], fields)), cs[1..], fields, ctx);
      MeansAnd(lib, holds, terms, term, cs, fields, ctx);
    } else {
      BuildMeaning(lib, holds, Some(Combine(terms, term)), ConditionNode(cs[1], fields), cs[1..], fields, ctx);
      MeansOr(lib, holds, terms, term, cs, fields, ctx);
    }
  }

  lemma FlatNodeMeaning(lib: Library, cs: seq<Condition>, fields: Fields, ctx: RequestContext)
    requires cs != [] && Renderable(cs, fields)
    ensures Denote(lib, FlatNode(cs, fields), ctx) <==> FlatMeaning(lib, cs, fields, ctx)
  {
    var holds := c => Holds(lib, c, fields, ctx);
    assert forall c :: Agrees(lib, holds, c, fields, ctx);
    BuildMeaning(lib, holds, None, ConditionNode(cs[0], fields), cs, fields, ctx);
    FirstRun(holds, cs);
    SplitFirstRun(holds, Runs(cs));
  }

  // ----- when it is accepted -----

  predicate ValidCondition(lib: Library, c: Condition, fields: Fields) {
    ValidateComparison(lib, c.field, c.operator, ConditionValue(c, fields)).None?
  }

  /** Every condition from the `k`-th on is valid on its own. */
  ghost predicate ValidFrom(lib: Library, cs: seq<Condition>, k: nat, fields: Fields)
    requires Renderable(cs, fields)
  {
    forall i | k <= i < |cs| :: ValidCondition(lib, cs[i], fields)
  }

  lemma ValidFromNext(lib: Library, cs: seq<Condition>, k: nat, fields: Fields)
    requires k < |cs| && Renderable(cs, fields)
    ensures ValidFrom(lib, cs, k, fields) <==> ValidCondition(lib, cs[k], fields) && ValidFrom(lib, cs, k + 1, fields)
  {
  }

  lemma ValidFromTail(lib: Library, cs: seq<Condition>, fields: Fields)
    requires |cs| > 1 && Renderable(cs, fields)
    ensures Renderable(cs[1..], fields)
    ensures ValidFrom(lib, cs, 2, fields) <==> ValidFrom(lib, cs[1..], 1, fields)
  {
    var rest := cs[1..];
    assert forall i | 1 <= i < |rest| :: rest[i] == cs[i + 1];
    assert forall i | 2 <= i < |cs| :: cs[i] == rest[i - 1];
  }

  /** The tree is there, and valid exactly when its parts are. */
  ghost predicate ValidBuild(lib: Library, terms: Option<Node>, term: Node, cs: seq<Condition>, fields: Fields)
    requires cs != [] && Renderable(cs, fields)
  {
    && Build(terms, term, cs, fields) != Nil
    && (Validate(lib, Build(terms, term, cs, fields)).None? <==>
        && (terms.Some? ==> Validate(lib, terms.value).None?)
        && Validate(lib, term).None?
        && ValidFrom(lib, cs, 1, fields))
  }

  lemma ValidConjunction(lib: Library, left: Node, right: Node)
    requires left != Nil && right != Nil
    ensures Validate(lib, And(left, right)).None? <==> Validate(lib, left).None? && Validate(lib, right).None?
  {
  }

  lemma ValidAnd(lib: Library, terms: Option<Node>, term: Node, cs: seq<Condition>, fields: Fields)
    requires |cs| > 1 && Renderable(cs, fields) && cs[0].logicAfter.value == AndNext && term != Nil
    requires ValidBuild(lib, terms, And(term, ConditionNode(cs[1], fields)), cs[1..], fields)
    ensures ValidBuild(lib, terms, term, cs, fields)
  {
    var next := ConditionNode(cs[1], fields);
    ValidFromNext(lib, cs, 1, fields);
    ValidFromTail(lib, cs, fields);
    ValidConjunction(lib, term, next);
    assert Validate(lib, next).None? <==> ValidCondition(lib, cs[1], fields);
    assert Build(terms, term, cs, fields) == Build(terms, And(term, next), cs[1..], fields);
  }

  lemma ValidOr(lib: Library, terms: Option<Node>, term: Node, cs: seq<Condition>, fields: Fields)
    requires |cs| > 1 && Renderable(cs, fields) && cs[0].logicAfter.value != AndNext && term != Nil && terms != Some(Nil)
    requires ValidBuild(lib, Some(Combine(terms, term)), ConditionNode(cs[1], fields), cs[1..], fields)
    ensures ValidBuild(lib, terms, term, cs, fields)
  {
    ValidFromNext(lib, cs, 1, fields);
    ValidFromTail(lib, cs, fields);
  }

  lemma {:induction false} BuildIsValid(lib: Library, terms: Option<Node>, term: Node, cs: seq<Condition>, fields: Fields)
    requires cs != [] && Renderable(cs, fields)
    requires term != Nil && terms != Some(Nil)
    ensures ValidBuild(lib, terms, term, cs, fields)
    decreases |cs|
  {
    if |cs| > 1 {
      var next := ConditionNode(cs[1], fields);
      if cs[0].logicAfter.value == AndNext {
        BuildIsValid(lib, terms, And(term, next), cs[1..], fields);
        ValidAnd(lib, terms, term, cs, fields);
      } else {
        BuildIsValid(lib, Some(Combine(terms, term)), next, cs[1..], fields);
        ValidOr(lib, terms, term, cs, fields);
      }
    }
  }

  /** The generated text of a renderable list compiles exactly when each condition is
      valid on its own, and then it evaluates, in every context, to the meaning of
      the list. */
  lemma GeneratedTextKeepsItsMeaning(lib: Library, cs: seq<Condition>, fields: Fields, ctx: RequestContext)
    requires cs != [] && Renderable(cs, fields)
    ensures Compile(lib, Generated(cs, fields)).Ok? <==> forall i | 0 <= i < |cs| :: ValidCondition(lib, cs[i], fields)
    ensures Compile(lib, Generated(cs, fields)).Ok? ==>
              Evaluate(lib, Compile(lib, Generated(cs, fields)).value, ctx) == Ok(FlatMeaning(lib, cs, fields, ctx))
  {
    LexGenerated(cs, fields);
    ParseGenerated(cs, fields);
    BuildIsValid(lib, None, ConditionNode(cs[0], fields), cs, fields);
    ValidFromNext(lib, cs, 0, fields);
    if Compile(lib, Generated(cs, fields)).Ok? {
      Soundness(lib, Generated(cs, fields), ctx);
      FlatNodeMeaning(lib, cs, fields, ctx);
    }
  }
}
