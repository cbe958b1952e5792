/** Validation, evaluation and compilation of rule expressions. */
module RuleEngine {
  import opened Outcomes
  import opened RuleTypes
  import opened RuleLexer
  import opened RuleParser
  import opened RuleReading
  import opened RulePrinter

  /** The Go library calls the evaluator leans on, left uninterpreted. */
  datatype Library = Library(
    compiles: string -> bool,
    matches: (string, string) -> bool,
    lower: string -> string,
    upper: string -> string,
    trim: string -> string)

  datatype Metadata = Metadata(isDatacenter: Option<bool>, asn: Option<nat>, country: Option<string>)

  datatype RequestContext = RequestContext(
    clientIP: string, host: string, path: string, query: string, verb: string, userAgent: string,
    scheme: string, proto: string, headers: map<string, string>, metadata: Option<Metadata>)

  datatype FieldValue = Word(s: string) | Number(n: int) | Flag(b: bool)

  // ----- fields -----

  const FIELD_REGISTRY: set<string> := {
    "ip.src", "ip.version", "ip.is_datacenter", "asn", "country", "http.host", "http.path", "http.query",
    "http.scheme", "http.version", "http.method", "http.ua", "http.cookie", "http.referer", "http.accept",
    "client.os", "client.browser", "client.is_mobile", "client.is_desktop", "client.is_tablet",
    "device.is_mobile", "device.is_desktop", "device.is_tablet", "req.rate"}

  predicate Contains(s: string, part: string) {
    exists i | 0 <= i <= |s| :: part <= s[i..]
  }

  predicate ContainsAny(s: string, parts: seq<string>) {
    exists i | 0 <= i < |parts| :: Contains(s, parts[i])
  }

  predicate IsMobile(lib: Library, userAgent: string) {
    var ua := lib.lower(userAgent);
    && ContainsAny(ua, ["mobile", "android", "iphone", "ipod", "blackberry", "windows phone", "opera mini"])
    && !Contains(ua, "ipad")
    && !Contains(ua, "tablet")
  }

  predicate IsTablet(lib: Library, userAgent: string) {
    ContainsAny(lib.lower(userAgent), ["ipad", "tablet", "kindle"])
  }

  function Header(ctx: RequestContext, name: string): string {
    if name in ctx.headers then ctx.headers[name] else ""
  }

  function ExtractField(lib: Library, field: string, ctx: RequestContext): FieldValue {
    if field == "ip.src" then Word(ctx.clientIP)
    else if field == "ip.is_datacenter" then
      match ctx.metadata
      case Some(Metadata(Some(b), _, _)) => Flag(b)
      case _ => Flag(false)
    else if field == "asn" then
      match ctx.metadata
      case Some(Metadata(_, Some(n), _)) => Number(n)
      case _ => Number(0)
    else if field == "country" then
      match ctx.metadata
      case Some(Metadata(_, _, Some(c))) => Word(lib.upper(c))
      case _ => Word("")
    else if field == "http.host" then Word(ctx.host)
    else if field == "http.path" then Word(ctx.path)
    else if field == "http.query" then Word(ctx.query)
    else if field == "http.method" then Word(ctx.verb)
    else if field == "http.ua" then Word(ctx.userAgent)
    else if field == "http.scheme" then Word(ctx.scheme)
    else if field == "http.version" then Word(ctx.proto)
    else if field == "http.cookie" then Word(Header(ctx, "Cookie"))
    else if field == "http.referer" then Word(Header(ctx, "Referer"))
    else if field == "http.accept" then Word(Header(ctx, "Accept"))
    else if field == "client.is_mobile" || field == "device.is_mobile" then Flag(IsMobile(lib, ctx.userAgent))
    else if field == "client.is_desktop" || field == "device.is_desktop" then
      Flag(!IsMobile(lib, ctx.userAgent) && !IsTablet(lib, ctx.userAgent))
    else if field == "client.is_tablet" || field == "device.is_tablet" then Flag(IsTablet(lib, ctx.userAgent))
    else Word("")
  }

  // ----- conversions -----

  function Digits(n: nat): string {
    var last := [(n % 10 + '0' as int) as char];
    if n < 10 then last else Digits(n / 10) + last
  }

  function FieldText(v: FieldValue): string {
    match v
    case Word(s) => s
    case Number(n) => if n < 0 then "-" + Digits(-n) else Digits(n)
    case Flag(b) => if b then "true" else "false"
  }

  /** A list value has no text of its own. */
  function ValueText(v: Value): string {
    match v
    case One(s) => s
    case _ => ""
  }

  /** 64-bit two's complement. */
  function Wrap64(n: int): int {
    (n + 0x8000_0000_0000_0000) % 0x1_0000_0000_0000_0000 - 0x8000_0000_0000_0000
  }

  /** The digits of a text as a decimal number, everything else skipped. */
  function Decimal(s: string): nat {
    if s == "" then 0
    else
      var c, before := s[|s| - 1], Decimal(s[..|s| - 1]);
      if '0' <= c <= '9' then before * 10 + (c as int - '0' as int) else before
  }

  /** What a comparison sees of it: its low 64 bits. */
  function TextNumber(s: string): int {
    Wrap64(Decimal(s))
  }

  lemma WrapMultiple(n: int, k: int)
    ensures Wrap64(n + k * 0x1_0000_0000_0000_0000) == Wrap64(n)
  {
    var m := 0x1_0000_0000_0000_0000;
    var h := n + 0x8000_0000_0000_0000;
    assert h + k * m == (h / m + k) * m + h % m;
  }

  /** Wrapping at every step is wrapping once at the end. */
  lemma WrapStep(n: int, d: int)
    ensures Wrap64(Wrap64(n) * 10 + d) == Wrap64(n * 10 + d)
  {
    var k := (n + 0x8000_0000_0000_0000) / 0x1_0000_0000_0000_0000;
    assert Wrap64(n) == n - k * 0x1_0000_0000_0000_0000;
    WrapMultiple(n * 10 + d, -10 * k);
  }

  /** The conversion loop, in 64-bit arithmetic. */
  method ToInt(s: string) returns (num: int)
    ensures num == TextNumber(s)
  {
    num := 0;
    for i := 0 to |s|
      invariant num == Wrap64(Decimal(s[..i]))
    {
      assert s[..i + 1][..i] == s[..i];
      if '0' <= s[i] <= '9' {
        var digit := s[i] as int - '0' as int;
        WrapStep(Decimal(s[..i]), digit);
        num := Wrap64(num * 10 + digit);
      }
    }
    assert s[..|s|] == s;
  }

  function FieldNumber(v: FieldValue): int {
    match v
    case Number(n) => n
    case Word(s) => TextNumber(s)
    case Flag(_) => 0
  }

  function ValueNumber(v: Value): int {
    match v
    case One(s) => TextNumber(s)
    case _ => 0
  }

  function SplitCommas(s: string): seq<string> {
    SplitFrom(s, "")
  }

  function SplitFrom(s: string, piece: string): seq<string>
    decreases |s|
  {
    if s == "" then [piece]
    else if s[0] == ',' then [piece] + SplitFrom(s[1..], "")
    else SplitFrom(s[1..], piece + [s[0]])
  }

  /** From `i` to `j` the text has no comma, and it cannot be extended without one. */
  predicate Stretch(s: string, i: int, j: int) {
    && 0 <= i <= j <= |s|
    && (i == 0 || s[i - 1] == ',')
    && (j == |s| || s[j] == ',')
    && forall k | i <= k < j :: s[k] != ','
  }

  /** The pieces from `a` on, the first of which began at `b`, are the stretches of the text. */
  lemma {:induction false} PiecesAreStretches(s: string, b: nat, a: nat, p: string)
    requires b <= a <= |s| && (b == 0 || s[b - 1] == ',') && forall k | b <= k < a :: s[k] != ','
    ensures p in SplitFrom(s[a..], s[b..a]) <==> exists i, j :: b <= i && Stretch(s, i, j) && s[i..j] == p
    decreases |s| - a
  {
    if a == |s| {
      assert Stretch(s, b, a);
    } else {
      assert s[a..][0] == s[a] && s[a..][1..] == s[a + 1..];
      if s[a] == ',' {
        assert Stretch(s, b, a);
        PiecesAreStretches(s, a + 1, a + 1, p);
        assert s[a + 1..a + 1] == "";
        assert forall i, j | b <= i && Stretch(s, i, j) :: (i == b && j == a) || a + 1 <= i;
      } else {
        PiecesAreStretches(s, b, a + 1, p);
        assert s[b..a] + [s[a]] == s[b..a + 1];
      }
    }
  }

  // ----- comparison operators -----

  /** The field is one of the listed values, or, trimmed, one of the stretches between commas. */
  predicate IsIn(lib: Library, fv: FieldValue, value: Value) {
    match value
    case Many(vs) => FieldText(fv) in vs
    case _ =>
      var s := ValueText(value);
      exists i, j | 0 <= i <= j <= |s| :: Stretch(s, i, j) && FieldText(fv) == lib.trim(s[i..j])
  }

  method EvalIn(lib: Library, fv: FieldValue, value: Value) returns (r: bool)
    ensures r == IsIn(lib, fv, value)
  {
    var f := FieldText(fv);
    if value.Many? {
      for i := 0 to |value.texts|
        invariant f !in value.texts[..i]
      {
        if f == value.texts[i] {
          return true;
        }
      }
      assert value.texts[..|value.texts|] == value.texts;
      return false;
    }
    var s := ValueText(value);
    var values := SplitCommas(s);
    SplitIsStretches(s);
    for i := 0 to |values|
      invariant forall k | 0 <= k < i :: f != lib.trim(values[k])
    {
      if f == lib.trim(values[i]) {
        assert values[i] in values;
        return true;
      }
    }
    return false;
  }

  lemma SplitIsStretches(s: string)
    ensures forall p | p in SplitCommas(s) :: exists i, j :: Stretch(s, i, j) && s[i..j] == p
    ensures forall i, j | Stretch(s, i, j) :: s[i..j] in SplitCommas(s)
  {
    assert s[0..] == s && s[0..0] == "";
    forall p
      ensures p in SplitCommas(s) <==> exists i, j :: 0 <= i && Stretch(s, i, j) && s[i..j] == p
    {
      PiecesAreStretches(s, 0, 0, p);
    }
    forall i, j | Stretch(s, i, j)
      ensures s[i..j] in SplitCommas(s)
    {
      assert 0 <= i && Stretch(s, i, j) && s[i..j] == s[i..j];
    }
  }

  predicate HasSuffix(s: string, suffix: string) {
    |suffix| <= |s| && s[|s| - |suffix|..] == suffix
  }

  /** What a comparison operator means: every operator is total and two-valued. */
  predicate Meaning(lib: Library, operator: string, fv: FieldValue, value: Value) {
    var f, v := FieldText(fv), ValueText(value);
    match operator
    case "eq" => f == v
    case "neq" => f != v
    case "in" => IsIn(lib, fv, value)
    case "not_in" => !IsIn(lib, fv, value)
    case "contains" => Contains(lib.lower(f), lib.lower(v))
    case "not_contains" => !Contains(lib.lower(f), lib.lower(v))
    case "prefix" => v <= f
    case "suffix" => HasSuffix(f, v)
    case "regex" => lib.matches(v, f)
    case "not_regex" => !lib.matches(v, f)
    case "gt" => FieldNumber(fv) > ValueNumber(value)
    case "lt" => FieldNumber(fv) < ValueNumber(value)
    case "gte" => FieldNumber(fv) >= ValueNumber(value)
    case "lte" => FieldNumber(fv) <= ValueNumber(value)
    case "exists" => f != ""
    case "not_exists" => f == ""
    case _ => false
  }

  /** The plain boolean meaning of a tree: no errors, no evaluation order. */
  predicate Denote(lib: Library, n: Node, ctx: RequestContext) {
    match n
    case Comparison(field, operator, value) => Meaning(lib, operator, ExtractField(lib, field, ctx), value)
    case Logical(Conjunction, left, right) => Denote(lib, left, ctx) && Denote(lib, right, ctx)
    case Logical(Disjunction, left, right) => Denote(lib, left, ctx) || Denote(lib, right, ctx)
    case Logical(Negation, left, _) => !Denote(lib, left, ctx)
    case _ => false
  }

  // ----- the evaluator -----

  datatype EvalError =
    | NilNode
    | UnknownNodeType(kind: string)
    | UnknownLogicalOperator(word: string)
    | UnknownOperator(operator: string)
    | InvalidRegex(pattern: string)

  type Verdict = Result<bool, EvalError>

  function EvalRegex(lib: Library, fv: FieldValue, value: Value): Verdict {
    if lib.compiles(ValueText(value)) then Ok(lib.matches(ValueText(value), FieldText(fv)))
    else Err(InvalidRegex(ValueText(value)))
  }

  function Negate(v: Verdict): Verdict {
    match v
    case Ok(b) => Ok(!b)
    case Err(e) => Err(e)
  }

  function EvalComparison(lib: Library, operator: string, fv: FieldValue, value: Value): Verdict {
    if operator == "regex" then EvalRegex(lib, fv, value)
    else if operator == "not_regex" then Negate(EvalRegex(lib, fv, value))
    else if IsOperator(operator) then Ok(Meaning(lib, operator, fv, value))
    else Err(UnknownOperator(operator))
  }

  /** What evaluation returns when every pattern is compiled afresh. */
  function Evaluate(lib: Library, n: Node, ctx: RequestContext): Verdict {
    match n
    case Nil => Err(NilNode)
    case Other(kind) => Err(UnknownNodeType(kind))
    case Comparison(field, operator, value) =>
      EvalComparison(lib, operator, ExtractField(lib, field, ctx), value)
    case Logical(Conjunction, left, right) =>
      var l := Evaluate(lib, left, ctx);
      if l.Err? || !l.value then l else Evaluate(lib, right, ctx)
    case Logical(Disjunction, left, right) =>
      var l := Evaluate(lib, left, ctx);
      if l.Err? || l.value then l else Evaluate(lib, right, ctx)
    case Logical(Negation, left, _) => Negate(Evaluate(lib, left, ctx))
    case Logical(UnknownConnective(word), _, _) => Err(UnknownLogicalOperator(word))
  }

  /** A compiled pattern matches as its pattern does. */
  datatype Regex = Regex(pattern: string)

  class Evaluator {
    const lib: Library
    var regexCache: map<string, Regex>

    /** Only patterns that compile are cached, each under its own text. */
    ghost predicate Valid()
      reads this
    {
      forall p | p in regexCache :: lib.compiles(p) && regexCache[p] == Regex(p)
    }

    constructor (lib: Library)
      ensures Valid() && this.lib == lib
    {
      this.lib := lib;
      regexCache := map[];
    }

    method MatchRegex(fv: FieldValue, value: Value) returns (r: Verdict)
      requires Valid()
      modifies this`regexCache
      ensures Valid() && old(regexCache).Keys <= regexCache.Keys
      ensures r == EvalRegex(lib, fv, value)
    {
      var pattern := ValueText(value);
      var re;
      if pattern in regexCache {
        re := regexCache[pattern];
      } else {
        if !lib.compiles(pattern) {
          return Err(InvalidRegex(pattern));
        }
        re := Regex(pattern);
        regexCache := regexCache[pattern := re];
      }
      return Ok(lib.matches(re.pattern, FieldText(fv)));
    }

    method Compare(field: string, operator: string, value: Value, ctx: RequestContext) returns (r: Verdict)
      requires Valid()
      modifies this`regexCache
      ensures Valid() && old(regexCache).Keys <= regexCache.Keys
      ensures r == EvalComparison(lib, operator, ExtractField(lib, field, ctx), value)
    {
      var fv := ExtractField(lib, field, ctx);
      var f, v := FieldText(fv), ValueText(value);
      match operator
      case "eq" => r := Ok(f == v);
      case "neq" => r := Ok(!(f == v));
      case "in" =>
        var b := EvalIn(lib, fv, value);
        r := Ok(b);
      case "not_in" =>
        var b := EvalIn(lib, fv, value);
        r := Ok(!b);
      case "contains" => r := Ok(Contains(lib.lower(f), lib.lower(v)));
      case "not_contains" => r := Ok(!Contains(lib.lower(f), lib.lower(v)));
      case "prefix" => r := Ok(v <= f);
      case "suffix" => r := Ok(HasSuffix(f, v));
      case "regex" => r := MatchRegex(fv, value);
      case "not_regex" =>
        r := MatchRegex(fv, value);
        r := Negate(r);
      case "exists" => r := Ok(f != "");
      case "not_exists" => r := Ok(!(f != ""));
      case _ => r := CompareNumbers(operator, fv, value);
    }

    method CompareNumbers(operator: string, fv: FieldValue, value: Value) returns (r: Verdict)
      ensures operator == "gt" ==> r == Ok(FieldNumber(fv) > ValueNumber(value))
      ensures operator == "lt" ==> r == Ok(FieldNumber(fv) < ValueNumber(value))
      ensures operator == "gte" ==> r == Ok(FieldNumber(fv) >= ValueNumber(value))
      ensures operator == "lte" ==> r == Ok(FieldNumber(fv) <= ValueNumber(value))
      ensures operator !in {"gt", "lt", "gte", "lte"} ==> r == Err(UnknownOperator(operator))
    {
      var a, b := 0, 0;
      match fv {
        case Number(n) => a := n;
        case Word(s) => a := ToInt(s);
        case Flag(_) =>
      }
      if value.One? {
        b := ToInt(value.text);
      }
      match operator
      case "gt" => r := Ok(a > b);
      case "lt" => r := Ok(a < b);
      case "gte" => r := Ok(a >= b);
      case "lte" => r := Ok(a <= b);
      case _ => r := Err(UnknownOperator(operator));
    }

    /** The cache is invisible: whatever was evaluated before, the answer is the one
        of an evaluator that has never cached anything. */
    method Run(n: Node, ctx: RequestContext) returns (r: Verdict)
      requires Valid()
      modifies this`regexCache
      ensures Valid() && old(regexCache).Keys <= regexCache.Keys
      ensures r == Evaluate(lib, n, ctx)
      decreases n
    {
      match n
      case Nil => r := Err(NilNode);
      case Other(kind) => r := Err(UnknownNodeType(kind));
      case Comparison(field, operator, value) => r := Compare(field, operator, value, ctx);
      case Logical(Conjunction, left, right) =>
        r := Run(left, ctx);
        if r.Ok? && r.value {
          r := Run(right, ctx);
        }
      case Logical(Disjunction, left, right) =>
        r := Run(left, ctx);
        if r.Ok? && !r.value {
          r := Run(right, ctx);
        }
      case Logical(Negation, left, _) =>
        r := Run(left, ctx);
        r := Negate(r);
      case Logical(UnknownConnective(word), _, _) => r := Err(UnknownLogicalOperator(word));
    }

    /** Any sequence of evaluations through one cache. */
    method RunAll(jobs: seq<(Node, RequestContext)>) returns (answers: seq<Verdict>)
      requires Valid()
      modifies this`regexCache
      ensures Valid()
      ensures |answers| == |jobs|
      ensures forall i | 0 <= i < |jobs| :: answers[i] == Evaluate(lib, jobs[i].0, jobs[i].1)
    {
      answers := [];
      for i := 0 to |jobs|
        invariant Valid() && |answers| == i
        invariant forall k | 0 <= k < i :: answers[k] == Evaluate(lib, jobs[k].0, jobs[k].1)
      {
        var r := Run(jobs[i].0, jobs[i].1);
        answers := answers + [r];
      }
    }
  }

  // ----- the validator -----

  datatype ValidationError =
    | InvalidNil
    | InvalidNodeType(kind: string)
    | UnknownField(field: string)
    | InvalidOperator(operator: string)
    | RegexTooLong
    | DangerousRegex
    | RegexSyntax

  const DANGEROUS_PATTERNS := ["(a+)+", "(a*)*", "(a|a)*", "(a|ab)*", "([a-zA-Z]+)*"]

  function ValidateRegex(lib: Library, pattern: string): Option<ValidationError> {
    if |pattern| > 500 then Some(RegexTooLong)
    else if ContainsAny(pattern, DANGEROUS_PATTERNS) then Some(DangerousRegex)
    else if !lib.compiles(pattern) then Some(RegexSyntax)
    else None
  }

  function ValidateComparison(lib: Library, field: string, operator: string, value: Value): Option<ValidationError> {
    if field !in FIELD_REGISTRY then Some(UnknownField(field))
    else if !IsOperator(operator) then Some(InvalidOperator(operator))
    else if operator == "regex" || operator == "not_regex" then ValidateRegex(lib, ValueText(value))
    else None
  }

  /** A missing child of a logical node is let through. */
  function Validate(lib: Library, n: Node): Option<ValidationError> {
    match n
    case Nil => Some(InvalidNil)
    case Other(kind) => Some(InvalidNodeType(kind))
    case Comparison(field, operator, value) => ValidateComparison(lib, field, operator, value)
    case Logical(_, left, right) =>
      var l := if left == Nil then None else Validate(lib, left);
      if l.Some? then l else if right == Nil then None else Validate(lib, right)
  }

  // ----- compilation -----

  datatype CompileError =
    | LexFailed(lexError: LexError)
    | ParseFailed(parseError: ParseError)
    | ValidateFailed(validationError: ValidationError)

  type Compiled = Result<Node, CompileError>

  function ParseTokens(ts: seq<Token>): Result<Node, ParseError> {
    match ParseExpression(ts, 0)
    case Failed(e, _) => Err(e)
    case Parsed(n, _) => Ok(n)
  }

  function Compile(lib: Library, text: string): Compiled {
    match Lex(text, 0)
    case Err(e) => Err(LexFailed(e))
    case Ok(ts) =>
      match ParseTokens(ts)
      case Err(e) => Err(ParseFailed(e))
      case Ok(n) =>
        match Validate(lib, n)
        case Some(e) => Err(ValidateFailed(e))
        case None => Ok(n)
  }

  method CompileExpression(lib: Library, text: string) returns (r: Compiled)
    ensures r == Compile(lib, text)
  {
    var lexer := new Lexer(text);
    assert text[0..] == text;
    var tokens := lexer.Tokenize();
    PrependNothing(Lex(text, 0));
    if tokens.Err? {
      return Err(LexFailed(tokens.error));
    }
    var parser := new Parser(tokens.value);
    var ast := parser.Parse();
    if ast.Err? {
      return Err(ParseFailed(ast.error));
    }
    var verdict := Validate(lib, ast.value);
    if verdict.Some? {
      return Err(ValidateFailed(verdict.value));
    }
    return Ok(ast.value);
  }

  // ----- accepted expressions never go wrong -----

  lemma CompiledIsWellFormed(lib: Library, text: string)
    requires Compile(lib, text).Ok?
    ensures WellFormed(Compile(lib, text).value) && Validate(lib, Compile(lib, text).value).None?
  {
    var ts := Lex(text, 0).value;
    LexedTokensAreLexable(text, 0);
    assert FromLexer(ts);
    ParsedExpressionIsWellFormed(ts, 0);
  }

  lemma ComparisonIsSound(lib: Library, operator: string, fv: FieldValue, value: Value)
    requires IsOperator(operator)
    requires operator == "regex" || operator == "not_regex" ==> lib.compiles(ValueText(value))
    ensures EvalComparison(lib, operator, fv, value) == Ok(Meaning(lib, operator, fv, value))
  {
  }

  /** Every operand is there and every connective is known.  A negation has one operand. */
  predicate Complete(n: Node) {
    match n
    case Comparison(_, _, _) => true
    case Logical(Negation, left, _) => Complete(left)
    case Logical(Conjunction, left, right) => Complete(left) && Complete(right)
    case Logical(Disjunction, left, right) => Complete(left) && Complete(right)
    case _ => false
  }

  /** Evaluation in this context meets no gap in the tree on its way. */
  predicate MeetsNoGap(lib: Library, n: Node, ctx: RequestContext) {
    match n
    case Comparison(_, _, _) => true
    case Logical(Negation, left, _) => MeetsNoGap(lib, left, ctx)
    case Logical(Conjunction, left, right) =>
      MeetsNoGap(lib, left, ctx) && (Denote(lib, left, ctx) ==> MeetsNoGap(lib, right, ctx))
    case Logical(Disjunction, left, right) =>
      MeetsNoGap(lib, left, ctx) && (!Denote(lib, left, ctx) ==> MeetsNoGap(lib, right, ctx))
    case _ => false
  }

  /** A validated tree evaluates without error exactly when short-circuit evaluation meets no
      missing operand or unknown connective, and then to its boolean meaning. */
  lemma {:induction false} ValidatedEvaluatesIff(lib: Library, n: Node, ctx: RequestContext)
    requires Validate(lib, n).None?
    ensures Evaluate(lib, n, ctx).Ok? <==> MeetsNoGap(lib, n, ctx)
    ensures Evaluate(lib, n, ctx).Ok? ==> Evaluate(lib, n, ctx) == Ok(Denote(lib, n, ctx))
  {
    match n
    case Comparison(field, operator, value) =>
      ComparisonIsSound(lib, operator, ExtractField(lib, field, ctx), value);
    case Logical(_, left, right) =>
      if left != Nil {
        ValidatedEvaluatesIff(lib, left, ctx);
      }
      if right != Nil {
        ValidatedEvaluatesIff(lib, right, ctx);
      }
  }

  lemma {:induction false} CompleteMeetsNoGap(lib: Library, n: Node, ctx: RequestContext)
    requires Complete(n)
    ensures MeetsNoGap(lib, n, ctx)
  {
    if n.Logical? {
      CompleteMeetsNoGap(lib, n.left, ctx);
      if n.connective != Negation {
        CompleteMeetsNoGap(lib, n.right, ctx);
      }
    }
  }

  lemma {:induction false} WellFormedIsComplete(n: Node)
    requires WellFormed(n)
    ensures Complete(n)
  {
    if n.Logical? {
      WellFormedIsComplete(n.left);
      if n.connective != Negation {
        WellFormedIsComplete(n.right);
      }
    }
  }

  /** A complete tree that passes validation evaluates without error, in every context, to its
      boolean meaning. */
  lemma EvaluationIsSound(lib: Library, n: Node, ctx: RequestContext)
    requires Complete(n) && Validate(lib, n).None?
    ensures Evaluate(lib, n, ctx) == Ok(Denote(lib, n, ctx))
  {
    CompleteMeetsNoGap(lib, n, ctx);
    ValidatedEvaluatesIff(lib, n, ctx);
  }

  /** Whatever `Compile` accepts evaluates without error, in every context, to its
      boolean meaning. */
  lemma Soundness(lib: Library, text: string, ctx: RequestContext)
    requires Compile(lib, text).Ok?
    ensures var n := Compile(lib, text).value; Evaluate(lib, n, ctx) == Ok(Denote(lib, n, ctx))
  {
    CompiledIsWellFormed(lib, text);
    WellFormedIsComplete(Compile(lib, text).value);
    EvaluationIsSound(lib, Compile(lib, text).value, ctx);
  }

  /** Printing an accepted expression and compiling the print gives it back, so the
      printed form is a normal form of the accepted texts. */
  lemma PrintedFormCompiles(lib: Library, text: string)
    requires Compile(lib, text).Ok?
    ensures var n := Compile(lib, text).value;
            WellFormed(n) && Compile(lib, Render(Print(n, InExpression))) == Ok(n)
  {
    CompiledIsWellFormed(lib, text);
    RoundTrip(Compile(lib, text).value);
  }
}
