/** What rule expressions say about requests, apart from how they are evaluated: numbers and
    texts, the operators, and what it takes for an expression to be accepted. */
module RuleMeaning {
  import opened Outcomes
  import opened RuleTypes
  import opened RuleLexer
  import opened RuleReading
  import opened RulePrinter
  import opened RuleEngine

  // ----- numbers as texts -----

  predicate IsDigits(s: string) {
    s != "" && forall i | 0 <= i < |s| :: '0' <= s[i] <= '9'
  }

  /** Digits without a needless zero in front. */
  predicate IsNumeral(s: string) {
    IsDigits(s) && (s[0] == '0' ==> s == "0")
  }

  lemma DecimalStep(s: string, c: char)
    requires '0' <= c <= '9'
    ensures Decimal(s + [c]) == Decimal(s) * 10 + (c as int - '0' as int)
  {
    assert (s + [c])[..|s|] == s;
  }

  /** A number is written as the numeral that spells it. */
  lemma {:induction false} DigitsSpell(n: nat)
    ensures IsNumeral(Digits(n)) && Decimal(Digits(n)) == n && (n > 0 ==> Digits(n)[0] != '0')
  {
    var c := (n % 10 + '0' as int) as char;
    if n < 10 {
      DecimalStep("", c);
      assert "" + [c] == Digits(n);
    } else {
      DigitsSpell(n / 10);
      DecimalStep(Digits(n / 10), c);
    }
  }

  lemma {:induction false} DecimalIsPositive(s: string)
    requires IsDigits(s) && s[0] != '0'
    ensures Decimal(s) > 0
  {
    var n := |s| - 1;
    if n > 0 {
      DecimalIsPositive(s[..n]);
    }
  }

  /** Every numeral is the one its number is written as. */
  lemma {:induction false} NumeralIsDigits(s: string)
    requires IsNumeral(s)
    ensures Digits(Decimal(s)) == s
    decreases |s|
  {
    var n := |s| - 1;
    assert s == s[..n] + [s[n]];
    DecimalStep(s[..n], s[n]);
    if n > 0 {
      DecimalIsPositive(s[..n]);
      NumeralIsDigits(s[..n]);
    } else {
      assert s[..n] == "" && Digits(Decimal(s)) == [s[n]];
    }
  }

  function AsnOf(ctx: RequestContext): nat {
    if ctx.metadata.Some? && ctx.metadata.value.asn.Some? then ctx.metadata.value.asn.value else 0
  }

  /** `asn eq d` holds exactly of requests from the network of that number. */
  lemma AsnEquals(lib: Library, d: string, ctx: RequestContext)
    requires IsNumeral(d)
    ensures Denote(lib, Comparison("asn", "eq", One(d)), ctx) <==> AsnOf(ctx) == Decimal(d)
  {
    assert ExtractField(lib, "asn", ctx) == Number(AsnOf(ctx));
    DigitsSpell(AsnOf(ctx));
    NumeralIsDigits(d);
  }

  /** `asn in [d, e, ...]` exactly of those from one of the networks. */
  lemma AsnIn(lib: Library, ds: seq<string>, ctx: RequestContext)
    requires forall i | 0 <= i < |ds| :: IsNumeral(ds[i])
    ensures Denote(lib, Comparison("asn", "in", Many(ds)), ctx) <==> exists i | 0 <= i < |ds| :: AsnOf(ctx) == Decimal(ds[i])
  {
    var n := AsnOf(ctx);
    assert ExtractField(lib, "asn", ctx) == Number(n);
    DigitsSpell(n);
    forall i | 0 <= i < |ds|
      ensures Digits(n) == ds[i] <==> n == Decimal(ds[i])
    {
      NumeralIsDigits(ds[i]);
    }
  }

  /** The order comparisons order numbers, as long as the rule's fits into 64 bits. */
  lemma AsnOrdered(lib: Library, d: string, ctx: RequestContext)
    requires IsNumeral(d) && Decimal(d) < 0x8000_0000_0000_0000
    ensures Denote(lib, Comparison("asn", "gt", One(d)), ctx) <==> AsnOf(ctx) > Decimal(d)
    ensures Denote(lib, Comparison("asn", "lt", One(d)), ctx) <==> AsnOf(ctx) < Decimal(d)
    ensures Denote(lib, Comparison("asn", "gte", One(d)), ctx) <==> AsnOf(ctx) >= Decimal(d)
    ensures Denote(lib, Comparison("asn", "lte", One(d)), ctx) <==> AsnOf(ctx) <= Decimal(d)
  {
    assert ExtractField(lib, "asn", ctx) == Number(AsnOf(ctx));
    assert Wrap64(Decimal(d)) == Decimal(d);
  }

  function WithAsn(ctx: RequestContext, n: nat): RequestContext {
    ctx.(metadata := Some(Metadata(None, Some(n), None)))
  }

  ghost predicate OrdersAbove(lib: Library, d: string, ctx: RequestContext, n: nat) {
    Denote(lib, Comparison("asn", "gt", One(d)), WithAsn(ctx, n)) <==> n > Decimal(d)
  }

  /** A larger number wraps, and the comparison is then off for some network. */
  lemma AsnOrderedIff(lib: Library, d: string, ctx: RequestContext)
    requires IsNumeral(d)
    ensures (forall n :: OrdersAbove(lib, d, ctx, n)) <==> Decimal(d) < 0x8000_0000_0000_0000
  {
    if Decimal(d) < 0x8000_0000_0000_0000 {
      forall n
        ensures OrdersAbove(lib, d, ctx, n)
      {
        AsnOrdered(lib, d, WithAsn(ctx, n));
      }
    } else {
      assert Wrap64(Decimal(d)) < Decimal(d);
      assert ExtractField(lib, "asn", WithAsn(ctx, Decimal(d))) == Number(Decimal(d));
      assert !OrdersAbove(lib, d, ctx, Decimal(d));
    }
  }

  // ----- texts -----

  /** The operators on texts, by what has to be put before and after the value. */
  lemma TextOperators(lib: Library, f: string, v: string)
    ensures Meaning(lib, "prefix", Word(f), One(v)) <==> exists after :: f == v + after
    ensures Meaning(lib, "suffix", Word(f), One(v)) <==> exists before :: f == before + v
    ensures Meaning(lib, "contains", Word(f), One(v)) <==>
            exists before, after :: lib.lower(f) == before + lib.lower(v) + after
    ensures Meaning(lib, "eq", Word(f), One(v)) <==> f == v
    ensures Meaning(lib, "exists", Word(f), One(v)) <==> |f| > 0
  {
    if v <= f {
      assert f == v + f[|v|..];
    }
    if HasSuffix(f, v) {
      assert f == f[..|f| - |v|] + v;
    }
    ContainsIff(lib.lower(f), lib.lower(v));
  }

  lemma ContainsIff(s: string, part: string)
    ensures Contains(s, part) <==> exists before, after :: s == before + part + after
  {
    if Contains(s, part) {
      var i :| 0 <= i <= |s| && part <= s[i..];
      assert s == s[..i] + part + s[i + |part|..];
    }
    if before, after :| s == before + part + after {
      assert s[|before|..] == part + after;
    }
  }

  /** Each negative operator says the opposite of its positive one, on every field and value. */
  lemma NegativeOperators(lib: Library, fv: FieldValue, value: Value)
    ensures Meaning(lib, "neq", fv, value) <==> !Meaning(lib, "eq", fv, value)
    ensures Meaning(lib, "not_in", fv, value) <==> !Meaning(lib, "in", fv, value)
    ensures Meaning(lib, "not_contains", fv, value) <==> !Meaning(lib, "contains", fv, value)
    ensures Meaning(lib, "not_regex", fv, value) <==> !Meaning(lib, "regex", fv, value)
    ensures Meaning(lib, "not_exists", fv, value) <==> !Meaning(lib, "exists", fv, value)
    ensures Meaning(lib, "lte", fv, value) <==> !Meaning(lib, "gt", fv, value)
    ensures Meaning(lib, "gte", fv, value) <==> !Meaning(lib, "lt", fv, value)
    ensures Meaning(lib, "gt", fv, value) ==> !Meaning(lib, "lt", fv, value)
  {
  }

  /** A flag `eq true` holds exactly when it is set. */
  lemma FlagEquals(lib: Library, b: bool)
    ensures Meaning(lib, "eq", Flag(b), One("true")) <==> b
    ensures Meaning(lib, "eq", Flag(b), One("false")) <==> !b
  {
    assert "true"[0] != "false"[0];
  }

  /** Where the fields of a request come from. */
  lemma FieldSources(lib: Library, ctx: RequestContext)
    ensures ExtractField(lib, "ip.src", ctx) == Word(ctx.clientIP) && ExtractField(lib, "http.host", ctx) == Word(ctx.host)
    ensures ExtractField(lib, "http.path", ctx) == Word(ctx.path) && ExtractField(lib, "http.query", ctx) == Word(ctx.query)
    ensures ExtractField(lib, "http.method", ctx) == Word(ctx.verb) && ExtractField(lib, "http.ua", ctx) == Word(ctx.userAgent)
    ensures ExtractField(lib, "http.cookie", ctx).s == if "Cookie" in ctx.headers then ctx.headers["Cookie"] else ""
    ensures ExtractField(lib, "http.referer", ctx).s == if "Referer" in ctx.headers then ctx.headers["Referer"] else ""
    ensures ExtractField(lib, "country", ctx) ==
            Word(if ctx.metadata.Some? && ctx.metadata.value.country.Some? then lib.upper(ctx.metadata.value.country.value) else "")
  {
  }

  // ----- acceptance -----

  /** The comparisons of a tree. */
  function Leaves(n: Node): seq<Node> {
    match n
    case Comparison(_, _, _) => [n]
    case Logical(_, left, right) => Leaves(left) + Leaves(right)
    case _ => []
  }

  /** A pattern is short enough, has none of the dangerous parts, and compiles. */
  ghost predicate SafePattern(lib: Library, pattern: string) {
    && |pattern| <= 500 && lib.compiles(pattern)
    && forall bad, before, after | bad in DANGEROUS_PATTERNS :: pattern != before + bad + after
  }

  ghost predicate Acceptable(lib: Library, n: Node) {
    && n.Comparison? && n.field in FIELD_REGISTRY && n.operator in OPERATORS
    && (n.operator in ["regex", "not_regex"] ==> SafePattern(lib, ValueText(n.value)))
  }

  lemma PatternIsSafeIff(lib: Library, pattern: string)
    ensures ValidateRegex(lib, pattern).None? <==> SafePattern(lib, pattern)
  {
    forall bad | bad in DANGEROUS_PATTERNS
      ensures Contains(pattern, bad) <==> exists before, after :: pattern == before + bad + after
    {
      ContainsIff(pattern, bad);
    }
    DangerousIff(pattern, DANGEROUS_PATTERNS);
  }

  lemma DangerousIff(s: string, parts: seq<string>)
    ensures ContainsAny(s, parts) <==> exists bad :: bad in parts && Contains(s, bad)
  {
    if bad :| bad in parts && Contains(s, bad) {
      var i :| 0 <= i < |parts| && parts[i] == bad;
    }
  }

  lemma ComparisonIsAcceptedIff(lib: Library, n: Node)
    requires n.Comparison?
    ensures Validate(lib, n).None? <==> Acceptable(lib, n)
  {
    PatternIsSafeIff(lib, ValueText(n.value));
  }

  /** A tree of the grammar is accepted exactly when each of its comparisons is acceptable. */
  lemma {:induction false} AcceptedIffLeaves(lib: Library, n: Node)
    requires WellFormed(n)
    ensures Validate(lib, n).None? <==> forall c <- Leaves(n) :: Acceptable(lib, c)
  {
    if n.Comparison? {
      ComparisonIsAcceptedIff(lib, n);
    } else {
      AcceptedIffLeaves(lib, n.left);
      if n.connective != Negation {
        AcceptedIffLeaves(lib, n.right);
      }
    }
  }
}
