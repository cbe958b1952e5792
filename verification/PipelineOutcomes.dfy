/** What becomes of clients without a verified cookie: which decisions are offered, and what
    they and the scores lead to. */
module PipelineOutcomes {
  import opened Outcomes
  import opened Decisions
  import opened Scoring
  import opened Pipeline
  import opened PipelineRuns

  /** A client that neither a cookie nor an IP rule sets apart. */
  predicate Ordinary(o: Oracle) {
    o.cookie.None? && !IpRuleApplies(o)
  }

  // ----- what phase 1 offers -----

  /** The limit that speaks first, if any does: the path may be exempt from the flood limits but
      not from the rate limit. */
  function LimiterOffer(o: Oracle): seq<Decision> {
    if !o.excludedPath && o.floodPenalty then [Decision(Challenge, "flood", "flood_penalty_active", [])]
    else if !o.excludedPath && o.attackExceeded.Some? then
      [Decision(Or(o.attackExceeded.value, Block), "flood", "attack_flood_exceeded", [])]
    else if !o.excludedPath && o.errorExceeded.Some? then
      [Decision(Or(o.errorExceeded.value, Challenge), "flood", "error_flood_exceeded", [])]
    else if !o.excludedPath && o.basicExceeded.Some? then
      [Decision(Or(o.basicExceeded.value, Challenge), "flood", "basic_access_limit", [])]
    else if o.rateExceeded.Some? then
      [Decision(Or(o.rateExceeded.value, Block), "rate_limit", "rate_limit_exceeded", [])]
    else []
  }

  function CacheOffer(o: Oracle): seq<Decision> {
    if o.cached.Some? then [o.cached.value.(skipPhases := [])] else []
  }

  /** Rule `k` is the first that fires and decides. */
  predicate DecidesFirst(rules: seq<RuleOutcome>, k: int) {
    && 0 <= k < |rules| && Fires(rules[k]) && Terminal(rules[k].action)
    && forall i | 0 <= i < k :: !(Fires(rules[i]) && Terminal(rules[i].action))
  }

  predicate NoneDecides(rules: seq<RuleOutcome>) {
    forall i | 0 <= i < |rules| :: !(Fires(rules[i]) && Terminal(rules[i].action))
  }

  function RuleDecision(r: RuleOutcome): Decision {
    Decision(r.action, "custom_rule", r.reason, [])
  }

  ghost predicate OnlySkips(offers: seq<Decision>) {
    forall i | 0 <= i < |offers| :: offers[i].action == Skip
  }

  /** Where no rule decides, the scan does what it does for a verified client. */
  lemma {:induction false} ScanWithoutDecision(c: Ctx, rules: seq<RuleOutcome>)
    requires NoneDecides(rules)
    ensures ScanRules(c, rules) == ScanRulesVerified(c, rules)
    decreases |rules|
  {
    if rules != [] {
      ScanWithoutDecision(c, rules[1..]);
      ScanWithoutDecision(SkipBy(c, rules[0]), rules[1..]);
    }
  }

  /** Where one does, the scan goes so far as that, and ends with its decision. */
  lemma {:induction false} ScanUpToDecision(c: Ctx, rules: seq<RuleOutcome>, k: nat)
    requires DecidesFirst(rules, k)
    ensures ScanRules(c, rules) == Called(Hard(ScanRulesVerified(c, rules[..k]), RuleDecision(rules[k])), CacheWrite)
    decreases |rules|
  {
    if k == 0 {
      assert rules[..k] == [];
    } else {
      assert rules[..k][0] == rules[0] && rules[..k][1..] == rules[1..][..k - 1];
      assert DecidesFirst(rules[1..], k - 1);
      ScanUpToDecision(c, rules[1..], k - 1);
      ScanUpToDecision(SkipBy(c, rules[0]), rules[1..], k - 1);
    }
  }

  /** The two contexts differ in the decisions and the calls alone. */
  predicate SameScope(c: Ctx, d: Ctx) {
    && d.challengePassed == c.challengePassed && d.ipRuleTerminal == c.ipRuleTerminal
    && d.skipModules == c.skipModules && d.skipPhases == c.skipPhases && d.scores == c.scores && d.total == c.total
  }

  lemma {:induction false} ScanOffersSkips(c: Ctx, rules: seq<RuleOutcome>) returns (skips: seq<Decision>)
    ensures OnlySkips(skips)
    ensures var f := ScanRulesVerified(c, rules);
            && f.offered == c.offered + skips && f.hardDecision == c.hardDecision
            && f.challengePassed == c.challengePassed && f.ipRuleTerminal == c.ipRuleTerminal
            && f.scores == c.scores && f.total == c.total
    decreases |rules|
  {
    if rules == [] {
      skips := [];
      assert c.offered + [] == c.offered;
    } else if Fires(rules[0]) && rules[0].action == Skip {
      var more := ScanOffersSkips(SkipBy(c, rules[0]), rules[1..]);
      var skip := Decision(Skip, "custom_rule", "", rules[0].skipModules);
      skips := [skip] + more;
      assert c.offered + [skip] + more == c.offered + skips;
    } else {
      skips := ScanOffersSkips(c, rules[1..]);
    }
  }

  // ----- phase 1, handler by handler -----

  predicate Plain(c: Ctx) {
    !c.challengePassed && !c.ipRuleTerminal && c.skipModules == {} && c.skipPhases == {}
  }

  lemma FloodOffers(c: Ctx, o: Oracle)
    requires Plain(c) && !c.hardDecision
    ensures SameScope(c, Flood(c, o))
    ensures var f := Flood(c, o);
            if !o.excludedPath && (o.floodPenalty || o.attackExceeded.Some? || o.errorExceeded.Some? || o.basicExceeded.Some?)
            then f.offered == c.offered + LimiterOffer(o) && f.hardDecision
            else f.offered == c.offered && !f.hardDecision
  {
  }

  /** Flood and rate limits together offer what the first limit that speaks decides, and then the
      decision is hard. */
  lemma LimitersOffer(c: Ctx, o: Oracle)
    requires Plain(c) && !c.hardDecision
    ensures var f := RateLimit(Flood(c, o), o);
            && SameScope(c, f) && f.offered == c.offered + LimiterOffer(o) && (f.hardDecision <==> LimiterOffer(o) != [])
  {
    FloodOffers(c, o);
    assert c.offered + [] == c.offered;
  }

  lemma CacheOffers(c: Ctx, o: Oracle)
    requires Plain(c)
    ensures var f := CacheCheck(c, o);
            SameScope(c, f) && f.offered == c.offered + CacheOffer(o) && f.hardDecision == c.hardDecision
  {
    assert c.offered + [] == c.offered;
  }

  /** Rule `k` of the loaded rules decides. */
  predicate RuleDecides(o: Oracle, k: nat) {
    o.rules.Some? && DecidesFirst(o.rules.value, k)
  }

  predicate NoRuleDecides(o: Oracle) {
    o.rules.None? || NoneDecides(o.rules.value)
  }

  lemma RulesOffer(c: Ctx, o: Oracle) returns (skips: seq<Decision>)
    requires Plain(c)
    ensures OnlySkips(skips)
    ensures var f := RulesEngine(c, o);
            && !f.challengePassed && !f.ipRuleTerminal && f.scores == c.scores && f.total == c.total
            && (NoRuleDecides(o) ==> f.offered == c.offered + skips && f.hardDecision == c.hardDecision
                                     && f.skipModules == VerifiedSkips(o) && f.skipPhases == VerifiedSkips(o))
            && (forall k: nat | RuleDecides(o, k) ::
                  f.offered == c.offered + skips + [RuleDecision(o.rules.value[k])] && f.hardDecision)
  {
    var d := Called(c, RuleEngine);
    if o.rules.None? {
      skips := [];
      assert c.offered + [] == c.offered;
    } else {
      var rules := o.rules.value;
      if NoneDecides(rules) {
        ScanWithoutDecision(d, rules);
        VerifiedScan(d, rules);
        skips := ScanOffersSkips(d, rules);
      } else {
        var k := FirstDecider(rules);
        ScanUpToDecision(d, rules, k);
        skips := ScanOffersSkips(d, rules[..k]);
        assert forall j: nat | RuleDecides(o, j) :: j == k;
      }
    }
  }

  lemma FirstDecider(rules: seq<RuleOutcome>) returns (k: nat)
    requires !NoneDecides(rules)
    ensures DecidesFirst(rules, k) && forall j | DecidesFirst(rules, j) :: j == k
  {
    k := 0;
    while !(Fires(rules[k]) && Terminal(rules[k].action))
      invariant k < |rules| && forall i | 0 <= i < k :: !(Fires(rules[i]) && Terminal(rules[i].action))
      decreases |rules| - k
    {
      if k + 1 == |rules| {
        assert NoneDecides(rules);
      }
      k := k + 1;
    }
  }

  /** The first two handlers have no business with an ordinary client. */
  lemma OrdinaryStart(w: Wiring, c: Ctx, o: Oracle)
    requires Wired(w) && Ordinary(o)
    ensures RunHandlers(w.phase1, c, o) == RulesEngine(CacheCheck(RateLimit(Flood(c, o), o), o), o)
  {
    TwoHandlers(w, c, o);
    RunOne(w.phase1[2..], c, o);
    RunOne(w.phase1[3..], Flood(c, o), o);
    RunOne(w.phase1[4..], RateLimit(Flood(c, o), o), o);
    RunOne(w.phase1[5..], CacheCheck(RateLimit(Flood(c, o), o), o), o);
  }

  /** Everything phase 1 offers about an ordinary client. */
  lemma Phase1Offers(w: Wiring, c: Ctx, o: Oracle) returns (skips: seq<Decision>)
    requires Wired(w) && Ordinary(o) && Plain(c) && !c.hardDecision
    ensures OnlySkips(skips)
    ensures var f := RunHandlers(w.phase1, c, o);
            var heard := c.offered + LimiterOffer(o) + CacheOffer(o) + skips;
            && !f.challengePassed && !f.ipRuleTerminal && f.scores == c.scores && f.total == c.total
            && (NoRuleDecides(o) ==> f.offered == heard && (f.hardDecision <==> LimiterOffer(o) != [])
                                     && f.skipModules == VerifiedSkips(o) && f.skipPhases == VerifiedSkips(o))
            && (forall k: nat | RuleDecides(o, k) ::
                  f.offered == heard + [RuleDecision(o.rules.value[k])] && f.hardDecision)
  {
    OrdinaryStart(w, c, o);
    LimitersOffer(c, o);
    var limited := RateLimit(Flood(c, o), o);
    CacheOffers(limited, o);
    skips := RulesOffer(CacheCheck(limited, o), o);
  }

  // ----- what is offered is heard -----

  /** The decision is on the record, and the final action ranks no lower. */
  ghost predicate Heard(w: Wiring, underAttack: bool, o: Oracle, d: Decision) {
    var f := Execute(w, Initial(underAttack), o).0;
    d in f.offered && (d.action != Skip ==> Rank(d.action) <= Rank(f.action))
  }

  lemma OfferedIsHeard(w: Wiring, underAttack: bool, o: Oracle, d: Decision)
    requires Wired(w) && o.cookie.None?
    requires d in RunHandlers(w.phase1, Initial(underAttack).(scores := NO_SCORES, total := 0), o).offered
    ensures Heard(w, underAttack, o, d)
  {
    var c0 := Initial(underAttack).(scores := NO_SCORES, total := 0);
    var c1, f := RunHandlers(w.phase1, c0, o), Execute(w, Initial(underAttack), o).0;
    InitialStarts(underAttack);
    EveryRun(w, Initial(underAttack), o);
    JudgeKeeps(w, c1, o, 0);
    assert c1.offered <= f.offered;
    ResolveAllIsEarliestHighest(f.offered);
  }

  /** The first rule that fires and decides is heard: a block rule blocks, and a challenge rule
      at least challenges. */
  lemma FiringRuleIsHeard(w: Wiring, underAttack: bool, o: Oracle, k: nat)
    requires Wired(w) && Ordinary(o) && o.rules.Some? && DecidesFirst(o.rules.value, k)
    ensures Heard(w, underAttack, o, Decision(o.rules.value[k].action, "custom_rule", o.rules.value[k].reason, []))
    ensures o.rules.value[k].action == Block ==>
              Execute(w, Initial(underAttack), o).0.action == Block
              && Execute(w, Initial(underAttack), o).0.written == [BlockPage]
    ensures o.rules.value[k].action == Challenge ==>
              var f := Execute(w, Initial(underAttack), o).0;
              f.written == if f.action == Block then [BlockPage] else [ChallengePage]
  {
    var c0 := Initial(underAttack).(scores := NO_SCORES, total := 0);
    var skips := Phase1Offers(w, c0, o);
    assert RuleDecides(o, k);
    OfferedIsHeard(w, underAttack, o, RuleDecision(o.rules.value[k]));
    InitialStarts(underAttack);
    EveryRun(w, Initial(underAttack), o);
    assert Initial(underAttack).written == [];
  }

  /** So are the limits, each unless one before it has spoken. */
  lemma LimitIsHeard(w: Wiring, underAttack: bool, o: Oracle)
    requires Wired(w) && Ordinary(o)
    ensures !o.excludedPath && o.floodPenalty ==>
              Heard(w, underAttack, o, Decision(Challenge, "flood", "flood_penalty_active", []))
    ensures !o.excludedPath && !o.floodPenalty && o.attackExceeded.Some? ==>
              Heard(w, underAttack, o, Decision(Or(o.attackExceeded.value, Block), "flood", "attack_flood_exceeded", []))
    ensures !o.excludedPath && !o.floodPenalty && o.attackExceeded.None? && o.errorExceeded.Some? ==>
              Heard(w, underAttack, o, Decision(Or(o.errorExceeded.value, Challenge), "flood", "error_flood_exceeded", []))
    ensures !o.excludedPath && !o.floodPenalty && o.attackExceeded.None? && o.errorExceeded.None? && o.basicExceeded.Some? ==>
              Heard(w, underAttack, o, Decision(Or(o.basicExceeded.value, Challenge), "flood", "basic_access_limit", []))
    ensures (o.excludedPath || (!o.floodPenalty && o.attackExceeded.None? && o.errorExceeded.None? && o.basicExceeded.None?))
            && o.rateExceeded.Some? ==>
              Heard(w, underAttack, o, Decision(Or(o.rateExceeded.value, Block), "rate_limit", "rate_limit_exceeded", []))
  {
    if LimiterOffer(o) != [] {
      SomeOfferIsHeard(w, underAttack, o, LimiterOffer(o)[0]);
    }
  }

  /** And a cached decision, whatever else was decided. */
  lemma CachedIsHeard(w: Wiring, underAttack: bool, o: Oracle)
    requires Wired(w) && Ordinary(o) && o.cached.Some?
    ensures Heard(w, underAttack, o, o.cached.value.(skipPhases := []))
  {
    SomeOfferIsHeard(w, underAttack, o, CacheOffer(o)[0]);
  }

  lemma SomeOfferIsHeard(w: Wiring, underAttack: bool, o: Oracle, d: Decision)
    requires Wired(w) && Ordinary(o) && d in LimiterOffer(o) + CacheOffer(o)
    ensures Heard(w, underAttack, o, d)
  {
    var c0 := Initial(underAttack).(scores := NO_SCORES, total := 0);
    var skips := Phase1Offers(w, c0, o);
    var heard := c0.offered + LimiterOffer(o) + CacheOffer(o) + skips;
    assert d in heard;
    if !NoRuleDecides(o) {
      var k := FirstDecider(o.rules.value);
      assert RuleDecides(o, k);
    }
    OfferedIsHeard(w, underAttack, o, d);
  }

  // ----- scores of an ordinary client -----

  function SumOf(xs: seq<int>): int {
    if xs == [] then 0 else xs[0] + SumOf(xs[1..])
  }

  function BotUnless(o: Oracle, off: bool): int {
    if off then 0 else o.botScore
  }

  function ProtocolUnless(o: Oracle, off: bool): int {
    if off then 0 else SumOf(o.protocolScores)
  }

  /** The raw scores, each detector's unless a rule has skipped it; no trust of its own. */
  function OrdinaryScores(o: Oracle, skips: set<string>): Scores {
    Scores(ReputationUnless(o, "ip_reputation" in skips), BotUnless(o, "bot" in skips),
           WafUnless(o, "waf" in skips), ProtocolUnless(o, "protocol_anomaly" in skips),
           TrustAmount(o, o.historyReduction) + TrustAmount(o, o.sessionReduction))
  }

  predicate Scored(c: Ctx, skips: set<string>) {
    !c.challengePassed && !c.ipRuleTerminal && !c.hardDecision && c.skipModules == skips && c.skipPhases == skips
  }

  predicate Totals(c: Ctx, s: Scores) {
    c.scores == s && c.total == Sum(s)
  }

  lemma {:induction false} ProtocolAdds(c: Ctx, xs: seq<int>)
    ensures var f := AddProtocolScores(c, xs);
            && f.scores == c.scores.(protocolAnomaly := c.scores.protocolAnomaly + SumOf(xs))
            && f.total == c.total + SumOf(xs)
    decreases |xs|
  {
    if xs != [] {
      ProtocolAdds(AddScore(c, ProtocolAnomaly, xs[0]), xs[1..]);
    }
  }

  lemma StepKeepsScored(h: Handler, c: Ctx, o: Oracle, skips: set<string>)
    requires Scorer(h) && Scored(c, skips)
    ensures Scored(Handle(h, c, o), skips)
  {
    ScorerKeepsVerdict(h, c, o);
  }

  lemma ReputationStep(c: Ctx, o: Oracle, skips: set<string>, s: Scores, n: int)
    requires Scored(c, skips) && Totals(c, s) && s.ipReputation == 0 && n == ReputationUnless(o, "ip_reputation" in skips)
    ensures Totals(IpReputationScorer(c, o), s.(ipReputation := n))
  {
  }

  lemma BotStep(c: Ctx, o: Oracle, skips: set<string>, s: Scores, n: int)
    requires Scored(c, skips) && Totals(c, s) && s.botDetection == 0 && n == BotUnless(o, "bot" in skips)
    ensures Totals(BotDetector(c, o), s.(botDetection := n))
  {
  }

  lemma WafStep(c: Ctx, o: Oracle, skips: set<string>, s: Scores, n: int)
    requires Scored(c, skips) && Totals(c, s) && s.wafAnomaly == 0 && n == WafUnless(o, "waf" in skips)
    ensures Totals(WafEngine(c, o), s.(wafAnomaly := n))
  {
  }

  lemma ProtocolStep(c: Ctx, o: Oracle, skips: set<string>, s: Scores, n: int)
    requires Scored(c, skips) && Totals(c, s) && s.protocolAnomaly == 0 && n == ProtocolUnless(o, "protocol_anomaly" in skips)
    ensures Totals(ProtocolDetector(c, o), s.(protocolAnomaly := n))
  {
    if "protocol_anomaly" !in skips {
      ProtocolAdds(Called(c, Detector), o.protocolScores);
    }
  }

  lemma ReduceStep(c: Ctx, o: Oracle, reduction: Option<int>, s: Scores, n: int)
    requires !c.hardDecision && Totals(c, s) && n == TrustAmount(o, reduction)
    ensures Totals(Reduce(c, o, reduction), s.(trust := s.trust + n))
  {
  }

  lemma FirstDetectors(w: Wiring, c: Ctx, o: Oracle, skips: set<string>, s: Scores, raw: Scores) returns (next: Ctx, t: Scores)
    requires Wired(w) && Scored(c, skips) && Totals(c, s) && s.ipReputation == s.botDetection == 0 && raw == OrdinaryScores(o, skips)
    ensures RunHandlers(w.phase2, c, o) == RunHandlers(w.phase2[2..], next, o)
    ensures Scored(next, skips) && Totals(next, t)
    ensures t == s.(ipReputation := raw.ipReputation, botDetection := raw.botDetection)
  {
    RunOne(w.phase2, c, o);
    ReputationStep(c, o, skips, s, raw.ipReputation);
    StepKeepsScored(IpReputationH, c, o, skips);
    next := IpReputationScorer(c, o);
    RunOne(w.phase2[1..], next, o);
    BotStep(next, o, skips, next.scores, raw.botDetection);
    StepKeepsScored(BotDetectionH, next, o, skips);
    next := BotDetector(next, o);
    t := next.scores;
  }

  lemma OtherDetectors(w: Wiring, c: Ctx, o: Oracle, skips: set<string>, s: Scores, raw: Scores) returns (next: Ctx, t: Scores)
    requires Wired(w) && Scored(c, skips) && Totals(c, s) && s.wafAnomaly == s.protocolAnomaly == 0 && raw == OrdinaryScores(o, skips)
    ensures RunHandlers(w.phase2[2..], c, o) == RunHandlers(w.phase2[4..], next, o)
    ensures Scored(next, skips) && Totals(next, t)
    ensures t == s.(wafAnomaly := raw.wafAnomaly, protocolAnomaly := raw.protocolAnomaly)
  {
    RunOne(w.phase2[2..], c, o);
    WafStep(c, o, skips, s, raw.wafAnomaly);
    StepKeepsScored(WafH, c, o, skips);
    next := WafEngine(c, o);
    RunOne(w.phase2[3..], next, o);
    ProtocolStep(next, o, skips, next.scores, raw.protocolAnomaly);
    StepKeepsScored(ProtocolH, next, o, skips);
    next := ProtocolDetector(next, o);
    t := next.scores;
  }

  lemma OrdinaryTrust(w: Wiring, c: Ctx, o: Oracle, skips: set<string>, s: Scores)
    requires Wired(w) && Scored(c, skips) && Totals(c, s) && s.trust == 0
    ensures Totals(RunHandlers(w.phase2[4..], c, o), s.(trust := OrdinaryScores(o, skips).trust))
  {
    RunOne(w.phase2[4..], c, o);
    ReduceStep(c, o, o.historyReduction, s, TrustAmount(o, o.historyReduction));
    StepKeepsScored(TrustedHistory, c, o, skips);
    var c1 := Reduce(c, o, o.historyReduction);
    RunOne(w.phase2[5..], c1, o);
    ReduceStep(c1, o, o.sessionReduction, c1.scores, TrustAmount(o, o.sessionReduction));
    StepKeepsScored(StableSession, c1, o, skips);
    var c2 := Reduce(c1, o, o.sessionReduction);
    RunOne(w.phase2[6..], c2, o);
    assert w.phase2[7..] == [];
  }

  /** The handlers of phase 2 bring up just these scores. */
  lemma OrdinaryScored(w: Wiring, c: Ctx, o: Oracle, skips: set<string>)
    requires Wired(w) && Scored(c, skips) && Totals(c, NO_SCORES)
    ensures Totals(RunHandlers(w.phase2, c, o), OrdinaryScores(o, skips))
  {
    var raw := OrdinaryScores(o, skips);
    var c1, s1 := FirstDetectors(w, c, o, skips, c.scores, raw);
    var c2, s2 := OtherDetectors(w, c1, o, skips, s1, raw);
    OrdinaryTrust(w, c2, o, skips, s2);
  }

  // ----- when nothing speaks up, the score decides -----

  /** No limit is exceeded, nothing is cached and no rule decides. */
  predicate Quiet(o: Oracle) {
    && (o.excludedPath || (!o.floodPenalty && o.attackExceeded.None? && o.errorExceeded.None? && o.basicExceeded.None?))
    && o.rateExceeded.None? && o.cached.None?
    && (o.rules.Some? ==> forall i | 0 <= i < |o.rules.value| ::
          var r := o.rules.value[i];
          !(r.enabled && r.matched == Some(true) && (r.action == Allow || r.action == Block || r.action == Challenge)))
  }

  lemma QuietPhase1(w: Wiring, c: Ctx, o: Oracle)
    requires Wired(w) && Ordinary(o) && Quiet(o) && Plain(c) && !c.hardDecision && c.scores == NO_SCORES && c.total == 0
    ensures var f := RunHandlers(w.phase1, c, o);
            && Scored(f, VerifiedSkips(o)) && f.scores == NO_SCORES && f.total == 0
            && exists skips :: OnlySkips(skips) && f.offered == c.offered + skips
  {
    var skips := Phase1Offers(w, c, o);
    assert LimiterOffer(o) == [] && CacheOffer(o) == [] && NoRuleDecides(o);
    assert c.offered + [] + [] + skips == c.offered + skips;
  }

  lemma {:induction false} SkipsChangeNothing(offers: seq<Decision>, skips: seq<Decision>)
    requires OnlySkips(skips)
    ensures ResolveAll(offers + skips) == ResolveAll(offers)
    decreases |skips|
  {
    if skips == [] {
      assert offers + skips == offers;
    } else {
      var n := |skips| - 1;
      assert (offers + skips)[..|offers + skips| - 1] == offers + skips[..n];
      SkipsChangeNothing(offers, skips[..n]);
    }
  }

  /** The total a quiet, ordinary request is judged by. */
  function JudgedScore(o: Oracle, cfg: ScoringConfig): int {
    Clamp(Sum(WeighedScores(OrdinaryScores(o, VerifiedSkips(o)), cfg.weights)))
  }

  lemma VerdictOfTotal(c: Ctx, o: Oracle, raw: Scores)
    requires !c.hardDecision && c.scores == raw && c.total == Sum(raw) && c.action == c.current.action
    requires c.current.action == NoAction || c.current.action == Challenge
    ensures var f := DecisionEngine(Weigh(c, o), o);
            f.action == if c.action == Challenge || o.scoring.None? then c.action
                        else
                          var total := Clamp(Sum(WeighedScores(raw, o.scoring.value.weights)));
                          if total >= o.scoring.value.thresholds.block then Block
                          else if total >= o.scoring.value.thresholds.challenge then Challenge
                          else c.action
  {
  }

  lemma QuietJudged(w: Wiring, c: Ctx, o: Oracle, skips: set<string>)
    requires Wired(w) && Scored(c, skips) && c.scores == NO_SCORES && c.total == 0 && c.action == c.current.action
    requires c.current.action == NoAction || c.current.action == Challenge
    ensures var raw := OrdinaryScores(o, skips);
            Judge(w, c, o).action ==
              if c.action == Challenge || o.scoring.None? then c.action
              else
                var total := Clamp(Sum(WeighedScores(raw, o.scoring.value.weights)));
                if total >= o.scoring.value.thresholds.block then Block
                else if total >= o.scoring.value.thresholds.challenge then Challenge
                else c.action
  {
    OrdinaryScored(w, c, o, skips);
    WiredScoresInPhase2(w);
    ScoringKeepsVerdict(w.phase2, c, o);
    VerdictOfTotal(RunHandlers(w.phase2, c, o), o, OrdinaryScores(o, skips));
  }

  /** A quiet request of an ordinary client: under attack mode it is challenged; otherwise its
      weighted score decides, and below both thresholds nothing is done about it. */
  lemma QuietOutcome(w: Wiring, underAttack: bool, o: Oracle)
    requires Wired(w) && Ordinary(o) && Quiet(o)
    ensures var f := Execute(w, Initial(underAttack), o).0;
            && f.action == (if underAttack then Challenge
                            else if o.scoring.None? then NoAction
                            else if JudgedScore(o, o.scoring.value) >= o.scoring.value.thresholds.block then Block
                            else if JudgedScore(o, o.scoring.value) >= o.scoring.value.thresholds.challenge then Challenge
                            else NoAction)
            && f.written == (if f.action == Block then [BlockPage] else if f.action == Challenge then [ChallengePage] else [])
  {
    var c, c0 := Initial(underAttack), Initial(underAttack).(scores := NO_SCORES, total := 0);
    var c1 := RunHandlers(w.phase1, c0, o);
    InitialStarts(underAttack);
    EveryRun(w, c, o);
    QuietPhase1(w, c0, o);
    Phase1Keeps(w, c0, o);
    var skips :| OnlySkips(skips) && c1.offered == c0.offered + skips;
    SkipsChangeNothing(c0.offered, skips);
    QuietJudged(w, c1, o, VerifiedSkips(o));
  }
}
