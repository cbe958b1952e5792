/** The mutable request context and the handlers that work on it, each proved to take the
    step of the pipeline model. */
module PipelineContext {
  import opened Outcomes
  import opened Decisions
  import opened Scoring
  import P = Pipeline
  import R = PipelineRuns

  class Context {
    var action: Action
    var reason: string
    var currentDecision: Decision
    var skipPhases: set<string>
    var skipModules: set<string>
    var ipRuleTerminal: bool
    var challengePassed: bool
    var trustLevel: int
    var cacheHit: bool
    var hardDecision: bool
    var riskScore: RiskScore
    var written: seq<P.Writer>
    ghost var offered: seq<Decision>
    ghost var calls: seq<P.Call>

    ghost function View(): P.Ctx
      reads this, riskScore
    {
      P.Ctx(action, reason, currentDecision, skipPhases, skipModules, ipRuleTerminal, challengePassed, trustLevel,
            cacheHit, hardDecision, riskScore.byCategory, riskScore.total, offered, calls, written)
    }

    constructor ()
      ensures View() == P.EMPTY && fresh(riskScore)
    {
      action, reason, currentDecision := NoAction, "", NO_DECISION;
      skipPhases, skipModules := {}, {};
      ipRuleTerminal, challengePassed, trustLevel, cacheHit, hardDecision := false, false, 0, false, false;
      riskScore := new RiskScore();
      written, offered, calls := [], [], [];
    }

    method AddSkipPhases(phases: seq<string>)
      modifies this`skipPhases
      ensures skipPhases == old(skipPhases) + set p | p in phases
    {
      for i := 0 to |phases|
        invariant skipPhases == old(skipPhases) + set k | 0 <= k < i :: phases[k]
      {
        skipPhases := skipPhases + {phases[i]};
      }
      assert (set p | p in phases) == set k | 0 <= k < |phases| :: phases[k];
    }

    method AddDecision(d: Decision)
      modifies this
      ensures View() == P.AddDecision(old(View()), d) && riskScore == old(riskScore)
    {
      offered := offered + [d];
      if d.action == Skip {
        AddSkipPhases(d.skipPhases);
        return;
      }
      currentDecision := Resolve(currentDecision, d);
      action := currentDecision.action;
      reason := currentDecision.reason;
    }

    method AddSkipModules(modules: seq<string>)
      modifies this
      ensures View() == P.AddSkipModules(old(View()), modules) && riskScore == old(riskScore)
    {
      for i := 0 to |modules|
        invariant riskScore == old(riskScore)
        invariant View() == old(View()).(skipModules := old(skipModules) + set k | 0 <= k < i :: modules[k])
      {
        skipModules := skipModules + {modules[i]};
      }
      assert (set m | m in modules) == set k | 0 <= k < |modules| :: modules[k];
    }

    method AddScore(category: Category, rule: string, score: int)
      modifies riskScore
      ensures View() == P.AddScore(old(View()), category, score)
    {
      riskScore.Add(category, rule, score);
    }

    method DecideHard(d: Decision)
      modifies this
      ensures View() == P.Hard(old(View()), d) && riskScore == old(riskScore)
    {
      AddDecision(d);
      hardDecision := true;
    }
  }

  method ValidateChallenge(ctx: Context, o: P.Oracle)
    modifies ctx
    ensures ctx.View() == P.ChallengeValidator(old(ctx.View()), o) && ctx.riskScore == old(ctx.riskScore)
  {
    if o.cookie.Some? {
      ctx.challengePassed := true;
      ctx.trustLevel := o.cookie.value;
      ctx.action := NoAction;
      ctx.reason := "";
    }
  }

  method CheckIpAccess(ctx: Context, o: P.Oracle)
    modifies ctx
    ensures ctx.View() == P.IpAccess(old(ctx.View()), o) && ctx.riskScore == old(ctx.riskScore)
  {
    if !o.ipRule.Matched? || !o.ipRule.enabled {
      return;
    }
    ctx.AddDecision(Decision(o.ipRule.action, "ip_access_rule", "ip_access_rule:" + o.ipRule.description, []));
    ctx.ipRuleTerminal := true;
    ctx.hardDecision := true;
  }

  method CheckFlood(ctx: Context, o: P.Oracle)
    modifies ctx
    ensures ctx.View() == P.Flood(old(ctx.View()), o) && ctx.riskScore == old(ctx.riskScore)
  {
    if ctx.hardDecision || "flood" in ctx.skipModules || ctx.ipRuleTerminal || ctx.challengePassed || o.excludedPath {
      return;
    }
    ctx.calls := ctx.calls + [P.FloodState];
    if o.floodPenalty {
      ctx.DecideHard(Decision(Challenge, "flood", "flood_penalty_active", []));
    } else if o.attackExceeded.Some? {
      var action := if o.attackExceeded.value == NoAction then Block else o.attackExceeded.value;
      ctx.DecideHard(Decision(action, "flood", "attack_flood_exceeded", []));
    } else if o.errorExceeded.Some? {
      var action := if o.errorExceeded.value == NoAction then Challenge else o.errorExceeded.value;
      ctx.DecideHard(Decision(action, "flood", "error_flood_exceeded", []));
    } else if o.basicExceeded.Some? {
      var action := if o.basicExceeded.value == NoAction then Challenge else o.basicExceeded.value;
      ctx.DecideHard(Decision(action, "flood", "basic_access_limit", []));
    }
  }

  method CheckRateLimit(ctx: Context, o: P.Oracle)
    modifies ctx
    ensures ctx.View() == P.RateLimit(old(ctx.View()), o) && ctx.riskScore == old(ctx.riskScore)
  {
    if ctx.hardDecision || "rate_limit" in ctx.skipModules || ctx.ipRuleTerminal || ctx.challengePassed {
      return;
    }
    ctx.calls := ctx.calls + [P.RateLimiter];
    if o.rateExceeded.Some? {
      var action := if o.rateExceeded.value == NoAction then Block else o.rateExceeded.value;
      ctx.DecideHard(Decision(action, "rate_limit", "rate_limit_exceeded", []));
    }
  }

  method CheckCache(ctx: Context, o: P.Oracle)
    modifies ctx
    ensures ctx.View() == P.CacheCheck(old(ctx.View()), o) && ctx.riskScore == old(ctx.riskScore)
  {
    if ctx.ipRuleTerminal || ctx.challengePassed {
      return;
    }
    ctx.calls := ctx.calls + [P.DecisionCache];
    if o.cached.Some? {
      ctx.AddDecision(Decision(o.cached.value.action, o.cached.value.source, o.cached.value.reason, []));
      ctx.cacheHit := true;
    }
  }

  method SkipModulesOf(ctx: Context, r: P.RuleOutcome)
    modifies ctx
    ensures ctx.View() == P.SkipBy(old(ctx.View()), r) && ctx.riskScore == old(ctx.riskScore)
  {
    ctx.AddDecision(Decision(Skip, "custom_rule", "", r.skipModules));
    ctx.AddSkipModules(r.skipModules);
  }

  method EvaluateRules(ctx: Context, rules: seq<P.RuleOutcome>)
    modifies ctx
    ensures ctx.View() == P.ScanRules(old(ctx.View()), rules) && ctx.riskScore == old(ctx.riskScore)
  {
    for i := 0 to |rules|
      invariant ctx.riskScore == old(ctx.riskScore)
      invariant P.ScanRules(old(ctx.View()), rules) == P.ScanRules(ctx.View(), rules[i..])
    {
      var r := rules[i];
      assert rules[i..][0] == r && rules[i..][1..] == rules[i + 1..];
      if r.enabled && r.matched == Some(true) {
        if r.action == Allow || r.action == Block || r.action == Challenge {
          ctx.DecideHard(Decision(r.action, "custom_rule", r.reason, []));
          ctx.calls := ctx.calls + [P.CacheWrite];
          return;
        } else if r.action == Skip {
          SkipModulesOf(ctx, r);
        }
      }
    }
    assert rules[|rules|..] == [];
  }

  method EvaluateRulesVerified(ctx: Context, rules: seq<P.RuleOutcome>)
    modifies ctx
    ensures ctx.View() == P.ScanRulesVerified(old(ctx.View()), rules) && ctx.riskScore == old(ctx.riskScore)
  {
    for i := 0 to |rules|
      invariant ctx.riskScore == old(ctx.riskScore)
      invariant P.ScanRulesVerified(old(ctx.View()), rules) == P.ScanRulesVerified(ctx.View(), rules[i..])
    {
      var r := rules[i];
      assert rules[i..][0] == r && rules[i..][1..] == rules[i + 1..];
      if r.enabled && r.matched == Some(true) && r.action == Skip {
        SkipModulesOf(ctx, r);
      }
    }
    assert rules[|rules|..] == [];
  }

  method CheckRules(ctx: Context, o: P.Oracle)
    modifies ctx
    ensures ctx.View() == P.RulesEngine(old(ctx.View()), o) && ctx.riskScore == old(ctx.riskScore)
  {
    if ctx.ipRuleTerminal {
      return;
    }
    ctx.calls := ctx.calls + [P.RuleEngine];
    if o.rules.None? {
      return;
    }
    if ctx.challengePassed {
      EvaluateRulesVerified(ctx, o.rules.value);
    } else {
      EvaluateRules(ctx, o.rules.value);
    }
  }

  method ScoreIpReputation(ctx: Context, o: P.Oracle)
    modifies ctx, ctx.riskScore
    ensures ctx.View() == P.IpReputationScorer(old(ctx.View()), o) && ctx.riskScore == old(ctx.riskScore)
  {
    if ctx.hardDecision || "ip_reputation" in ctx.skipModules {
      return;
    }
    if o.scoring.Some? && !o.scoring.value.weights.ipReputation.enabled {
      return;
    }
    ctx.calls := ctx.calls + [P.Detector];
    var maxScore := 25;
    if o.scoring.Some? {
      maxScore := o.scoring.value.weights.ipReputation.maxScore;
    }
    var score := o.ipReputation;
    if score > maxScore {
      score := maxScore;
    }
    if score > 0 {
      ctx.AddScore(IpReputation, "ip_reputation", score);
    }
  }

  method ScoreBot(ctx: Context, o: P.Oracle)
    modifies ctx, ctx.riskScore
    ensures ctx.View() == P.BotDetector(old(ctx.View()), o) && ctx.riskScore == old(ctx.riskScore)
  {
    if ctx.ipRuleTerminal || ctx.challengePassed || "bot" in ctx.skipModules || "bot" in ctx.skipPhases {
      return;
    }
    ctx.calls := ctx.calls + [P.Detector];
    ctx.AddScore(BotDetection, "bot_composite", o.botScore);
  }

  method ScoreWaf(ctx: Context, o: P.Oracle)
    modifies ctx, ctx.riskScore
    ensures ctx.View() == P.WafEngine(old(ctx.View()), o) && ctx.riskScore == old(ctx.riskScore)
  {
    if ctx.ipRuleTerminal || "waf" in ctx.skipModules || "waf" in ctx.skipPhases {
      return;
    }
    ctx.calls := ctx.calls + [P.Detector];
    if o.wafScore > 0 {
      ctx.AddScore(WafAnomaly, "owasp_crs", o.wafScore);
    }
  }

  method ScoreProtocol(ctx: Context, o: P.Oracle)
    modifies ctx, ctx.riskScore
    ensures ctx.View() == P.ProtocolDetector(old(ctx.View()), o) && ctx.riskScore == old(ctx.riskScore)
  {
    if ctx.hardDecision || ctx.challengePassed || "protocol_anomaly" in ctx.skipModules || "protocol_anomaly" in ctx.skipPhases {
      return;
    }
    ctx.calls := ctx.calls + [P.Detector];
    ghost var goal := P.AddProtocolScores(ctx.View(), o.protocolScores);
    for i := 0 to |o.protocolScores|
      invariant ctx.riskScore == old(ctx.riskScore)
      invariant goal == P.AddProtocolScores(ctx.View(), o.protocolScores[i..])
    {
      assert o.protocolScores[i..][1..] == o.protocolScores[i + 1..];
      ctx.AddScore(ProtocolAnomaly, "protocol_anomaly", o.protocolScores[i]);
    }
    assert o.protocolScores[|o.protocolScores|..] == [];
  }

  method ScoreReduction(ctx: Context, o: P.Oracle, rule: string, reduction: Option<int>)
    modifies ctx, ctx.riskScore
    ensures ctx.View() == P.Reduce(old(ctx.View()), o, reduction) && ctx.riskScore == old(ctx.riskScore)
  {
    if ctx.hardDecision || o.scoring.None? {
      return;
    }
    ctx.calls := ctx.calls + [P.Detector];
    if reduction.Some? {
      ctx.AddScore(Trust, rule, reduction.value);
    }
  }

  method ScoreTrust(ctx: Context, o: P.Oracle)
    modifies ctx, ctx.riskScore
    ensures ctx.View() == P.TrustScorer(old(ctx.View()), o) && ctx.riskScore == old(ctx.riskScore)
  {
    if ctx.hardDecision || o.scoring.None? || !ctx.challengePassed {
      return;
    }
    ctx.calls := ctx.calls + [P.Detector];
    var reduction := 0;
    if 0 <= ctx.trustLevel <= 3 && ctx.trustLevel < |o.trustReductions| {
      reduction := o.trustReductions[ctx.trustLevel];
    }
    if reduction != 0 {
      ctx.AddScore(Trust, "challenge_trust_level", reduction);
    }
  }

  method HandleBy(h: P.Handler, ctx: Context, o: P.Oracle)
    modifies ctx, ctx.riskScore
    ensures ctx.View() == P.Handle(h, old(ctx.View()), o) && ctx.riskScore == old(ctx.riskScore)
  {
    match h
    case CookieCheck => ValidateChallenge(ctx, o);
    case IpRules => CheckIpAccess(ctx, o);
    case FloodProtection => CheckFlood(ctx, o);
    case RateLimiting => CheckRateLimit(ctx, o);
    case CacheLookup => CheckCache(ctx, o);
    case CustomRules => CheckRules(ctx, o);
    case IpReputationH => ScoreIpReputation(ctx, o);
    case BotDetectionH => ScoreBot(ctx, o);
    case WafH => ScoreWaf(ctx, o);
    case ProtocolH => ScoreProtocol(ctx, o);
    case TrustedHistory => ScoreReduction(ctx, o, "trusted_history", o.historyReduction);
    case StableSession => ScoreReduction(ctx, o, "stable_session", o.sessionReduction);
    case TrustLevel => ScoreTrust(ctx, o);
  }

  method RunPhase(hs: seq<P.Handler>, ctx: Context, o: P.Oracle)
    modifies ctx, ctx.riskScore
    ensures ctx.View() == P.RunHandlers(hs, old(ctx.View()), o) && ctx.riskScore == old(ctx.riskScore)
  {
    for i := 0 to |hs|
      invariant ctx.riskScore == old(ctx.riskScore)
      invariant P.RunHandlers(hs, old(ctx.View()), o) == P.RunHandlers(hs[i..], ctx.View(), o)
    {
      P.RunOne(hs[i..], ctx.View(), o);
      assert hs[i..][1..] == hs[i + 1..];
      HandleBy(hs[i], ctx, o);
    }
    assert hs[|hs|..] == [];
  }

  method Decide(ctx: Context, o: P.Oracle)
    modifies ctx
    ensures ctx.View() == P.DecisionEngine(old(ctx.View()), o) && ctx.riskScore == old(ctx.riskScore)
  {
    if ctx.hardDecision || ctx.action == Block || ctx.action == Challenge || o.scoring.None? {
      return;
    }
    var score := ctx.riskScore.total;
    var thresholds := o.scoring.value.thresholds;
    if score >= thresholds.block {
      ctx.AddDecision(Decision(Block, "scoring_engine", o.scoreReason, []));
    } else if score >= thresholds.challenge {
      ctx.AddDecision(Decision(Challenge, "scoring_engine", o.scoreReason, []));
    }
  }

  method ServeBlock(ctx: Context) returns (answered: bool)
    modifies ctx
    ensures answered <==> old(ctx.action) == Block
    ensures ctx.View() == (if answered then P.Write(old(ctx.View()), P.BlockPage) else old(ctx.View()))
    ensures ctx.riskScore == old(ctx.riskScore)
  {
    if ctx.action != Block {
      return false;
    }
    ctx.written := ctx.written + [P.BlockPage];
    return true;
  }

  method ServeChallenge(ctx: Context) returns (answered: bool)
    modifies ctx
    ensures answered <==> !old(ctx.challengePassed) && (old(ctx.action) == Block || old(ctx.action) == Challenge)
    ensures ctx.View() == (if !answered then old(ctx.View())
                           else P.Write(old(ctx.View()), if old(ctx.action) == Block then P.AccessDenied else P.ChallengePage))
    ensures ctx.riskScore == old(ctx.riskScore)
  {
    if ctx.challengePassed {
      return false;
    }
    match ctx.action
    case Block =>
      ctx.written := ctx.written + [P.AccessDenied];
      return true;
    case Challenge =>
      ctx.written := ctx.written + [P.ChallengePage];
      return true;
    case _ => return false;
  }

  method Respond(ctx: Context) returns (answered: bool)
    modifies ctx
    ensures (ctx.View(), answered) == P.Phase4(old(ctx.View())) && ctx.riskScore == old(ctx.riskScore)
  {
    answered := ServeBlock(ctx);
    if !answered {
      answered := ServeChallenge(ctx);
    }
  }

  /** The whole pipeline; true stands for the response having been written. */
  method Execute(w: P.Wiring, ctx: Context, o: P.Oracle) returns (answered: bool)
    modifies ctx
    ensures (ctx.View(), answered) == P.Execute(w, old(ctx.View()), o)
    ensures P.Wired(w) && P.Starts(old(ctx.View())) ==> Concluded(ctx, answered, old(ctx.View()))
  {
    RunPhases(w, ctx, o);
    answered := Respond(ctx);
    if P.Wired(w) {
      ConcludedFrom(w, ctx, answered, old(ctx.View()), o);
    }
  }

  /** What a finished run leaves in the object: a page is written exactly for a block, or for a
      challenge of a client that is not verified, and then just one; the current decision is the
      earliest of the highest-ranked that were offered; and the risk total is the clamped sum of
      its categories. */
  ghost predicate Concluded(ctx: Context, answered: bool, before: P.Ctx)
    reads ctx, ctx.riskScore
  {
    && (answered <==> ctx.action == Block || (ctx.action == Challenge && !ctx.challengePassed))
    && ctx.written == before.written
                      + (if !answered then [] else if ctx.action == Block then [P.BlockPage] else [P.ChallengePage])
    && before.offered <= ctx.offered && ctx.currentDecision == ResolveAll(ctx.offered)
    && Rank(before.current.action) <= Rank(ctx.currentDecision.action)
    && (!ctx.challengePassed ==> ctx.action == ctx.currentDecision.action)
    && ctx.riskScore.total == Clamp(Sum(ctx.riskScore.byCategory))
  }

  lemma ConcludedFrom(w: P.Wiring, ctx: Context, answered: bool, before: P.Ctx, o: P.Oracle)
    requires P.Wired(w) && (ctx.View(), answered) == P.Execute(w, before, o)
    ensures P.Starts(before) ==> Concluded(ctx, answered, before)
  {
    R.WiredScoresInPhase2(w);
    R.RunTotal(w, before, o);
    if P.Starts(before) {
      P.EveryRun(w, before, o);
    }
  }

  /** The phases before the response. */
  method RunPhases(w: P.Wiring, ctx: Context, o: P.Oracle)
    modifies ctx
    ensures ctx.View() == P.Judge(w, P.RunHandlers(w.phase1, old(ctx.View()).(scores := NO_SCORES, total := 0), o), o)
  {
    ctx.riskScore := new RiskScore();
    RunPhase(w.phase1, ctx, o);
    if ctx.hardDecision {
      return;
    }
    RunPhase(w.phase2, ctx, o);
    Weigh(ctx, o);
    Decide(ctx, o);
  }

  method Weigh(ctx: Context, o: P.Oracle)
    modifies ctx.riskScore
    ensures ctx.View() == P.Weigh(old(ctx.View()), o)
  {
    if o.scoring.Some? {
      ctx.riskScore.ApplyWeights(o.scoring.value.weights);
    }
    ctx.riskScore.ClampTotal();
  }
}
