/** The four-phase request pipeline as steps on the request context.  What detectors,
    stores and configuration answer is fixed up front in an oracle. */
module Pipeline {
  import opened Outcomes
  import opened Decisions
  import opened Scoring

  /** The stateful parts of the system a handler may consult or change. */
  datatype Call = FloodState | RateLimiter | DecisionCache | RuleEngine | CacheWrite | Detector

  datatype Writer = BlockPage | ChallengePage | AccessDenied

  datatype Ctx = Ctx(
    action: Action,
    reason: string,
    current: Decision,
    skipPhases: set<string>,
    skipModules: set<string>,
    ipRuleTerminal: bool,
    challengePassed: bool,
    trustLevel: int,
    cacheHit: bool,
    hardDecision: bool,
    scores: Scores,
    total: int,
    offered: seq<Decision>,
    calls: seq<Call>,
    written: seq<Writer>)

  datatype IpLookup = LookupFailed | NoMatch | Matched(action: Action, description: string, enabled: bool)

  /** A custom rule and what evaluating it yields; `None` when evaluation fails. */
  datatype RuleOutcome = RuleOutcome(
    enabled: bool, matched: Option<bool>, action: Action, reason: string, skipModules: seq<string>)

  datatype Oracle = Oracle(
    cookie: Option<nat>,                    // trust level of a valid challenge cookie
    ipRule: IpLookup,
    excludedPath: bool,
    floodPenalty: bool,
    attackExceeded: Option<Action>,         // configured action, when enabled and over the limit
    errorExceeded: Option<Action>,
    basicExceeded: Option<Action>,
    rateExceeded: Option<Action>,
    cached: Option<Decision>,
    rules: Option<seq<RuleOutcome>>,        // None when loading fails
    ipReputation: int,
    botScore: int,
    wafScore: int,
    protocolScores: seq<int>,
    historyReduction: Option<int>,
    sessionReduction: Option<int>,
    trustReductions: seq<int>,
    scoring: Option<ScoringConfig>,
    scoreReason: string)

  // ----- the context -----

  const EMPTY := Ctx(NoAction, "", NO_DECISION, {}, {}, false, false, 0, false, false, NO_SCORES, 0, [], [], [])

  function AddDecision(c: Ctx, d: Decision): Ctx {
    if d.action == Skip then
      c.(skipPhases := c.skipPhases + (set p | p in d.skipPhases), offered := c.offered + [d])
    else
      var r := Resolve(c.current, d);
      c.(current := r, action := r.action, reason := r.reason, offered := c.offered + [d])
  }

  function AddSkipModules(c: Ctx, modules: seq<string>): Ctx {
    c.(skipModules := c.skipModules + set m | m in modules)
  }

  function AddScore(c: Ctx, category: Category, score: int): Ctx {
    c.(scores := Set(c.scores, category, Get(c.scores, category) + score), total := c.total + score)
  }

  function Called(c: Ctx, call: Call): Ctx {
    c.(calls := c.calls + [call])
  }

  /** A context as the pipeline receives it: under attack mode has already asked for a challenge. */
  function Initial(underAttack: bool): Ctx {
    if underAttack then AddDecision(EMPTY, Decision(Challenge, "under_attack_mode", "under_attack_mode", [])) else EMPTY
  }

  // ----- phase 1 -----

  function ChallengeValidator(c: Ctx, o: Oracle): Ctx {
    match o.cookie
    case None => c
    case Some(level) => c.(challengePassed := true, trustLevel := level, action := NoAction, reason := "")
  }

  function IpDecision(o: Oracle): Decision
    requires o.ipRule.Matched?
  {
    Decision(o.ipRule.action, "ip_access_rule", "ip_access_rule:" + o.ipRule.description, [])
  }

  predicate IpRuleApplies(o: Oracle) {
    o.ipRule.Matched? && o.ipRule.enabled
  }

  function IpAccess(c: Ctx, o: Oracle): Ctx {
    if !IpRuleApplies(o) then c
    else AddDecision(c, IpDecision(o)).(ipRuleTerminal := true, hardDecision := true)
  }

  function Or(a: Action, default: Action): Action {
    if a == NoAction then default else a
  }

  function Hard(c: Ctx, d: Decision): Ctx {
    AddDecision(c, d).(hardDecision := true)
  }

  function Flood(c: Ctx, o: Oracle): Ctx {
    if c.hardDecision || "flood" in c.skipModules || c.ipRuleTerminal || c.challengePassed || o.excludedPath then c
    else
      var c := Called(c, FloodState);
      if o.floodPenalty then Hard(c, Decision(Challenge, "flood", "flood_penalty_active", []))
      else if o.attackExceeded.Some? then
        Hard(c, Decision(Or(o.attackExceeded.value, Block), "flood", "attack_flood_exceeded", []))
      else if o.errorExceeded.Some? then
        Hard(c, Decision(Or(o.errorExceeded.value, Challenge), "flood", "error_flood_exceeded", []))
      else if o.basicExceeded.Some? then
        Hard(c, Decision(Or(o.basicExceeded.value, Challenge), "flood", "basic_access_limit", []))
      else c
  }

  function RateLimit(c: Ctx, o: Oracle): Ctx {
    if c.hardDecision || "rate_limit" in c.skipModules || c.ipRuleTerminal || c.challengePassed then c
    else
      var c := Called(c, RateLimiter);
      if o.rateExceeded.None? then c
      else Hard(c, Decision(Or(o.rateExceeded.value, Block), "rate_limit", "rate_limit_exceeded", []))
  }

  /** Unlike the limiters, runs even after a hard decision. */
  function CacheCheck(c: Ctx, o: Oracle): Ctx {
    if c.ipRuleTerminal || c.challengePassed then c
    else
      var c := Called(c, DecisionCache);
      if o.cached.None? then c
      else AddDecision(c, o.cached.value.(skipPhases := [])).(cacheHit := true)
  }

  predicate Fires(r: RuleOutcome) {
    r.enabled && r.matched == Some(true)
  }

  predicate Terminal(a: Action) {
    a == Allow || a == Block || a == Challenge
  }

  function SkipBy(c: Ctx, r: RuleOutcome): Ctx {
    AddSkipModules(AddDecision(c, Decision(Skip, "custom_rule", "", r.skipModules)), r.skipModules)
  }

  /** The first firing terminal rule decides and ends the scan. */
  function ScanRules(c: Ctx, rules: seq<RuleOutcome>): Ctx
    decreases |rules|
  {
    if rules == [] then c
    else
      var r := rules[0];
      if !Fires(r) then ScanRules(c, rules[1..])
      else if Terminal(r.action) then
        Called(Hard(c, Decision(r.action, "custom_rule", r.reason, [])), CacheWrite)
      else if r.action == Skip then ScanRules(SkipBy(c, r), rules[1..])
      else ScanRules(c, rules[1..])
  }

  /** For a verified client only skip rules have an effect. */
  function ScanRulesVerified(c: Ctx, rules: seq<RuleOutcome>): Ctx
    decreases |rules|
  {
    if rules == [] then c
    else if Fires(rules[0]) && rules[0].action == Skip then ScanRulesVerified(SkipBy(c, rules[0]), rules[1..])
    else ScanRulesVerified(c, rules[1..])
  }

  function RulesEngine(c: Ctx, o: Oracle): Ctx {
    if c.ipRuleTerminal then c
    else
      var c := Called(c, RuleEngine);
      if o.rules.None? then c
      else if c.challengePassed then ScanRulesVerified(c, o.rules.value)
      else ScanRules(c, o.rules.value)
  }

  // ----- phase 2 -----

  function Skipped(c: Ctx, module_: string): bool {
    module_ in c.skipModules || module_ in c.skipPhases
  }

  function IpReputationScore(o: Oracle): int {
    var cap := if o.scoring.Some? then o.scoring.value.weights.ipReputation.maxScore else 25;
    if o.ipReputation > cap then cap else o.ipReputation
  }

  function IpReputationScorer(c: Ctx, o: Oracle): Ctx {
    if c.hardDecision || "ip_reputation" in c.skipModules then c
    else if o.scoring.Some? && !o.scoring.value.weights.ipReputation.enabled then c
    else
      var c := Called(c, Detector);
      if IpReputationScore(o) > 0 then AddScore(c, IpReputation, IpReputationScore(o)) else c
  }

  function BotDetector(c: Ctx, o: Oracle): Ctx {
    if c.ipRuleTerminal || c.challengePassed || Skipped(c, "bot") then c
    else AddScore(Called(c, Detector), BotDetection, o.botScore)
  }

  function WafEngine(c: Ctx, o: Oracle): Ctx {
    if c.ipRuleTerminal || Skipped(c, "waf") then c
    else
      var c := Called(c, Detector);
      if o.wafScore > 0 then AddScore(c, WafAnomaly, o.wafScore) else c
  }

  function AddProtocolScores(c: Ctx, scores: seq<int>): Ctx
    decreases |scores|
  {
    if scores == [] then c else AddProtocolScores(AddScore(c, ProtocolAnomaly, scores[0]), scores[1..])
  }

  function ProtocolDetector(c: Ctx, o: Oracle): Ctx {
    if c.hardDecision || c.challengePassed || Skipped(c, "protocol_anomaly") then c
    else AddProtocolScores(Called(c, Detector), o.protocolScores)
  }

  function Reduce(c: Ctx, o: Oracle, reduction: Option<int>): Ctx {
    if c.hardDecision || o.scoring.None? then c
    else
      var c := Called(c, Detector);
      if reduction.Some? then AddScore(c, Trust, reduction.value) else c
  }

  function TrustReduction(o: Oracle, level: int): int {
    if 0 <= level <= 3 && level < |o.trustReductions| then o.trustReductions[level] else 0
  }

  function TrustScorer(c: Ctx, o: Oracle): Ctx {
    if c.hardDecision || o.scoring.None? || !c.challengePassed then c
    else
      var c := Called(c, Detector);
      var r := TrustReduction(o, c.trustLevel);
      if r != 0 then AddScore(c, Trust, r) else c
  }

  // ----- the handler lists -----

  datatype Handler =
    | CookieCheck | IpRules | FloodProtection | RateLimiting | CacheLookup | CustomRules
    | IpReputationH | BotDetectionH | WafH | ProtocolH | TrustedHistory | StableSession | TrustLevel

  /** A pipeline is the lists of handlers of its first two phases. */
  datatype Wiring = Wiring(phase1: seq<Handler>, phase2: seq<Handler>)

  /** The pipeline the server is started with. */
  predicate Wired(w: Wiring) {
    && w.phase1 == [CookieCheck, IpRules, FloodProtection, RateLimiting, CacheLookup, CustomRules]
    && w.phase2 == [IpReputationH, BotDetectionH, WafH, ProtocolH, TrustedHistory, StableSession, TrustLevel]
  }

  function Handle(h: Handler, c: Ctx, o: Oracle): Ctx {
    match h
    case CookieCheck => ChallengeValidator(c, o)
    case IpRules => IpAccess(c, o)
    case FloodProtection => Flood(c, o)
    case RateLimiting => RateLimit(c, o)
    case CacheLookup => CacheCheck(c, o)
    case CustomRules => RulesEngine(c, o)
    case IpReputationH => IpReputationScorer(c, o)
    case BotDetectionH => BotDetector(c, o)
    case WafH => WafEngine(c, o)
    case ProtocolH => ProtocolDetector(c, o)
    case TrustedHistory => Reduce(c, o, o.historyReduction)
    case StableSession => Reduce(c, o, o.sessionReduction)
    case TrustLevel => TrustScorer(c, o)
  }

  function RunHandlers(hs: seq<Handler>, c: Ctx, o: Oracle): Ctx
    decreases |hs|
  {
    if hs == [] then c else RunHandlers(hs[1..], Handle(hs[0], c, o), o)
  }

  function Weigh(c: Ctx, o: Oracle): Ctx {
    var c := if o.scoring.None? then c
             else
               var w := WeighedScores(c.scores, o.scoring.value.weights);
               c.(scores := w, total := c.total + Sum(w) - Sum(c.scores));
    c.(total := Clamp(c.total))
  }

  // ----- phases 3 and 4 -----

  function DecisionEngine(c: Ctx, o: Oracle): Ctx {
    if c.hardDecision || c.action == Block || c.action == Challenge || o.scoring.None? then c
    else
      var severity := Severity(c.total, o.scoring.value.thresholds);
      if severity == 2 then AddDecision(c, Decision(Block, "scoring_engine", o.scoreReason, []))
      else if severity == 1 then AddDecision(c, Decision(Challenge, "scoring_engine", o.scoreReason, []))
      else c
  }

  function Write(c: Ctx, w: Writer): Ctx {
    c.(written := c.written + [w])
  }

  /** The response handlers in order; true when one of them has written. */
  function Phase4(c: Ctx): (Ctx, bool) {
    if c.action == Block then (Write(c, BlockPage), true)
    else if c.challengePassed then (c, false)
    else if c.action == Challenge then (Write(c, ChallengePage), true)
    else (c, false)
  }

  /** Scoring and its verdict, unless phase 1 was decisive. */
  function Judge(w: Wiring, c: Ctx, o: Oracle): Ctx {
    if c.hardDecision then c else DecisionEngine(Weigh(RunHandlers(w.phase2, c, o), o), o)
  }

  function Execute(w: Wiring, c: Ctx, o: Oracle): (Ctx, bool) {
    Phase4(Judge(w, RunHandlers(w.phase1, c.(scores := NO_SCORES, total := 0), o), o))
  }

  // ----- the resolved decision -----

  /** A decision that is no skip was offered from position `base` on. */
  ghost predicate Decided(offers: seq<Decision>, base: nat) {
    exists i | base <= i < |offers| :: offers[i].action != Skip
  }

  /** The current decision resolves all offers.  The action is the current decision's, but
      a verified client starts afresh: until something is decided in this run, the first
      `base` offers only wait in the current decision. */
  ghost predicate Sound(c: Ctx, base: nat) {
    && base <= |c.offered|
    && c.current == ResolveAll(c.offered)
    && c.action == if c.challengePassed && !Decided(c.offered, base) then NoAction else c.current.action
  }

  ghost predicate Keeps(c: Ctx, c': Ctx, base: nat) {
    c.offered <= c'.offered && (Sound(c, base) ==> Sound(c', base))
  }

  lemma AddDecisionKeeps(c: Ctx, d: Decision, base: nat)
    ensures Keeps(c, AddDecision(c, d), base)
  {
    var offers := c.offered + [d];
    assert offers[..|c.offered|] == c.offered;
    if base <= |c.offered| {
      if d.action != Skip {
        assert offers[|c.offered|] == d;
      } else {
        assert forall i | base <= i < |c.offered| :: offers[i] == c.offered[i];
        assert Decided(offers, base) <==> Decided(c.offered, base) by {
          if Decided(c.offered, base) {
            var i :| base <= i < |c.offered| && c.offered[i].action != Skip;
            assert offers[i].action != Skip;
          }
        }
      }
    }
  }

  lemma {:induction false} ScanRulesKeeps(c: Ctx, rules: seq<RuleOutcome>, base: nat)
    ensures Keeps(c, ScanRules(c, rules), base)
    decreases |rules|
  {
    if rules != [] {
      var r := rules[0];
      if !Fires(r) {
        ScanRulesKeeps(c, rules[1..], base);
      } else if Terminal(r.action) {
        AddDecisionKeeps(c, Decision(r.action, "custom_rule", r.reason, []), base);
      } else if r.action == Skip {
        AddDecisionKeeps(c, Decision(Skip, "custom_rule", "", r.skipModules), base);
        ScanRulesKeeps(SkipBy(c, r), rules[1..], base);
      } else {
        ScanRulesKeeps(c, rules[1..], base);
      }
    }
  }

  lemma {:induction false} ScanRulesVerifiedKeeps(c: Ctx, rules: seq<RuleOutcome>, base: nat)
    ensures Keeps(c, ScanRulesVerified(c, rules), base)
    decreases |rules|
  {
    if rules != [] {
      if Fires(rules[0]) && rules[0].action == Skip {
        AddDecisionKeeps(c, Decision(Skip, "custom_rule", "", rules[0].skipModules), base);
        ScanRulesVerifiedKeeps(SkipBy(c, rules[0]), rules[1..], base);
      } else {
        ScanRulesVerifiedKeeps(c, rules[1..], base);
      }
    }
  }

  lemma FloodKeeps(c: Ctx, o: Oracle, base: nat)
    ensures Keeps(c, Flood(c, o), base)
  {
    var d := Called(c, FloodState);
    AddDecisionKeeps(d, Decision(Challenge, "flood", "flood_penalty_active", []), base);
    if o.attackExceeded.Some? {
      AddDecisionKeeps(d, Decision(Or(o.attackExceeded.value, Block), "flood", "attack_flood_exceeded", []), base);
    }
    if o.errorExceeded.Some? {
      AddDecisionKeeps(d, Decision(Or(o.errorExceeded.value, Challenge), "flood", "error_flood_exceeded", []), base);
    }
    if o.basicExceeded.Some? {
      AddDecisionKeeps(d, Decision(Or(o.basicExceeded.value, Challenge), "flood", "basic_access_limit", []), base);
    }
  }

  lemma RateLimitKeeps(c: Ctx, o: Oracle, base: nat)
    ensures Keeps(c, RateLimit(c, o), base)
  {
    if o.rateExceeded.Some? {
      AddDecisionKeeps(Called(c, RateLimiter), Decision(Or(o.rateExceeded.value, Block), "rate_limit", "rate_limit_exceeded", []), base);
    }
  }

  lemma CacheCheckKeeps(c: Ctx, o: Oracle, base: nat)
    ensures Keeps(c, CacheCheck(c, o), base)
  {
    if o.cached.Some? {
      AddDecisionKeeps(Called(c, DecisionCache), o.cached.value.(skipPhases := []), base);
    }
  }

  lemma RulesEngineKeeps(c: Ctx, o: Oracle, base: nat)
    ensures Keeps(c, RulesEngine(c, o), base)
  {
    if o.rules.Some? {
      ScanRulesKeeps(Called(c, RuleEngine), o.rules.value, base);
      ScanRulesVerifiedKeeps(Called(c, RuleEngine), o.rules.value, base);
    }
  }

  lemma IpAccessKeeps(c: Ctx, o: Oracle, base: nat)
    ensures Keeps(c, IpAccess(c, o), base)
  {
    if IpRuleApplies(o) {
      AddDecisionKeeps(c, IpDecision(o), base);
    }
  }

  lemma DecisionEngineKeeps(c: Ctx, o: Oracle, base: nat)
    ensures Keeps(c, DecisionEngine(c, o), base)
  {
    AddDecisionKeeps(c, Decision(Block, "scoring_engine", o.scoreReason, []), base);
    AddDecisionKeeps(c, Decision(Challenge, "scoring_engine", o.scoreReason, []), base);
  }

  /** The fields a scoring step leaves alone. */
  predicate SameVerdict(c: Ctx, c': Ctx) {
    && c'.action == c.action && c'.reason == c.reason && c'.current == c.current && c'.offered == c.offered
    && c'.challengePassed == c.challengePassed && c'.trustLevel == c.trustLevel
    && c'.ipRuleTerminal == c.ipRuleTerminal && c'.hardDecision == c.hardDecision
    && c'.skipModules == c.skipModules && c'.skipPhases == c.skipPhases && c'.written == c.written
  }

  lemma {:induction false} ProtocolScoresAddUp(c: Ctx, scores: seq<int>)
    ensures SameVerdict(c, AddProtocolScores(c, scores))
    ensures AddProtocolScores(c, scores).calls == c.calls
    ensures AddProtocolScores(c, scores).scores.(protocolAnomaly := 0) == c.scores.(protocolAnomaly := 0)
    ensures AddProtocolScores(c, scores).total - c.total == Sum(AddProtocolScores(c, scores).scores) - Sum(c.scores)
    decreases |scores|
  {
    if scores != [] {
      ProtocolScoresAddUp(AddScore(c, ProtocolAnomaly, scores[0]), scores[1..]);
    }
  }

  predicate Scorer(h: Handler) {
    match h
    case CookieCheck => false
    case IpRules => false
    case _ => !AfterIpRules(h)
  }

  predicate AfterIpRules(h: Handler) {
    h == FloodProtection || h == RateLimiting || h == CacheLookup || h == CustomRules
  }

  lemma ProtocolKeepsVerdict(c: Ctx, o: Oracle)
    ensures SameVerdict(c, Handle(ProtocolH, c, o))
  {
    ProtocolScoresAddUp(Called(c, Detector), o.protocolScores);
  }

  lemma WafKeepsVerdict(c: Ctx, o: Oracle)
    ensures SameVerdict(c, Handle(WafH, c, o))
  {
  }

  lemma ScorerKeepsVerdict(h: Handler, c: Ctx, o: Oracle)
    requires Scorer(h)
    ensures SameVerdict(c, Handle(h, c, o))
  {
    match h
    case ProtocolH => ProtocolKeepsVerdict(c, o);
    case WafH => WafKeepsVerdict(c, o);
    case _ =>
  }

  lemma {:induction false} ScoringKeepsVerdict(hs: seq<Handler>, c: Ctx, o: Oracle)
    requires forall h | h in hs :: Scorer(h)
    ensures SameVerdict(c, RunHandlers(hs, c, o))
    decreases |hs|
  {
    if hs != [] {
      ScorerKeepsVerdict(hs[0], c, o);
      ScoringKeepsVerdict(hs[1..], Handle(hs[0], c, o), o);
    }
  }

  lemma {:induction false} ScansKeepCookie(c: Ctx, rules: seq<RuleOutcome>)
    ensures ScanRules(c, rules).challengePassed == c.challengePassed && ScanRules(c, rules).written == c.written
    ensures ScanRulesVerified(c, rules).challengePassed == c.challengePassed && ScanRulesVerified(c, rules).written == c.written
    decreases |rules|
  {
    if rules != [] {
      ScansKeepCookie(c, rules[1..]);
      ScansKeepCookie(SkipBy(c, rules[0]), rules[1..]);
    }
  }

  lemma RulesKeepCookie(c: Ctx, o: Oracle)
    ensures RulesEngine(c, o).challengePassed == c.challengePassed && RulesEngine(c, o).written == c.written
  {
    if o.rules.Some? {
      ScansKeepCookie(Called(c, RuleEngine), o.rules.value);
    }
  }

  predicate Later(h: Handler) {
    h == IpRules || AfterIpRules(h)
  }

  lemma LaterHandlerKeeps(h: Handler, c: Ctx, o: Oracle, base: nat)
    requires Later(h)
    ensures Keeps(c, Handle(h, c, o), base)
    ensures Handle(h, c, o).challengePassed == c.challengePassed && Handle(h, c, o).written == c.written
  {
    match h
    case IpRules => IpAccessKeeps(c, o, base);
    case FloodProtection => FloodKeeps(c, o, base);
    case RateLimiting => RateLimitKeeps(c, o, base);
    case CacheLookup => CacheCheckKeeps(c, o, base);
    case CustomRules =>
      RulesEngineKeeps(c, o, base);
      RulesKeepCookie(c, o);
  }

  lemma {:induction false} LaterHandlersKeep(hs: seq<Handler>, c: Ctx, o: Oracle, base: nat)
    requires forall h | h in hs :: Later(h)
    ensures Keeps(c, RunHandlers(hs, c, o), base)
    ensures RunHandlers(hs, c, o).challengePassed == c.challengePassed && RunHandlers(hs, c, o).written == c.written
    decreases |hs|
  {
    if hs != [] {
      LaterHandlerKeeps(hs[0], c, o, base);
      LaterHandlersKeep(hs[1..], Handle(hs[0], c, o), o, base);
    }
  }

  /** A context whose action is its current decision's, as before the cookie is checked. */
  ghost predicate Starts(c: Ctx) {
    c.current == ResolveAll(c.offered) && c.action == c.current.action && !c.challengePassed
  }

  lemma Phase1Keeps(w: Wiring, c: Ctx, o: Oracle)
    requires Wired(w)
    requires Starts(c)
    ensures var c1 := RunHandlers(w.phase1, c, o);
            && Sound(c1, |c.offered|) && c.offered <= c1.offered
            && (c1.challengePassed <==> o.cookie.Some?)
            && c1.written == c.written
  {
    var c0 := ChallengeValidator(c, o);
    assert w.phase1[0] == CookieCheck;
    assert Sound(c0, |c.offered|);
    LaterHandlersKeep(w.phase1[1..], c0, o, |c.offered|);
  }

  /** The action as it stood when the response handlers were reached. */
  predicate Refused(c: Ctx) {
    c.action == Block || (c.action == Challenge && !c.challengePassed)
  }

  /** Every run: the final decision is the resolution of everything offered, it ranks no lower
      than the one the request came with, and a response is written, exactly once, exactly when
      the final action is block, or challenge without a verified cookie. */
  lemma EveryRun(w: Wiring, c: Ctx, o: Oracle)
    requires Wired(w)
    requires Starts(c)
    ensures var (f, answered) := Execute(w, c, o);
            && Sound(f, |c.offered|)
            && c.offered <= f.offered
            && Rank(c.current.action) <= Rank(f.current.action)
            && (answered <==> Refused(f))
            && f.written == c.written + (if !answered then [] else if f.action == Block then [BlockPage] else [ChallengePage])
            && (f.challengePassed <==> o.cookie.Some?)
  {
    var c0 := c.(scores := NO_SCORES, total := 0);
    Phase1Keeps(w, c0, o);
    var c1 := RunHandlers(w.phase1, c0, o);
    JudgeKeeps(w, c1, o, |c.offered|);
    ResponseIff(Judge(w, c1, o));
    RankNeverFalls(c.offered, Judge(w, c1, o).offered);
  }

  /** Spelled out: no offer that is not a skip outranks the final decision, and every such
      offer made before it ranks lower. */
  lemma FinalDecisionIsEarliestHighest(w: Wiring, c: Ctx, o: Oracle)
    requires Wired(w)
    requires Starts(c)
    ensures var f := Execute(w, c, o).0;
            && (forall i | 0 <= i < |f.offered| && f.offered[i].action != Skip :: Rank(f.offered[i].action) <= Rank(f.current.action))
            && (Rank(f.current.action) > 0 ==>
                  exists k | 0 <= k < |f.offered| ::
                    && f.offered[k] == f.current
                    && forall i | 0 <= i < k && f.offered[i].action != Skip :: Rank(f.offered[i].action) < Rank(f.current.action))
  {
    EveryRun(w, c, o);
    ResolveAllIsEarliestHighest(Execute(w, c, o).0.offered);
  }

  lemma JudgeKeeps(w: Wiring, c: Ctx, o: Oracle, base: nat)
    requires Wired(w)
    ensures Keeps(c, Judge(w, c, o), base)
    ensures Judge(w, c, o).challengePassed == c.challengePassed && Judge(w, c, o).written == c.written
  {
    if !c.hardDecision {
      ScoringKeepsVerdict(w.phase2, c, o);
      WeighKeepsVerdict(RunHandlers(w.phase2, c, o), o);
      DecisionEngineKeeps(Weigh(RunHandlers(w.phase2, c, o), o), o, base);
    }
  }

  lemma WeighKeepsVerdict(c: Ctx, o: Oracle)
    ensures SameVerdict(c, Weigh(c, o))
  {
  }

  lemma ResponseIff(c: Ctx)
    ensures var (f, answered) := Phase4(c);
            && f == c.(written := f.written)
            && (answered <==> Refused(c))
            && f.written == c.written + if !answered then [] else if f.action == Block then [BlockPage] else [ChallengePage]
  {
  }

  // ----- scores along a run -----

  predicate Balanced(c: Ctx) {
    c.total == Sum(c.scores)
  }

  lemma ScorerBalances(h: Handler, c: Ctx, o: Oracle)
    requires Scorer(h) && Balanced(c)
    ensures Balanced(Handle(h, c, o))
  {
    if h == ProtocolH {
      ProtocolScoresAddUp(Called(c, Detector), o.protocolScores);
    }
  }

  lemma {:induction false} ScoringBalances(hs: seq<Handler>, c: Ctx, o: Oracle)
    requires (forall h | h in hs :: Scorer(h)) && Balanced(c)
    ensures Balanced(RunHandlers(hs, c, o))
    decreases |hs|
  {
    if hs != [] {
      ScorerBalances(hs[0], c, o);
      ScoringBalances(hs[1..], Handle(hs[0], c, o), o);
    }
  }

  /** However the detectors scored, the total the thresholds are compared with is the clamped
      sum of the weighted categories. */
  lemma JudgedTotal(hs: seq<Handler>, c: Ctx, o: Oracle)
    requires (forall h | h in hs :: Scorer(h)) && Balanced(c)
    ensures var f := Weigh(RunHandlers(hs, c, o), o); f.total == Clamp(Sum(f.scores)) && 0 <= f.total <= 100
  {
    ScoringBalances(hs, c, o);
  }

  // ----- IP rules -----

  /** What validation of IP rules allows. */
  predicate IpAction(a: Action) {
    a == Allow || a == Block || a == Challenge
  }

  lemma {:induction false} TerminalIsLeftAlone(hs: seq<Handler>, c: Ctx, o: Oracle)
    requires (forall h | h in hs :: AfterIpRules(h)) && c.ipRuleTerminal && c.hardDecision
    ensures RunHandlers(hs, c, o) == c
    decreases |hs|
  {
    if hs != [] {
      assert AfterIpRules(hs[0]);
      assert Handle(hs[0], c, o) == c;
      TerminalIsLeftAlone(hs[1..], c, o);
    }
  }

  lemma TwoHandlers(w: Wiring, c: Ctx, o: Oracle)
    requires Wired(w)
    ensures RunHandlers(w.phase1, c, o) == RunHandlers(w.phase1[2..], IpAccess(ChallengeValidator(c, o), o), o)
  {
    assert w.phase1[1..][1..] == w.phase1[2..];
  }

  lemma IpRuleEndsPhase1(w: Wiring, c: Ctx, o: Oracle)
    requires Wired(w) && IpRuleApplies(o) && IpAction(o.ipRule.action)
    ensures var f := IpAccess(ChallengeValidator(c, o), o);
            RunHandlers(w.phase1, c, o) == f && f.ipRuleTerminal && f.hardDecision
  {
    TwoHandlers(w, c, o);
    TerminalIsLeftAlone(w.phase1[2..], IpAccess(ChallengeValidator(c, o), o), o);
  }

  /** A matching enabled IP rule ends the matter: nothing else is consulted, nothing is
      scored, and the final decision is the better of the rule's and the one the request
      came with. */
  lemma IpRuleIsTerminal(w: Wiring, underAttack: bool, o: Oracle)
    requires Wired(w)
    requires IpRuleApplies(o) && IpAction(o.ipRule.action)
    ensures var (f, answered) := Execute(w, Initial(underAttack), o);
            && f.current == Resolve(Initial(underAttack).current, IpDecision(o))
            && f.action == f.current.action
            && f.calls == [] && f.scores == NO_SCORES && f.total == 0
            && f.offered == Initial(underAttack).offered + [IpDecision(o)]
  {
    IpRuleEndsPhase1(w, Initial(underAttack).(scores := NO_SCORES, total := 0), o);
  }

  /** It alone fixes the final action, except that under attack mode keeps challenging
      clients an IP rule allows. */
  lemma IpRuleFixesActionIff(w: Wiring, underAttack: bool, o: Oracle)
    requires Wired(w)
    requires IpRuleApplies(o) && IpAction(o.ipRule.action)
    ensures Execute(w, Initial(underAttack), o).0.action == o.ipRule.action <==> !(underAttack && o.ipRule.action == Allow)
  {
    IpRuleIsTerminal(w, underAttack, o);
  }

  // ----- verified clients -----

  /** The modules the firing skip rules switch off. */
  function SkippedBy(rules: seq<RuleOutcome>): set<string> {
    if rules == [] then {}
    else (if Fires(rules[0]) && rules[0].action == Skip then set m | m in rules[0].skipModules else {}) + SkippedBy(rules[1..])
  }

  function VerifiedSkips(o: Oracle): set<string> {
    if o.rules.None? then {} else SkippedBy(o.rules.value)
  }

  /** Which of the detectors a verified client still meets are switched off. */
  datatype Off = Off(reputation: bool, waf: bool)

  function OffBy(skips: set<string>): Off {
    Off("ip_reputation" in skips, "waf" in skips)
  }

  /** The address's score up to the configured cap, which is 25 where none is configured. */
  function ReputationUnless(o: Oracle, off: bool): int {
    if off || o.ipReputation <= 0 then 0
    else if o.scoring.None? then if o.ipReputation < 25 then o.ipReputation else 25
    else
      var w := o.scoring.value.weights.ipReputation;
      if !w.enabled || w.maxScore <= 0 then 0
      else if o.ipReputation < w.maxScore then o.ipReputation
      else w.maxScore
  }

  function WafUnless(o: Oracle, off: bool): int {
    if off || o.wafScore <= 0 then 0 else o.wafScore
  }

  /** The raw scores of a verified client: no bot and no protocol detection; reputation and
      WAF unless skipped; trust from history, session and the level of the cookie. */
  function VerifiedScores(o: Oracle, off: Off): Scores
    requires o.cookie.Some?
  {
    Scores(ReputationUnless(o, off.reputation), 0, WafUnless(o, off.waf), 0,
           TrustAmount(o, o.historyReduction) + TrustAmount(o, o.sessionReduction)
           + TrustAmount(o, Some(TrustReduction(o, o.cookie.value))))
  }

  /** Trust reductions apply only where scoring is configured. */
  function TrustAmount(o: Oracle, reduction: Option<int>): int {
    if o.scoring.None? || reduction.None? then 0 else reduction.value
  }

  lemma {:induction false} VerifiedScan(c: Ctx, rules: seq<RuleOutcome>)
    requires c.skipModules == c.skipPhases
    ensures var f := ScanRulesVerified(c, rules);
            && f.skipModules == f.skipPhases == c.skipModules + SkippedBy(rules)
            && f.action == c.action && f.current == c.current && f.hardDecision == c.hardDecision && f.ipRuleTerminal == c.ipRuleTerminal
            && f.challengePassed == c.challengePassed && f.trustLevel == c.trustLevel
            && f.scores == c.scores && f.total == c.total
    decreases |rules|
  {
    if rules != [] {
      if Fires(rules[0]) && rules[0].action == Skip {
        VerifiedScan(SkipBy(c, rules[0]), rules[1..]);
      } else {
        VerifiedScan(c, rules[1..]);
      }
    }
  }

  /** What phase 1 leaves of a verified client no IP rule matches. */
  ghost predicate Verified(c: Ctx, o: Oracle, off: Off)
    requires o.cookie.Some?
  {
    VerifiedFlags(c, o, off) && c.scores == NO_SCORES && c.total == 0
  }

  lemma VerifiedPhase1(w: Wiring, c: Ctx, o: Oracle)
    requires Wired(w)
    requires !IpRuleApplies(o) && o.cookie.Some?
    requires !c.ipRuleTerminal && !c.hardDecision && c.current.action != Block && c.skipModules == c.skipPhases == {} && c.scores == NO_SCORES && c.total == 0
    ensures Verified(RunHandlers(w.phase1, c, o), o, OffBy(VerifiedSkips(o)))
  {
    var c1 := ChallengeValidator(c, o);
    TwoHandlers(w, c, o);
    assert IpAccess(c1, o) == c1;
    VerifiedLimiters(w, c1, o);
    if o.rules.Some? {
      VerifiedScan(Called(c1, RuleEngine), o.rules.value);
    }
  }

  lemma VerifiedLimiters(w: Wiring, c: Ctx, o: Oracle)
    requires Wired(w)
    requires c.challengePassed
    ensures RunHandlers(w.phase1[2..], c, o) == RulesEngine(c, o)
  {
    assert Flood(c, o) == c && RateLimit(c, o) == c && CacheCheck(c, o) == c;
    RunOne(w.phase1[2..], c, o);
    RunOne(w.phase1[3..], c, o);
    RunOne(w.phase1[4..], c, o);
    RunOne(w.phase1[5..], c, o);
  }

  lemma RunOne(hs: seq<Handler>, c: Ctx, o: Oracle)
    requires hs != []
    ensures RunHandlers(hs, c, o) == RunHandlers(hs[1..], Handle(hs[0], c, o), o)
  {
  }

  function Plus(a: Scores, b: Scores): Scores {
    Scores(a.ipReputation + b.ipReputation, a.botDetection + b.botDetection, a.wafAnomaly + b.wafAnomaly,
           a.protocolAnomaly + b.protocolAnomaly, a.trust + b.trust)
  }

  /** What one scoring handler adds for a verified client. */
  function Contribution(h: Handler, o: Oracle, off: Off): Scores
    requires o.cookie.Some?
  {
    match h
    case IpReputationH => Scores(ReputationUnless(o, off.reputation), 0, 0, 0, 0)
    case WafH => Scores(0, 0, WafUnless(o, off.waf), 0, 0)
    case TrustedHistory => TrustOnly(o, o.historyReduction)
    case StableSession => TrustOnly(o, o.sessionReduction)
    case TrustLevel => TrustOnly(o, Some(TrustReduction(o, o.cookie.value)))
    case _ => NO_SCORES
  }

  function TrustOnly(o: Oracle, reduction: Option<int>): Scores {
    Scores(0, 0, 0, 0, TrustAmount(o, reduction))
  }

  ghost predicate VerifiedFlags(c: Ctx, o: Oracle, off: Off)
    requires o.cookie.Some?
  {
    && c.challengePassed && !c.ipRuleTerminal && !c.hardDecision && c.action == NoAction && c.current.action != Block
    && c.trustLevel == o.cookie.value && ("ip_reputation" in c.skipModules) == off.reputation && Skipped(c, "waf") == off.waf
  }

  /** The step added just these scores. */
  predicate Adds(c: Ctx, f: Ctx, s: Scores) {
    f.scores == Plus(c.scores, s) && f.total == c.total + Sum(s)
  }

  lemma AddReputation(c: Ctx, n: int)
    ensures Adds(c, AddScore(c, IpReputation, n), Scores(n, 0, 0, 0, 0))
  {
  }

  lemma AddWaf(c: Ctx, n: int)
    ensures Adds(c, AddScore(c, WafAnomaly, n), Scores(0, 0, n, 0, 0))
  {
  }

  lemma AddTrust(c: Ctx, n: int)
    ensures Adds(c, AddScore(c, Trust, n), Scores(0, 0, 0, 0, n))
  {
  }

  lemma AddNothing(c: Ctx, f: Ctx)
    requires f.scores == c.scores && f.total == c.total
    ensures Adds(c, f, NO_SCORES)
  {
  }

  lemma VerifiedReputation(c: Ctx, o: Oracle, off: bool, n: int)
    requires !c.hardDecision && off == ("ip_reputation" in c.skipModules) && n == ReputationUnless(o, off)
    ensures Adds(c, IpReputationScorer(c, o), Scores(n, 0, 0, 0, 0))
  {
    if n == 0 {
      AddNothing(c, IpReputationScorer(c, o));
    } else {
      AddReputation(Called(c, Detector), n);
    }
  }

  lemma VerifiedWaf(c: Ctx, o: Oracle, off: bool, n: int)
    requires !c.ipRuleTerminal && off == Skipped(c, "waf") && n == WafUnless(o, off)
    ensures Adds(c, WafEngine(c, o), Scores(0, 0, n, 0, 0))
  {
    if n == 0 {
      AddNothing(c, WafEngine(c, o));
    } else {
      AddWaf(Called(c, Detector), n);
    }
  }

  lemma VerifiedReduce(c: Ctx, o: Oracle, reduction: Option<int>, n: int)
    requires !c.hardDecision && n == TrustAmount(o, reduction)
    ensures Adds(c, Reduce(c, o, reduction), Scores(0, 0, 0, 0, n))
  {
    if o.scoring.None? || reduction.None? {
      AddNothing(c, Reduce(c, o, reduction));
    } else {
      AddTrust(Called(c, Detector), n);
    }
  }

  lemma VerifiedTrust(c: Ctx, o: Oracle, n: int)
    requires !c.hardDecision && c.challengePassed && n == TrustAmount(o, Some(TrustReduction(o, c.trustLevel)))
    ensures Adds(c, TrustScorer(c, o), Scores(0, 0, 0, 0, n))
  {
    if n == 0 {
      AddNothing(c, TrustScorer(c, o));
    } else {
      AddTrust(Called(c, Detector), n);
    }
  }

  lemma VerifiedQuiet(h: Handler, c: Ctx, o: Oracle, off: Off)
    requires h == BotDetectionH || h == ProtocolH
    requires o.cookie.Some? && VerifiedFlags(c, o, off)
    ensures Adds(c, Handle(h, c, o), Contribution(h, o, off))
  {
    AddNothing(c, Handle(h, c, o));
  }

  lemma VerifiedScorer(h: Handler, c: Ctx, o: Oracle, off: Off)
    requires Scorer(h) && o.cookie.Some? && VerifiedFlags(c, o, off)
    ensures Adds(c, Handle(h, c, o), Contribution(h, o, off))
  {
    var s := Contribution(h, o, off);
    match h
    case IpReputationH => VerifiedReputation(c, o, off.reputation, s.ipReputation);
    case WafH => VerifiedWaf(c, o, off.waf, s.wafAnomaly);
    case TrustedHistory => VerifiedReduce(c, o, o.historyReduction, s.trust);
    case StableSession => VerifiedReduce(c, o, o.sessionReduction, s.trust);
    case TrustLevel => VerifiedTrust(c, o, s.trust);
    case BotDetectionH => VerifiedQuiet(h, c, o, off);
    case ProtocolH => VerifiedQuiet(h, c, o, off);
  }

  function Contributions(hs: seq<Handler>, o: Oracle, off: Off): Scores
    requires o.cookie.Some?
  {
    if hs == [] then NO_SCORES else Plus(Contribution(hs[0], o, off), Contributions(hs[1..], o, off))
  }

  lemma PlusAdds(a: Scores, b: Scores, c: Scores)
    ensures Plus(Plus(a, b), c) == Plus(a, Plus(b, c)) && Sum(Plus(b, c)) == Sum(b) + Sum(c)
  {
  }

  lemma VerifiedStep(hs: seq<Handler>, c: Ctx, o: Oracle, off: Off) returns (next: Ctx)
    requires hs != [] && Scorer(hs[0]) && o.cookie.Some? && VerifiedFlags(c, o, off)
    ensures RunHandlers(hs, c, o) == RunHandlers(hs[1..], next, o)
    ensures VerifiedFlags(next, o, off)
    ensures Adds(c, next, Contribution(hs[0], o, off))
  {
    next := Handle(hs[0], c, o);
    VerifiedScorer(hs[0], c, o, off);
    ScorerKeepsVerdict(hs[0], c, o);
  }

  lemma {:induction false} VerifiedScorers(hs: seq<Handler>, c: Ctx, o: Oracle, off: Off)
    requires (forall h | h in hs :: Scorer(h)) && o.cookie.Some? && VerifiedFlags(c, o, off)
    ensures Adds(c, RunHandlers(hs, c, o), Contributions(hs, o, off))
    decreases |hs|
  {
    if hs != [] {
      var next := VerifiedStep(hs, c, o, off);
      VerifiedScorers(hs[1..], next, o, off);
      PlusAdds(c.scores, Contribution(hs[0], o, off), Contributions(hs[1..], o, off));
    }
  }

  lemma PeelContribution(hs: seq<Handler>, k: nat, o: Oracle, off: Off)
    requires k < |hs| && o.cookie.Some?
    ensures Contributions(hs[k..], o, off) == Plus(Contribution(hs[k], o, off), Contributions(hs[k + 1..], o, off))
  {
    assert hs[k..][1..] == hs[k + 1..];
  }

  lemma TrustContributions(hs: seq<Handler>, o: Oracle, off: Off)
    requires |hs| == 7 && hs[4] == TrustedHistory && hs[5] == StableSession && hs[6] == TrustLevel && o.cookie.Some?
    ensures Contributions(hs[4..], o, off) == Scores(0, 0, 0, 0, VerifiedScores(o, off).trust)
  {
    var history, session := TrustAmount(o, o.historyReduction), TrustAmount(o, o.sessionReduction);
    var level := TrustAmount(o, Some(TrustReduction(o, o.cookie.value)));
    var rest := Contributions(hs[7..], o, off);
    PeelContribution(hs, 6, o, off);
    PeelContribution(hs, 5, o, off);
    PeelContribution(hs, 4, o, off);
    TrustAddsUp(history, session, level, rest);
  }

  lemma TrustAddsUp(history: int, session: int, level: int, rest: Scores)
    requires rest == NO_SCORES
    ensures Plus(Scores(0, 0, 0, 0, history), Plus(Scores(0, 0, 0, 0, session), Plus(Scores(0, 0, 0, 0, level), rest)))
            == Scores(0, 0, 0, 0, history + session + level)
  {
  }

  lemma LaterContributions(hs: seq<Handler>, o: Oracle, off: Off)
    requires |hs| == 7 && hs[2] == WafH && hs[3] == ProtocolH && o.cookie.Some?
    requires hs[4] == TrustedHistory && hs[5] == StableSession && hs[6] == TrustLevel
    ensures Contributions(hs[2..], o, off) == Scores(0, 0, WafUnless(o, off.waf), 0, VerifiedScores(o, off).trust)
  {
    TrustContributions(hs, o, off);
    PeelContribution(hs, 3, o, off);
    PeelContribution(hs, 2, o, off);
  }

  lemma ContributionsAddUp(w: Wiring, o: Oracle, off: Off)
    requires Wired(w) && o.cookie.Some?
    ensures Contributions(w.phase2, o, off) == VerifiedScores(o, off)
  {
    var hs, raw := w.phase2, VerifiedScores(o, off);
    LaterContributions(hs, o, off);
    PeelContribution(hs, 1, o, off);
    assert Contributions(hs[1..], o, off) == Scores(0, 0, raw.wafAnomaly, 0, raw.trust);
    PeelContribution(hs, 0, o, off);
    assert hs[0..] == hs;
  }

  predicate ReachesBlock(raw: Scores, o: Oracle) {
    && o.scoring.Some?
    && Clamp(Sum(WeighedScores(raw, o.scoring.value.weights))) >= o.scoring.value.thresholds.block
  }

  lemma VerifiedVerdict(c: Ctx, o: Oracle, raw: Scores)
    requires c.challengePassed && !c.hardDecision && c.action == NoAction && c.current.action != Block
    requires c.scores == raw && c.total == Sum(raw)
    ensures Phase4(DecisionEngine(Weigh(c, o), o)).1 <==> ReachesBlock(raw, o)
  {
  }

  lemma VerifiedScored(hs: seq<Handler>, c: Ctx, o: Oracle, off: Off, raw: Scores) returns (scored: Ctx)
    requires (forall h | h in hs :: Scorer(h)) && o.cookie.Some? && Verified(c, o, off)
    requires Contributions(hs, o, off) == raw
    ensures scored == RunHandlers(hs, c, o)
    ensures scored.challengePassed && !scored.hardDecision && scored.action == NoAction && scored.current.action != Block
    ensures scored.scores == raw && scored.total == Sum(raw)
  {
    scored := RunHandlers(hs, c, o);
    VerifiedScorers(hs, c, o, off);
    ScoringKeepsVerdict(hs, c, o);
  }

  lemma VerifiedJudgedBy(hs: seq<Handler>, c: Ctx, o: Oracle, off: Off, raw: Scores)
    requires (forall h | h in hs :: Scorer(h)) && o.cookie.Some? && Verified(c, o, off)
    requires Contributions(hs, o, off) == raw
    ensures Phase4(DecisionEngine(Weigh(RunHandlers(hs, c, o), o), o)).1 <==> ReachesBlock(raw, o)
  {
    var scored := VerifiedScored(hs, c, o, off, raw);
    VerifiedVerdict(scored, o, raw);
  }

  lemma VerifiedJudged(w: Wiring, c: Ctx, o: Oracle, off: Off)
    requires Wired(w)
    requires o.cookie.Some? && Verified(c, o, off)
    ensures Phase4(Judge(w, c, o)).1 <==> ReachesBlock(VerifiedScores(o, off), o)
  {
    ContributionsAddUp(w, o, off);
    VerifiedJudgedBy(w.phase2, c, o, off, VerifiedScores(o, off));
  }

  lemma VerifiedRun(w: Wiring, c: Ctx, o: Oracle)
    requires Wired(w)
    requires o.cookie.Some? && !IpRuleApplies(o)
    requires !c.ipRuleTerminal && !c.hardDecision && c.current.action != Block && c.skipModules == c.skipPhases == {}
    ensures Execute(w, c, o).1 <==> ReachesBlock(VerifiedScores(o, OffBy(VerifiedSkips(o))), o)
  {
    var c0 := c.(scores := NO_SCORES, total := 0);
    VerifiedPhase1(w, c0, o);
    VerifiedJudged(w, RunHandlers(w.phase1, c0, o), o, OffBy(VerifiedSkips(o)));
  }

  /** A verified client no IP rule matches is refused exactly when its weighted, clamped
      score reaches the block threshold, under attack or not. */
  lemma VerifiedIsRefusedIff(w: Wiring, underAttack: bool, o: Oracle)
    requires Wired(w)
    requires o.cookie.Some? && !IpRuleApplies(o)
    ensures Execute(w, Initial(underAttack), o).1 <==> ReachesBlock(VerifiedScores(o, OffBy(VerifiedSkips(o))), o)
  {
    VerifiedRun(w, Initial(underAttack), o);
  }
}
