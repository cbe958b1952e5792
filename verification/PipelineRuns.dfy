/** Whole runs of the pipeline: the rank of the decision along the run, what becomes of every
    request, and what higher scores lead to. */
module PipelineRuns {
  import opened Outcomes
  import opened Decisions
  import opened Scoring
  import opened Pipeline

  // ----- the rank along the run -----

  function RankOf(c: Ctx): nat {
    Rank(c.current.action)
  }

  /** The contexts before the first handler and after each. */
  function Steps(hs: seq<Handler>, c: Ctx, o: Oracle): (cs: seq<Ctx>)
    ensures |cs| == |hs| + 1 && cs[0] == c
    decreases |hs|
  {
    if hs == [] then [c] else [c] + Steps(hs[1..], Handle(hs[0], c, o), o)
  }

  lemma {:induction false} StepsEnd(hs: seq<Handler>, c: Ctx, o: Oracle)
    ensures Steps(hs, c, o)[|hs|] == RunHandlers(hs, c, o)
    decreases |hs|
  {
    if hs != [] {
      StepsEnd(hs[1..], Handle(hs[0], c, o), o);
    }
  }

  /** Every context of a run up to the response: both phases, the weighting and the verdict. */
  function Trace(w: Wiring, c: Ctx, o: Oracle): seq<Ctx> {
    var start := c.(scores := NO_SCORES, total := 0);
    var c1 := RunHandlers(w.phase1, start, o);
    if c1.hardDecision then Steps(w.phase1, start, o)
    else
      var c2 := Weigh(RunHandlers(w.phase2, c1, o), o);
      Steps(w.phase1, start, o) + Steps(w.phase2, c1, o) + [c2, DecisionEngine(c2, o)]
  }

  lemma {:induction false} RuleScansRaiseRank(c: Ctx, rules: seq<RuleOutcome>)
    ensures RankOf(c) <= RankOf(ScanRules(c, rules)) && RankOf(c) <= RankOf(ScanRulesVerified(c, rules))
    decreases |rules|
  {
    if rules != [] {
      RuleScansRaiseRank(c, rules[1..]);
      RuleScansRaiseRank(SkipBy(c, rules[0]), rules[1..]);
    }
  }

  lemma HandlerRaisesRank(h: Handler, c: Ctx, o: Oracle)
    ensures RankOf(c) <= RankOf(Handle(h, c, o))
  {
    match h
    case CustomRules =>
      if o.rules.Some? {
        RuleScansRaiseRank(Called(c, RuleEngine), o.rules.value);
      }
    case ProtocolH => ProtocolScoresAddUp(Called(c, Detector), o.protocolScores);
    case _ =>
  }

  ghost predicate Rising(cs: seq<Ctx>) {
    forall i | 0 < i < |cs| :: RankOf(cs[i - 1]) <= RankOf(cs[i])
  }

  lemma {:induction false} StepsRise(hs: seq<Handler>, c: Ctx, o: Oracle)
    ensures Rising(Steps(hs, c, o))
    decreases |hs|
  {
    if hs != [] {
      HandlerRaisesRank(hs[0], c, o);
      StepsRise(hs[1..], Handle(hs[0], c, o), o);
    }
  }

  lemma RisingTogether(a: seq<Ctx>, b: seq<Ctx>)
    requires Rising(a) && Rising(b) && a != [] && b != [] && RankOf(a[|a| - 1]) <= RankOf(b[0])
    ensures Rising(a + b)
  {
  }

  lemma {:induction false} RisingThroughout(cs: seq<Ctx>, i: nat, j: nat)
    requires Rising(cs) && i <= j < |cs|
    ensures RankOf(cs[i]) <= RankOf(cs[j])
    decreases j
  {
    if i < j {
      RisingThroughout(cs, i, j - 1);
    }
  }

  /** From any point of any run to any later one, with whatever handlers, the rank of the current
      decision does not fall; and the run ends in what `Execute` answers from. */
  lemma RankNeverFallsAlongRun(w: Wiring, c: Ctx, o: Oracle, i: nat, j: nat)
    requires i <= j < |Trace(w, c, o)|
    ensures RankOf(Trace(w, c, o)[i]) <= RankOf(Trace(w, c, o)[j])
    ensures Execute(w, c, o) == Phase4(Trace(w, c, o)[|Trace(w, c, o)| - 1])
  {
    var start := c.(scores := NO_SCORES, total := 0);
    var c1 := RunHandlers(w.phase1, start, o);
    StepsRise(w.phase1, start, o);
    StepsEnd(w.phase1, start, o);
    if !c1.hardDecision {
      StepsRise(w.phase2, c1, o);
      StepsEnd(w.phase2, c1, o);
      var c2 := Weigh(RunHandlers(w.phase2, c1, o), o);
      RisingTogether(Steps(w.phase1, start, o), Steps(w.phase2, c1, o));
      RisingTogether(Steps(w.phase1, start, o) + Steps(w.phase2, c1, o), [c2, DecisionEngine(c2, o)]);
    }
    RisingThroughout(Trace(w, c, o), i, j);
  }

  // ----- what becomes of a request -----

  /** Whatever is neither blocked nor challenged is forwarded. */
  predicate Forwarded(f: Ctx) {
    f.action != Block && f.action != Challenge
  }

  /** The pipeline writes no response and the request is not forwarded. */
  predicate LeftAlone(w: Wiring, c: Ctx, o: Oracle) {
    !Execute(w, c, o).1 && !Forwarded(Execute(w, c, o).0)
  }

  /** The score that is compared with the thresholds asks for a challenge, not for a block. */
  predicate ScoresChallenge(raw: Scores, o: Oracle) {
    && o.scoring.Some?
    && Severity(Clamp(Sum(WeighedScores(raw, o.scoring.value.weights))), o.scoring.value.thresholds) == 1
  }

  lemma InitialStarts(underAttack: bool)
    ensures Starts(Initial(underAttack))
  {
    var under := Decision(Challenge, "under_attack_mode", "under_attack_mode", []);
    assert [under][..0] == [] && ResolveAll([under]) == under;
    assert underAttack ==> Initial(underAttack).offered == [under];
  }

  lemma LeftAloneWhenChallenged(w: Wiring, c: Ctx, o: Oracle)
    requires Wired(w) && Starts(c)
    ensures LeftAlone(w, c, o) <==> Execute(w, c, o).0.action == Challenge && o.cookie.Some?
  {
    EveryRun(w, c, o);
  }

  lemma FinalActionByIpRule(w: Wiring, underAttack: bool, o: Oracle)
    requires Wired(w) && IpRuleApplies(o) && IpAction(o.ipRule.action)
    ensures Execute(w, Initial(underAttack), o).0.action == Challenge <==>
            o.ipRule.action == Challenge || (underAttack && o.ipRule.action == Allow)
  {
    IpRuleIsTerminal(w, underAttack, o);
  }

  lemma LeftAloneByIpRule(w: Wiring, underAttack: bool, o: Oracle)
    requires Wired(w) && IpRuleApplies(o) && IpAction(o.ipRule.action)
    ensures LeftAlone(w, Initial(underAttack), o) <==>
            o.cookie.Some? && (o.ipRule.action == Challenge || (underAttack && o.ipRule.action == Allow))
  {
    FinalActionByIpRule(w, underAttack, o);
    InitialStarts(underAttack);
    LeftAloneWhenChallenged(w, Initial(underAttack), o);
  }

  lemma VerifiedEndsInChallengeIff(c: Ctx, o: Oracle, raw: Scores)
    requires c.challengePassed && !c.hardDecision && c.action == NoAction && c.current.action != Block
    requires c.scores == raw && c.total == Sum(raw)
    ensures var (f, answered) := Phase4(DecisionEngine(Weigh(c, o), o));
            !answered && !Forwarded(f) <==> ScoresChallenge(raw, o)
  {
  }

  lemma LeftAloneJudged(w: Wiring, c: Ctx, o: Oracle, off: Off, raw: Scores)
    requires (forall h | h in w.phase2 :: Scorer(h)) && o.cookie.Some?
    requires Verified(RunHandlers(w.phase1, c.(scores := NO_SCORES, total := 0), o), o, off)
    requires Contributions(w.phase2, o, off) == raw
    ensures LeftAlone(w, c, o) <==> ScoresChallenge(raw, o)
  {
    var c1 := RunHandlers(w.phase1, c.(scores := NO_SCORES, total := 0), o);
    var scored := VerifiedScored(w.phase2, c1, o, off, raw);
    VerifiedEndsInChallengeIff(scored, o, raw);
    LeftAloneFrom(w, c, o, c1, scored);
  }

  lemma LeftAloneByScore(w: Wiring, c: Ctx, o: Oracle)
    requires Wired(w) && o.cookie.Some? && !IpRuleApplies(o)
    requires !c.ipRuleTerminal && !c.hardDecision && c.current.action != Block && c.skipModules == c.skipPhases == {}
    ensures LeftAlone(w, c, o) <==> ScoresChallenge(VerifiedScores(o, OffBy(VerifiedSkips(o))), o)
  {
    var off := OffBy(VerifiedSkips(o));
    VerifiedPhase1(w, c.(scores := NO_SCORES, total := 0), o);
    ContributionsAddUp(w, o, off);
    WiredScoresInPhase2(w);
    LeftAloneJudged(w, c, o, off, VerifiedScores(o, off));
  }

  lemma LeftAloneFrom(w: Wiring, c: Ctx, o: Oracle, c1: Ctx, scored: Ctx)
    requires c1 == RunHandlers(w.phase1, c.(scores := NO_SCORES, total := 0), o) && !c1.hardDecision
    requires scored == RunHandlers(w.phase2, c1, o)
    ensures var (f, answered) := Phase4(DecisionEngine(Weigh(scored, o), o));
            LeftAlone(w, c, o) <==> !answered && !Forwarded(f)
  {
  }

  /** A request that is neither answered nor forwarded has a verified client, and either an IP
      rule that challenges it, or allows it under attack mode; or no IP rule and a score between
      the thresholds.  These are left alone, and no others. */
  lemma LeftAloneIff(w: Wiring, underAttack: bool, o: Oracle)
    requires Wired(w) && (IpRuleApplies(o) ==> IpAction(o.ipRule.action))
    ensures LeftAlone(w, Initial(underAttack), o) <==>
            && o.cookie.Some?
            && if IpRuleApplies(o) then o.ipRule.action == Challenge || (underAttack && o.ipRule.action == Allow)
               else ScoresChallenge(VerifiedScores(o, OffBy(VerifiedSkips(o))), o)
  {
    if IpRuleApplies(o) {
      LeftAloneByIpRule(w, underAttack, o);
    } else if o.cookie.Some? {
      LeftAloneByScore(w, Initial(underAttack), o);
    } else {
      InitialStarts(underAttack);
      LeftAloneWhenChallenged(w, Initial(underAttack), o);
    }
  }

  /** Never both. */
  lemma AnsweredIsNotForwarded(w: Wiring, c: Ctx, o: Oracle)
    requires Wired(w) && Starts(c)
    ensures !(Execute(w, c, o).1 && Forwarded(Execute(w, c, o).0))
  {
    EveryRun(w, c, o);
  }

  /** A client with a valid cookie of level 3 and an IP rule that challenges its address. */
  const CHALLENGED_CLIENT := Oracle(
    Some(3), Matched(Challenge, "office", true), false, false, None, None, None, None, None, None,
    0, 0, 0, [], None, None, [], None, "")

  /** Such a request: no page and no upstream. */
  lemma ChallengedClientIsLeftAlone(w: Wiring)
    requires Wired(w)
    ensures LeftAlone(w, Initial(false), CHALLENGED_CLIENT)
  {
    LeftAloneIff(w, false, CHALLENGED_CLIENT);
  }

  // ----- scores -----

  lemma {:induction false} RuleScansKeepScores(c: Ctx, rules: seq<RuleOutcome>)
    ensures ScanRules(c, rules).scores == c.scores && ScanRules(c, rules).total == c.total
    ensures ScanRulesVerified(c, rules).scores == c.scores && ScanRulesVerified(c, rules).total == c.total
    decreases |rules|
  {
    if rules != [] {
      RuleScansKeepScores(c, rules[1..]);
      RuleScansKeepScores(SkipBy(c, rules[0]), rules[1..]);
    }
  }

  lemma Phase1HandlerKeepsScores(h: Handler, c: Ctx, o: Oracle)
    requires !Scorer(h)
    ensures Handle(h, c, o).scores == c.scores && Handle(h, c, o).total == c.total
  {
    if h == CustomRules && o.rules.Some? {
      RuleScansKeepScores(Called(c, RuleEngine), o.rules.value);
    }
  }

  lemma {:induction false} Phase1KeepsScores(hs: seq<Handler>, c: Ctx, o: Oracle)
    requires forall h | h in hs :: !Scorer(h)
    ensures RunHandlers(hs, c, o).scores == c.scores && RunHandlers(hs, c, o).total == c.total
    decreases |hs|
  {
    if hs != [] {
      Phase1HandlerKeepsScores(hs[0], c, o);
      Phase1KeepsScores(hs[1..], Handle(hs[0], c, o), o);
    }
  }

  /** Detectors run in phase 2 and nowhere else. */
  ghost predicate ScoresInPhase2(w: Wiring) {
    (forall h | h in w.phase1 :: !Scorer(h)) && forall h | h in w.phase2 :: Scorer(h)
  }

  lemma WiredScoresInPhase2(w: Wiring)
    requires Wired(w)
    ensures ScoresInPhase2(w)
  {
  }

  /** The total is the clamped sum of the categories. */
  predicate Totalled(c: Ctx) {
    c.total == Clamp(Sum(c.scores)) && 0 <= c.total <= 100
  }

  lemma VerdictStaysTotalled(c: Ctx, o: Oracle)
    requires Totalled(c)
    ensures Totalled(DecisionEngine(c, o)) && Totalled(Phase4(DecisionEngine(c, o)).0)
  {
  }

  lemma ScoredIsTotalled(hs: seq<Handler>, c: Ctx, o: Oracle)
    requires (forall h | h in hs :: Scorer(h)) && Balanced(c)
    ensures Totalled(Weigh(RunHandlers(hs, c, o), o))
  {
    JudgedTotal(hs, c, o);
  }

  lemma SoftRunIsTotalled(hs: seq<Handler>, c: Ctx, o: Oracle)
    requires (forall h | h in hs :: Scorer(h)) && Balanced(c)
    ensures Totalled(Phase4(DecisionEngine(Weigh(RunHandlers(hs, c, o), o), o)).0)
  {
    ScoredIsTotalled(hs, c, o);
    VerdictStaysTotalled(Weigh(RunHandlers(hs, c, o), o), o);
  }

  lemma HardRunIsTotalled(c: Ctx)
    requires c.scores == NO_SCORES && c.total == 0
    ensures Totalled(Phase4(c).0)
  {
  }

  lemma JudgedRunIsTotalled(w: Wiring, c: Ctx, o: Oracle)
    requires ScoresInPhase2(w) && c.scores == NO_SCORES && c.total == 0
    ensures Totalled(Phase4(Judge(w, c, o)).0)
  {
    if c.hardDecision {
      HardRunIsTotalled(c);
    } else {
      SoftRunIsTotalled(w.phase2, c, o);
    }
  }

  /** In every run the total the verdict was based on is the clamped sum of the weighted
      categories, and nothing at all when phase 1 was decisive. */
  lemma RunTotal(w: Wiring, c: Ctx, o: Oracle)
    requires ScoresInPhase2(w)
    ensures Totalled(Execute(w, c, o).0)
  {
    var start := c.(scores := NO_SCORES, total := 0);
    Phase1KeepsScores(w.phase1, start, o);
    JudgedRunIsTotalled(w, RunHandlers(w.phase1, start, o), o);
  }

  /** The same oracle but for detectors that score no less. */
  predicate ScoresHigher(o: Oracle, p: Oracle) {
    && o == p.(ipReputation := o.ipReputation, botScore := o.botScore, wafScore := o.wafScore, protocolScores := o.protocolScores)
    && o.ipReputation <= p.ipReputation && o.botScore <= p.botScore && o.wafScore <= p.wafScore
    && |o.protocolScores| == |p.protocolScores|
    && forall i | 0 <= i < |o.protocolScores| :: o.protocolScores[i] <= p.protocolScores[i]
  }

  lemma {:induction false} Phase1IgnoresDetectors(hs: seq<Handler>, c: Ctx, o: Oracle, p: Oracle)
    requires (forall h | h in hs :: !Scorer(h)) && ScoresHigher(o, p)
    ensures RunHandlers(hs, c, o) == RunHandlers(hs, c, p)
    decreases |hs|
  {
    if hs != [] {
      assert hs[0] in hs;
      assert Handle(hs[0], c, o) == Handle(hs[0], c, p);
      Phase1IgnoresDetectors(hs[1..], Handle(hs[0], c, o), o, p);
    }
  }

  /** Two contexts that differ in scores alone, the second scoring no less. */
  predicate Ahead(c: Ctx, d: Ctx) {
    SameVerdict(c, d) && NoLess(c.scores, d.scores)
  }

  lemma {:induction false} ProtocolAhead(c: Ctx, d: Ctx, xs: seq<int>, ys: seq<int>)
    requires Ahead(c, d) && |xs| == |ys| && forall i | 0 <= i < |xs| :: xs[i] <= ys[i]
    ensures Ahead(AddProtocolScores(c, xs), AddProtocolScores(d, ys))
    decreases |xs|
  {
    if xs != [] {
      ProtocolAhead(AddScore(c, ProtocolAnomaly, xs[0]), AddScore(d, ProtocolAnomaly, ys[0]), xs[1..], ys[1..]);
    }
  }

  lemma ReputationAhead(c: Ctx, d: Ctx, o: Oracle, p: Oracle)
    requires Ahead(c, d) && ScoresHigher(o, p)
    ensures Ahead(IpReputationScorer(c, o), IpReputationScorer(d, p))
  {
    assert IpReputationScore(o) <= IpReputationScore(p);
  }

  lemma WafAhead(c: Ctx, d: Ctx, o: Oracle, p: Oracle)
    requires Ahead(c, d) && ScoresHigher(o, p)
    ensures Ahead(WafEngine(c, o), WafEngine(d, p))
  {
  }

  lemma BotAhead(c: Ctx, d: Ctx, o: Oracle, p: Oracle)
    requires Ahead(c, d) && ScoresHigher(o, p)
    ensures Ahead(BotDetector(c, o), BotDetector(d, p))
  {
  }

  lemma ReduceAhead(c: Ctx, d: Ctx, o: Oracle, p: Oracle, reduction: Option<int>)
    requires Ahead(c, d) && ScoresHigher(o, p)
    ensures Ahead(Reduce(c, o, reduction), Reduce(d, p, reduction))
  {
  }

  lemma ScorerAhead(h: Handler, c: Ctx, d: Ctx, o: Oracle, p: Oracle)
    requires Scorer(h) && Ahead(c, d) && ScoresHigher(o, p)
    ensures Ahead(Handle(h, c, o), Handle(h, d, p))
  {
    match h
    case IpReputationH => ReputationAhead(c, d, o, p);
    case WafH => WafAhead(c, d, o, p);
    case BotDetectionH => BotAhead(c, d, o, p);
    case TrustedHistory => ReduceAhead(c, d, o, p, o.historyReduction);
    case StableSession => ReduceAhead(c, d, o, p, o.sessionReduction);
    case ProtocolH => ProtocolAhead(Called(c, Detector), Called(d, Detector), o.protocolScores, p.protocolScores);
    case _ =>
  }

  lemma {:induction false} ScorersAhead(hs: seq<Handler>, c: Ctx, d: Ctx, o: Oracle, p: Oracle)
    requires (forall h | h in hs :: Scorer(h)) && Ahead(c, d) && ScoresHigher(o, p)
    ensures Ahead(RunHandlers(hs, c, o), RunHandlers(hs, d, p))
    decreases |hs|
  {
    if hs != [] {
      ScorerAhead(hs[0], c, d, o, p);
      ScorersAhead(hs[1..], Handle(hs[0], c, o), Handle(hs[0], d, p), o, p);
    }
  }

  lemma VerdictAhead(c: Ctx, d: Ctx, o: Oracle, p: Oracle)
    requires Ahead(c, d) && ScoresHigher(o, p) && Balanced(c) && Balanced(d)
    requires o.scoring.Some? ==> NonNegativeMultipliers(o.scoring.value.weights)
    ensures Rank(DecisionEngine(Weigh(c, o), o).action) <= Rank(DecisionEngine(Weigh(d, p), p).action)
  {
    if o.scoring.Some? {
      HigherScoresAreNoMilder(c.scores, d.scores, o.scoring.value);
    }
  }

  /** Over whole runs: with non-negative multipliers, detectors that score higher never lead to a
      final action of lower rank. */
  lemma HigherScoresRankNoLower(w: Wiring, c: Ctx, o: Oracle, p: Oracle)
    requires ScoresInPhase2(w) && ScoresHigher(o, p)
    requires o.scoring.Some? ==> NonNegativeMultipliers(o.scoring.value.weights)
    ensures Rank(Execute(w, c, o).0.action) <= Rank(Execute(w, c, p).0.action)
  {
    var start := c.(scores := NO_SCORES, total := 0);
    var c1 := RunHandlers(w.phase1, start, o);
    Phase1IgnoresDetectors(w.phase1, start, o, p);
    Phase1KeepsScores(w.phase1, start, o);
    if !c1.hardDecision {
      ScorersAhead(w.phase2, c1, c1, o, p);
      ScoringBalances(w.phase2, c1, o);
      ScoringBalances(w.phase2, c1, p);
      VerdictAhead(RunHandlers(w.phase2, c1, o), RunHandlers(w.phase2, c1, p), o, p);
    }
  }
}
