/** Risk scores: accumulation by category, configured weights, and the severity they lead to. */
module Scoring {

  datatype Category = IpReputation | BotDetection | WafAnomaly | ProtocolAnomaly | Trust

  datatype Entry = Entry(category: Category, rule: string, score: int)

  datatype Scores = Scores(ipReputation: int, botDetection: int, wafAnomaly: int, protocolAnomaly: int, trust: int)

  const NO_SCORES := Scores(0, 0, 0, 0, 0)

  function Get(s: Scores, c: Category): int {
    match c
    case IpReputation => s.ipReputation
    case BotDetection => s.botDetection
    case WafAnomaly => s.wafAnomaly
    case ProtocolAnomaly => s.protocolAnomaly
    case Trust => s.trust
  }

  function Set(s: Scores, c: Category, value: int): Scores {
    match c
    case IpReputation => s.(ipReputation := value)
    case BotDetection => s.(botDetection := value)
    case WafAnomaly => s.(wafAnomaly := value)
    case ProtocolAnomaly => s.(protocolAnomaly := value)
    case Trust => s.(trust := value)
  }

  function Sum(s: Scores): int {
    s.ipReputation + s.botDetection + s.wafAnomaly + s.protocolAnomaly + s.trust
  }

  // ----- weights -----

  datatype CategoryWeight = CategoryWeight(enabled: bool, maxScore: int, multiplier: real)

  datatype ScoringWeights = ScoringWeights(
    ipReputation: CategoryWeight, botDetection: CategoryWeight, wafAnomaly: CategoryWeight, protocolAnomaly: CategoryWeight)

  datatype Thresholds = Thresholds(block: int, challenge: int)

  datatype ScoringConfig = ScoringConfig(thresholds: Thresholds, weights: ScoringWeights)

  /** Conversion to an integer drops the fraction. */
  function Truncate(x: real): int {
    if x >= 0.0 then x.Floor else -(-x).Floor
  }

  function Multiplied(score: int, multiplier: real): int {
    if multiplier == 1.0 then score else Truncate(score as real * multiplier)
  }

  /** What the configured weight makes of one raw category score.  A disabled category
      loses what it gained but keeps what it lost. */
  function Weighed(score: int, w: CategoryWeight): int {
    if !w.enabled then if score > 0 then 0 else score
    else
      var m := Multiplied(score, w.multiplier);
      if m <= w.maxScore then m else w.maxScore
  }

  function WeighedScores(s: Scores, w: ScoringWeights): Scores {
    Scores(Weighed(s.ipReputation, w.ipReputation), Weighed(s.botDetection, w.botDetection),
           Weighed(s.wafAnomaly, w.wafAnomaly), Weighed(s.protocolAnomaly, w.protocolAnomaly), s.trust)
  }

  function Clamp(total: int): int {
    if total < 0 then 0 else if total > 100 then 100 else total
  }

  // ----- the accumulator -----

  class RiskScore {
    var total: int
    var entries: seq<Entry>
    var byCategory: Scores

    /** What the total holds beyond the categories.  Every operation but the final clamp
        keeps it, so from a new score on the total is the sum of the categories. */
    ghost function Surplus(): int
      reads this
    {
      total - Sum(byCategory)
    }

    constructor ()
      ensures Surplus() == 0 && total == 0 && entries == [] && byCategory == NO_SCORES
    {
      total, entries, byCategory := 0, [], NO_SCORES;
    }

    method Add(category: Category, rule: string, score: int)
      modifies this
      ensures entries == old(entries) + [Entry(category, rule, score)]
      ensures byCategory == Set(old(byCategory), category, Get(old(byCategory), category) + score)
      ensures Surplus() == old(Surplus())
    {
      entries := entries + [Entry(category, rule, score)];
      byCategory := Set(byCategory, category, Get(byCategory, category) + score);
      total := total + score;
    }

    method ApplyCap(category: Category, maxScore: int)
      modifies this
      ensures var s := Get(old(byCategory), category);
              byCategory == Set(old(byCategory), category, if s <= maxScore then s else maxScore)
      ensures entries == old(entries)
      ensures Surplus() == old(Surplus())
    {
      var current := Get(byCategory, category);
      if current <= maxScore {
        assert Set(byCategory, category, current) == byCategory;
        return;
      }
      var overflow := current - maxScore;
      byCategory := Set(byCategory, category, maxScore);
      total := total - overflow;
    }

    method ApplyMultiplier(category: Category, multiplier: real)
      modifies this
      ensures byCategory == Set(old(byCategory), category, Multiplied(Get(old(byCategory), category), multiplier))
      ensures entries == old(entries)
      ensures Surplus() == old(Surplus())
    {
      var current := Get(byCategory, category);
      if multiplier == 1.0 {
        assert Set(byCategory, category, current) == byCategory;
        return;
      }
      var adjusted := Multiplied(current, multiplier);
      var diff := adjusted - current;
      byCategory := Set(byCategory, category, adjusted);
      total := total + diff;
    }

    method ApplyCategory(category: Category, w: CategoryWeight)
      modifies this
      ensures byCategory == Set(old(byCategory), category, Weighed(Get(old(byCategory), category), w))
      ensures entries == old(entries)
      ensures Surplus() == old(Surplus())
    {
      if !w.enabled {
        var score := Get(byCategory, category);
        if score > 0 {
          total := total - score;
          byCategory := Set(byCategory, category, 0);
        } else {
          assert Set(byCategory, category, score) == byCategory;
        }
        return;
      }
      ApplyMultiplier(category, w.multiplier);
      ApplyCap(category, w.maxScore);
    }

    /** Trust has no weight: its reductions always count in full. */
    method ApplyWeights(w: ScoringWeights)
      modifies this
      ensures byCategory == WeighedScores(old(byCategory), w)
      ensures entries == old(entries)
      ensures Surplus() == old(Surplus())
    {
      ApplyCategory(IpReputation, w.ipReputation);
      ApplyCategory(BotDetection, w.botDetection);
      ApplyCategory(WafAnomaly, w.wafAnomaly);
      ApplyCategory(ProtocolAnomaly, w.protocolAnomaly);
    }

    method ClampTotal()
      modifies this`total
      ensures total == Clamp(old(total))
    {
      if total < 0 {
        total := 0;
      }
      if total > 100 {
        total := 100;
      }
    }
  }

  // ----- bounds and monotonicity -----

  /** After weighting, an enabled category is at most its cap, and the clamped total is a
      percentage. */
  lemma WeighedIsCapped(s: Scores, w: ScoringWeights)
    ensures w.ipReputation.enabled ==> WeighedScores(s, w).ipReputation <= w.ipReputation.maxScore
    ensures w.botDetection.enabled ==> WeighedScores(s, w).botDetection <= w.botDetection.maxScore
    ensures w.wafAnomaly.enabled ==> WeighedScores(s, w).wafAnomaly <= w.wafAnomaly.maxScore
    ensures w.protocolAnomaly.enabled ==> WeighedScores(s, w).protocolAnomaly <= w.protocolAnomaly.maxScore
    ensures 0 <= Clamp(Sum(WeighedScores(s, w))) <= 100
  {
  }

  /** Conversion drops the fraction: the result is on the same side of zero, no larger than the
      number, and less than one from it. */
  predicate FractionDropped(n: int, x: real) {
    if x >= 0.0 then 0 <= n && n as real <= x < n as real + 1.0
    else n <= 0 && n as real - 1.0 < x <= n as real
  }

  /** An enabled category is the product with its fraction dropped, cut to its cap; a disabled
      one is left with what it lost. */
  lemma WeighedIsProduct(score: int, w: CategoryWeight, product: real)
    requires product == score as real * w.multiplier
    ensures w.enabled ==> exists n: int ::
              FractionDropped(n, product) && Weighed(score, w) == if n <= w.maxScore then n else w.maxScore
    ensures !w.enabled ==> Weighed(score, w) == if score > 0 then 0 else score
  {
    assert FractionDropped(Multiplied(score, w.multiplier), product);
  }

  /** There is only one such integer. */
  lemma FractionDroppedOnce(m: int, n: int, x: real)
    requires FractionDropped(m, x) && FractionDropped(n, x)
    ensures m == n
  {
  }

  lemma TruncateMonotone(x: real, y: real)
    requires x <= y
    ensures Truncate(x) <= Truncate(y)
  {
  }

  lemma MultiplyMonotone(a: int, b: int, m: real)
    requires a <= b && m >= 0.0
    ensures a as real * m <= b as real * m
  {
    assert (b - a) as real * m >= 0.0;
  }

  lemma MultipliedMonotone(a: int, b: int, m: real)
    requires a <= b && m >= 0.0
    ensures Multiplied(a, m) <= Multiplied(b, m)
  {
    if m != 1.0 {
      var x, y := a as real * m, b as real * m;
      MultiplyMonotone(a, b, m);
      TruncateMonotone(x, y);
    }
  }

  lemma WeighedMonotone(a: int, b: int, w: CategoryWeight)
    requires a <= b && w.multiplier >= 0.0
    ensures Weighed(a, w) <= Weighed(b, w)
  {
    MultipliedMonotone(a, b, w.multiplier);
  }

  predicate NoLess(a: Scores, b: Scores) {
    && a.ipReputation <= b.ipReputation
    && a.botDetection <= b.botDetection
    && a.wafAnomaly <= b.wafAnomaly
    && a.protocolAnomaly <= b.protocolAnomaly
    && a.trust <= b.trust
  }

  predicate NonNegativeMultipliers(w: ScoringWeights) {
    && w.ipReputation.multiplier >= 0.0
    && w.botDetection.multiplier >= 0.0
    && w.wafAnomaly.multiplier >= 0.0
    && w.protocolAnomaly.multiplier >= 0.0
  }

  /** The severity the thresholds assign: 0 pass, 1 challenge, 2 block. */
  function Severity(total: int, t: Thresholds): nat {
    if total >= t.block then 2 else if total >= t.challenge then 1 else 0
  }

  /** Raising any raw category score never leads to a milder decision. */
  lemma HigherScoresAreNoMilder(a: Scores, b: Scores, cfg: ScoringConfig)
    requires NoLess(a, b) && NonNegativeMultipliers(cfg.weights)
    ensures Severity(Clamp(Sum(WeighedScores(a, cfg.weights))), cfg.thresholds) <=
            Severity(Clamp(Sum(WeighedScores(b, cfg.weights))), cfg.thresholds)
  {
    WeighedMonotone(a.ipReputation, b.ipReputation, cfg.weights.ipReputation);
    WeighedMonotone(a.botDetection, b.botDetection, cfg.weights.botDetection);
    WeighedMonotone(a.wafAnomaly, b.wafAnomaly, cfg.weights.wafAnomaly);
    WeighedMonotone(a.protocolAnomaly, b.protocolAnomaly, cfg.weights.protocolAnomaly);
  }
}
