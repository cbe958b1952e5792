/** Scoring a pointer trajectory and page signals, and the trust level they earn. */
module Trajectory {

  datatype Point = Point(x: int, y: int, t: int)

  // ----- geometry -----

  /** What is relied on of the square root. */
  ghost predicate IsSqrt(sqrt: real -> real) {
    forall x :: x >= 0.0 ==> sqrt(x) >= 0.0 && sqrt(x) * sqrt(x) == x
  }

  function SquaredLength(dx: real, dy: real): (r: real)
    ensures r >= 0.0
  {
    dx * dx + dy * dy
  }

  function Distance(sqrt: real -> real, p: Point, q: Point): real {
    sqrt(SquaredLength((q.x - p.x) as real, (q.y - p.y) as real))
  }

  /** The length of the path through the first `n` points. */
  function PathLength(sqrt: real -> real, points: seq<Point>, n: nat): real
    requires n <= |points|
  {
    if n < 2 then 0.0
    else PathLength(sqrt, points, n - 1) + Distance(sqrt, points[n - 2], points[n - 1])
  }

  lemma PositiveProduct(x: real, y: real)
    requires x > 0.0 && y > 0.0
    ensures x * y > 0.0
  {
  }

  lemma RootsOrdered(r: real, s: real)
    requires r >= 0.0 && s >= 0.0 && r * r <= s * s
    ensures r <= s
  {
    assert (r - s) * (r + s) == r * r - s * s;
    if r > s {
      PositiveProduct(r - s, r + s);
    }
  }

  /** Cauchy and Schwarz, in the plane. */
  lemma InnerProductBounded(a: real, b: real, c: real, d: real, p: real, q: real)
    requires p >= 0.0 && q >= 0.0 && p * p == SquaredLength(a, b) && q * q == SquaredLength(c, d)
    ensures a * c + b * d <= p * q
  {
    var inner, area := a * c + b * d, a * d - b * c;
    LagrangeIdentity(a, b, c, d);
    assert area * area >= 0.0;
    ProductOfSquares(p, q);
    assert inner * inner <= (p * q) * (p * q);
    if inner > 0.0 {
      RootsOrdered(inner, p * q);
    } else {
      assert p * q >= 0.0;
    }
  }

  lemma LagrangeIdentity(a: real, b: real, c: real, d: real)
    ensures (a * c + b * d) * (a * c + b * d) + (a * d - b * c) * (a * d - b * c)
            == SquaredLength(a, b) * SquaredLength(c, d)
  {
  }

  lemma ProductOfSquares(p: real, q: real)
    ensures (p * q) * (p * q) == (p * p) * (q * q)
  {
  }

  lemma SquaredSum(a: real, b: real, c: real, d: real)
    ensures SquaredLength(a + c, b + d) == SquaredLength(a, b) + SquaredLength(c, d) + 2.0 * (a * c + b * d)
  {
  }

  lemma SquareOfSum(p: real, q: real)
    ensures (p + q) * (p + q) == p * p + q * q + 2.0 * (p * q)
  {
  }

  lemma TriangleInequality(a: real, b: real, c: real, d: real, p: real, q: real, r: real)
    requires p >= 0.0 && q >= 0.0 && r >= 0.0
    requires p * p == SquaredLength(a, b) && q * q == SquaredLength(c, d) && r * r == SquaredLength(a + c, b + d)
    ensures r <= p + q
  {
    InnerProductBounded(a, b, c, d, p, q);
    SquaredSum(a, b, c, d);
    SquareOfSum(p, q);
    RootsOrdered(r, p + q);
  }

  lemma DistanceTriangle(sqrt: real -> real, p: Point, q: Point, r: Point)
    requires IsSqrt(sqrt)
    ensures 0.0 <= Distance(sqrt, p, r) <= Distance(sqrt, p, q) + Distance(sqrt, q, r)
  {
    var a, b := (q.x - p.x) as real, (q.y - p.y) as real;
    var c, d := (r.x - q.x) as real, (r.y - q.y) as real;
    assert a + c == (r.x - p.x) as real && b + d == (r.y - p.y) as real;
    TriangleInequality(a, b, c, d, Distance(sqrt, p, q), Distance(sqrt, q, r), Distance(sqrt, p, r));
  }

  /** No path between two points is shorter than the straight line. */
  lemma {:induction false} StraightIsShortest(sqrt: real -> real, points: seq<Point>, n: nat)
    requires IsSqrt(sqrt) && 2 <= n <= |points|
    ensures 0.0 <= Distance(sqrt, points[0], points[n - 1]) <= PathLength(sqrt, points, n)
  {
    DistanceTriangle(sqrt, points[0], points[n - 2], points[n - 1]);
    if n > 2 {
      StraightIsShortest(sqrt, points, n - 1);
    }
  }

  function Straightness(sqrt: real -> real, points: seq<Point>): real {
    if |points| < 2 then 1.0
    else
      var direct, total := Distance(sqrt, points[0], points[|points| - 1]), PathLength(sqrt, points, |points|);
      if direct == 0.0 || total == 0.0 then 1.0 else direct / total
  }

  lemma QuotientInUnit(a: real, b: real)
    requires 0.0 < a <= b
    ensures 0.0 < a / b <= 1.0
    ensures a / b == 1.0 <==> a == b
  {
  }

  /** Straightness lies in (0, 1], and is 1 exactly for a path without detours and for one that
      ends where it began. */
  lemma StraightnessInRange(sqrt: real -> real, points: seq<Point>)
    requires IsSqrt(sqrt)
    ensures 0.0 < Straightness(sqrt, points) <= 1.0
    ensures |points| >= 2 ==>
              var direct := Distance(sqrt, points[0], points[|points| - 1]);
              Straightness(sqrt, points) == 1.0 <==> direct == 0.0 || direct == PathLength(sqrt, points, |points|)
  {
    if |points| >= 2 {
      StraightIsShortest(sqrt, points, |points|);
      var direct, total := Distance(sqrt, points[0], points[|points| - 1]), PathLength(sqrt, points, |points|);
      if direct != 0.0 {
        QuotientInUnit(direct, total);
      }
    }
  }

  method CalcStraightness(sqrt: real -> real, points: seq<Point>) returns (s: real)
    requires IsSqrt(sqrt)
    ensures s == Straightness(sqrt, points) && 0.0 < s <= 1.0
  {
    StraightnessInRange(sqrt, points);
    if |points| < 2 {
      return 1.0;
    }
    var first, last := points[0], points[|points| - 1];
    var directDist := Distance(sqrt, first, last);
    if directDist == 0.0 {
      return 1.0;
    }
    var totalDist := 0.0;
    for i := 1 to |points|
      invariant totalDist == PathLength(sqrt, points, i)
    {
      totalDist := totalDist + Distance(sqrt, points[i - 1], points[i]);
    }
    if totalDist == 0.0 {
      return 1.0;
    }
    return directDist / totalDist;
  }

  // ----- scores -----

  datatype TrustConfig = TrustConfig(
    level0Max: real, level1Max: real, level2Max: real,
    minPoints: int, speedVarianceMin: real, straightnessMax: real, jitterMin: real,
    timingVarianceMin: real, accelVarianceMin: real, pauseRequired: bool, firstInteractMin: int)

  /** The measures of a trajectory besides its straightness. */
  datatype Measures = Measures(
    speedVariance: real, yJitter: real, directionChanges: nat, timingVariance: real, accelVariance: real, hasPause: bool)

  datatype Signals = Signals(focusCount: nat, blurCount: nat, scrollCount: nat, mouseBeforeDrag: nat, firstInteraction: int)

  function If(c: bool, x: real): real {
    if c then x else 0.0
  }

  function Floored(x: real): real {
    if x < 0.0 then 0.0 else x
  }

  /** What a trajectory of `n` points loses. */
  function TrajectoryPenalty(n: nat, straightness: real, m: Measures, cfg: TrustConfig): real {
    If(n < cfg.minPoints, 0.4)
    + If(n >= 2 && m.speedVariance < cfg.speedVarianceMin, 0.3)
    + If(n >= 2 && straightness > cfg.straightnessMax, 0.2)
    + If(n >= 2 && m.yJitter < cfg.jitterMin, 0.2)
    + If(n >= 2 && m.directionChanges == 0, 0.15)
    + If(n >= 2 && m.timingVariance < cfg.timingVarianceMin, 0.2)
    + If(n >= 2 && m.accelVariance < cfg.accelVarianceMin, 0.2)
    + If(n >= 2 && cfg.pauseRequired && !m.hasPause, 0.15)
  }

  function SignalsPenalty(s: Signals, cfg: TrustConfig): real {
    If(s.mouseBeforeDrag == 0, 0.2)
    + If(s.firstInteraction < cfg.firstInteractMin, 0.3)
    + If(s.focusCount == 0 && s.blurCount == 0 && s.scrollCount == 0 && s.mouseBeforeDrag == 0, 0.1)
  }

  method AnalyzeTrajectory(sqrt: real -> real, points: seq<Point>, m: Measures, cfg: TrustConfig) returns (score: real)
    requires IsSqrt(sqrt)
    ensures 0.0 <= score <= 1.0
    ensures score == Floored(1.0 - TrajectoryPenalty(|points|, Straightness(sqrt, points), m, cfg))
  {
    score := 1.0;
    if |points| < cfg.minPoints {
      score := score - 0.4;
    }
    if |points| >= 2 {
      if m.speedVariance < cfg.speedVarianceMin {
        score := score - 0.3;
      }
      var st := CalcStraightness(sqrt, points);
      if st > cfg.straightnessMax {
        score := score - 0.2;
      }
      if m.yJitter < cfg.jitterMin {
        score := score - 0.2;
      }
      if m.directionChanges == 0 {
        score := score - 0.15;
      }
      if m.timingVariance < cfg.timingVarianceMin {
        score := score - 0.2;
      }
      if m.accelVariance < cfg.accelVarianceMin {
        score := score - 0.2;
      }
      if cfg.pauseRequired {
        if !m.hasPause {
          score := score - 0.15;
        }
      }
    }
    if score < 0.0 {
      score := 0.0;
    }
  }

  method AnalyzeSignals(s: Signals, cfg: TrustConfig) returns (score: real)
    ensures 0.0 <= score <= 1.0
    ensures score == Floored(1.0 - SignalsPenalty(s, cfg))
  {
    score := 1.0;
    if s.mouseBeforeDrag == 0 {
      score := score - 0.2;
    }
    if s.firstInteraction < cfg.firstInteractMin {
      score := score - 0.3;
    }
    if s.focusCount == 0 && s.blurCount == 0 && s.scrollCount == 0 && s.mouseBeforeDrag == 0 {
      score := score - 0.1;
    }
    if score < 0.0 {
      score := 0.0;
    }
  }

  function ComputeTrustLevel(trajectoryScore: real, signalsScore: real, cfg: TrustConfig): (level: nat)
    ensures level <= 3
  {
    var confidence := trajectoryScore * 0.7 + signalsScore * 0.3;
    if confidence < cfg.level0Max then 0
    else if confidence < cfg.level1Max then 1
    else if confidence < cfg.level2Max then 2
    else 3
  }

  /** For bounds in order, the level exceeds `k` exactly when seven tenths of the trajectory
      score and three tenths of the signals score together reach bound `k`. */
  lemma LevelExceedsIff(trajectoryScore: real, signalsScore: real, cfg: TrustConfig, k: nat)
    requires k < 3 && cfg.level0Max <= cfg.level1Max <= cfg.level2Max
    ensures ComputeTrustLevel(trajectoryScore, signalsScore, cfg) > k <==>
            7.0 * trajectoryScore + 3.0 * signalsScore >= 10.0 * [cfg.level0Max, cfg.level1Max, cfg.level2Max][k]
  {
    assert 10.0 * (trajectoryScore * 0.7 + signalsScore * 0.3) == 7.0 * trajectoryScore + 3.0 * signalsScore;
  }

  /** The trust level is monotone in both scores, even where the bounds are out of order. */
  lemma TrustLevelMonotone(a: real, b: real, c: real, d: real, cfg: TrustConfig)
    requires a <= c && b <= d
    ensures ComputeTrustLevel(a, b, cfg) <= ComputeTrustLevel(c, d, cfg)
  {
    assert a * 0.7 + b * 0.3 <= c * 0.7 + d * 0.3;
  }

  predicate NoMoreMechanical(straightness: real, m: Measures, other: real, k: Measures) {
    && other <= straightness
    && m.speedVariance <= k.speedVariance && m.yJitter <= k.yJitter && m.directionChanges <= k.directionChanges
    && m.timingVariance <= k.timingVariance && m.accelVariance <= k.accelVariance && (m.hasPause ==> k.hasPause)
  }

  predicate NoLessActive(s: Signals, u: Signals) {
    && s.focusCount <= u.focusCount && s.blurCount <= u.blurCount && s.scrollCount <= u.scrollCount
    && s.mouseBeforeDrag <= u.mouseBeforeDrag && s.firstInteraction <= u.firstInteraction
  }

  /** With as many points, a less mechanical trajectory and more activity never earn less trust. */
  lemma LivelierIsTrustedNoLess(n: nat, x: real, m: Measures, y: real, k: Measures, s: Signals, u: Signals, cfg: TrustConfig)
    requires NoMoreMechanical(x, m, y, k) && NoLessActive(s, u)
    ensures ComputeTrustLevel(Floored(1.0 - TrajectoryPenalty(n, x, m, cfg)), Floored(1.0 - SignalsPenalty(s, cfg)), cfg) <=
            ComputeTrustLevel(Floored(1.0 - TrajectoryPenalty(n, y, k, cfg)), Floored(1.0 - SignalsPenalty(u, cfg)), cfg)
  {
    assert TrajectoryPenalty(n, y, k, cfg) <= TrajectoryPenalty(n, x, m, cfg);
    assert SignalsPenalty(u, cfg) <= SignalsPenalty(s, cfg);
    TrustLevelMonotone(Floored(1.0 - TrajectoryPenalty(n, x, m, cfg)), Floored(1.0 - SignalsPenalty(s, cfg)),
                       Floored(1.0 - TrajectoryPenalty(n, y, k, cfg)), Floored(1.0 - SignalsPenalty(u, cfg)), cfg);
  }
}
