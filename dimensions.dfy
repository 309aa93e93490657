/** `generateDimensionalScores`: four sub-scores from a base value, random
    offsets and the word-limit penalty, each clamped to [0, 100].

    The `mt_rand` draws are parameters; a draw is valid when it lies in the
    closed range the source passes to `mt_rand`. */
module Dimensions {
  import opened Text

  /** which branch of `generateDimensionalScores` runs */
  datatype ScoreMode =
    | RandomBase(baseValue: int)   // `$isRandom`: the base is `mt_rand(60, 90)`
    | Anchored(baseScore: int)      // not random, with a base score
    | Fixed                         // not random and no base score

  datatype Offsets = Offsets(content: int, organization: int, evidence: int, innovation: int)

  datatype DimensionalScores = DimensionalScores(content: int, organization: int, evidence: int, innovation: int)

  predicate InRange(x: int, lo: int, hi: int) { lo <= x <= hi }

  /** the offsets `mt_rand` can return in each mode */
  predicate ValidDraws(mode: ScoreMode, d: Offsets)
  {
    match mode
    case RandomBase(b) =>
      InRange(b, 60, 90) && InRange(d.content, -10, 15) && InRange(d.organization, -15, 10) &&
      InRange(d.evidence, -20, 5) && InRange(d.innovation, -25, 20)
    case Anchored(_) =>
      InRange(d.content, -5, 10) && InRange(d.organization, -10, 5) &&
      InRange(d.evidence, -15, 0) && InRange(d.innovation, -20, 15)
    case Fixed => true
  }

  predicate AllInPercent(r: DimensionalScores)
  {
    InRange(r.content, 0, 100) && InRange(r.organization, 0, 100) &&
    InRange(r.evidence, 0, 100) && InRange(r.innovation, 0, 100)
  }

  /** `min(100, max(0, $base + mt_rand(...) - $penalty * 100))` */
  function Dimension(base: int, offset: int, penaltyPercent: nat): (v: int)
    ensures 0 <= v <= 100
    ensures 0 <= base + offset - penaltyPercent <= 100 ==> v == base + offset - penaltyPercent
  {
    Clamp(base + offset - penaltyPercent, 0, 100)
  }

  const DEFAULT_SCORES: DimensionalScores := DimensionalScores(75, 70, 65, 60)

  /** `generateDimensionalScores($isRandom, $penalty, $baseScore)` */
  function GenerateDimensionalScores(mode: ScoreMode, penaltyPercent: nat, d: Offsets): (r: DimensionalScores)
    requires ValidDraws(mode, d)
    ensures AllInPercent(r)
    ensures mode.Fixed? ==> r == DEFAULT_SCORES
  {
    match mode
    case RandomBase(b) =>
      DimensionalScores(Dimension(b, d.content, penaltyPercent), Dimension(b, d.organization, penaltyPercent),
        Dimension(b, d.evidence, penaltyPercent), Dimension(b, d.innovation, penaltyPercent))
    case Anchored(b) =>
      DimensionalScores(Dimension(b, d.content, penaltyPercent), Dimension(b, d.organization, penaltyPercent),
        Dimension(b, d.evidence, penaltyPercent), Dimension(b, d.innovation, penaltyPercent))
    case Fixed => DEFAULT_SCORES
  }

  predicate AtMost(r1: DimensionalScores, r2: DimensionalScores)
  {
    r1.content <= r2.content && r1.organization <= r2.organization &&
    r1.evidence <= r2.evidence && r1.innovation <= r2.innovation
  }

  /** A larger word-limit penalty never raises a sub-score. */
  lemma {:induction false} PenaltyLowersScores(mode: ScoreMode, p1: nat, p2: nat, d: Offsets)
    requires ValidDraws(mode, d) && p1 <= p2
    ensures AtMost(GenerateDimensionalScores(mode, p2, d), GenerateDimensionalScores(mode, p1, d))
  {
  }

  /** Random-mode scores lie within their offset ranges of the drawn base less the penalty
      (as far as the clamp allows); without a penalty that is content 50..100,
      organization 45..100, evidence 40..95 and innovation 35..100. */
  lemma {:induction false} RandomScoresRange(b: int, pen: nat, d: Offsets)
    requires ValidDraws(RandomBase(b), d)
    ensures var r := GenerateDimensionalScores(RandomBase(b), pen, d);
      Clamp(b - 10 - pen, 0, 100) <= r.content <= Clamp(b + 15 - pen, 0, 100) &&
      Clamp(b - 15 - pen, 0, 100) <= r.organization <= Clamp(b + 10 - pen, 0, 100) &&
      Clamp(b - 20 - pen, 0, 100) <= r.evidence <= Clamp(b + 5 - pen, 0, 100) &&
      Clamp(b - 25 - pen, 0, 100) <= r.innovation <= Clamp(b + 20 - pen, 0, 100)
    ensures var r := GenerateDimensionalScores(RandomBase(b), 0, d);
      50 <= r.content && 45 <= r.organization && 40 <= r.evidence && r.evidence <= 95 && 35 <= r.innovation
  {
  }

  /** Anchored on a valid base score, each sub-score lies within its offset range of the base
      less the penalty (as far as the clamp allows). */
  lemma {:induction false} AnchoredScoresNearBase(s: int, pen: nat, d: Offsets)
    requires ValidDraws(Anchored(s), d)
    ensures var r := GenerateDimensionalScores(Anchored(s), pen, d);
      Clamp(s - 5 - pen, 0, 100) <= r.content <= Clamp(s + 10 - pen, 0, 100) &&
      Clamp(s - 10 - pen, 0, 100) <= r.organization <= Clamp(s + 5 - pen, 0, 100) &&
      Clamp(s - 15 - pen, 0, 100) <= r.evidence <= Clamp(s - pen, 0, 100) &&
      Clamp(s - 20 - pen, 0, 100) <= r.innovation <= Clamp(s + 15 - pen, 0, 100)
  {
  }
}
