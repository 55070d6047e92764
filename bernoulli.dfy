// The Bernoulli distribution used as a prior on the branch indicators:
// probability mass, cumulative probability and its inverse, for a success
// probability p.

module BernoulliDistribution {
  import opened Wrappers

  /** Integer.MAX_VALUE, the inverse CDF's answer at q >= 1. */
  const IntMax: int := 0x7fff_ffff

  /** probability(x): p at 1, 1 - p at 0, 0 anywhere else. */
  function Probability(p: real, x: real): (r: real)
    ensures x == 1.0 ==> r == p
    ensures x == 0.0 ==> r == 1.0 - p
    ensures x != 0.0 && x != 1.0 ==> r == 0.0
  {
    if x == 1.0 then p else if x == 0.0 then 1.0 - p else 0.0
  }

  /** cumulativeProbability(x): 0 below 0, 1 - p on [0, 1), 1 from 1 on. */
  function Cdf(p: real, x: real): real
  {
    if x >= 1.0 then 1.0 else if x >= 0.0 then 1.0 - p else 0.0
  }

  /** The int overloads convert their argument and delegate. */
  function ProbabilityInt(p: real, x: int): real
  {
    Probability(p, x as real)
  }

  function CdfInt(p: real, x: int): real
  {
    Cdf(p, x as real)
  }

  /** cumulativeProbability(x0, x1): IllegalArgument when x0 > x1, else F(x1) - F(x0). */
  function IntervalCdf(p: real, x0: real, x1: real): (r: Result<real>)
    ensures r.Fail? <==> x0 > x1
    ensures r.Fail? ==> r.error == IllegalArgument
  {
    if x0 > x1 then Fail(IllegalArgument) else Ok(Cdf(p, x1) - Cdf(p, x0))
  }

  function IntervalCdfInt(p: real, x0: int, x1: int): Result<real>
  {
    IntervalCdf(p, x0 as real, x1 as real)
  }

  /** The mass of the half-open interval (x0, x1]: the masses of 0 and 1 when they lie in it. */
  function MassIn(p: real, x0: real, x1: real): real
  {
    (if x0 < 0.0 <= x1 then Probability(p, 0.0) else 0.0) +
    (if x0 < 1.0 <= x1 then Probability(p, 1.0) else 0.0)
  }

  /**
   * inverseCumulativeProbability(q), with the three branches on p in the
   * source's order: p == 1, then p > 0, then the rest.
   */
  function InverseCdf(p: real, q: real): (r: int)
    ensures q >= 1.0 ==> r == IntMax
    ensures q < 1.0 ==> r == -1 || r == 0
  {
    if p == 1.0 then (if q < 1.0 then 0 else IntMax)
    else if p > 0.0 then (if q < 1.0 - p then -1 else if q < 1.0 then 0 else IntMax)
    else (if q < 1.0 then -1 else IntMax)
  }

  /** The masses of the two outcomes add up to one, and no other point carries mass. */
  lemma ProbabilitiesSumToOne(p: real, x: real)
    ensures Probability(p, 0.0) + Probability(p, 1.0) == 1.0
    ensures x != 0.0 && x != 1.0 ==> Probability(p, x) == 0.0
  {
  }

  /** For p in [0, 1] the CDF is a distribution function: monotone, from 0 to 1. */
  lemma CdfMonotone(p: real, x: real, y: real)
    requires 0.0 <= p <= 1.0 && x <= y
    ensures 0.0 <= Cdf(p, x) <= Cdf(p, y) <= 1.0
    ensures x < 0.0 ==> Cdf(p, x) == 0.0
    ensures y >= 1.0 ==> Cdf(p, y) == 1.0
  {
  }

  /** The CDF at x is the mass of everything at or below x. */
  lemma CdfIsAccumulatedMass(p: real, x: real)
    ensures Cdf(p, x) == MassIn(p, -1.0, x)
  {
  }

  /** The interval form of the CDF is the mass of (x0, x1], which is a probability for p in [0, 1]. */
  lemma IntervalCdfIsMass(p: real, x0: real, x1: real)
    requires x0 <= x1
    ensures IntervalCdf(p, x0, x1) == Ok(MassIn(p, x0, x1))
    ensures 0.0 <= p <= 1.0 ==> 0.0 <= IntervalCdf(p, x0, x1).value <= 1.0
  {
  }

  /**
   * The inverse CDF is the largest integer whose CDF does not exceed q:
   * for p in [0, 1] and q in [0, 1), F(r) <= q < F(r + 1).
   */
  lemma InverseCdfBrackets(p: real, q: real)
    requires 0.0 <= p <= 1.0 && 0.0 <= q < 1.0
    ensures CdfInt(p, InverseCdf(p, q)) <= q < CdfInt(p, InverseCdf(p, q) + 1)
  {
  }
}
