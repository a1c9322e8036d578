/**
 * The multi-year blend `calculate_weighted_average`: a dot product over
 * `zip(values, weights)`, which stops at the shorter of the two.
 */
module Blend {

  /** Weights for the three tracked elections, most recent first. */
  const YearWeights: seq<real> := [0.50, 0.333, 0.167]

  /** `sum(v * w for v, w in zip(values, weights))`. */
  function WeightedAverage(values: seq<real>, weights: seq<real>): real
    decreases |values|
  {
    if |values| == 0 || |weights| == 0 then 0.0
    else values[0] * weights[0] + WeightedAverage(values[1..], weights[1..])
  }

  function Min(a: nat, b: nat): nat {
    if a <= b then a else b
  }

  /** Reference definition: the sum of the first `n` products, by index. */
  function DotPrefix(values: seq<real>, weights: seq<real>, n: nat): real
    requires n <= |values| && n <= |weights|
  {
    if n == 0 then 0.0 else DotPrefix(values, weights, n - 1) + values[n - 1] * weights[n - 1]
  }

  /** Splitting off the first product of an index sum. */
  lemma {:induction false} DotPrefixFront(values: seq<real>, weights: seq<real>, n: nat)
    requires 0 < n <= |values| && n <= |weights|
    ensures DotPrefix(values, weights, n) ==
      values[0] * weights[0] + DotPrefix(values[1..], weights[1..], n - 1)
  {
    if n > 1 {
      DotPrefixFront(values, weights, n - 1);
    }
  }

  /** The weighted average is the sum of products over the indices both sequences have. */
  lemma {:induction false} WeightedAverageIsDot(values: seq<real>, weights: seq<real>)
    ensures WeightedAverage(values, weights) == DotPrefix(values, weights, Min(|values|, |weights|))
    decreases |values|
  {
    if |values| > 0 && |weights| > 0 {
      WeightedAverageIsDot(values[1..], weights[1..]);
      DotPrefixFront(values, weights, Min(|values|, |weights|));
    }
  }

  /** Entries beyond the last weight do not contribute. */
  lemma TruncatedToWeights(values: seq<real>, weights: seq<real>)
    requires |weights| <= |values|
    ensures WeightedAverage(values, weights) == WeightedAverage(values[..|weights|], weights)
  {
    var cut := values[..|weights|];
    WeightedAverageIsDot(values, weights);
    WeightedAverageIsDot(cut, weights);
    DotPrefixAgree(values, cut, weights, |weights|);
  }

  lemma {:induction false} DotPrefixAgree(a: seq<real>, b: seq<real>, weights: seq<real>, n: nat)
    requires n <= |a| && n <= |b| && n <= |weights|
    requires forall i :: 0 <= i < n ==> a[i] == b[i]
    ensures DotPrefix(a, weights, n) == DotPrefix(b, weights, n)
  {
    if n > 0 {
      DotPrefixAgree(a, b, weights, n - 1);
    }
  }

  /**
   * As the renderer calls it, with the seven party shares and the three year
   * weights: only the first three parties count.
   */
  lemma SevenSharesThreeWeights(shares: seq<real>)
    requires |shares| == 7
    ensures WeightedAverage(shares, YearWeights) ==
      shares[0] * 0.50 + shares[1] * 0.333 + shares[2] * 0.167
  {
    WeightedAverageIsDot(shares, YearWeights);
    assert Min(7, 3) == 3;
    assert DotPrefix(shares, YearWeights, 1) == shares[0] * 0.50;
    assert DotPrefix(shares, YearWeights, 2) == shares[0] * 0.50 + shares[1] * 0.333;
  }

  /** The worked example from the three-year blend. */
  lemma BlendExample()
    ensures WeightedAverage([0.4, 0.3, 0.2], YearWeights) == 0.4 * 0.50 + 0.3 * 0.333 + 0.2 * 0.167
  {
    WeightedAverageIsDot([0.4, 0.3, 0.2], YearWeights);
  }
}
