/**
 * Selection utilities (ga/util.py): the fitness-weighted cumulative
 * probabilities of a population and the choice of an element by a draw
 * against them. Fitness values are exact reals.
 */
module Util {
  import opened Wrappers
  import opened Genes
  import opened Ranking

  /** The fitness of each element, in order. */
  function Fitnesses<T>(cs: seq<T>, key: T -> real): (fits: seq<real>)
    ensures |fits| == |cs| && forall i :: 0 <= i < |cs| ==> fits[i] == key(cs[i])
  {
    seq(|cs|, i requires 0 <= i < |cs| => key(cs[i]))
  }

  function Identity(x: real): real {
    x
  }

  /** `min(fitness)` */
  function MinFit(fits: seq<real>): (m: real)
    requires |fits| > 0
    ensures m in fits && forall i :: 0 <= i < |fits| ==> m <= fits[i]
  {
    fits[WeakestIndex(fits, Identity)]
  }

  /** `max(fitness)` */
  function MaxFit(fits: seq<real>): (m: real)
    requires |fits| > 0
    ensures m in fits && forall i :: 0 <= i < |fits| ==> fits[i] <= m
  {
    fits[FittestIndex(fits, Identity)]
  }

  /**
   * The cumulative probabilities of `compute_fitness_cdf` for the fitness list: i / n for
   * i = 1..n when every fitness is equal, otherwise (fit - min) / (max - min) for each fitness.
   */
  function Cdf(fits: seq<real>): (cdf: seq<real>)
    requires |fits| > 0
    ensures |cdf| == |fits|
    ensures forall i :: 0 <= i < |cdf| ==> 0.0 <= cdf[i] <= 1.0
  {
    var lo := MinFit(fits);
    var range := MaxFit(fits) - lo;
    var n := |fits|;
    if range == 0.0 then
      seq(n, i requires 0 <= i < n => UnitShare(i + 1, n))
    else
      seq(n, i requires 0 <= i < n => Scale(fits[i] - lo, range))
  }

  /** `i / n` for 1 <= i <= n, a value in (0, 1]. */
  function UnitShare(i: nat, n: nat): (r: real)
    requires 0 < i <= n
    ensures 0.0 < r <= 1.0 && (r == 1.0 <==> i == n)
  {
    assert i as real <= n as real;
    i as real / n as real
  }

  /** `a / b` for 0 <= a <= b, a value in [0, 1]. */
  function Scale(a: real, b: real): (r: real)
    requires 0.0 <= a <= b && b > 0.0
    ensures 0.0 <= r <= 1.0
    ensures (r == 0.0 <==> a == 0.0) && (r == 1.0 <==> a == b)
  {
    a / b
  }

  /** The share is the fraction: i / n times n is i, so shares order as their numerators do. */
  lemma UnitShareOrder(i: nat, j: nat, n: nat)
    requires 0 < i < j <= n
    ensures UnitShare(i, n) < UnitShare(j, n)
  {
    ProductOrder(UnitShare(i, n), UnitShare(j, n), n as real, i as real, j as real);
  }

  /** A draw lies below the share i / n exactly when the draw times n lies below i. */
  lemma UnitShareAbove(u: real, i: nat, n: nat)
    requires 0 < i <= n
    ensures u < UnitShare(i, n) <==> u * n as real < i as real
  {
    ProductOrder(u, UnitShare(i, n), n as real, u * n as real, i as real);
  }

  /** `a / b` times `b` is `a`, and the fraction grows with `a`. */
  lemma ScaleOrder(a: real, a': real, b: real)
    requires 0.0 <= a <= a' <= b && b > 0.0
    ensures Scale(a, b) * b == a
    ensures Scale(a, b) <= Scale(a', b)
  {
    ProductOrder(Scale(a, b), Scale(a', b), b, a, a');
  }

  /**
   * `compute_fitness_cdf(chromosomes, ga)`: sorts the population by fitness and returns
   * the sorted population with one cumulative probability per element.
   */
  function ComputeFitnessCdf<T(==)>(cs: seq<T>, key: T -> real): (r: (seq<T>, seq<real>))
    requires |cs| > 0
    ensures SortedBy(r.0, key) && multiset(r.0) == multiset(cs)
    ensures |r.0| == |cs| && |r.1| == |cs|
    ensures forall i :: 0 <= i < |r.1| ==> 0.0 <= r.1[i] <= 1.0
  {
    var sorted := SortBy(cs, key);
    (sorted, Cdf(Fitnesses(sorted, key)))
  }

  // ---------------------------------------------------------------------------
  // Properties of the cumulative probabilities

  /** With all fitnesses equal, entry i is (i + 1) / n: strictly increasing and ending at 1. */
  lemma CdfUniform(fits: seq<real>)
    requires |fits| > 0 && MaxFit(fits) == MinFit(fits)
    ensures forall i :: 0 <= i < |fits| ==> Cdf(fits)[i] == UnitShare(i + 1, |fits|)
    ensures forall i, j :: 0 <= i < j < |fits| ==> Cdf(fits)[i] < Cdf(fits)[j]
    ensures Cdf(fits)[|fits| - 1] == 1.0
  {
    var n := |fits|;
    var cdf := Cdf(fits);
    assert forall i :: 0 <= i < n ==> cdf[i] == UnitShare(i + 1, n);
    forall i, j | 0 <= i < j < n ensures cdf[i] < cdf[j] {
      UnitShareOrder(i + 1, j + 1, n);
    }
  }

  /** Multiplying by a positive factor keeps the order: a < b exactly when a * n < b * n. */
  lemma ProductOrder(a: real, b: real, n: real, x: real, y: real)
    requires n > 0.0 && a * n == x && b * n == y
    ensures a < b <==> x < y
    ensures a <= b <==> x <= y
  {
    if a < b {
      assert b * n - a * n == (b - a) * n;
    } else {
      assert a * n - b * n == (a - b) * n;
    }
  }

  /**
   * With unequal fitnesses, each entry is the position of its fitness in the range
   * [min, max]: (fit - min) / (max - min), so the least fitness gets 0 and the greatest 1.
   */
  lemma CdfLinear(fits: seq<real>, i: nat)
    requires i < |fits| && MaxFit(fits) != MinFit(fits)
    ensures Cdf(fits)[i] * (MaxFit(fits) - MinFit(fits)) == fits[i] - MinFit(fits)
    ensures Cdf(fits)[i] == 0.0 <==> fits[i] == MinFit(fits)
    ensures Cdf(fits)[i] == 1.0 <==> fits[i] == MaxFit(fits)
  {
    var lo := MinFit(fits);
    var range := MaxFit(fits) - lo;
    assert Cdf(fits)[i] == Scale(fits[i] - lo, range);
    ScaleOrder(fits[i] - lo, fits[i] - lo, range);
  }

  /** With unequal fitnesses, a fitter element never gets a smaller cumulative probability. */
  lemma CdfMonotone(fits: seq<real>)
    requires |fits| > 0 && MaxFit(fits) != MinFit(fits)
    ensures forall i, j :: 0 <= i < |fits| && 0 <= j < |fits| && fits[i] <= fits[j] ==> Cdf(fits)[i] <= Cdf(fits)[j]
  {
    var lo := MinFit(fits);
    var range := MaxFit(fits) - lo;
    var cdf := Cdf(fits);
    forall i, j | 0 <= i < |fits| && 0 <= j < |fits| && fits[i] <= fits[j] ensures cdf[i] <= cdf[j] {
      assert cdf[i] == Scale(fits[i] - lo, range) && cdf[j] == Scale(fits[j] - lo, range);
      ScaleOrder(fits[i] - lo, fits[j] - lo, range);
    }
  }

  /** Over a list sorted by fitness the probabilities are non-decreasing, start at 0 or 1/n, and end at 1. */
  lemma CdfSorted(fits: seq<real>)
    requires |fits| > 0 && SortedBy(fits, Identity)
    ensures forall i, j :: 0 <= i < j < |fits| ==> Cdf(fits)[i] <= Cdf(fits)[j]
    ensures Cdf(fits)[|fits| - 1] == 1.0
    ensures MaxFit(fits) != MinFit(fits) ==> Cdf(fits)[0] == 0.0
  {
    var n := |fits|;
    if MaxFit(fits) == MinFit(fits) {
      CdfUniform(fits);
    } else {
      CdfMonotone(fits);
      forall i | 0 <= i < n ensures fits[0] <= fits[i] && fits[i] <= fits[n - 1] {
        assert Identity(fits[0]) <= Identity(fits[i]) || i == 0;
        assert Identity(fits[i]) <= Identity(fits[n - 1]) || i == n - 1;
      }
      assert fits[0] == MinFit(fits) && fits[n - 1] == MaxFit(fits);
      CdfLinear(fits, 0);
      CdfLinear(fits, n - 1);
      forall i, j | 0 <= i < j < n ensures Cdf(fits)[i] <= Cdf(fits)[j] {
        assert Identity(fits[i]) <= Identity(fits[j]);
      }
    }
  }

  // ---------------------------------------------------------------------------
  // weighted_choice

  /** The index of the first probability exceeding the draw, or the length if none does. */
  function FirstExceeding(cdf: seq<real>, u: real): (k: nat)
    ensures k <= |cdf|
    ensures forall j :: 0 <= j < k ==> cdf[j] <= u
    ensures k < |cdf| ==> u < cdf[k]
    decreases |cdf|
  {
    if |cdf| == 0 then 0
    else if u < cdf[0] then 0
    else 1 + FirstExceeding(cdf[1..], u)
  }

  /** The source checks `0 <= cp <= 1` for every probability it reads: those up to the chosen one. */
  predicate ChecksHold(cdf: seq<real>, u: real) {
    forall i :: 0 <= i < |cdf| && i <= FirstExceeding(cdf, u) ==> 0.0 <= cdf[i] <= 1.0
  }

  /**
   * `weighted_choice(seq, cdf)` with draw `u`: the element at the first probability that
   * exceeds the draw; None where the loop ends without returning.
   */
  method WeightedChoice<T>(xs: seq<T>, cdf: seq<real>, u: real) returns (r: Option<T>)
    requires |xs| == |cdf| && ChecksHold(cdf, u)
    ensures var k := FirstExceeding(cdf, u); r == if k < |xs| then Some(xs[k]) else None
  {
    var i := 0;
    while i < |xs|
      invariant i <= |xs|
      invariant forall j :: 0 <= j < i ==> cdf[j] <= u
    {
      var cp := cdf[i];
      if u < cp {
        return Some(xs[i]);
      }
      i := i + 1;
    }
    return None;
  }

  /** Choosing against the probabilities of a sorted list always yields an element, and never the weakest when fitnesses differ. */
  lemma ChoiceFromCdf(fits: seq<real>, u: real)
    requires |fits| > 0 && SortedBy(fits, Identity) && IsDraw(u)
    ensures ChecksHold(Cdf(fits), u)
    ensures FirstExceeding(Cdf(fits), u) < |fits|
    ensures MaxFit(fits) != MinFit(fits) ==> FirstExceeding(Cdf(fits), u) > 0
  {
    CdfSorted(fits);
  }

  /** With all fitnesses equal, the choice is uniform: it is the index a uniform pick makes with the same draw. */
  lemma UniformChoice(fits: seq<real>, u: real)
    requires |fits| > 0 && MaxFit(fits) == MinFit(fits) && IsDraw(u)
    ensures FirstExceeding(Cdf(fits), u) == Pick(u, |fits|)
  {
    var n := |fits|;
    var cdf := Cdf(fits);
    CdfUniform(fits);
    var k := Pick(u, n);
    PickBounds(u, n);
    UnitShareAbove(u, k + 1, n);
    assert u < cdf[k];
    forall j | 0 <= j < k ensures cdf[j] <= u {
      UnitShareAbove(u, j + 1, n);
    }
    FirstExceedingAt(cdf, u, k);
  }

  /** The index a uniform pick makes is the integer part of the draw times n. */
  lemma PickBounds(u: real, n: nat)
    requires IsDraw(u) && n > 0
    ensures Pick(u, n) as real <= u * n as real < Pick(u, n) as real + 1.0
  {
  }

  /** The first index whose probability exceeds the draw, given by its two defining facts. */
  lemma {:induction false} FirstExceedingAt(cdf: seq<real>, u: real, k: nat)
    requires k < |cdf| && u < cdf[k] && forall j :: 0 <= j < k ==> cdf[j] <= u
    ensures FirstExceeding(cdf, u) == k
    decreases k
  {
    if k > 0 {
      FirstExceedingAt(cdf[1..], u, k - 1);
    }
  }
}
