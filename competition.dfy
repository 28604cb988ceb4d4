/**
 * Survival of the fittest (`BaseGeneticAlgorithm.compete`, ga/algorithms.py):
 * the blended survival probability of each chromosome and the survivors a
 * sequence of draws selects. Populations are lists of elements with a fitness key.
 */
module Competition {
  import opened Genes
  import opened Ranking

  /**
   * `min_fit_ever` / `max_fit_ever`: None before a run, the infinite float sentinel
   * (`1e999999999`, with the sign of the bound) at the start of a run, then a fitness.
   */
  datatype Extreme = Unset | Infinite | Finite(value: real)

  /** `if min_fit < min_fit_ever: min_fit_ever = min_fit` */
  function Lowered(e: Extreme, m: real): (r: Extreme)
    requires !e.Unset?
    ensures r.Finite? && r.value <= m
    ensures e.Finite? ==> r.value <= e.value && (r.value == m || r.value == e.value)
  {
    if e.Infinite? || m < e.value then Finite(m) else e
  }

  /** `if max_fit > max_fit_ever: max_fit_ever = max_fit` */
  function Raised(e: Extreme, m: real): (r: Extreme)
    requires !e.Unset?
    ensures r.Finite? && m <= r.value
    ensures e.Finite? ==> e.value <= r.value && (r.value == m || r.value == e.value)
  {
    if e.Infinite? || m > e.value then Finite(m) else e
  }

  /** `abs_fit_weight`, `rel_fit_weight`: each in [0, 1], summing to 1 (the constructor's assertions). */
  predicate WeightsOk(absWeight: real, relWeight: real) {
    0.0 <= absWeight <= 1.0 && 0.0 <= relWeight <= 1.0 && absWeight + relWeight == 1.0
  }

  /** `(fit - lo) / range if range != 0 else 1` */
  function Ratio(fit: real, lo: real, range: real): real {
    if range != 0.0 then (fit - lo) / range else 1.0
  }

  /** `p_survival`: the weighted sum of the position in the all-time range and in the current range. */
  function SurvivalProbability(fit: real, minEver: real, maxEver: real, minFit: real, maxFit: real,
                               absWeight: real, relWeight: real): real
  {
    Ratio(fit, minEver, maxEver - minEver) * absWeight + Ratio(fit, minFit, maxFit - minFit) * relWeight
  }

  /** A fitness inside a range lies at a position in [0, 1] of it. */
  lemma RatioBounds(fit: real, lo: real, hi: real)
    requires lo <= fit <= hi
    ensures 0.0 <= Ratio(fit, lo, hi - lo) <= 1.0
    ensures hi == lo ==> Ratio(fit, lo, hi - lo) == 1.0
  {
    if hi != lo {
      var d := hi - lo;
      var r := (fit - lo) / d;
      assert r * d == fit - lo;
      assert (1.0 - r) * d == hi - fit;
      if r > 1.0 {
        assert (r - 1.0) * d > 0.0;
      }
      if r < 0.0 {
        assert (0.0 - r) * d > 0.0;
      }
    }
  }

  /** A product of two non-negative numbers is non-negative. */
  lemma ProductNonNegative(x: real, w: real)
    requires 0.0 <= x && 0.0 <= w
    ensures 0.0 <= x * w
  {
  }

  /** A weight times a number in [0, 1] lies between 0 and the weight. */
  lemma WeightedBounds(x: real, w: real)
    requires 0.0 <= x <= 1.0 && 0.0 <= w
    ensures 0.0 <= x * w <= w
  {
    ProductNonNegative(x, w);
    ProductNonNegative(1.0 - x, w);
    assert w - x * w == (1.0 - x) * w;
  }

  /**
   * Each survival probability lies in [0, 1]; it is 1 when the all-time range is zero (and
   * so the current range inside it too).
   */
  lemma SurvivalBounds(fit: real, minEver: real, maxEver: real, minFit: real, maxFit: real,
                       absWeight: real, relWeight: real)
    requires WeightsOk(absWeight, relWeight)
    requires minEver <= minFit <= fit <= maxFit <= maxEver
    ensures 0.0 <= SurvivalProbability(fit, minEver, maxEver, minFit, maxFit, absWeight, relWeight) <= 1.0
    ensures maxEver == minEver ==> SurvivalProbability(fit, minEver, maxEver, minFit, maxFit, absWeight, relWeight) == 1.0
  {
    var a := Ratio(fit, minEver, maxEver - minEver);
    var r := Ratio(fit, minFit, maxFit - minFit);
    RatioBounds(fit, minEver, maxEver);
    RatioBounds(fit, minFit, maxFit);
    Blend(a, absWeight, r, relWeight);
  }

  /** Two numbers between 0 and their bounds sum to between 0 and the sum of the bounds. */
  lemma BoundedSum(x: real, xMax: real, y: real, yMax: real)
    requires 0.0 <= x <= xMax && 0.0 <= y <= yMax
    ensures 0.0 <= x + y <= xMax + yMax
  {
  }

  /** A blend of two numbers in [0, 1] lies between 0 and the sum of the weights, and is that sum when both are 1. */
  lemma Blend(a: real, absWeight: real, r: real, relWeight: real)
    requires 0.0 <= absWeight && 0.0 <= relWeight && 0.0 <= a <= 1.0 && 0.0 <= r <= 1.0
    ensures 0.0 <= a * absWeight + r * relWeight <= absWeight + relWeight
    ensures a == 1.0 && r == 1.0 ==> a * absWeight + r * relWeight == absWeight + relWeight
  {
    WeightedBounds(a, absWeight);
    WeightedBounds(r, relWeight);
    BoundedSum(a * absWeight, absWeight, r * relWeight, relWeight);
    if a == 1.0 && r == 1.0 {
      assert a * absWeight == absWeight && r * relWeight == relWeight;
    }
  }

  // ---------------------------------------------------------------------------
  // The survivors

  /** The positions below `n` whose draw lies under their survival probability, in ascending order. */
  function KeptIndices(ps: seq<real>, draws: seq<real>, n: nat): (idx: seq<nat>)
    requires n <= |ps| && n <= |draws|
    ensures forall k :: 0 <= k < |idx| ==> idx[k] < n
    ensures forall k, m :: 0 <= k < m < |idx| ==> idx[k] < idx[m]
    ensures forall i :: 0 <= i < n ==> (i in idx <==> draws[i] < ps[i])
    decreases n
  {
    if n == 0 then []
    else KeptIndices(ps, draws, n - 1) + (if draws[n - 1] < ps[n - 1] then [n - 1] else [])
  }

  /** The elements at the given positions, in the order of the positions. */
  function Select<T>(s: seq<T>, idx: seq<nat>): (r: seq<T>)
    requires forall k :: 0 <= k < |idx| ==> idx[k] < |s|
    ensures |r| == |idx| && forall k :: 0 <= k < |idx| ==> r[k] == s[idx[k]]
  {
    seq(|idx|, k requires 0 <= k < |idx| => s[idx[k]])
  }

  /** Deciding one more position appends that element when its draw lies under its probability. */
  lemma KeptStep<T>(s: seq<T>, ps: seq<real>, draws: seq<real>, i: nat)
    requires i < |s| && |ps| == |s| && |draws| == |s|
    ensures Select(s, KeptIndices(ps, draws, i + 1)) ==
      Select(s, KeptIndices(ps, draws, i)) + (if draws[i] < ps[i] then [s[i]] else [])
  {
  }

  /** The survival probability of each element of a sorted population, after the all-time extremes were updated. */
  function Probabilities<T>(sorted: seq<T>, key: T -> real, minEver: real, maxEver: real,
                            absWeight: real, relWeight: real): (ps: seq<real>)
    requires |sorted| > 0
    ensures |ps| == |sorted|
  {
    var minFit := key(sorted[0]);
    var maxFit := key(sorted[|sorted| - 1]);
    seq(|sorted|, i requires 0 <= i < |sorted| =>
      SurvivalProbability(key(sorted[i]), minEver, maxEver, minFit, maxFit, absWeight, relWeight))
  }

  /** The list `compete` returns: the kept elements, or the whole population if none is kept. */
  function Survivors<T>(sorted: seq<T>, ps: seq<real>, draws: seq<real>): (r: seq<T>)
    requires |ps| == |sorted| && |draws| == |sorted|
  {
    var kept := Kept(sorted, ps, draws, |sorted|);
    if |kept| == 0 then sorted else kept
  }

  /** The elements among the first `n` whose draw lies under their survival probability, in order. */
  function Kept<T>(sorted: seq<T>, ps: seq<real>, draws: seq<real>, n: nat): seq<T>
    requires n <= |sorted| && |ps| == |sorted| && |draws| == |sorted|
    decreases n
  {
    if n == 0 then []
    else Kept(sorted, ps, draws, n - 1) + (if draws[n - 1] < ps[n - 1] then [sorted[n - 1]] else [])
  }

  /** The kept elements are those at the kept positions. */
  lemma {:induction false} KeptSelects<T>(sorted: seq<T>, ps: seq<real>, draws: seq<real>, n: nat)
    requires n <= |sorted| && |ps| == |sorted| && |draws| == |sorted|
    ensures Kept(sorted, ps, draws, n) == Select(sorted, KeptIndices(ps, draws, n))
    decreases n
  {
    if n > 0 {
      KeptSelects(sorted, ps, draws, n - 1);
      KeptStep(sorted, ps, draws, n - 1);
    }
  }

  /** Some position is kept exactly when some draw lies under its probability. */
  lemma KeptAny(ps: seq<real>, draws: seq<real>, n: nat)
    requires n <= |ps| && n <= |draws|
    ensures |KeptIndices(ps, draws, n)| > 0 <==> exists i :: 0 <= i < n && draws[i] < ps[i]
  {
    var idx := KeptIndices(ps, draws, n);
    if |idx| > 0 {
      assert idx[0] in idx;
    } else {
      forall i | 0 <= i < n ensures ps[i] <= draws[i] {
        assert i !in idx;
      }
    }
  }

  /**
   * `compete` returns a non-empty, order-preserving sub-list of the sorted population: the
   * elements at ascending positions whose draw lies under their probability, or, when no
   * draw does, the whole population.
   */
  lemma SurvivorsShape<T>(sorted: seq<T>, ps: seq<real>, draws: seq<real>)
    requires |sorted| > 0 && |ps| == |sorted| && |draws| == |sorted|
    ensures |Survivors(sorted, ps, draws)| > 0
    ensures (forall i :: 0 <= i < |sorted| ==> ps[i] <= draws[i]) ==> Survivors(sorted, ps, draws) == sorted
    ensures (exists i :: 0 <= i < |sorted| && draws[i] < ps[i]) ==>
      Survivors(sorted, ps, draws) == Select(sorted, KeptIndices(ps, draws, |sorted|))
  {
    KeptAny(ps, draws, |sorted|);
    KeptSelects(sorted, ps, draws, |sorted|);
  }

  /** With every survival probability 1 (all-time range zero), every element survives. */
  lemma AllSurvive<T>(sorted: seq<T>, ps: seq<real>, draws: seq<real>)
    requires |sorted| > 0 && |ps| == |sorted| && |draws| == |sorted|
    requires forall i :: 0 <= i < |sorted| ==> ps[i] == 1.0 && IsDraw(draws[i])
    ensures Survivors(sorted, ps, draws) == sorted
  {
    AllKept(ps, draws, |sorted|);
    KeptSelects(sorted, ps, draws, |sorted|);
  }

  /** When every draw lies under its probability, the kept positions are all of 0, 1, ..., n - 1. */
  lemma {:induction false} AllKept(ps: seq<real>, draws: seq<real>, n: nat)
    requires n <= |ps| && n <= |draws|
    requires forall i :: 0 <= i < n ==> draws[i] < ps[i]
    ensures |KeptIndices(ps, draws, n)| == n
    ensures forall k :: 0 <= k < n ==> KeptIndices(ps, draws, n)[k] == k
  {
    if n > 0 {
      AllKept(ps, draws, n - 1);
    }
  }

  /**
   * Once the all-time extremes enclose the current ones, every probability of a sorted
   * population lies in [0, 1], and all are 1 when the all-time range is zero.
   */
  lemma ProbabilitiesBounds<T>(sorted: seq<T>, key: T -> real, minEver: real, maxEver: real,
                               absWeight: real, relWeight: real)
    requires |sorted| > 0 && SortedBy(sorted, key) && WeightsOk(absWeight, relWeight)
    requires minEver <= key(sorted[0]) && key(sorted[|sorted| - 1]) <= maxEver
    ensures var ps := Probabilities(sorted, key, minEver, maxEver, absWeight, relWeight);
      forall i :: 0 <= i < |ps| ==> 0.0 <= ps[i] <= 1.0 && (maxEver == minEver ==> ps[i] == 1.0)
  {
    var ps := Probabilities(sorted, key, minEver, maxEver, absWeight, relWeight);
    forall i | 0 <= i < |ps| ensures 0.0 <= ps[i] <= 1.0 && (maxEver == minEver ==> ps[i] == 1.0) {
      var minFit := key(sorted[0]);
      var maxFit := key(sorted[|sorted| - 1]);
      assert minFit <= key(sorted[i]) <= maxFit by {
        if 0 < i { assert key(sorted[0]) <= key(sorted[i]); }
        if i < |sorted| - 1 { assert key(sorted[i]) <= key(sorted[|sorted| - 1]); }
      }
      SurvivalBounds(key(sorted[i]), minEver, maxEver, minFit, maxFit, absWeight, relWeight);
    }
  }

  /**
   * The survivor loop of `compete`: an element is kept when its draw lies under its
   * survival probability; nobody kept means everyone survives.
   */
  method ChooseSurvivors<T>(sorted: seq<T>, ps: seq<real>, draws: seq<real>) returns (survivors: seq<T>)
    requires |ps| == |sorted| && |draws| == |sorted|
    ensures survivors == Survivors(sorted, ps, draws)
  {
    survivors := [];
    var i := 0;
    while i < |sorted|
      invariant 0 <= i <= |sorted|
      invariant survivors == Kept(sorted, ps, draws, i)
    {
      if draws[i] < ps[i] {
        survivors := survivors + [sorted[i]];
      }
      i := i + 1;
    }
    if |survivors| == 0 {
      survivors := sorted;
    }
  }
}
