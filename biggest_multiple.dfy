/**
 * The biggest-multiple example client (ga/examples/biggest_multiple.py): one binary gene
 * decodes to a number; the fitness scores how many of the given factors divide it, scaled
 * by the number relative to the largest encodable value; and a flag stops the run once the
 * largest encodable common multiple of the factors has been seen.
 */
module BiggestMultiple {
  import opened Wrappers
  import opened Genes
  import opened Chromosomes
  import opened Translators

  // ---------------------------------------------------------------------------
  // Factors and the score

  /** The constructor's check on `factors`: at least one, each an integer of at least 1. */
  predicate FactorsOk(factors: seq<int>) {
    |factors| > 0 && forall i :: 0 <= i < |factors| ==> factors[i] >= 1
  }

  /** Every factor divides `n` (`n % factor == 0`). */
  predicate AllDivide(factors: seq<int>, n: int)
    requires forall i :: 0 <= i < |factors| ==> factors[i] >= 1
  {
    forall i :: 0 <= i < |factors| ==> n % factors[i] == 0
  }

  /** The loop of `eval_fitness`: one point up for each factor that divides `number`, one down for each that does not. */
  function Score(factors: seq<int>, number: nat): int
    requires forall i :: 0 <= i < |factors| ==> factors[i] >= 1
    decreases |factors|
  {
    if |factors| == 0 then 0
    else
      var n := |factors| - 1;
      Score(factors[..n], number) + (if number % factors[n] == 0 then 1 else -1)
  }

  /** The number of factors that divide `number`. */
  function Dividing(factors: seq<int>, number: nat): (d: nat)
    requires forall i :: 0 <= i < |factors| ==> factors[i] >= 1
    ensures d <= |factors|
    decreases |factors|
  {
    if |factors| == 0 then 0
    else
      var n := |factors| - 1;
      Dividing(factors[..n], number) + (if number % factors[n] == 0 then 1 else 0)
  }

  /**
   * The score is twice the number of dividing factors less the number of factors, so it
   * lies between -k and k for k factors, and it is k exactly when every factor divides.
   */
  lemma {:induction false} ScoreCounts(factors: seq<int>, number: nat)
    requires forall i :: 0 <= i < |factors| ==> factors[i] >= 1
    ensures Score(factors, number) == 2 * Dividing(factors, number) - |factors|
    ensures -|factors| <= Score(factors, number) <= |factors|
    ensures Score(factors, number) == |factors| <==> AllDivide(factors, number)
    decreases |factors|
  {
    if |factors| > 0 {
      var n := |factors| - 1;
      ScoreCounts(factors[..n], number);
      assert forall i :: 0 <= i < n ==> factors[..n][i] == factors[i];
      if AllDivide(factors, number) {
        assert AllDivide(factors[..n], number);
      }
    }
  }

  /** `functools.reduce(lambda a, b: a * b, factors)`: the product of the factors. */
  function Product(factors: seq<int>): (p: int)
    requires forall i :: 0 <= i < |factors| ==> factors[i] >= 1
    ensures p >= 1
    decreases |factors|
  {
    if |factors| == 0 then 1
    else
      var n := |factors| - 1;
      MulAtLeastOne(Product(factors[..n]), factors[n]);
      Product(factors[..n]) * factors[n]
  }

  lemma MulAtLeastOne(a: int, b: int)
    requires a >= 1 && b >= 1
    ensures a * b >= a && a * b >= b && a * b >= 1
  {
    assert a * b - a == a * (b - 1) >= 0;
    assert a * b - b == (a - 1) * b >= 0;
  }

  /** Quotient and remainder by a positive divisor are unique. */
  lemma DivModUnique(x: int, f: int, q: int, r: int)
    requires f >= 1 && x == f * q + r && 0 <= r < f
    ensures x % f == r && x / f == q
  {
    var q', r' := x / f, x % f;
    assert x == f * q' + r' && 0 <= r' < f;
    assert f * (q - q') == r' - r;
    MulBand(f, q - q');
  }

  /** A positive multiple of a nonzero integer is at least the multiplier in size. */
  lemma MulBand(f: int, d: int)
    requires f >= 1
    ensures d >= 1 ==> f * d >= f
    ensures d <= -1 ==> f * d <= -f
  {
    if d >= 1 {
      MulAtLeastOne(f, d);
    }
    if d <= -1 {
      MulAtLeastOne(f, -d);
      assert f * -d == -(f * d);
    }
  }

  /** `n` is a multiple of `f` exactly when it is `f` times its quotient. */
  lemma MultipleIsProduct(n: int, f: int)
    requires f >= 1
    ensures n % f == 0 <==> n == f * (n / f)
  {
    if n == f * (n / f) {
      DivModUnique(n, f, n / f, 0);
    }
  }

  lemma MultipleOfMultiple(n: int, f: int, k: int)
    requires f >= 1 && n % f == 0
    ensures (n * k) % f == 0
  {
    MultipleIsProduct(n, f);
    var q := n / f;
    assert n * k == f * (q * k);
    DivModUnique(n * k, f, q * k, 0);
  }

  /** The product of the factors is a common multiple of them. */
  lemma {:induction false} ProductIsCommonMultiple(factors: seq<int>)
    requires forall i :: 0 <= i < |factors| ==> factors[i] >= 1
    ensures AllDivide(factors, Product(factors))
    decreases |factors|
  {
    if |factors| > 0 {
      var n := |factors| - 1;
      var front := factors[..n];
      ProductIsCommonMultiple(front);
      var p := Product(front);
      forall i | 0 <= i < |factors| ensures (p * factors[n]) % factors[i] == 0 {
        if i < n {
          assert front[i] == factors[i];
          MultipleOfMultiple(p, factors[i], factors[n]);
        } else {
          assert p * factors[n] == factors[n] * p;
          MultipleOfMultiple(factors[n], factors[n], p);
        }
      }
    }
  }

  /** The search for the least common multiple from `m` on, which ends at the product at the latest. */
  function SearchMultiple(factors: seq<int>, m: nat): (l: nat)
    requires FactorsOk(factors) && 1 <= m <= Product(factors) && AllDivide(factors, Product(factors))
    requires forall k :: 1 <= k < m ==> !AllDivide(factors, k)
    ensures m <= l <= Product(factors) && AllDivide(factors, l)
    ensures forall k :: 1 <= k < l ==> !AllDivide(factors, k)
    decreases Product(factors) - m
  {
    if AllDivide(factors, m) then m else SearchMultiple(factors, m + 1)
  }

  /** The least positive common multiple of the factors: what `min_product` stands for. */
  function LeastCommonMultiple(factors: seq<int>): (l: nat)
    requires FactorsOk(factors)
    ensures 1 <= l <= Product(factors) && AllDivide(factors, l)
    ensures forall k :: 1 <= k < l ==> !AllDivide(factors, k)
  {
    ProductIsCommonMultiple(factors);
    SearchMultiple(factors, 1)
  }

  lemma DifferenceDivides(m: int, n: int, f: int)
    requires f >= 1 && m % f == 0 && n % f == 0
    ensures (m - n) % f == 0
  {
    MultipleIsProduct(m, f);
    MultipleIsProduct(n, f);
    var a, b := m / f, n / f;
    assert m - n == f * (a - b);
    DivModUnique(m - n, f, a - b, 0);
  }

  lemma SumDivides(m: int, n: int, f: int)
    requires f >= 1 && m % f == 0 && n % f == 0
    ensures (m + n) % f == 0
  {
    MultipleIsProduct(m, f);
    MultipleIsProduct(n, f);
    var a, b := m / f, n / f;
    assert m + n == f * (a + b);
    DivModUnique(m + n, f, a + b, 0);
  }

  // ---------------------------------------------------------------------------
  // The early-termination test

  /**
   * The test of `eval_fitness` as written: a full score, and no room above `number` for
   * another multiple of the product of the factors.
   */
  predicate OptimumAsWritten(factors: seq<int>, number: nat, maxEncodedVal: nat)
    requires FactorsOk(factors)
  {
    Score(factors, number) == |factors| && number + Product(factors) > maxEncodedVal
  }

  /**
   * The test as evidently intended: `number` is a common multiple of the factors, and no
   * room above it for the next one, which is `number` plus their least common multiple.
   */
  predicate Optimum(factors: seq<int>, number: nat, maxEncodedVal: nat)
    requires FactorsOk(factors)
  {
    Score(factors, number) == |factors| && number + LeastCommonMultiple(factors) > maxEncodedVal
  }

  /**
   * The intended test holds exactly for the largest common multiple of the factors that
   * the gene can encode, which is what the run is meant to stop at.
   */
  lemma OptimumIsLargest(factors: seq<int>, number: nat, maxEncodedVal: nat)
    requires FactorsOk(factors) && number <= maxEncodedVal
    ensures Optimum(factors, number, maxEncodedVal) <==>
      AllDivide(factors, number) && forall m :: number < m <= maxEncodedVal ==> !AllDivide(factors, m)
  {
    ScoreCounts(factors, number);
    var l := LeastCommonMultiple(factors);
    if Optimum(factors, number, maxEncodedVal) {
      forall m | number < m <= maxEncodedVal ensures !AllDivide(factors, m) {
        if AllDivide(factors, m) {
          forall i | 0 <= i < |factors| ensures (m - number) % factors[i] == 0 {
            DifferenceDivides(m, number, factors[i]);
          }
          assert AllDivide(factors, m - number);
        }
      }
    }
    if AllDivide(factors, number) && forall m :: number < m <= maxEncodedVal ==> !AllDivide(factors, m) {
      forall i | 0 <= i < |factors| ensures (number + l) % factors[i] == 0 {
        SumDivides(number, l, factors[i]);
      }
      assert AllDivide(factors, number + l);
    }
  }

  /** Whenever the intended test holds, the test as written holds too: it stops at least as early. */
  lemma OptimumWithinAsWritten(factors: seq<int>, number: nat, maxEncodedVal: nat)
    requires FactorsOk(factors) && Optimum(factors, number, maxEncodedVal)
    ensures OptimumAsWritten(factors, number, maxEncodedVal)
  {
  }

  /**
   * The test as written stops too early when the factors share a divisor: with factors 2
   * and 4 and a 4-bit gene (largest value 15), 8 passes it, yet 12 is a larger encodable
   * multiple of both; the intended test rejects 8.
   */
  lemma AsWrittenStopsEarly()
    ensures OptimumAsWritten([2, 4], 8, 15)
    ensures !Optimum([2, 4], 8, 15)
    ensures 8 < 12 <= 15 && AllDivide([2, 4], 12)
  {
    var fs := [2, 4];
    assert fs[..1] == [2] && [2][..0] == [];
    assert Product(fs) == 8;
    assert Score(fs, 8) == 2;
    assert AllDivide(fs, 4);
    assert LeastCommonMultiple(fs) <= 4;
  }

  // ---------------------------------------------------------------------------
  // The fitness

  /** The fitness `score * number / max_encoded_val`. */
  function Fitness(score: int, number: nat, maxEncodedVal: nat): real
    requires maxEncodedVal >= 1
  {
    (score * number) as real / maxEncodedVal as real
  }

  /** The fitness is zero for the number zero, and otherwise has the sign of the score. */
  lemma FitnessSign(score: int, number: nat, maxEncodedVal: nat)
    requires maxEncodedVal >= 1
    ensures number == 0 ==> Fitness(score, number, maxEncodedVal) == 0.0
    ensures number > 0 ==> (Fitness(score, number, maxEncodedVal) > 0.0 <==> score > 0)
    ensures number > 0 ==> (Fitness(score, number, maxEncodedVal) < 0.0 <==> score < 0)
  {
    var p := score * number;
    if number > 0 {
      if score > 0 { assert p > 0 by { MulPositive(score, number); } }
      if score < 0 { assert -p > 0 by { assert -p == (-score) * number; MulPositive(-score, number); } }
    }
  }

  lemma MulPositive(a: int, b: int)
    requires a > 0 && b > 0
    ensures a * b > 0
  {
  }

  // ---------------------------------------------------------------------------
  // The largest encodable value

  /** `'1' * n`. */
  function Ones(n: nat): (s: string)
    ensures |s| == n && forall i :: 0 <= i < n ==> s[i] == '1'
  {
    seq(n, i => '1')
  }

  /** `int('1' * n, base=2)` is 2 ** n - 1. */
  lemma {:induction false} OnesValue(n: nat)
    ensures AllDigits(Ones(n), 2)
    ensures NumeralValue(Ones(n), 2) == Pow(2, n) - 1
    decreases n
  {
    if n > 0 {
      OnesValue(n - 1);
      assert Ones(n)[..n - 1] == Ones(n - 1);
    }
  }

  // ---------------------------------------------------------------------------
  // The client object

  /**
   * BiggestMultipleGA: the factors, the largest value a gene of the chromosomes' length
   * encodes, the best possible score, and the flag that stops the run. `bestNumber`
   * remembers the number that set the flag.
   */
  class BiggestMultipleGA {
    const factors: seq<int>
    const maxEncodedVal: nat
    const bestPossibleFit: nat
    var foundBest: bool
    ghost var bestNumber: nat

    /** The constructor's checks hold, and the flag is only set by a number that passes the test. */
    ghost predicate Valid()
      reads this`foundBest, this`bestNumber
    {
      && FactorsOk(factors) && maxEncodedVal >= 1 && bestPossibleFit == |factors|
      && (foundBest ==> Optimum(factors, bestNumber, maxEncodedVal))
    }

    /**
     * `__init__`: every chromosome has one gene, the factors are integers of at least 1,
     * and the largest encodable value is 2 ** L - 1 for the length L of the first chromosome.
     */
    constructor (chromosomes: seq<Chrom>, factors: seq<int>)
      requires |chromosomes| > 0 && forall i :: 0 <= i < |chromosomes| ==> |chromosomes[i].genes| == 1
      requires FactorsOk(factors)
      requires Length(chromosomes[0]) > 0
      ensures Valid() && this.factors == factors && !foundBest
      ensures maxEncodedVal == Pow(2, Length(chromosomes[0])) - 1 && bestPossibleFit == |factors|
    {
      var len := Length(chromosomes[0]);
      OnesValue(len);
      var parsed := ParseInt(Ones(len), 2);
      this.factors := factors;
      this.maxEncodedVal := parsed.value;
      this.bestPossibleFit := |factors|;
      this.foundBest := false;
      this.bestNumber := 0;
      new;
      assert Pow(2, 1) == 2;
      PowAtLeast(len);
    }

    /** The score loop of `eval_fitness`. */
    method ScoreOf(number: nat) returns (score: int)
      requires FactorsOk(factors)
      ensures score == Score(factors, number)
    {
      score := 0;
      for i := 0 to |factors|
        invariant score == Score(factors[..i], number)
      {
        assert factors[..i + 1][..i] == factors[..i];
        if number % factors[i] == 0 {
          score := score + 1;
        } else {
          score := score - 1;
        }
      }
      assert factors[..|factors|] == factors;
    }

    /**
     * `eval_fitness`: decode the gene, score it against the factors, set the flag when it
     * passes the (corrected) test, and return the scaled score.
     */
    method EvalFitness(c: Chrom) returns (fit: real)
      requires Valid() && |c.genes| == 1 && BinaryIntValue(c.genes[0].dna).Some?
      modifies this`foundBest, this`bestNumber
      ensures Valid()
      ensures fit == Fitness(Score(factors, BinaryIntValue(c.genes[0].dna).value), BinaryIntValue(c.genes[0].dna).value, maxEncodedVal)
      ensures foundBest == (old(foundBest) || Optimum(factors, BinaryIntValue(c.genes[0].dna).value, maxEncodedVal))
    {
      var number := BinaryIntValue(c.genes[0].dna).value;
      var score := ScoreOf(number);
      if score == |factors| {
        var minMultiple := LeastCommonMultiple(factors);
        if number + minMultiple > maxEncodedVal {
          foundBest := true;
          bestNumber := number;
        }
      }
      fit := (score * number) as real / maxEncodedVal as real;
    }

    /**
     * `should_terminate`: the flag; once it is set, the number that set it passed the test
     * (by OptimumIsLargest, the largest common multiple of the factors the gene encodes).
     */
    function ShouldTerminate(overallFittest: Chrom): (stop: bool)
      reads this`foundBest, this`bestNumber
      requires Valid()
      ensures stop ==> Optimum(factors, bestNumber, maxEncodedVal)
    {
      foundBest
    }
  }

  lemma PowAtLeast(n: nat)
    requires n >= 1
    ensures Pow(2, n) >= 2
  {
    if n > 1 { PowAtLeast(n - 1); }
  }
}
