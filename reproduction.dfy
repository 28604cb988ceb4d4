/**
 * Reproduction (`BaseGeneticAlgorithm.reproduce`, ga/algorithms.py): the offspring
 * that refill a population from its survivors. A survivor is picked by
 * `weighted_choice` against the fitness CDF, copied, and crossed with a uniformly
 * chosen survivor at a uniformly chosen point when the crossover draw lies under
 * `p_crossover`. Populations are chromosome values of one layout.
 */
module Reproduction {
  import opened Wrappers
  import opened Genes
  import opened Ranking
  import opened Util
  import opened Chromosomes

  /** The draws of one offspring: the weighted parent choice, the crossover draw, the mate choice and the crossover point. */
  datatype OffspringDraw = OffspringDraw(pick: real, cross: real, mate: real, point: real)

  predicate OffspringDrawOk(d: OffspringDraw) {
    IsDraw(d.pick) && IsDraw(d.cross) && IsDraw(d.mate) && IsDraw(d.point)
  }

  predicate OffspringDrawsOk(ds: seq<OffspringDraw>) {
    forall i :: 0 <= i < |ds| ==> OffspringDrawOk(ds[i])
  }

  /** Every chromosome of the population has the layout. */
  predicate Population(cs: seq<Chrom>, l: Layout) {
    forall i :: 0 <= i < |cs| ==> Fits(cs[i], l)
  }

  /** Chromosomes of one layout have DNA of one length. */
  lemma FitsSameLength(a: Chrom, b: Chrom, l: Layout)
    requires Fits(a, l) && Fits(b, l)
    ensures Length(a) == Length(b)
  {
    assert SameShape(a.genes, b.genes);
    SameShapeLength(a.genes, b.genes);
  }

  /** Sorting a population keeps it a population of the layout. */
  lemma SortedPopulation(cs: seq<Chrom>, key: Chrom -> real, l: Layout)
    requires Population(cs, l)
    ensures Population(SortBy(cs, key), l)
  {
    var sorted := SortBy(cs, key);
    forall i | 0 <= i < |sorted| ensures Fits(sorted[i], l) {
      assert sorted[i] in multiset(sorted);
      var j := IndexOf(cs, sorted[i]);
    }
  }

  /** A list sorted by key has its fitnesses in ascending order. */
  lemma FitnessesSorted<T>(sorted: seq<T>, key: T -> real)
    requires SortedBy(sorted, key)
    ensures SortedBy(Fitnesses(sorted, key), Identity)
  {
  }

  // ---------------------------------------------------------------------------
  // The target size

  /** `if not target_size: target_size = self.orig_pop_size` */
  function TargetSize(target: Option<int>, origPopSize: nat): int {
    if Enabled(target) then target.value else origPopSize
  }

  /** The number of passes of `while num_survivors + len(offspring) < target_size`. */
  function OffspringCount(target: Option<int>, origPopSize: nat, survivors: nat): nat {
    var t := TargetSize(target, origPopSize);
    if survivors < t then t - survivors else 0
  }

  // ---------------------------------------------------------------------------
  // One offspring

  /** The position in the sorted survivors that `weighted_choice(survivors, cdf)` picks with draw `u`. */
  function ParentIndex<T>(sorted: seq<T>, key: T -> real, u: real): (k: nat)
    requires |sorted| > 0 && SortedBy(sorted, key) && IsDraw(u)
    ensures k < |sorted|
  {
    var fits := Fitnesses(sorted, key);
    FitnessesSorted(sorted, key);
    ChoiceFromCdf(fits, u);
    FirstExceeding(Cdf(fits), u)
  }

  /**
   * The parent the draw picks is never a weakest survivor when the survivors' fitnesses
   * differ: the weakest have cumulative probability 0.
   */
  lemma ParentNotWeakest<T>(sorted: seq<T>, key: T -> real, u: real)
    requires |sorted| > 0 && SortedBy(sorted, key) && IsDraw(u)
    requires key(sorted[0]) != key(sorted[|sorted| - 1])
    ensures key(sorted[0]) < key(sorted[ParentIndex(sorted, key, u)])
  {
    var fits := Fitnesses(sorted, key);
    var k := ParentIndex(sorted, key, u);
    var n := |sorted|;
    FitnessesSorted(sorted, key);
    ChoiceFromCdf(fits, u);
    assert MinFit(fits) == fits[0] by {
      var j :| 0 <= j < n && fits[j] == MinFit(fits);
      if j > 0 { assert fits[0] <= fits[j]; }
    }
    assert MaxFit(fits) != MinFit(fits) by {
      assert fits[n - 1] <= MaxFit(fits);
      assert fits[0] <= fits[n - 1];
    }
    CdfLinear(fits, k);
    if k > 0 {
      assert fits[0] <= fits[k];
    }
  }

  /** The offspring made with one draw: a copy of the picked parent, crossed with a mate when the crossover draw is under `p_crossover`. */
  function Child(sorted: seq<Chrom>, key: Chrom -> real, pCross: real, d: OffspringDraw, l: Layout): (c: Chrom)
    requires |sorted| > 0 && SortedBy(sorted, key) && Population(sorted, l) && OffspringDrawOk(d)
    ensures Fits(c, l)
  {
    var parent := sorted[ParentIndex(sorted, key, d.pick)];
    if d.cross < pCross then
      var mate := Choice(sorted, d.mate);
      FitsLength(parent, l);
      FitsSameLength(parent, mate, l);
      var point := Pick(d.point, Length(parent));
      CrossoverFits(parent, mate, point, l);
      CrossoverFirst(parent, mate, point)
    else
      parent
  }

  /** Without crossover the offspring is a copy of a survivor, and never of a weakest one when the fitnesses differ. */
  lemma ChildCopies(sorted: seq<Chrom>, key: Chrom -> real, pCross: real, d: OffspringDraw, l: Layout)
    requires |sorted| > 0 && SortedBy(sorted, key) && Population(sorted, l) && OffspringDrawOk(d)
    requires pCross <= d.cross
    ensures Child(sorted, key, pCross, d, l) in sorted
    ensures key(sorted[0]) != key(sorted[|sorted| - 1]) ==>
      key(sorted[0]) < key(Child(sorted, key, pCross, d, l))
  {
    if key(sorted[0]) != key(sorted[|sorted| - 1]) {
      ParentNotWeakest(sorted, key, d.pick);
    }
  }

  /**
   * With crossover the offspring is the picked parent crossed with a survivor at a point
   * inside the DNA; for the base chromosome class its DNA is the parent's up to the point
   * and the mate's after it.
   */
  lemma ChildCrosses(sorted: seq<Chrom>, key: Chrom -> real, pCross: real, d: OffspringDraw, l: Layout)
    requires |sorted| > 0 && SortedBy(sorted, key) && Population(sorted, l) && OffspringDrawOk(d)
    requires d.cross < pCross
    ensures var parent := sorted[ParentIndex(sorted, key, d.pick)];
      var mate := sorted[Pick(d.mate, |sorted|)];
      Length(parent) > 0 && Length(mate) == Length(parent)
    ensures var parent := sorted[ParentIndex(sorted, key, d.pick)];
      var mate := sorted[Pick(d.mate, |sorted|)];
      var point := Pick(d.point, Length(parent));
      && CanCrossover(parent, mate, point)
      && Child(sorted, key, pCross, d, l) == CrossoverFirst(parent, mate, point)
      && (l.variant.Plain? ==> Dna(Child(sorted, key, pCross, d, l)) == Splice(Dna(parent), Dna(mate), point))
  {
    var parent := sorted[ParentIndex(sorted, key, d.pick)];
    var mate := sorted[Pick(d.mate, |sorted|)];
    FitsLength(parent, l);
    FitsSameLength(parent, mate, l);
    var point := Pick(d.point, Length(parent));
    CrossoverFits(parent, mate, point, l);
  }

  // ---------------------------------------------------------------------------
  // The reproduced population

  /** The offspring of `reproduce`, one per draw. */
  function Offspring(sorted: seq<Chrom>, key: Chrom -> real, pCross: real, ds: seq<OffspringDraw>, l: Layout): (r: seq<Chrom>)
    requires |sorted| > 0 && SortedBy(sorted, key) && Population(sorted, l) && OffspringDrawsOk(ds)
    ensures |r| == |ds| && Population(r, l)
  {
    seq(|ds|, i requires 0 <= i < |ds| => Child(sorted, key, pCross, ds[i], l))
  }

  /** The offspring of the first n + 1 draws are those of the first n, then the child of draw n. */
  lemma OffspringStep(sorted: seq<Chrom>, key: Chrom -> real, pCross: real, ds: seq<OffspringDraw>, l: Layout, n: nat)
    requires |sorted| > 0 && SortedBy(sorted, key) && Population(sorted, l) && OffspringDrawsOk(ds) && n < |ds|
    ensures OffspringDrawsOk(ds[..n]) && OffspringDrawsOk(ds[..n + 1])
    ensures Offspring(sorted, key, pCross, ds[..n + 1], l)
         == Offspring(sorted, key, pCross, ds[..n], l) + [Child(sorted, key, pCross, ds[n], l)]
  {
    var longer, shorter := ds[..n + 1], ds[..n];
    assert OffspringDrawsOk(longer) && OffspringDrawsOk(shorter) by {
      assert forall i :: 0 <= i < n + 1 ==> longer[i] == ds[i];
    }
    var a := Offspring(sorted, key, pCross, longer, l);
    var b := Offspring(sorted, key, pCross, shorter, l) + [Child(sorted, key, pCross, ds[n], l)];
    forall i | 0 <= i < n + 1
      ensures a[i] == b[i]
    {
      assert a[i] == Child(sorted, key, pCross, longer[i], l);
      if i < n {
        assert b[i] == Child(sorted, key, pCross, shorter[i], l);
        assert shorter[i] == longer[i];
      }
    }
  }

  /** `survivors + offspring`, where compute_fitness_cdf has sorted the survivors in place. */
  function Reproduced(survivors: seq<Chrom>, key: Chrom -> real, pCross: real, target: Option<int>, origPopSize: nat,
                      ds: seq<OffspringDraw>, l: Layout): seq<Chrom>
    requires |survivors| > 0 && Population(survivors, l) && OffspringDrawsOk(ds)
    requires |ds| == OffspringCount(target, origPopSize, |survivors|)
  {
    var sorted := SortBy(survivors, key);
    SortedPopulation(survivors, key, l);
    sorted + Offspring(sorted, key, pCross, ds, l)
  }

  /**
   * `reproduce` grows the population to `max(len(survivors), target_size)`: the survivors
   * come first, reordered but otherwise untouched, and every chromosome keeps the layout.
   */
  lemma ReproducedShape(survivors: seq<Chrom>, key: Chrom -> real, pCross: real, target: Option<int>, origPopSize: nat,
                        ds: seq<OffspringDraw>, l: Layout)
    requires |survivors| > 0 && Population(survivors, l) && OffspringDrawsOk(ds)
    requires |ds| == OffspringCount(target, origPopSize, |survivors|)
    ensures var r := Reproduced(survivors, key, pCross, target, origPopSize, ds, l);
      var t := TargetSize(target, origPopSize);
      && |r| == (if |survivors| < t then t else |survivors|)
      && multiset(r[..|survivors|]) == multiset(survivors)
      && SortedBy(r[..|survivors|], key)
      && Population(r, l)
  {
    var sorted := SortBy(survivors, key);
    SortedPopulation(survivors, key, l);
    var r := Reproduced(survivors, key, pCross, target, origPopSize, ds, l);
    assert r[..|survivors|] == sorted;
  }
}
