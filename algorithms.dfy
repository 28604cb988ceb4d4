/**
 * The generational engine (`BaseGeneticAlgorithm`, ga/algorithms.py): a population
 * of chromosomes of one layout, an abstract fitness function of the DNA, and the
 * steps of a run (competition, reproduction, mutation, the elitist step) with the
 * run's records. Random draws come from an `Oracle`.
 */
module Algorithms {
  import opened Wrappers
  import opened Genes
  import opened Ranking
  import opened Util
  import opened Chromosomes
  import opened Translators
  import opened Competition
  import opened Reproduction
  import opened Bookkeeping

  /** `eval_fitness` as a key on chromosomes: the fitness of the DNA. */
  function FitnessKey(fitness: string -> real): Chrom -> real {
    c => fitness(Dna(c))
  }

  /** Each chromosome has its own draws, and they fit it. */
  predicate MutationsFit(cs: seq<Chrom>, ds: seq<ChromDraws>, pMutate: real) {
    |ds| == |cs| && forall i :: 0 <= i < |cs| ==> MutationDrawsFit(cs[i], ds[i], pMutate)
  }

  /** The population after `chromosome.mutate(p_mutate)` for each chromosome, each with its draws. */
  function Mutated(cs: seq<Chrom>, ds: seq<ChromDraws>, pMutate: real): (r: seq<Chrom>)
    requires MutationsFit(cs, ds, pMutate)
    ensures |r| == |cs|
  {
    seq(|cs|, i requires 0 <= i < |cs| => MutateChrom(cs[i], ds[i], pMutate))
  }

  /** Mutation keeps every chromosome of a population in its layout, and at rate 0 changes none. */
  lemma MutatedPopulation(cs: seq<Chrom>, ds: seq<ChromDraws>, pMutate: real, l: Layout)
    requires Population(cs, l)
    requires MutationsFit(cs, ds, pMutate)
    ensures Population(Mutated(cs, ds, pMutate), l)
    ensures pMutate == 0.0 ==> Mutated(cs, ds, pMutate) == cs
  {
    var r := Mutated(cs, ds, pMutate);
    forall i | 0 <= i < |cs| ensures Fits(r[i], l) && (pMutate == 0.0 ==> r[i] == cs[i]) {
      MutateFits(cs[i], ds[i], pMutate, l);
      if pMutate == 0.0 {
        MutateZeroRate(cs[i], ds[i], l);
      }
    }
  }

  /** The survivors of a population are a non-empty population of the same layout. */
  lemma SurvivorsPopulation(sorted: seq<Chrom>, ps: seq<real>, draws: seq<real>, l: Layout)
    requires |sorted| > 0 && |ps| == |sorted| && |draws| == |sorted| && Population(sorted, l)
    ensures |Survivors(sorted, ps, draws)| > 0 && Population(Survivors(sorted, ps, draws), l)
  {
    var r := Survivors(sorted, ps, draws);
    var idx := KeptIndices(ps, draws, |sorted|);
    KeptSelects(sorted, ps, draws, |sorted|);
    var kept := Select(sorted, idx);
    forall k | 0 <= k < |r| ensures Fits(r[k], l) {
      if |kept| > 0 {
        assert r[k] == kept[k] == sorted[idx[k]];
      }
    }
  }

  /** The population after the elitist step: sorted, with the weakest taking the DNA of `best`. */
  function Elitist(cs: seq<Chrom>, key: Chrom -> real, best: Chrom, l: Layout): (r: seq<Chrom>)
    requires |cs| > 0 && Population(cs, l) && Fits(best, l)
  {
    var sorted := SortBy(cs, key);
    SortedPopulation(cs, key, l);
    WithDnaFits(sorted[0], best, l);
    sorted[0 := WithDna(sorted[0], Dna(best))]
  }

  /**
   * The elitist step keeps the population size and layout: the first of the sorted
   * population, a weakest chromosome, now carries the DNA of the best, and the rest of
   * the sorted population is as it was.
   */
  lemma ElitistProperties(cs: seq<Chrom>, key: Chrom -> real, best: Chrom, l: Layout)
    requires |cs| > 0 && Population(cs, l) && Fits(best, l)
    ensures var r := Elitist(cs, key, best, l);
      && |r| == |cs| && Population(r, l)
      && Dna(r[0]) == Dna(best)
      && key(SortBy(cs, key)[0]) == key(cs[WeakestIndex(cs, key)])
      && r[1..] == SortBy(cs, key)[1..]
  {
    var sorted := SortBy(cs, key);
    SortedPopulation(cs, key, l);
    WithDnaFits(sorted[0], best, l);
    SortedFirstWeakest(cs, key);
  }

  /**
   * The records of a run after `n` recorded generations: `generation_fittest`,
   * `generation_fittest_fit` and `overall_fittest_fit` are keyed by the generations 1..n
   * and hold each generation's fittest chromosome, its fitness, and the best fitness so far.
   */
  ghost predicate RecordsAgree(gf: map<nat, Chrom>, gff: map<nat, real>, off: map<nat, real>,
                               fitness: string -> real, n: nat, fits: seq<real>, trace: seq<Step>)
  {
    && n <= |fits| && n <= |trace|
    && gf.Keys == gff.Keys == off.Keys
    && (forall g :: g in gf <==> 1 <= g <= n)
    && (forall g :: 1 <= g <= n ==>
      && gff[g] == fits[g - 1] == fitness(Dna(gf[g]))
      && off[g] == trace[g - 1].bestFit)
  }

  /**
   * The records `(generation_fittest, generation_fittest_fit, overall_fittest_fit,
   * new_fittest_generations)` after generation `gen`, whose fittest chromosome is `c` with
   * fitness `fit` and whose bookkeeping step is `s`: a new best lists the generation, and
   * unless the generation quit it records `c`, `fit` and the best fitness so far.
   */
  function Booked(r: (map<nat, Chrom>, map<nat, real>, map<nat, real>, seq<nat>), gen: nat, c: Chrom, fit: real, s: Step)
    : (map<nat, Chrom>, map<nat, real>, map<nat, real>, seq<nat>)
  {
    var gens := r.3 + (if s.upset then [gen] else []);
    if s.quit then (r.0, r.1, r.2, gens) else (r.0[gen := c], r.1[gen := fit], r.2[gen := s.bestFit], gens)
  }

  /** Records that changed as a generation's bookkeeping says are `Booked`. */
  lemma BookedParts(r0: (map<nat, Chrom>, map<nat, real>, map<nat, real>, seq<nat>),
                    r1: (map<nat, Chrom>, map<nat, real>, map<nat, real>, seq<nat>), gen: nat, c: Chrom, fit: real, s: Step)
    requires r1.3 == r0.3 + (if s.upset then [gen] else [])
    requires s.quit ==> r1.0 == r0.0 && r1.1 == r0.1 && r1.2 == r0.2
    requires !s.quit ==> r1.0 == r0.0[gen := c] && r1.1 == r0.1[gen := fit] && r1.2 == r0.2[gen := s.bestFit]
    ensures r1 == Booked(r0, gen, c, fit, s)
  {
  }

  /** Recording one more generation extends the records by that generation. */
  lemma RecordsExtend(gf: map<nat, Chrom>, gff: map<nat, real>, off: map<nat, real>,
                      fitness: string -> real, fits: seq<real>, trace: seq<Step>, c: Chrom, s: Step)
    requires |fits| == |trace| && RecordsAgree(gf, gff, off, fitness, |fits|, fits, trace)
    ensures RecordsAgree(gf[|fits| + 1 := c], gff[|fits| + 1 := fitness(Dna(c))], off[|fits| + 1 := s.bestFit],
                         fitness, |fits| + 1, fits + [fitness(Dna(c))], trace + [s])
  {
  }

  /** A generation that quits is traced but not recorded: the records stay those of the generations before it. */
  lemma RecordsKeep(gf: map<nat, Chrom>, gff: map<nat, real>, off: map<nat, real>,
                    fitness: string -> real, fits: seq<real>, trace: seq<Step>, x: real, s: Step)
    requires |fits| == |trace| && RecordsAgree(gf, gff, off, fitness, |fits|, fits, trace)
    ensures RecordsAgree(gf, gff, off, fitness, |fits|, fits + [x], trace + [s])
  {
  }

  // ---------------------------------------------------------------------------
  // The draws of a run

  /** The draws of a run: by generation, and by position in the population. */
  datatype Oracle = Oracle(
    survival: (nat, nat) -> real,
    offspring: (nat, nat) -> OffspringDraw,
    mutation: (nat, nat, Chrom) -> ChromDraws,
    refresh: (nat, nat, Chrom) -> ChromDraws)

  /** Every draw lies in [0, 1), and the mutation draws let every mutation of a chromosome of the layout end. */
  ghost predicate OracleOk(o: Oracle, l: Layout, pMutate: real) {
    && (forall g, i :: IsDraw(o.survival(g, i)))
    && (forall g, i :: OffspringDrawOk(o.offspring(g, i)))
    && DrawsFit(o.mutation, l, pMutate)
    && DrawsFit(o.refresh, l, 0.5)
  }

  /** The mutation draws of every chromosome of the layout let its mutation at rate `p` end. */
  ghost predicate DrawsFit(f: (nat, nat, Chrom) -> ChromDraws, l: Layout, p: real) {
    forall g, i, c :: Fits(c, l) ==> MutationDrawsFit(c, f(g, i, c), p)
  }

  /** None of the first `n` steps of a trace quit. */
  ghost predicate QuitFree(t: seq<Step>, n: int) {
    forall i :: 0 <= i < n && i < |t| ==> !t[i].quit
  }

  /**
   * Where the loop of `run` stands after the steps `t`: no step but perhaps the last quit;
   * and it has stopped (`done`) only after a step, which quit or made `stopped` hold.
   */
  ghost predicate RunState(t: seq<Step>, done: bool, stopped: bool) {
    && QuitFree(t, |t| - 1)
    && (!done ==> QuitFree(t, |t|))
    && (done ==> |t| > 0 && (t[|t| - 1].quit || stopped))
  }

  /** One more step keeps the loop's state, stopping it if that step quit or `stopped` holds. */
  lemma RunStateStep(t: seq<Step>, s: Step, stopped: bool)
    requires QuitFree(t, |t|)
    ensures RunState(t + [s], s.quit || stopped, stopped)
  {
    assert forall i :: 0 <= i < |t| ==> (t + [s])[i] == t[i];
  }

  /** A generation's mutation draws fit a population of the layout. */
  lemma PopulationDrawsFit(f: (nat, nat, Chrom) -> ChromDraws, l: Layout, p: real, gen: nat, cs: seq<Chrom>)
    requires DrawsFit(f, l, p) && Population(cs, l)
    ensures MutationsFit(cs, MutationDraws(f, gen, cs), p)
  {
    var ds := MutationDraws(f, gen, cs);
    forall i | 0 <= i < |cs| ensures MutationDrawsFit(cs[i], ds[i], p) {
      assert Fits(cs[i], l) && ds[i] == f(gen, i, cs[i]);
    }
  }

  /** A generation's offspring draws are draws. */
  lemma OracleOffspringOk(o: Oracle, l: Layout, pMutate: real, gen: nat, n: nat)
    requires OracleOk(o, l, pMutate)
    ensures OffspringDrawsOk(OffspringDraws(o, gen, n))
  {
    var ds := OffspringDraws(o, gen, n);
    forall i | 0 <= i < n ensures OffspringDrawOk(ds[i]) {
      assert ds[i] == o.offspring(gen, i);
    }
  }

  function SurvivalDraws(o: Oracle, gen: nat, n: nat): (r: seq<real>)
    ensures |r| == n
  {
    seq(n, i requires 0 <= i < n => o.survival(gen, i))
  }

  function OffspringDraws(o: Oracle, gen: nat, n: nat): (r: seq<OffspringDraw>)
    ensures |r| == n
  {
    seq(n, i requires 0 <= i < n => o.offspring(gen, i))
  }

  function MutationDraws(f: (nat, nat, Chrom) -> ChromDraws, gen: nat, cs: seq<Chrom>): (r: seq<ChromDraws>)
    ensures |r| == |cs|
  {
    seq(|cs|, i requires 0 <= i < |cs| => f(gen, i, cs[i]))
  }

  /** The fields of the engine a generation changes: the population and the all-time fitness extremes. */
  datatype Engine = Engine(pop: seq<Chrom>, minFit: Extreme, maxFit: Extreme)

  /** The arguments of `run` that every generation uses. */
  datatype Settings = Settings(pMutate: real, pCross: real, elitist: bool,
                               refreshAfter: Option<int>, quitAfter: Option<int>, o: Oracle)

  /** The rates are probabilities and the draws fit the layout. */
  ghost predicate SettingsOk(cfg: Settings, l: Layout) {
    0.0 <= cfg.pMutate <= 1.0 && 0.0 <= cfg.pCross <= 1.0 && OracleOk(cfg.o, l, cfg.pMutate)
  }

  // ---------------------------------------------------------------------------
  // The engine

  class GeneticAlgorithm {
    /** `eval_fitness`, a function of the DNA. */
    const fitness: string -> real
    const translator: Option<Translator>
    const absWeight: real
    const relWeight: real
    const origPopSize: nat
    /** The layout every chromosome of the population shares. */
    ghost const layout: Layout

    var chromosomes: seq<Chrom>
    var minFitEver: Extreme
    var maxFitEver: Extreme
    var generationFittest: map<nat, Chrom>
    var generationFittestFit: map<nat, real>
    var overallFittestFit: map<nat, real>
    var newFittestGenerations: seq<nat>

    ghost predicate Valid()
      reads this`chromosomes
    {
      WeightsOk(absWeight, relWeight) && Population(chromosomes, layout)
    }

    function Key(): Chrom -> real {
      FitnessKey(fitness)
    }

    /** The run's records, which the steps of a generation leave alone. */
    ghost function Records(): (map<nat, Chrom>, map<nat, real>, map<nat, real>, seq<nat>)
      reads this`generationFittest, this`generationFittestFit, this`overallFittestFit, this`newFittestGenerations
    {
      (generationFittest, generationFittestFit, overallFittestFit, newFittestGenerations)
    }

    /** A state a generation can start from: a non-empty population of the layout, with the extremes set. */
    ghost predicate Startable(e: Engine) {
      WeightsOk(absWeight, relWeight) && |e.pop| > 0 && Population(e.pop, layout) && !e.minFit.Unset? && !e.maxFit.Unset?
    }

    /**
     * `compete`, `reproduce` and `mutate` of generation `gen`: the population sorted by fitness
     * widens the extremes, the survivors of the generation's survival draws breed back to the
     * original size, and everyone mutates with the generation's mutation draws.
     */
    ghost function Bred(e: Engine, gen: nat, cfg: Settings): (r: Engine)
      requires Startable(e) && SettingsOk(cfg, layout)
      ensures Startable(r)
    {
      var sorted := SortBy(e.pop, Key());
      var minFit := Lowered(e.minFit, Key()(sorted[0]));
      var maxFit := Raised(e.maxFit, Key()(sorted[|sorted| - 1]));
      var ps := Probabilities(sorted, Key(), minFit.value, maxFit.value, absWeight, relWeight);
      var draws := SurvivalDraws(cfg.o, gen, |sorted|);
      SortedPopulation(e.pop, Key(), layout);
      SurvivorsPopulation(sorted, ps, draws, layout);
      var survivors := Survivors(sorted, ps, draws);
      var count := OffspringCount(None, origPopSize, |survivors|);
      OracleOffspringOk(cfg.o, layout, cfg.pMutate, gen, count);
      ReproducedShape(survivors, Key(), cfg.pCross, None, origPopSize, OffspringDraws(cfg.o, gen, count), layout);
      var bred := Reproduced(survivors, Key(), cfg.pCross, None, origPopSize, OffspringDraws(cfg.o, gen, count), layout);
      PopulationDrawsFit(cfg.o.mutation, layout, cfg.pMutate, gen, bred);
      MutatedPopulation(bred, MutationDraws(cfg.o.mutation, gen, bred), cfg.pMutate, layout);
      Engine(Mutated(bred, MutationDraws(cfg.o.mutation, gen, bred), cfg.pMutate), minFit, maxFit)
    }

    /** The chromosome `get_fittest` returns for a population. */
    function FittestOf(pop: seq<Chrom>): Chrom
      requires |pop| > 0
    {
      pop[FittestIndex(pop, Key())]
    }

    /**
     * The books of generation `gen` on the bred state `e`, whose bookkeeping step is `s`:
     * without a new best and with `elitist`, the weakest chromosome takes the DNA of `best`;
     * a refresh then mutates everyone at 0.5 with the refresh draws.
     */
    ghost function Kept(e: Engine, best: Chrom, gen: nat, cfg: Settings, s: Step): (r: Engine)
      requires |e.pop| > 0 && Population(e.pop, layout) && Fits(best, layout) && DrawsFit(cfg.o.refresh, layout, 0.5)
      ensures |r.pop| == |e.pop| && Population(r.pop, layout) && r.minFit == e.minFit && r.maxFit == e.maxFit
    {
      ElitistProperties(e.pop, Key(), best, layout);
      var judged := if s.upset || !cfg.elitist then e.pop else Elitist(e.pop, Key(), best, layout);
      PopulationDrawsFit(cfg.o.refresh, layout, 0.5, gen, judged);
      MutatedPopulation(judged, MutationDraws(cfg.o.refresh, gen, judged), 0.5, layout);
      Engine(if s.refreshed then Mutated(judged, MutationDraws(cfg.o.refresh, gen, judged), 0.5) else judged,
             e.minFit, e.maxFit)
    }

    /** `Kept` from its two stages: the judged population, then the refreshed one. */
    lemma KeptFrom(e: Engine, judged: seq<Chrom>, e1: Engine, best: Chrom, gen: nat, cfg: Settings, s: Step)
      requires |e.pop| > 0 && Population(e.pop, layout) && Fits(best, layout) && DrawsFit(cfg.o.refresh, layout, 0.5)
      requires judged == if s.upset || !cfg.elitist then e.pop else Elitist(e.pop, Key(), best, layout)
      requires MutationsFit(judged, MutationDraws(cfg.o.refresh, gen, judged), 0.5)
      requires e1.pop == if s.refreshed then Mutated(judged, MutationDraws(cfg.o.refresh, gen, judged), 0.5) else judged
      requires e1.minFit == e.minFit && e1.maxFit == e.maxFit
      ensures e1 == Kept(e, best, gen, cfg, s)
    { }

    /**
     * Generation `gen` takes the engine from `e` to `e1` and the overall fittest from `best`
     * to `best1`, and its bookkeeping step `s` follows `prev` with the fitness of the bred
     * population's fittest chromosome.
     */
    ghost predicate Evolves(e: Engine, best: Chrom, gen: nat, cfg: Settings, prev: Step, s: Step, e1: Engine, best1: Chrom)
      requires Startable(e) && Fits(best, layout) && SettingsOk(cfg, layout)
    {
      var bred := Bred(e, gen, cfg);
      && s == Next(prev, fitness(Dna(FittestOf(bred.pop))), cfg.refreshAfter, cfg.quitAfter)
      && e1 == Kept(bred, best, gen, cfg, s)
      && best1 == if s.upset then FittestOf(bred.pop) else best
    }

    /** `Evolves` from its two stages: the bred state, then the kept one. */
    lemma EvolvesFrom(e: Engine, bred: Engine, best: Chrom, gen: nat, cfg: Settings, prev: Step, s: Step, e1: Engine, best1: Chrom)
      requires Startable(e) && Fits(best, layout) && SettingsOk(cfg, layout)
      requires bred == Bred(e, gen, cfg)
      requires s == Next(prev, fitness(Dna(FittestOf(bred.pop))), cfg.refreshAfter, cfg.quitAfter)
      requires e1 == Kept(bred, best, gen, cfg, s)
      requires best1 == if s.upset then FittestOf(bred.pop) else best
      ensures Evolves(e, best, gen, cfg, prev, s, e1, best1)
    { }

    /**
     * The engine states `pops` and overall fittest chromosomes `bests` before each generation
     * of a run and after the last one, whose bookkeeping steps are `t`: each generation
     * evolves from the state before it.
     */
    ghost predicate Evolution(pops: seq<Engine>, bests: seq<Chrom>, startFit: real, t: seq<Step>, cfg: Settings)
      decreases |t|
    {
      && SettingsOk(cfg, layout)
      && |pops| == |bests| == |t| + 1
      && (|t| > 0 ==>
        && Evolution(pops[..|t|], bests[..|t|], startFit, t[..|t| - 1], cfg)
        && Startable(pops[|t| - 1]) && Fits(bests[|t| - 1], layout)
        && Evolves(pops[|t| - 1], bests[|t| - 1], |t|, cfg, Prior(startFit, t, |t| - 1), t[|t| - 1], pops[|t|], bests[|t|]))
    }

    /** One more generation that evolves from the last state extends an evolution. */
    lemma EvolutionExtend(pops: seq<Engine>, bests: seq<Chrom>, startFit: real, t: seq<Step>, cfg: Settings,
                          gen: nat, e: Engine, best: Chrom, prev: Step, s: Step, e1: Engine, best1: Chrom)
      requires Evolution(pops, bests, startFit, t, cfg)
      requires gen == |t| + 1 && pops[|t|] == e && bests[|t|] == best && prev == Prior(startFit, t, |t|)
      requires Startable(e) && Fits(best, layout)
      requires Evolves(e, best, gen, cfg, prev, s, e1, best1)
      ensures Evolution(pops + [e1], bests + [best1], startFit, t + [s], cfg)
    {
      var pops1, bests1, t1 := pops + [e1], bests + [best1], t + [s];
      assert pops1[..|t| + 1] == pops && bests1[..|t| + 1] == bests && t1[..|t|] == t;
      assert Prior(startFit, t1, |t|) == Prior(startFit, t, |t|);
    }

    /**
     * In an evolution, generation `i + 1` starts from a state that can start a generation,
     * and its step records the fitness of the fittest chromosome of its bred population.
     */
    lemma {:induction false} EvolutionFitAt(pops: seq<Engine>, bests: seq<Chrom>, startFit: real, t: seq<Step>, cfg: Settings, i: nat)
      requires Evolution(pops, bests, startFit, t, cfg) && i < |t|
      ensures Startable(pops[i]) && t[i].genFit == fitness(Dna(FittestOf(Bred(pops[i], i + 1, cfg).pop)))
      decreases |t|
    {
      if i < |t| - 1 {
        EvolutionFitAt(pops[..|t|], bests[..|t|], startFit, t[..|t| - 1], cfg, i);
        assert pops[..|t|][i] == pops[i] && t[..|t| - 1][i] == t[i];
      } else {
        EvolutionLast(pops, bests, startFit, t, cfg);
        assert i == |t| - 1 && i + 1 == |t|;
      }
    }

    /** The last generation of an evolution records the fitness of its bred population's fittest chromosome. */
    lemma EvolutionLast(pops: seq<Engine>, bests: seq<Chrom>, startFit: real, t: seq<Step>, cfg: Settings)
      requires Evolution(pops, bests, startFit, t, cfg) && |t| > 0
      ensures Startable(pops[|t| - 1])
      ensures t[|t| - 1].genFit == fitness(Dna(FittestOf(Bred(pops[|t| - 1], |t|, cfg).pop)))
    {
    }

    /** `__init__`: the weights lie in [0, 1] and sum to 1; nothing has been recorded yet. */
    constructor (chromosomes: seq<Chrom>, fitness: string -> real, ghost layout: Layout,
                 translator: Option<Translator> := None, absWeight: real := 0.25, relWeight: real := 0.75)
      requires Population(chromosomes, layout)
      requires WeightsOk(absWeight, relWeight)
      ensures Valid()
      ensures this.chromosomes == chromosomes && origPopSize == |chromosomes|
      ensures this.fitness == fitness && this.layout == layout && this.translator == translator
      ensures this.absWeight == absWeight && this.relWeight == relWeight
      ensures minFitEver == Unset && maxFitEver == Unset
      ensures Records() == (map[], map[], map[], [])
    {
      this.fitness := fitness;
      this.layout := layout;
      this.translator := translator;
      this.absWeight := absWeight;
      this.relWeight := relWeight;
      this.chromosomes := chromosomes;
      this.origPopSize := |chromosomes|;
      this.minFitEver := Unset;
      this.maxFitEver := Unset;
      this.generationFittest := map[];
      this.generationFittestFit := map[];
      this.overallFittestFit := map[];
      this.newFittestGenerations := [];
    }

    /** `get_fittest`: the first chromosome of greatest fitness. */
    function GetFittest(): (c: Chrom)
      reads this`chromosomes
      requires |chromosomes| > 0
      ensures c in chromosomes
      ensures forall i :: 0 <= i < |chromosomes| ==> fitness(Dna(chromosomes[i])) <= fitness(Dna(c))
    {
      FittestOf(chromosomes)
    }

    /** `get_weakest`: the first chromosome of least fitness. */
    function GetWeakest(): (c: Chrom)
      reads this`chromosomes
      requires |chromosomes| > 0
      ensures c in chromosomes
      ensures forall i :: 0 <= i < |chromosomes| ==> fitness(Dna(c)) <= fitness(Dna(chromosomes[i]))
    {
      chromosomes[WeakestIndex(chromosomes, Key())]
    }

    /**
     * `compete(self.chromosomes)`: sort the population, widen the all-time fitness range to
     * the current one, and keep each chromosome whose draw lies under its survival probability
     * (everyone when nobody is kept).
     */
    method Compete(draws: seq<real>) returns (survivors: seq<Chrom>)
      requires Valid() && |chromosomes| > 0 && |draws| == |chromosomes|
      requires !minFitEver.Unset? && !maxFitEver.Unset?
      modifies this`chromosomes, this`minFitEver, this`maxFitEver
      ensures Valid() && Records() == old(Records())
      ensures chromosomes == SortBy(old(chromosomes), Key())
      ensures minFitEver == Lowered(old(minFitEver), Key()(chromosomes[0]))
      ensures maxFitEver == Raised(old(maxFitEver), Key()(chromosomes[|chromosomes| - 1]))
      ensures survivors == Survivors(chromosomes,
        Probabilities(chromosomes, Key(), minFitEver.value, maxFitEver.value, absWeight, relWeight), draws)
      ensures |survivors| > 0 && Population(survivors, layout)
    {
      ghost var minEver, maxEver := minFitEver, maxFitEver;
      Sort();
      var minFit := Key()(chromosomes[0]);
      var maxFit := Key()(chromosomes[|chromosomes| - 1]);
      WidenRange(minFit, maxFit);
      assert minFitEver == Lowered(minEver, minFit) && maxFitEver == Raised(maxEver, maxFit);
      var ps := Probabilities(chromosomes, Key(), minFitEver.value, maxFitEver.value, absWeight, relWeight);
      SurvivorsPopulation(chromosomes, ps, draws, layout);
      survivors := ChooseSurvivors(chromosomes, ps, draws);
    }

    /** `sort(self.chromosomes)`: the population in ascending fitness order, as the stable `list.sort` leaves it. */
    method Sort()
      requires Valid()
      modifies this`chromosomes
      ensures Valid() && Records() == old(Records())
      ensures minFitEver == old(minFitEver) && maxFitEver == old(maxFitEver)
      ensures chromosomes == SortBy(old(chromosomes), Key())
    {
      SortedPopulation(chromosomes, Key(), layout);
      chromosomes := SortBy(chromosomes, Key());
    }

    /** The all-time extremes take in the current least and greatest fitness. */
    method WidenRange(minFit: real, maxFit: real)
      requires !minFitEver.Unset? && !maxFitEver.Unset?
      modifies this`minFitEver, this`maxFitEver
      ensures chromosomes == old(chromosomes) && Records() == old(Records())
      ensures minFitEver == Lowered(old(minFitEver), minFit)
      ensures maxFitEver == Raised(old(maxFitEver), maxFit)
    {
      if minFitEver.Infinite? || minFit < minFitEver.value {
        minFitEver := Finite(minFit);
      }
      if maxFitEver.Infinite? || maxFit > maxFitEver.value {
        maxFitEver := Finite(maxFit);
      }
    }

    /**
     * `reproduce(survivors, p_crossover, target_size)`: offspring are added until the
     * population reaches the target size; the result is the survivors, sorted by the
     * fitness CDF computation, followed by the offspring.
     */
    method Reproduce(survivors: seq<Chrom>, pCross: real, target: Option<int>, draws: seq<OffspringDraw>)
      returns (r: seq<Chrom>)
      requires |survivors| > 0 && Population(survivors, layout)
      requires 0.0 <= pCross <= 1.0
      requires OffspringDrawsOk(draws) && |draws| == OffspringCount(target, origPopSize, |survivors|)
      ensures r == Reproduced(survivors, Key(), pCross, target, origPopSize, draws, layout)
    {
      SortedPopulation(survivors, Key(), layout);
      var (sorted, cdf) := ComputeFitnessCdf(survivors, Key());
      var targetSize := if Enabled(target) then target.value else origPopSize;
      var offspring: seq<Chrom> := [];
      assert draws[..0] == [];
      while |survivors| + |offspring| < targetSize
        invariant |offspring| <= |draws| && OffspringDrawsOk(draws[..|offspring|])
        invariant offspring == Offspring(sorted, Key(), pCross, draws[..|offspring|], layout)
        decreases targetSize - |offspring|
      {
        OffspringStep(sorted, Key(), pCross, draws, layout, |offspring|);
        var c1 := Offspring1(sorted, cdf, pCross, draws[|offspring|]);
        offspring := offspring + [c1];
      }
      r := sorted + offspring;
      assert draws[..|offspring|] == draws;
    }

    /** One pass of the loop of `reproduce`: pick a parent by the CDF, copy it, and cross the copy with a mate on a low crossover draw. */
    method Offspring1(sorted: seq<Chrom>, cdf: seq<real>, pCross: real, d: OffspringDraw) returns (c1: Chrom)
      requires |sorted| > 0 && SortedBy(sorted, Key()) && Population(sorted, layout) && OffspringDrawOk(d)
      requires cdf == Cdf(Fitnesses(sorted, Key()))
      ensures c1 == Child(sorted, Key(), pCross, d, layout)
    {
      FitnessesSorted(sorted, Key());
      ChoiceFromCdf(Fitnesses(sorted, Key()), d.pick);
      var picked := WeightedChoice(sorted, cdf, d.pick);
      c1 := picked.value;
      if d.cross < pCross {
        var c2 := Choice(sorted, d.mate);
        ChildCrosses(sorted, Key(), pCross, d, layout);
        var crosspoint := Pick(d.point, Length(c1));
        c1 := CrossoverFirst(c1, c2, crosspoint);
      }
    }

    /** `mutate(self.chromosomes, p_mutate)`: every chromosome in turn mutates with its own draws. */
    method Mutate(pMutate: real, draws: seq<ChromDraws>)
      requires Valid() && 0.0 <= pMutate <= 1.0 && |draws| == |chromosomes|
      requires MutationsFit(chromosomes, draws, pMutate)
      modifies this`chromosomes
      ensures Valid() && Records() == old(Records())
      ensures minFitEver == old(minFitEver) && maxFitEver == old(maxFitEver)
      ensures chromosomes == Mutated(old(chromosomes), draws, pMutate)
    {
      ghost var before := chromosomes;
      MutatedPopulation(before, draws, pMutate, layout);
      var i := 0;
      while i < |chromosomes|
        invariant 0 <= i <= |chromosomes| == |before|
        invariant forall j :: 0 <= j < i ==> chromosomes[j] == MutateChrom(before[j], draws[j], pMutate)
        invariant forall j :: i <= j < |chromosomes| ==> chromosomes[j] == before[j]
        invariant Records() == old(Records())
        invariant minFitEver == old(minFitEver) && maxFitEver == old(maxFitEver)
      {
        chromosomes := chromosomes[i := MutateChrom(chromosomes[i], draws[i], pMutate)];
        i := i + 1;
      }
      assert chromosomes == Mutated(before, draws, pMutate);
    }

    /** `refresh(self.chromosomes)`: mutation at the rate 0.5. */
    method Refresh(draws: seq<ChromDraws>)
      requires Valid() && |draws| == |chromosomes|
      requires MutationsFit(chromosomes, draws, 0.5)
      modifies this`chromosomes
      ensures Valid() && Records() == old(Records())
      ensures minFitEver == old(minFitEver) && maxFitEver == old(maxFitEver)
      ensures chromosomes == Mutated(old(chromosomes), draws, 0.5)
    {
      Mutate(0.5, draws);
    }

    /**
     * The first three steps of a generation of `run`: `compete`, `reproduce` to the original
     * population size, and `mutate`, each with the oracle's draws for this generation.
     */
    method Generation(gen: nat, cfg: Settings) returns (survivors: seq<Chrom>)
      requires Valid() && |chromosomes| > 0 && !minFitEver.Unset? && !maxFitEver.Unset?
      requires SettingsOk(cfg, layout)
      modifies this`chromosomes, this`minFitEver, this`maxFitEver
      ensures Valid() && |chromosomes| > 0 && !minFitEver.Unset? && !maxFitEver.Unset?
      ensures Engine(chromosomes, minFitEver, maxFitEver) == Bred(old(Engine(chromosomes, minFitEver, maxFitEver)), gen, cfg)
      ensures minFitEver == Lowered(old(minFitEver), Key()(SortBy(old(chromosomes), Key())[0]))
      ensures maxFitEver == Raised(old(maxFitEver), Key()(SortBy(old(chromosomes), Key())[old(|chromosomes|) - 1]))
      ensures survivors == Survivors(SortBy(old(chromosomes), Key()),
        Probabilities(SortBy(old(chromosomes), Key()), Key(), minFitEver.value, maxFitEver.value, absWeight, relWeight),
        SurvivalDraws(cfg.o, gen, old(|chromosomes|)))
      ensures |survivors| > 0 && Population(survivors, layout)
    {
      survivors := Compete(SurvivalDraws(cfg.o, gen, |chromosomes|));
      ghost var bred := Breed(gen, cfg, survivors);
    }

    /** `reproduce` of the survivors to the original population size, then `mutate`, with the draws of generation `gen`. */
    method Breed(gen: nat, cfg: Settings, survivors: seq<Chrom>) returns (ghost bred: seq<Chrom>)
      requires Valid() && |survivors| > 0 && Population(survivors, layout) && SettingsOk(cfg, layout)
      modifies this`chromosomes
      ensures Valid() && |chromosomes| > 0 && Records() == old(Records())
      ensures minFitEver == old(minFitEver) && maxFitEver == old(maxFitEver)
      ensures OffspringDrawsOk(OffspringDraws(cfg.o, gen, OffspringCount(None, origPopSize, |survivors|)))
      ensures bred == Reproduced(survivors, Key(), cfg.pCross, None, origPopSize,
                                 OffspringDraws(cfg.o, gen, OffspringCount(None, origPopSize, |survivors|)), layout)
      ensures Population(bred, layout) && MutationsFit(bred, MutationDraws(cfg.o.mutation, gen, bred), cfg.pMutate)
      ensures chromosomes == Mutated(bred, MutationDraws(cfg.o.mutation, gen, bred), cfg.pMutate)
    {
      var count := OffspringCount(None, origPopSize, |survivors|);
      var offspringDraws := OffspringDraws(cfg.o, gen, count);
      OracleOffspringOk(cfg.o, layout, cfg.pMutate, gen, count);
      var next := Reproduce(survivors, cfg.pCross, None, offspringDraws);
      ReproducedShape(survivors, Key(), cfg.pCross, None, origPopSize, offspringDraws, layout);
      PopulationDrawsFit(cfg.o.mutation, layout, cfg.pMutate, gen, next);
      bred := next;
      chromosomes := next;
      Mutate(cfg.pMutate, MutationDraws(cfg.o.mutation, gen, chromosomes));
    }

    /** The elitist step of `run`: sort, then the weakest chromosome takes the DNA of `best`. */
    method KeepElite(best: Chrom)
      requires Valid() && |chromosomes| > 0 && Fits(best, layout)
      modifies this`chromosomes
      ensures Valid() && |chromosomes| > 0 && Records() == old(Records())
      ensures minFitEver == old(minFitEver) && maxFitEver == old(maxFitEver)
      ensures chromosomes == Elitist(old(chromosomes), Key(), best, layout)
    {
      Sort();
      WithDnaFits(chromosomes[0], best, layout);
      chromosomes := chromosomes[0 := WithDna(chromosomes[0], Dna(best))];
      ElitistProperties(old(chromosomes), Key(), best, layout);
    }

    /** `run` records a generation: its fittest chromosome, that one's fitness, and the overall best fitness. */
    method Record(gen: nat, genFittest: Chrom, genFit: real, bestFit: real)
      modifies this`generationFittest, this`generationFittestFit, this`overallFittestFit
      ensures generationFittest == old(generationFittest)[gen := genFittest]
      ensures generationFittestFit == old(generationFittestFit)[gen := genFit]
      ensures overallFittestFit == old(overallFittestFit)[gen := bestFit]
    {
      generationFittest := generationFittest[gen := genFittest];
      generationFittestFit := generationFittestFit[gen := genFit];
      overallFittestFit := overallFittestFit[gen := bestFit];
    }

    /**
     * One pass of the generation loop of `run`, after the draws of generation `gen`: compete,
     * reproduce, mutate, then compare the generation's fittest chromosome with the overall
     * fittest `best`. The books move on by one `Next` step from `prev`: a new best replaces
     * `best`; otherwise, when `elitist`, the weakest chromosome takes the DNA of `best`.
     * A quit leaves the generation unrecorded; a refresh mutates everyone at 0.5.
     */
    method NextGeneration(gen: nat, cfg: Settings, best: Chrom, bestFit: real, sinceUpset: int, ghost prev: Step)
      returns (genFittest: Chrom, newBest: Chrom, newBestFit: real, newSinceUpset: int, quit: bool, ghost s: Step)
      requires Valid() && |chromosomes| > 0 && !minFitEver.Unset? && !maxFitEver.Unset?
      requires SettingsOk(cfg, layout)
      requires Fits(best, layout) && bestFit == fitness(Dna(best))
      requires prev.bestFit == bestFit && prev.sinceUpset == sinceUpset
      modifies this`chromosomes, this`minFitEver, this`maxFitEver, this`newFittestGenerations,
               this`generationFittest, this`generationFittestFit, this`overallFittestFit
      ensures Valid() && |chromosomes| > 0 && !minFitEver.Unset? && !maxFitEver.Unset?
      ensures s == Next(prev, fitness(Dna(genFittest)), cfg.refreshAfter, cfg.quitAfter)
      ensures Fits(newBest, layout) && newBestFit == fitness(Dna(newBest)) == s.bestFit
      ensures newBest == if s.upset then genFittest else best
      ensures newSinceUpset == s.sinceUpset && quit == s.quit
      ensures Records() == Booked(old(Records()), gen, genFittest, fitness(Dna(genFittest)), s)
      ensures genFittest == FittestOf(Bred(old(Engine(chromosomes, minFitEver, maxFitEver)), gen, cfg).pop)
      ensures Evolves(old(Engine(chromosomes, minFitEver, maxFitEver)), best, gen, cfg, prev, s,
                      Engine(chromosomes, minFitEver, maxFitEver), newBest)
    {
      ghost var e0 := Engine(chromosomes, minFitEver, maxFitEver);
      var survivors := Generation(gen, cfg);
      ghost var bred := Engine(chromosomes, minFitEver, maxFitEver);
      ghost var r0 := Records();
      genFittest, newBest, newBestFit, newSinceUpset, quit, s := Bookkeep(gen, cfg, best, bestFit, sinceUpset, prev);
      BookedParts(r0, Records(), gen, genFittest, fitness(Dna(genFittest)), s);
      EvolvesFrom(e0, bred, best, gen, cfg, prev, s, Engine(chromosomes, minFitEver, maxFitEver), newBest);
    }

    /**
     * The books of one generation of `run`, once it has bred: `Judge` compares its fittest
     * chromosome with `best`, then `Settle` quits, refreshes and records as one `Next` step
     * from `prev` says.
     */
    method Bookkeep(gen: nat, cfg: Settings, best: Chrom, bestFit: real, sinceUpset: int, ghost prev: Step)
      returns (genFittest: Chrom, newBest: Chrom, newBestFit: real, newSinceUpset: int, quit: bool, ghost s: Step)
      requires Valid() && |chromosomes| > 0 && DrawsFit(cfg.o.refresh, layout, 0.5)
      requires Fits(best, layout) && bestFit == fitness(Dna(best))
      requires prev.bestFit == bestFit && prev.sinceUpset == sinceUpset
      modifies this`chromosomes, this`newFittestGenerations,
               this`generationFittest, this`generationFittestFit, this`overallFittestFit
      ensures Valid() && |chromosomes| > 0
      ensures genFittest == old(GetFittest())
      ensures Engine(chromosomes, minFitEver, maxFitEver) == Kept(old(Engine(chromosomes, minFitEver, maxFitEver)), best, gen, cfg, s)
      ensures s == Next(prev, fitness(Dna(genFittest)), cfg.refreshAfter, cfg.quitAfter)
      ensures Fits(newBest, layout) && newBestFit == fitness(Dna(newBest)) == s.bestFit
      ensures newBest == if s.upset then genFittest else best
      ensures newSinceUpset == s.sinceUpset && quit == s.quit
      ensures newFittestGenerations == old(newFittestGenerations) + (if s.upset then [gen] else [])
      ensures quit ==>
        && generationFittest == old(generationFittest)
        && generationFittestFit == old(generationFittestFit)
        && overallFittestFit == old(overallFittestFit)
      ensures !quit ==>
        && generationFittest == old(generationFittest)[gen := genFittest]
        && generationFittestFit == old(generationFittestFit)[gen := fitness(Dna(genFittest))]
        && overallFittestFit == old(overallFittestFit)[gen := s.bestFit]
    {
      ghost var e0 := Engine(chromosomes, minFitEver, maxFitEver);
      genFittest, newBest, newBestFit, newSinceUpset, s := JudgeStep(gen, cfg, best, bestFit, sinceUpset, prev);
      ghost var judged := chromosomes;
      newSinceUpset, quit := Settle(gen, cfg.refreshAfter, cfg.quitAfter, cfg.o, genFittest, newBestFit, newSinceUpset);
      KeptFrom(e0, judged, Engine(chromosomes, minFitEver, maxFitEver), best, gen, cfg, s);
    }

    /** `Judge`, with its outcome told by the bookkeeping step `s` that follows `prev`. */
    method JudgeStep(gen: nat, cfg: Settings, best: Chrom, bestFit: real, sinceUpset: int, ghost prev: Step)
      returns (genFittest: Chrom, newBest: Chrom, newBestFit: real, newSinceUpset: int, ghost s: Step)
      requires Valid() && |chromosomes| > 0 && Fits(best, layout) && bestFit == fitness(Dna(best))
      requires prev.bestFit == bestFit && prev.sinceUpset == sinceUpset
      modifies this`chromosomes, this`newFittestGenerations
      ensures Valid() && |chromosomes| > 0
      ensures genFittest == old(GetFittest())
      ensures s == Next(prev, fitness(Dna(genFittest)), cfg.refreshAfter, cfg.quitAfter)
      ensures Fits(newBest, layout) && newBestFit == fitness(Dna(newBest)) == s.bestFit
      ensures newBest == if s.upset then genFittest else best
      ensures newSinceUpset == if s.upset then 0 else sinceUpset + 1
      ensures newFittestGenerations == old(newFittestGenerations) + (if s.upset then [gen] else [])
      ensures chromosomes == if s.upset || !cfg.elitist then old(chromosomes) else Elitist(old(chromosomes), Key(), best, layout)
    {
      genFittest, newBest, newBestFit, newSinceUpset := Judge(gen, cfg.elitist, best, bestFit, sinceUpset);
      s := Next(prev, fitness(Dna(genFittest)), cfg.refreshAfter, cfg.quitAfter);
    }

    /**
     * The comparison step of `run`: the generation's fittest chromosome (a copy) becomes the
     * overall fittest when it is fitter, which resets the stagnation counter and records the
     * generation in `new_fittest_generations`; otherwise the counter grows and, when
     * `elitist`, the weakest chromosome takes the DNA of the overall fittest.
     */
    method Judge(gen: nat, elitist: bool, best: Chrom, bestFit: real, sinceUpset: int)
      returns (genFittest: Chrom, newBest: Chrom, newBestFit: real, newSinceUpset: int)
      requires Valid() && |chromosomes| > 0 && Fits(best, layout) && bestFit == fitness(Dna(best))
      modifies this`chromosomes, this`newFittestGenerations
      ensures Valid() && |chromosomes| > 0
      ensures genFittest == old(GetFittest()) && Fits(newBest, layout) && newBestFit == fitness(Dna(newBest))
      ensures fitness(Dna(genFittest)) > bestFit ==>
        && newBest == genFittest && newSinceUpset == 0
        && newFittestGenerations == old(newFittestGenerations) + [gen]
        && chromosomes == old(chromosomes)
      ensures fitness(Dna(genFittest)) <= bestFit ==>
        && newBest == best && newSinceUpset == sinceUpset + 1
        && newFittestGenerations == old(newFittestGenerations)
        && chromosomes == if elitist then Elitist(old(chromosomes), Key(), best, layout) else old(chromosomes)
    {
      genFittest := GetFittest();
      var genFit := fitness(Dna(genFittest));
      if genFit > bestFit {
        newBest, newBestFit := genFittest, genFit;
        newFittestGenerations := newFittestGenerations + [gen];
        newSinceUpset := 0;
      } else {
        newBest, newBestFit := best, bestFit;
        newSinceUpset := sinceUpset + 1;
        if elitist {
          KeepElite(best);
        }
      }
    }

    /**
     * The stagnation step of `run`: reaching `quit_after` quits before the generation is
     * recorded; otherwise reaching `refresh_after` mutates everyone at 0.5 and resets the
     * counter, and the generation is recorded.
     */
    method Settle(gen: nat, refreshAfter: Option<int>, quitAfter: Option<int>, o: Oracle,
                  genFittest: Chrom, bestFit: real, sinceUpset: int)
      returns (newSinceUpset: int, quit: bool)
      requires Valid() && DrawsFit(o.refresh, layout, 0.5)
      modifies this`chromosomes, this`generationFittest, this`generationFittestFit, this`overallFittestFit
      ensures Valid() && |chromosomes| == old(|chromosomes|)
      ensures MutationsFit(old(chromosomes), MutationDraws(o.refresh, gen, old(chromosomes)), 0.5)
      ensures chromosomes ==
        if !quit && Enabled(refreshAfter) && sinceUpset >= refreshAfter.value
        then Mutated(old(chromosomes), MutationDraws(o.refresh, gen, old(chromosomes)), 0.5)
        else old(chromosomes)
      ensures quit == (Enabled(quitAfter) && sinceUpset >= quitAfter.value)
      ensures newSinceUpset == if !quit && Enabled(refreshAfter) && sinceUpset >= refreshAfter.value then 0 else sinceUpset
      ensures quit ==>
        && generationFittest == old(generationFittest)
        && generationFittestFit == old(generationFittestFit)
        && overallFittestFit == old(overallFittestFit)
      ensures !quit ==>
        && generationFittest == old(generationFittest)[gen := genFittest]
        && generationFittestFit == old(generationFittestFit)[gen := fitness(Dna(genFittest))]
        && overallFittestFit == old(overallFittestFit)[gen := bestFit]
    {
      PopulationDrawsFit(o.refresh, layout, 0.5, gen, chromosomes);
      newSinceUpset := sinceUpset;
      quit := Enabled(quitAfter) && sinceUpset >= quitAfter.value;
      if !quit {
        if Enabled(refreshAfter) && sinceUpset >= refreshAfter.value {
          Refresh(MutationDraws(o.refresh, gen, chromosomes));
          newSinceUpset := 0;
        }
        Record(gen, genFittest, fitness(Dna(genFittest)), bestFit);
      }
    }

    /**
     * The state of `run` after the generations whose fittest fitnesses are `fits`: the
     * overall fittest, its fitness and the stagnation counter are those of the trace, and
     * the records hold the recorded generations.
     */
    ghost predicate Progress(startFit: real, fits: seq<real>, refreshAfter: Option<int>, quitAfter: Option<int>,
                             best: Chrom, bestFit: real, sinceUpset: int)
      reads this
    {
      && Valid() && |chromosomes| > 0 && !minFitEver.Unset? && !maxFitEver.Unset?
      && Fits(best, layout) && bestFit == fitness(Dna(best))
      && bestFit == Prior(startFit, Trace(startFit, fits, refreshAfter, quitAfter), |fits|).bestFit
      && sinceUpset == Prior(startFit, Trace(startFit, fits, refreshAfter, quitAfter), |fits|).sinceUpset
      && RecordsAgree(generationFittest, generationFittestFit, overallFittestFit, fitness,
                      Recorded(Trace(startFit, fits, refreshAfter, quitAfter)), fits, Trace(startFit, fits, refreshAfter, quitAfter))
      && newFittestGenerations == UpsetGenerations(Trace(startFit, fits, refreshAfter, quitAfter))
    }

    /** The last of the engine states `pops` and of the overall fittest chromosomes `bests` are the engine's and `best`. */
    ghost predicate Reached(pops: seq<Engine>, bests: seq<Chrom>, best: Chrom)
      reads this`chromosomes, this`minFitEver, this`maxFitEver
    {
      |pops| > 0 && |bests| == |pops| && pops[|pops| - 1] == Engine(chromosomes, minFitEver, maxFitEver) && bests[|bests| - 1] == best
    }

    /** One pass of the loop of `run`: a generation, traced by one more step. */
    method Pass(gen: nat, cfg: Settings, best: Chrom, bestFit: real, sinceUpset: int,
                ghost startFit: real, ghost fits: seq<real>, shouldTerminate: Chrom -> bool)
      returns (newBest: Chrom, newBestFit: real, newSinceUpset: int, done: bool, ghost newFits: seq<real>, ghost s: Step)
      requires gen == |fits| + 1
      requires SettingsOk(cfg, layout)
      requires Progress(startFit, fits, cfg.refreshAfter, cfg.quitAfter, best, bestFit, sinceUpset)
      requires QuitFree(Trace(startFit, fits, cfg.refreshAfter, cfg.quitAfter), |fits|)
      modifies this`chromosomes, this`minFitEver, this`maxFitEver, this`newFittestGenerations,
               this`generationFittest, this`generationFittestFit, this`overallFittestFit
      ensures |newFits| == gen && newFits[..|fits|] == fits
      ensures Trace(startFit, newFits, cfg.refreshAfter, cfg.quitAfter) == Trace(startFit, fits, cfg.refreshAfter, cfg.quitAfter) + [s]
      ensures Progress(startFit, newFits, cfg.refreshAfter, cfg.quitAfter, newBest, newBestFit, newSinceUpset)
      ensures RunState(Trace(startFit, newFits, cfg.refreshAfter, cfg.quitAfter), done, shouldTerminate(newBest))
      ensures Startable(old(Engine(chromosomes, minFitEver, maxFitEver)))
      ensures Evolves(old(Engine(chromosomes, minFitEver, maxFitEver)), best, gen, cfg,
                      Prior(startFit, Trace(startFit, fits, cfg.refreshAfter, cfg.quitAfter), |fits|),
                      s, Engine(chromosomes, minFitEver, maxFitEver), newBest)
    {
      ghost var trace := Trace(startFit, fits, cfg.refreshAfter, cfg.quitAfter);
      ghost var prev := Prior(startFit, trace, |fits|);
      ghost var gf0, gff0, off0 := generationFittest, generationFittestFit, overallFittestFit;
      var genFittest;
      var quit;
      genFittest, newBest, newBestFit, newSinceUpset, quit, s := NextGeneration(gen, cfg, best, bestFit, sinceUpset, prev);
      TraceExtend(startFit, fits, fitness(Dna(genFittest)), cfg.refreshAfter, cfg.quitAfter);
      if quit {
        RecordsKeep(generationFittest, generationFittestFit, overallFittestFit, fitness, fits, trace, fitness(Dna(genFittest)), s);
      } else {
        RecordsExtend(gf0, gff0, off0, fitness, fits, trace, genFittest, s);
      }
      newFits := fits + [fitness(Dna(genFittest))];
      assert newFits[..|fits|] == fits;
      done := quit || shouldTerminate(newBest);
      RunStateStep(trace, s, shouldTerminate(newBest));
    }

    /** `Pass`, with the engine states and overall fittest chromosomes evolved by one more generation. */
    method Advance(gen: nat, cfg: Settings, best: Chrom, bestFit: real, sinceUpset: int,
                   ghost startFit: real, ghost fits: seq<real>, ghost pops: seq<Engine>, ghost bests: seq<Chrom>,
                   shouldTerminate: Chrom -> bool)
      returns (newBest: Chrom, newBestFit: real, newSinceUpset: int, done: bool,
               ghost newFits: seq<real>, ghost newPops: seq<Engine>, ghost newBests: seq<Chrom>)
      requires gen == |fits| + 1
      requires SettingsOk(cfg, layout)
      requires Progress(startFit, fits, cfg.refreshAfter, cfg.quitAfter, best, bestFit, sinceUpset)
      requires QuitFree(Trace(startFit, fits, cfg.refreshAfter, cfg.quitAfter), |fits|)
      requires Evolution(pops, bests, startFit, Trace(startFit, fits, cfg.refreshAfter, cfg.quitAfter), cfg)
      requires Reached(pops, bests, best)
      modifies this`chromosomes, this`minFitEver, this`maxFitEver, this`newFittestGenerations,
               this`generationFittest, this`generationFittestFit, this`overallFittestFit
      ensures |newFits| == gen && newFits[..|fits|] == fits
      ensures Progress(startFit, newFits, cfg.refreshAfter, cfg.quitAfter, newBest, newBestFit, newSinceUpset)
      ensures RunState(Trace(startFit, newFits, cfg.refreshAfter, cfg.quitAfter), done, shouldTerminate(newBest))
      ensures Evolution(newPops, newBests, startFit, Trace(startFit, newFits, cfg.refreshAfter, cfg.quitAfter), cfg)
      ensures Reached(newPops, newBests, newBest) && newPops[..|pops|] == pops && newBests[..|bests|] == bests
      ensures newPops[0] == pops[0] && newBests[0] == bests[0]
    {
      ghost var trace := Trace(startFit, fits, cfg.refreshAfter, cfg.quitAfter);
      ghost var e0 := Engine(chromosomes, minFitEver, maxFitEver);
      ghost var s;
      newBest, newBestFit, newSinceUpset, done, newFits, s := Pass(gen, cfg, best, bestFit, sinceUpset, startFit, fits, shouldTerminate);
      ghost var e1 := Engine(chromosomes, minFitEver, maxFitEver);
      EvolutionExtend(pops, bests, startFit, trace, cfg, gen, e0, best, Prior(startFit, trace, |fits|), s, e1, newBest);
      newPops, newBests := pops + [e1], bests + [newBest];
      assert newPops[..|pops|] == pops && newBests[..|bests|] == bests;
    }

    /**
     * `run`: each generation competes, reproduces to the original size, mutates, and then
     * keeps its books (see `NextGeneration`). The records follow `Trace` of the generations'
     * fittest fitnesses: the generations recorded are 1, 2, ... up to the last one that did
     * not quit; each records its fittest chromosome, that one's fitness and the best fitness
     * so far; `new_fittest_generations` lists the generations that set a new best. The run
     * ends after `generations` generations, or earlier on a quit or when `should_terminate`
     * holds of the overall fittest, which it returns; its fitness is the last best fitness.
     * The population and extremes go through the states `pops`, from the initial population
     * with infinite extremes, each generation evolving from the one before (`Evolution`).
     */
    method Run(generations: nat, pMutate: real, pCross: real, elitist: bool,
               refreshAfter: Option<int>, quitAfter: Option<int>, o: Oracle, shouldTerminate: Chrom -> bool)
      returns (best: Chrom, ghost startFit: real, ghost fits: seq<real>, ghost pops: seq<Engine>, ghost bests: seq<Chrom>)
      requires Valid() && |chromosomes| > 0
      requires 0.0 <= pMutate <= 1.0 && 0.0 <= pCross <= 1.0
      requires OracleOk(o, layout, pMutate)
      modifies this
      ensures Valid() && |chromosomes| > 0
      ensures startFit == fitness(Dna(old(GetFittest())))
      ensures |fits| <= generations
      ensures Fits(best, layout)
      ensures fitness(Dna(best)) == Prior(startFit, Trace(startFit, fits, refreshAfter, quitAfter), |fits|).bestFit
      ensures forall i :: 0 <= i < |fits| - 1 ==> !Trace(startFit, fits, refreshAfter, quitAfter)[i].quit
      ensures |fits| < generations ==>
        |fits| > 0 && (Trace(startFit, fits, refreshAfter, quitAfter)[|fits| - 1].quit || shouldTerminate(best))
      ensures RecordsAgree(generationFittest, generationFittestFit, overallFittestFit, fitness,
                           Recorded(Trace(startFit, fits, refreshAfter, quitAfter)), fits, Trace(startFit, fits, refreshAfter, quitAfter))
      ensures newFittestGenerations == UpsetGenerations(Trace(startFit, fits, refreshAfter, quitAfter))
      ensures Evolution(pops, bests, startFit, Trace(startFit, fits, refreshAfter, quitAfter),
                        Settings(pMutate, pCross, elitist, refreshAfter, quitAfter, o))
      ensures pops[0] == Engine(old(chromosomes), Infinite, Infinite) && bests[0] == old(GetFittest())
      ensures Reached(pops, bests, best)
    {
      var cfg := Settings(pMutate, pCross, elitist, refreshAfter, quitAfter, o);
      var bestFit, sinceUpset, done;
      best, bestFit := StartRun(refreshAfter, quitAfter);
      startFit := bestFit;
      best, bestFit, sinceUpset, done, fits, pops, bests := Generations(generations, cfg, best, bestFit, shouldTerminate);
    }

    /** The loop of `run`, from the start of the run on: `generations` passes at most, until one is done. */
    method Generations(generations: nat, cfg: Settings, best0: Chrom, startFit: real, shouldTerminate: Chrom -> bool)
      returns (best: Chrom, bestFit: real, sinceUpset: int, done: bool,
               ghost fits: seq<real>, ghost pops: seq<Engine>, ghost bests: seq<Chrom>)
      requires SettingsOk(cfg, layout)
      requires Progress(startFit, [], cfg.refreshAfter, cfg.quitAfter, best0, startFit, 0)
      modifies this`chromosomes, this`minFitEver, this`maxFitEver, this`newFittestGenerations,
               this`generationFittest, this`generationFittestFit, this`overallFittestFit
      ensures |fits| <= generations && (!done ==> |fits| == generations)
      ensures Progress(startFit, fits, cfg.refreshAfter, cfg.quitAfter, best, bestFit, sinceUpset)
      ensures RunState(Trace(startFit, fits, cfg.refreshAfter, cfg.quitAfter), done, shouldTerminate(best))
      ensures Evolution(pops, bests, startFit, Trace(startFit, fits, cfg.refreshAfter, cfg.quitAfter), cfg)
      ensures Reached(pops, bests, best)
      ensures pops[0] == old(Engine(chromosomes, minFitEver, maxFitEver)) && bests[0] == best0
    {
      best, bestFit, sinceUpset, done := best0, startFit, 0, false;
      fits := [];
      pops, bests := [Engine(chromosomes, minFitEver, maxFitEver)], [best];
      var gen: nat := 1;
      while gen <= generations && !done
        invariant 1 <= gen <= generations + 1 && |fits| == gen - 1
        invariant Progress(startFit, fits, cfg.refreshAfter, cfg.quitAfter, best, bestFit, sinceUpset)
        invariant RunState(Trace(startFit, fits, cfg.refreshAfter, cfg.quitAfter), done, shouldTerminate(best))
        invariant Evolution(pops, bests, startFit, Trace(startFit, fits, cfg.refreshAfter, cfg.quitAfter), cfg)
        invariant Reached(pops, bests, best)
        invariant pops[0] == old(Engine(chromosomes, minFitEver, maxFitEver)) && bests[0] == best0
        decreases generations + 1 - gen
      {
        best, bestFit, sinceUpset, done, fits, pops, bests :=
          Advance(gen, cfg, best, bestFit, sinceUpset, startFit, fits, pops, bests, shouldTerminate);
        gen := gen + 1;
      }
    }

    /** The start of `run`: the records are cleared, and the overall fittest is the population's fittest. */
    method StartRun(ghost refreshAfter: Option<int>, ghost quitAfter: Option<int>) returns (best: Chrom, bestFit: real)
      requires Valid() && |chromosomes| > 0
      modifies this`minFitEver, this`maxFitEver, this`generationFittest, this`generationFittestFit,
               this`overallFittestFit, this`newFittestGenerations
      ensures best == GetFittest() && bestFit == fitness(Dna(best))
      ensures minFitEver == Infinite && maxFitEver == Infinite
      ensures Progress(bestFit, [], refreshAfter, quitAfter, best, bestFit, 0)
    {
      best := GetFittest();
      minFitEver := Infinite;
      maxFitEver := Infinite;
      generationFittest := map[];
      generationFittestFit := map[];
      overallFittestFit := map[];
      newFittestGenerations := [];
      bestFit := fitness(Dna(best));
    }
  }
}
