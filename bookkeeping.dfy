/**
 * The bookkeeping of `BaseGeneticAlgorithm.run` (ga/algorithms.py): after each
 * generation the fitness of the generation's fittest chromosome is compared with the
 * best so far, the stagnation counter `gens_since_upset` is reset or increased, and the
 * `quit_after` / `refresh_after` thresholds are checked. `Trace` runs these steps over
 * the generations' fittest fitnesses; the engine's `run` is proved to follow it.
 */
module Bookkeeping {
  import opened Wrappers

  /**
   * What one generation leaves behind: its fittest fitness, the best fitness so far,
   * whether it set a new best, the stagnation counter, and whether it quit or refreshed.
   */
  datatype Step = Step(genFit: real, bestFit: real, upset: bool, sinceUpset: int, quit: bool, refreshed: bool)

  /** The bookkeeping before the first generation: the initial fittest fitness and a zero counter. */
  function Start(fit: real): Step {
    Step(fit, fit, false, 0, false, false)
  }

  /** One generation of the bookkeeping, given the fitness of the generation's fittest chromosome. */
  function Next(prev: Step, genFit: real, refreshAfter: Option<int>, quitAfter: Option<int>): (s: Step)
    ensures s.genFit == genFit
    ensures s.upset <==> prev.bestFit < genFit
    ensures prev.bestFit <= s.bestFit && genFit <= s.bestFit
    ensures s.bestFit == prev.bestFit || s.bestFit == genFit
    ensures s.quit ==> !s.refreshed
  {
    var upset := genFit > prev.bestFit;
    var best := if upset then genFit else prev.bestFit;
    var since := if upset then 0 else prev.sinceUpset + 1;
    var quit := Enabled(quitAfter) && since >= quitAfter.value;
    var refreshed := !quit && Enabled(refreshAfter) && since >= refreshAfter.value;
    Step(genFit, best, upset, if refreshed then 0 else since, quit, refreshed)
  }

  /** The steps of the generations whose fittest fitnesses are `fits`, in order. */
  function Trace(startFit: real, fits: seq<real>, refreshAfter: Option<int>, quitAfter: Option<int>): (t: seq<Step>)
    ensures |t| == |fits|
    decreases |fits|
  {
    if |fits| == 0 then []
    else
      var t0 := Trace(startFit, fits[..|fits| - 1], refreshAfter, quitAfter);
      t0 + [Next(Prior(startFit, t0, |t0|), fits[|fits| - 1], refreshAfter, quitAfter)]
  }

  /** The bookkeeping before generation `i` (0-based) of a trace. */
  function Prior(startFit: real, t: seq<Step>, i: nat): Step
    requires i <= |t|
  {
    if i == 0 then Start(startFit) else t[i - 1]
  }

  /** The generations (1-based) that set a new best: `new_fittest_generations`. */
  function UpsetGenerations(t: seq<Step>): (gens: seq<nat>)
    decreases |t|
  {
    if |t| == 0 then []
    else UpsetGenerations(t[..|t| - 1]) + (if t[|t| - 1].upset then [|t|] else [])
  }

  /** The number of generations a run records: all of them, except a last one that quit. */
  function Recorded(t: seq<Step>): (n: nat)
    ensures n <= |t|
    ensures n < |t| <==> |t| > 0 && t[|t| - 1].quit
  {
    if |t| > 0 && t[|t| - 1].quit then |t| - 1 else |t|
  }

  /** Each step of a trace is `Next` of the step before it. */
  lemma {:induction false} TraceAt(startFit: real, fits: seq<real>, refreshAfter: Option<int>, quitAfter: Option<int>, i: nat)
    requires i < |fits|
    ensures Trace(startFit, fits, refreshAfter, quitAfter)[i]
         == Next(Prior(startFit, Trace(startFit, fits, refreshAfter, quitAfter), i), fits[i], refreshAfter, quitAfter)
    decreases |fits|
  {
    var n := |fits| - 1;
    if i < n {
      TraceAt(startFit, fits[..n], refreshAfter, quitAfter, i);
      var t0 := Trace(startFit, fits[..n], refreshAfter, quitAfter);
      assert Prior(startFit, t0, i) == Prior(startFit, Trace(startFit, fits, refreshAfter, quitAfter), i);
    }
  }

  /** A trace of one more generation extends the trace by one step. */
  lemma TraceExtend(startFit: real, fits: seq<real>, x: real, refreshAfter: Option<int>, quitAfter: Option<int>)
    ensures Trace(startFit, fits + [x], refreshAfter, quitAfter)
         == Trace(startFit, fits, refreshAfter, quitAfter)
          + [Next(Prior(startFit, Trace(startFit, fits, refreshAfter, quitAfter), |fits|), x, refreshAfter, quitAfter)]
  {
    assert (fits + [x])[..|fits|] == fits;
  }

  /**
   * The best fitness so far (`overall_fittest_fit`) after generation `j` is at least the
   * initial fittest fitness, every earlier best and every fittest fitness up to `j`, and is
   * one of those fitnesses.
   */
  lemma {:induction false} BestAt(startFit: real, fits: seq<real>, refreshAfter: Option<int>, quitAfter: Option<int>, j: nat)
    requires j < |fits|
    ensures startFit <= Trace(startFit, fits, refreshAfter, quitAfter)[j].bestFit
    ensures forall i :: 0 <= i <= j ==>
      Trace(startFit, fits, refreshAfter, quitAfter)[i].bestFit <= Trace(startFit, fits, refreshAfter, quitAfter)[j].bestFit &&
      fits[i] <= Trace(startFit, fits, refreshAfter, quitAfter)[j].bestFit
    ensures Trace(startFit, fits, refreshAfter, quitAfter)[j].bestFit == startFit ||
      exists i :: 0 <= i <= j && Trace(startFit, fits, refreshAfter, quitAfter)[j].bestFit == fits[i]
    decreases j
  {
    TraceAt(startFit, fits, refreshAfter, quitAfter, j);
    if j > 0 {
      BestAt(startFit, fits, refreshAfter, quitAfter, j - 1);
    }
  }

  /** A generation sets a new best exactly when its fittest fitness beats the initial one and every earlier generation's. */
  lemma UpsetIsRecord(startFit: real, fits: seq<real>, refreshAfter: Option<int>, quitAfter: Option<int>, i: nat)
    requires i < |fits|
    ensures Trace(startFit, fits, refreshAfter, quitAfter)[i].upset <==>
      startFit < fits[i] && forall j :: 0 <= j < i ==> fits[j] < fits[i]
  {
    var t := Trace(startFit, fits, refreshAfter, quitAfter);
    TraceAt(startFit, fits, refreshAfter, quitAfter, i);
    if i > 0 {
      BestAt(startFit, fits, refreshAfter, quitAfter, i - 1);
      var b := t[i - 1].bestFit;
      if b != startFit {
        var k :| 0 <= k <= i - 1 && b == fits[k];
      }
    }
  }

  /** `new_fittest_generations` is strictly increasing and holds exactly the generations that set a new best. */
  lemma {:induction false} UpsetGenerationsIncrease(t: seq<Step>)
    ensures forall k, m :: 0 <= k < m < |UpsetGenerations(t)| ==> UpsetGenerations(t)[k] < UpsetGenerations(t)[m]
    ensures forall g :: g in UpsetGenerations(t) <==> 1 <= g <= |t| && t[g - 1].upset
    decreases |t|
  {
    if |t| > 0 {
      var n := |t| - 1;
      var g0 := UpsetGenerations(t[..n]);
      UpsetGenerationsIncrease(t[..n]);
      forall k | 0 <= k < n ensures t[..n][k] == t[k] {
      }
      forall k | 0 <= k < |g0| ensures 1 <= g0[k] <= n {
        assert g0[k] in g0;
      }
    }
  }

  /** A new best resets the stagnation counter; otherwise it counts up by one unless a refresh resets it. */
  lemma CounterSteps(prev: Step, genFit: real, refreshAfter: Option<int>, quitAfter: Option<int>)
    ensures Next(prev, genFit, refreshAfter, quitAfter).upset || Next(prev, genFit, refreshAfter, quitAfter).refreshed
      ==> Next(prev, genFit, refreshAfter, quitAfter).sinceUpset == 0
    ensures !Next(prev, genFit, refreshAfter, quitAfter).upset && !Next(prev, genFit, refreshAfter, quitAfter).refreshed
      ==> Next(prev, genFit, refreshAfter, quitAfter).sinceUpset == prev.sinceUpset + 1
  {
  }

  /**
   * Without `refresh_after` the counter is the number of generations since the last new
   * best: none of the last `sinceUpset` generations set one, and the generation before them
   * did (or it is the start of the run).
   */
  lemma {:induction false} CounterCountsStagnation(startFit: real, fits: seq<real>, quitAfter: Option<int>, i: nat)
    requires i < |fits|
    ensures 0 <= Trace(startFit, fits, None, quitAfter)[i].sinceUpset <= i + 1
    ensures forall j :: i - Trace(startFit, fits, None, quitAfter)[i].sinceUpset < j <= i ==>
      !Trace(startFit, fits, None, quitAfter)[j].upset
    ensures Trace(startFit, fits, None, quitAfter)[i].sinceUpset <= i ==>
      Trace(startFit, fits, None, quitAfter)[i - Trace(startFit, fits, None, quitAfter)[i].sinceUpset].upset
    decreases i
  {
    var t := Trace(startFit, fits, None, quitAfter);
    TraceAt(startFit, fits, None, quitAfter, i);
    if i > 0 && !t[i].upset {
      CounterCountsStagnation(startFit, fits, quitAfter, i - 1);
    }
  }

  /**
   * With `refresh_after` set to r > 0, the counter after a generation that did not quit
   * stays below r, as long as no earlier generation quit (the run stops at the first quit).
   */
  lemma {:induction false} RefreshBoundsCounter(startFit: real, fits: seq<real>, r: int, quitAfter: Option<int>, i: nat)
    requires r > 0 && i < |fits|
    requires forall j :: 0 <= j <= i ==> !Trace(startFit, fits, Some(r), quitAfter)[j].quit
    ensures 0 <= Trace(startFit, fits, Some(r), quitAfter)[i].sinceUpset < r
    decreases i
  {
    TraceAt(startFit, fits, Some(r), quitAfter, i);
    if i > 0 {
      RefreshBoundsCounter(startFit, fits, r, quitAfter, i - 1);
    }
  }

  /**
   * With `quit_after` set to q > 0 a generation quits only when it set no new best and the
   * counter reached q; without `refresh_after`, that means the last q generations set none.
   */
  lemma QuitOnStagnation(startFit: real, fits: seq<real>, q: int, refreshAfter: Option<int>, i: nat)
    requires q > 0 && i < |fits|
    ensures Trace(startFit, fits, refreshAfter, Some(q))[i].quit <==>
      !Trace(startFit, fits, refreshAfter, Some(q))[i].upset &&
      Prior(startFit, Trace(startFit, fits, refreshAfter, Some(q)), i).sinceUpset + 1 >= q
    ensures Trace(startFit, fits, None, Some(q))[i].quit ==>
      q <= i + 1 && forall j :: i - q < j <= i ==> !Trace(startFit, fits, None, Some(q))[j].upset
  {
    TraceAt(startFit, fits, refreshAfter, Some(q), i);
    TraceAt(startFit, fits, None, Some(q), i);
    CounterCountsStagnation(startFit, fits, Some(q), i);
  }
}
