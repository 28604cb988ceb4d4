/**
 * Chromosomes: ordered genes whose DNA strings join into one DNA string
 * (ga/chromosomes.py). The first half of the module defines chromosome values
 * and the operations on them; the `Chromosome` class at the end keeps gene
 * objects and is proved to act on its value as those operations say.
 */
module Chromosomes {
  import opened Wrappers
  import opened Genes

  /** `Chromosome` or `ReorderingSetChromosome` with its list of allowed gene DNAs. */
  datatype Variant = Plain | ReorderingSet(choices: seq<string>)

  /** The value of a chromosome object: the values of its genes, in order, and its class. */
  datatype Chrom = Chrom(genes: seq<GeneValue>, variant: Variant)

  // ---------------------------------------------------------------------------
  // The `dna` property

  /** `''.join(g.dna for g in genes)` */
  function Joined(gs: seq<GeneValue>): string
    decreases |gs|
  {
    if |gs| == 0 then "" else Joined(gs[..|gs| - 1]) + gs[|gs| - 1].dna
  }

  function Dna(c: Chrom): string {
    Joined(c.genes)
  }

  /** The `length` property. */
  function Length(c: Chrom): nat {
    |Dna(c)|
  }

  /** Joining distributes over concatenation of gene lists. */
  lemma {:induction false} JoinedAppend(a: seq<GeneValue>, b: seq<GeneValue>)
    ensures Joined(a + b) == Joined(a) + Joined(b)
    decreases |b|
  {
    if |b| == 0 {
      assert a + b == a;
    } else {
      var n := |b| - 1;
      assert (a + b)[..|a + b| - 1] == a + b[..n];
      JoinedAppend(a, b[..n]);
    }
  }

  /** Joining a prefix one gene longer appends that gene's DNA. */
  lemma JoinedStep(gs: seq<GeneValue>, k: nat)
    requires k < |gs|
    ensures Joined(gs[..k + 1]) == Joined(gs[..k]) + gs[k].dna
  {
    assert gs[..k + 1][..k] == gs[..k];
  }

  /** The joined DNA is the DNA of the genes before `k`, then gene `k`, then the genes after it. */
  lemma JoinedSplit(gs: seq<GeneValue>, k: nat)
    requires k < |gs|
    ensures Joined(gs) == Joined(gs[..k]) + gs[k].dna + Joined(gs[k + 1..])
    ensures Joined(gs[..k + 1]) == Joined(gs[..k]) + gs[k].dna
  {
    JoinedStep(gs, k);
    Rejoined(gs, k + 1);
    JoinedAppend(gs[..k + 1], gs[k + 1..]);
  }

  /** A gene list is its first `k` genes followed by the rest. */
  lemma Rejoined(gs: seq<GeneValue>, k: nat)
    requires k <= |gs|
    ensures gs[..k] + gs[k..] == gs
  { }

  /** Where gene `k` starts in the joined DNA: the total length of the genes before it. */
  function Offset(gs: seq<GeneValue>, k: nat): nat
    requires k <= |gs|
  {
    |Joined(gs[..k])|
  }

  /** Gene lists of the same shape: position by position the same class and DNA length. */
  predicate SameShape(gs: seq<GeneValue>, hs: seq<GeneValue>) {
    |gs| == |hs| && forall i :: 0 <= i < |gs| ==> gs[i].kind == hs[i].kind && |gs[i].dna| == |hs[i].dna|
  }

  lemma {:induction false} SameShapeLength(gs: seq<GeneValue>, hs: seq<GeneValue>)
    requires SameShape(gs, hs)
    ensures |Joined(gs)| == |Joined(hs)|
    decreases |gs|
  {
    if |gs| > 0 {
      var n := |gs| - 1;
      SameShapeLength(gs[..n], hs[..n]);
    }
  }

  /** Genes of one shape start at the same offsets. */
  lemma OffsetSameShape(gs: seq<GeneValue>, hs: seq<GeneValue>, k: nat)
    requires SameShape(gs, hs) && k <= |gs|
    ensures Offset(gs, k) == Offset(hs, k)
  {
    assert SameShape(gs[..k], hs[..k]);
    SameShapeLength(gs[..k], hs[..k]);
  }

  /** Character `t` of gene `k` sits at the gene's offset plus `t` in the joined DNA. */
  lemma JoinedAt(gs: seq<GeneValue>, k: nat, t: nat)
    requires k < |gs| && t < |gs[k].dna|
    ensures Offset(gs, k) + t < |Joined(gs)|
    ensures Joined(gs)[Offset(gs, k) + t] == gs[k].dna[t]
  {
    JoinedSplit(gs, k);
  }

  // ---------------------------------------------------------------------------
  // The `dna` setter

  /** The genes after the setter assigns consecutive slices of `dna` to them. */
  function SetGenes(gs: seq<GeneValue>, dna: string): (r: seq<GeneValue>)
    requires |dna| == |Joined(gs)|
    ensures SameShape(r, gs) && Joined(r) == dna
    ensures forall i :: 0 <= i < |gs| ==> r[i] == gs[i].(dna := r[i].dna)
    decreases |gs|
  {
    if |gs| == 0 then []
    else
      var n := |gs| - 1;
      var cut := |dna| - |gs[n].dna|;
      var front := SetGenes(gs[..n], dna[..cut]);
      var last := gs[n].(dna := dna[cut..]);
      SetGenesSnoc(gs, dna, n, cut, front, last);
      front + [last]
  }

  /** The recursive step of `SetGenes`: the front genes set to the front of `dna`, then the last gene set to the rest. */
  lemma SetGenesSnoc(gs: seq<GeneValue>, dna: string, n: nat, cut: nat, front: seq<GeneValue>, last: GeneValue)
    requires n == |gs| - 1 && cut + |gs[n].dna| == |dna|
    requires SameShape(front, gs[..n]) && Joined(front) == dna[..cut]
    requires forall i :: 0 <= i < |gs[..n]| ==> front[i] == gs[..n][i].(dna := front[i].dna)
    requires last == gs[n].(dna := dna[cut..])
    ensures SameShape(front + [last], gs) && Joined(front + [last]) == dna
    ensures forall i :: 0 <= i < |gs| ==> (front + [last])[i] == gs[i].(dna := (front + [last])[i].dna)
  {
    var r := front + [last];
    assert dna == dna[..cut] + dna[cut..];
    assert r[..n] == front;
    assert forall i :: 0 <= i < n ==> r[i] == front[i] && gs[..n][i] == gs[i];
  }

  /** The setter gives gene `k` the slice of `dna` at that gene's offset (the source's loop). */
  lemma SetGenesAt(gs: seq<GeneValue>, dna: string, k: nat)
    requires |dna| == |Joined(gs)| && k < |gs|
    ensures Offset(gs, k) + |gs[k].dna| <= |dna|
    ensures SetGenes(gs, dna)[k].dna == dna[Offset(gs, k)..Offset(gs, k) + |gs[k].dna|]
    ensures forall t :: 0 <= t < |gs[k].dna| ==> SetGenes(gs, dna)[k].dna[t] == dna[Offset(gs, k) + t]
  {
    var r := SetGenes(gs, dna);
    JoinedSplit(r, k);
    SameShapeLength(r[..k], gs[..k]);
  }

  /** One step of the setter's loop: gene `k` takes the slice between its offset and the next. */
  lemma SetGenesStep(gs: seq<GeneValue>, dna: string, k: nat)
    requires |dna| == |Joined(gs)| && k < |gs|
    ensures Offset(gs, k) + |gs[k].dna| == Offset(gs, k + 1) <= |dna|
    ensures SetGenes(gs, dna)[k] == gs[k].(dna := dna[Offset(gs, k)..Offset(gs, k + 1)])
  {
    var r := SetGenes(gs, dna);
    SetGenesAt(gs, dna, k);
    JoinedStep(gs, k);
    var lo, hi := Offset(gs, k), Offset(gs, k + 1);
    assert lo + |gs[k].dna| == hi;
    assert r[k].dna == dna[lo..hi];
    assert r[k] == gs[k].(dna := r[k].dna);
  }

  /** The setter with the DNA the genes already have changes nothing. */
  lemma {:induction false} SetGenesSame(gs: seq<GeneValue>)
    ensures SetGenes(gs, Joined(gs)) == gs
    decreases |gs|
  {
    if |gs| > 0 {
      var n := |gs| - 1;
      var whole := Joined(gs);
      var cut := |whole| - |gs[n].dna|;
      assert whole == Joined(gs[..n]) + gs[n].dna;
      assert whole[..cut] == Joined(gs[..n]) && whole[cut..] == gs[n].dna;
      SetGenesSame(gs[..n]);
      assert gs == gs[..n] + [gs[n]];
    }
  }

  /** Setting the DNA of genes shaped like `hs` to the DNA of `hs` gives each gene the DNA of its partner. */
  lemma SetGenesShape(gs: seq<GeneValue>, hs: seq<GeneValue>)
    requires SameShape(gs, hs)
    ensures |Joined(hs)| == |Joined(gs)|
    ensures forall i :: 0 <= i < |gs| ==> SetGenes(gs, Joined(hs))[i].dna == hs[i].dna
  {
    SameShapeLength(gs, hs);
    var whole := Joined(hs);
    SetGenesSame(hs);
    forall i | 0 <= i < |gs| ensures SetGenes(gs, whole)[i].dna == hs[i].dna {
      SetGenesStep(gs, whole, i);
      SetGenesStep(hs, whole, i);
      OffsetSameShape(gs, hs, i);
      OffsetSameShape(gs, hs, i + 1);
    }
  }

  /** A later assignment replaces an earlier one completely. */
  lemma {:induction false} SetGenesTwice(gs: seq<GeneValue>, x: string, y: string)
    requires |x| == |Joined(gs)| && |y| == |Joined(gs)|
    ensures SetGenes(SetGenes(gs, x), y) == SetGenes(gs, y)
    decreases |gs|
  {
    if |gs| > 0 {
      var n := |gs| - 1;
      var cut := |x| - |gs[n].dna|;
      var front := SetGenes(gs[..n], x[..cut]);
      var r := SetGenes(gs, x);
      assert r == front + [gs[n].(dna := x[cut..])];
      assert r[..n] == front;
      SetGenesTwice(gs[..n], x[..cut], y[..cut]);
      assert SetGenes(r, y) == SetGenes(front, y[..cut]) + [gs[n].(dna := y[cut..])];
    }
  }

  /** Every gene accepts its new DNA (`_check_dna` in the gene's setter). */
  predicate GenesValid(gs: seq<GeneValue>) {
    forall i :: 0 <= i < |gs| ==> ValidDna(gs[i].kind, gs[i].dna)
  }

  /** The assertions of the setter hold: the length matches and each slice is valid for its gene. */
  predicate Settable(c: Chrom, dna: string) {
    |dna| == Length(c) && GenesValid(SetGenes(c.genes, dna))
  }

  /** The chromosome after `chromosome.dna = dna`. */
  function WithDna(c: Chrom, dna: string): (r: Chrom)
    requires Settable(c, dna)
    ensures Dna(r) == dna && r.variant == c.variant && SameShape(r.genes, c.genes)
    ensures GenesValid(r.genes)
    ensures forall i :: 0 <= i < |c.genes| ==> r.genes[i] == c.genes[i].(dna := r.genes[i].dna)
  {
    c.(genes := SetGenes(c.genes, dna))
  }

  /** Setting a chromosome's own DNA leaves it as it is. */
  lemma WithOwnDna(c: Chrom)
    requires GenesValid(c.genes)
    ensures Settable(c, Dna(c)) && WithDna(c, Dna(c)) == c
  {
    SetGenesSame(c.genes);
  }

  /** A second assignment of the DNA replaces the first completely. */
  lemma WithDnaTwice(c: Chrom, dna: string, dna2: string)
    requires Settable(c, dna) && Settable(c, dna2)
    ensures Settable(WithDna(c, dna), dna2)
    ensures WithDna(WithDna(c, dna), dna2) == WithDna(c, dna2)
  {
    SetGenesTwice(c.genes, dna, dna2);
  }

  /** Assigning the old DNA back restores the chromosome: the setter loses nothing. */
  lemma WithDnaRestore(c: Chrom, dna: string)
    requires GenesValid(c.genes) && Settable(c, dna)
    ensures Settable(WithDna(c, dna), Dna(c)) && WithDna(WithDna(c, dna), Dna(c)) == c
  {
    WithOwnDna(c);
    WithDnaTwice(c, dna, Dna(c));
  }

  // ---------------------------------------------------------------------------
  // Chromosome.crossover

  /** `s[:p]` for a non-negative `p` (a slice past the end stops at the end). */
  function Head(s: string, p: nat): string {
    if p < |s| then s[..p] else s
  }

  /** `s[p:]` for a non-negative `p`. */
  function Tail(s: string, p: nat): string {
    if p < |s| then s[p..] else []
  }

  /** `x[:point] + y[point:]` */
  function Splice(x: string, y: string, p: nat): (r: string)
    requires |x| == |y|
    ensures |r| == |x|
    ensures forall i :: 0 <= i < |x| ==> r[i] == if i < p then x[i] else y[i]
  {
    Head(x, p) + Tail(y, p)
  }

  /** The assertions of Chromosome.crossover hold for these chromosomes and point. */
  predicate CanCross(a: Chrom, b: Chrom, p: nat) {
    && Length(a) == Length(b)
    && Settable(a, Splice(Dna(a), Dna(b), p))
    && Settable(b, Splice(Dna(b), Dna(a), p))
  }

  /** The two chromosomes after `a.crossover(b, point)` in the base class. */
  function Crossover(a: Chrom, b: Chrom, p: nat): (r: (Chrom, Chrom))
    requires CanCross(a, b, p)
    ensures Dna(r.0) == Splice(Dna(a), Dna(b), p) && Dna(r.1) == Splice(Dna(b), Dna(a), p)
    ensures SameShape(r.0.genes, a.genes) && SameShape(r.1.genes, b.genes)
  {
    (WithDna(a, Splice(Dna(a), Dna(b), p)), WithDna(b, Splice(Dna(b), Dna(a), p)))
  }

  /** At every position the two DNA characters are kept or exchanged: nothing is lost or invented. */
  lemma CrossoverExchanges(a: Chrom, b: Chrom, p: nat)
    requires CanCross(a, b, p)
    ensures var (x, y) := Crossover(a, b, p);
      forall i :: 0 <= i < Length(a) ==>
        if i < p then Dna(x)[i] == Dna(a)[i] && Dna(y)[i] == Dna(b)[i]
        else Dna(x)[i] == Dna(b)[i] && Dna(y)[i] == Dna(a)[i]
  {
  }

  /** Crossing the offspring again at the same point gives back the parents. */
  lemma CrossoverInvolution(a: Chrom, b: Chrom, p: nat)
    requires GenesValid(a.genes) && GenesValid(b.genes) && CanCross(a, b, p)
    ensures var (x, y) := Crossover(a, b, p);
      CanCross(x, y, p) && Crossover(x, y, p) == (a, b)
  {
    var (x, y) := Crossover(a, b, p);
    var da, db := Dna(a), Dna(b);
    assert Splice(Dna(x), Dna(y), p) == da;
    assert Splice(Dna(y), Dna(x), p) == db;
    SetGenesSame(a.genes);
    SetGenesSame(b.genes);
    WithDnaTwice(a, Splice(da, db, p), da);
    WithDnaTwice(b, Splice(db, da, p), db);
  }

  /** Crossing at point 0 exchanges the whole DNA; at or past the end it changes nothing. */
  lemma CrossoverEnds(a: Chrom, b: Chrom, p: nat)
    requires CanCross(a, b, p)
    ensures p == 0 ==> Dna(Crossover(a, b, p).0) == Dna(b) && Dna(Crossover(a, b, p).1) == Dna(a)
    ensures p >= Length(a) && GenesValid(a.genes) && GenesValid(b.genes) ==> Crossover(a, b, p) == (a, b)
  {
    if p >= Length(a) && GenesValid(a.genes) && GenesValid(b.genes) {
      assert Splice(Dna(a), Dna(b), p) == Dna(a);
      assert Splice(Dna(b), Dna(a), p) == Dna(b);
      WithOwnDna(a);
      WithOwnDna(b);
    }
  }

  /** Chromosomes of one shape with valid genes always pass the assertions of crossover. */
  lemma CrossoverSettable(a: Chrom, b: Chrom, p: nat)
    requires SameShape(a.genes, b.genes) && GenesValid(a.genes) && GenesValid(b.genes)
    ensures CanCross(a, b, p)
  {
    SameShapeLength(a.genes, b.genes);
    MixSettable(a.genes, b.genes, Splice(Dna(a), Dna(b), p));
    MixSettable(b.genes, a.genes, Splice(Dna(b), Dna(a), p));
  }

  /** A DNA taking each character from one of two valid gene lists of one shape is valid for both. */
  lemma MixSettable(gs: seq<GeneValue>, hs: seq<GeneValue>, mix: string)
    requires SameShape(gs, hs) && GenesValid(gs) && GenesValid(hs)
    requires |Joined(gs)| == |Joined(hs)| == |mix|
    requires forall i :: 0 <= i < |mix| ==> mix[i] == Joined(gs)[i] || mix[i] == Joined(hs)[i]
    ensures GenesValid(SetGenes(gs, mix))
  {
    var r := SetGenes(gs, mix);
    forall k | 0 <= k < |gs|
      ensures ValidDna(r[k].kind, r[k].dna)
    {
      MixGeneValid(gs, hs, mix, k);
    }
  }

  /** One gene of MixSettable. */
  lemma MixGeneValid(gs: seq<GeneValue>, hs: seq<GeneValue>, mix: string, k: nat)
    requires SameShape(gs, hs) && GenesValid(gs) && GenesValid(hs)
    requires |Joined(gs)| == |Joined(hs)| == |mix|
    requires forall i :: 0 <= i < |mix| ==> mix[i] == Joined(gs)[i] || mix[i] == Joined(hs)[i]
    requires k < |gs|
    ensures ValidDna(gs[k].kind, SetGenes(gs, mix)[k].dna)
  {
    var dna := SetGenes(gs, mix)[k].dna;
    var options := Options(gs[k].kind);
    forall t | 0 <= t < |dna|
      ensures dna[t] in options
    {
      MixChar(gs, hs, mix, k, t);
      assert ValidDna(gs[k].kind, gs[k].dna);
      assert ValidDna(hs[k].kind, hs[k].dna);
    }
  }

  /** Character `t` of gene `k` after setting a mixed DNA comes from gene `k` of one of the two lists. */
  lemma MixChar(gs: seq<GeneValue>, hs: seq<GeneValue>, mix: string, k: nat, t: nat)
    requires SameShape(gs, hs)
    requires |Joined(gs)| == |Joined(hs)| == |mix|
    requires forall i :: 0 <= i < |mix| ==> mix[i] == Joined(gs)[i] || mix[i] == Joined(hs)[i]
    requires k < |gs| && t < |gs[k].dna|
    ensures SetGenes(gs, mix)[k].dna[t] == gs[k].dna[t] || SetGenes(gs, mix)[k].dna[t] == hs[k].dna[t]
  {
    var i := Offset(gs, k) + t;
    assert i < |mix| && SetGenes(gs, mix)[k].dna[t] == mix[i] by {
      SetGenesAt(gs, mix, k);
    }
    var j := Offset(hs, k) + t;
    assert i == j by {
      OffsetSameShape(gs, hs, k);
    }
    assert i < |Joined(gs)| && Joined(gs)[i] == gs[k].dna[t] by {
      JoinedAt(gs, k, t);
    }
    assert j < |Joined(hs)| && Joined(hs)[j] == hs[k].dna[t] by {
      JoinedAt(hs, k, t);
    }
    assert mix[i] == Joined(gs)[i] || mix[i] == Joined(hs)[i];
  }

  // ---------------------------------------------------------------------------
  // ReorderingSetChromosome

  /** The set of DNAs of a list of genes. */
  function DnaSet(gs: seq<GeneValue>): set<string> {
    set i | 0 <= i < |gs| :: gs[i].dna
  }

  /** `_check_genes`: the gene DNAs are exactly the allowed choices. */
  predicate Complete(c: Chrom) {
    c.variant.ReorderingSet? && DnaSet(c.genes) == set x | x in c.variant.choices
  }

  /** Genes `i` and `j` exchanged (copies carry the same values). */
  function Swap(gs: seq<GeneValue>, i: nat, j: nat): (r: seq<GeneValue>)
    requires i < |gs| && j < |gs|
    ensures |r| == |gs| && r[i] == gs[j] && r[j] == gs[i]
    ensures forall k :: 0 <= k < |gs| && k != i && k != j ==> r[k] == gs[k]
  {
    gs[i := gs[j]][j := gs[i]]
  }

  /** Exchanging two genes is a permutation and keeps the set of gene DNAs. */
  lemma SwapPermutes(gs: seq<GeneValue>, i: nat, j: nat)
    requires i < |gs| && j < |gs|
    ensures multiset(Swap(gs, i, j)) == multiset(gs)
    ensures DnaSet(Swap(gs, i, j)) == DnaSet(gs)
  {
    var r := Swap(gs, i, j);
    assert gs[i := gs[j]] == r[j := gs[j]];
    forall x | x in DnaSet(gs) ensures x in DnaSet(r) {
      var k :| 0 <= k < |gs| && gs[k].dna == x;
      if k == i { assert r[j].dna == x; } else if k == j { assert r[i].dna == x; } else { assert r[k].dna == x; }
    }
    forall x | x in DnaSet(r) ensures x in DnaSet(gs) {
      var k :| 0 <= k < |r| && r[k].dna == x;
      if k == i { assert gs[j].dna == x; } else if k == j { assert gs[i].dna == x; } else { assert gs[k].dna == x; }
    }
  }

  /** The draws of one ReorderingSetChromosome.mutate: the mutation draw, the first index, the redraws of the second. */
  datatype SwapDraw = SwapDraw(u: real, first: real, seconds: seq<real>)

  /** `range(n)`, the items `random.randrange(n)` picks from. */
  function Indices(n: nat): (r: seq<nat>)
    ensures |r| == n && forall i :: 0 <= i < n ==> r[i] == i
  {
    seq(n, i => i)
  }

  /** What the source asks of the draws: the index loop `while g1_idx == g2_idx` must end. */
  predicate SwapFits(n: nat, d: SwapDraw, pMutate: real) {
    && IsDraw(d.u)
    && (d.u < pMutate ==> n > 0 && IsDraw(d.first) && CanRedraw(Indices(n), Pick(d.first, n), d.seconds))
  }

  /** The genes after ReorderingSetChromosome.mutate. */
  function SwapMutate(gs: seq<GeneValue>, d: SwapDraw, pMutate: real): (r: seq<GeneValue>)
    requires SwapFits(|gs|, d, pMutate)
    ensures multiset(r) == multiset(gs) && DnaSet(r) == DnaSet(gs)
    ensures d.u >= pMutate ==> r == gs
  {
    if d.u < pMutate then
      var g1 := Pick(d.first, |gs|);
      var g2 := Redraw(Indices(|gs|), g1, d.seconds);
      SwapPermutes(gs, g1, g2);
      Swap(gs, g1, g2)
    else gs
  }

  /** A swap mutation exchanges exactly two distinct genes and leaves the others in place. */
  lemma SwapMutateExchanges(gs: seq<GeneValue>, d: SwapDraw, pMutate: real)
    requires SwapFits(|gs|, d, pMutate) && d.u < pMutate
    ensures exists i, j :: 0 <= i < j < |gs| && SwapMutate(gs, d, pMutate) == Swap(gs, i, j)
  {
    var g1 := Pick(d.first, |gs|);
    var g2 := Redraw(Indices(|gs|), g1, d.seconds);
    assert g2 in Indices(|gs|) && g2 != g1;
    if g1 < g2 {
      assert SwapMutate(gs, d, pMutate) == Swap(gs, g1, g2);
    } else {
      assert Swap(gs, g1, g2) == Swap(gs, g2, g1);
    }
  }

  /** The first gene whose end lies past `point`: the loop at the start of ReorderingSetChromosome.crossover. */
  function LocateGene(gs: seq<GeneValue>, point: nat, k: nat := 0): (r: nat)
    requires k <= |gs|
    ensures k <= r <= |gs|
    ensures forall j :: k <= j < r ==> Offset(gs, j) + |gs[j].dna| <= point
    ensures r < |gs| ==> point < Offset(gs, r) + |gs[r].dna|
    decreases |gs| - k
  {
    if k == |gs| then k
    else if point < Offset(gs, k) + |gs[k].dna| then k
    else LocateGene(gs, point, k + 1)
  }

  /** The joined length of a prefix grows with the prefix. */
  lemma OffsetMonotone(gs: seq<GeneValue>, i: nat, j: nat)
    requires i <= j <= |gs|
    ensures Offset(gs, i) <= Offset(gs, j)
  {
    assert gs[..j] == gs[..i] + gs[i..j];
    JoinedAppend(gs[..i], gs[i..j]);
  }

  /** The located gene is the one whose slice of the DNA holds `point`; a point past the end locates none. */
  lemma LocateGeneSpans(gs: seq<GeneValue>, point: nat)
    ensures var k := LocateGene(gs, point);
      (k == |gs| <==> point >= |Joined(gs)|)
      && (k < |gs| ==> Offset(gs, k) <= point < Offset(gs, k) + |gs[k].dna|)
  {
    var k := LocateGene(gs, point);
    assert gs[..|gs|] == gs;
    if k < |gs| {
      if k > 0 {
        JoinedStep(gs, k - 1);
        assert Offset(gs, k - 1) + |gs[k - 1].dna| <= point;
      }
      JoinedStep(gs, k);
      OffsetMonotone(gs, k + 1, |gs|);
    } else if |gs| > 0 {
      JoinedStep(gs, |gs| - 1);
      assert Offset(gs, |gs| - 1) + |gs[|gs| - 1].dna| <= point;
    }
  }

  /** The first gene with the given DNA, or `|gs|`: the search loop of ReorderingSetChromosome.crossover. */
  function FindDna(gs: seq<GeneValue>, dna: string, k: nat := 0): (r: nat)
    requires k <= |gs|
    ensures k <= r <= |gs|
    ensures r < |gs| ==> gs[r].dna == dna
    ensures forall j :: k <= j < r ==> gs[j].dna != dna
    decreases |gs| - k
  {
    if k == |gs| then k
    else if gs[k].dna == dna then k
    else FindDna(gs, dna, k + 1)
  }

  /**
   * ReorderingSetChromosome.crossover neither raises nor fails its assertion: the point lies
   * in the mate's DNA (`chromosome.genes[other_gene_idx]`), the swap index exists in this
   * chromosome when a gene with the mate's DNA is found, and the result passes `_check_genes`.
   */
  predicate CanReorderCross(a: Chrom, b: Chrom, point: nat) {
    && LocateGene(b.genes, point) < |b.genes|
    && (FindDna(a.genes, b.genes[LocateGene(b.genes, point)].dna) < |a.genes| ==> LocateGene(b.genes, point) < |a.genes|)
    && Complete(a)
  }

  /**
   * `a.crossover(b, point)` in ReorderingSetChromosome: the gene of `b` at `point` is
   * looked up in `a`, and `a` moves its gene with that DNA to the same position; `b`
   * is left as it was.
   */
  function ReorderCrossover(a: Chrom, b: Chrom, point: nat): (r: Chrom)
    requires CanReorderCross(a, b, point)
    ensures r.variant == a.variant && multiset(r.genes) == multiset(a.genes)
    ensures DnaSet(r.genes) == DnaSet(a.genes) && Complete(r)
  {
    var k := LocateGene(b.genes, point);
    var i := FindDna(a.genes, b.genes[k].dna);
    if i < |a.genes| then
      SwapPermutes(a.genes, k, i);
      a.(genes := Swap(a.genes, k, i))
    else a
  }

  /** The result of ReorderCrossover, given the index the search finds. */
  lemma ReorderCrossoverAt(a: Chrom, b: Chrom, point: nat, i: nat)
    requires CanReorderCross(a, b, point)
    requires i == FindDna(a.genes, b.genes[LocateGene(b.genes, point)].dna)
    ensures ReorderCrossover(a, b, point) ==
      if i < |a.genes| then a.(genes := Swap(a.genes, i, LocateGene(b.genes, point))) else a
  {
  }

  /**
   * When no gene of `a` has the DNA of the mate's gene at `point`, the search loop ends
   * without a swap and `a` is left as it was, even where the located index lies past `a`'s genes.
   */
  lemma ReorderCrossoverNoMatch(a: Chrom, b: Chrom, point: nat)
    requires Complete(a) && LocateGene(b.genes, point) < |b.genes|
    requires forall j :: 0 <= j < |a.genes| ==> a.genes[j].dna != b.genes[LocateGene(b.genes, point)].dna
    ensures CanReorderCross(a, b, point) && ReorderCrossover(a, b, point) == a
  {
  }

  /**
   * When the mate's gene DNA is one of `a`'s gene DNAs (as it is for complete
   * chromosomes with the same choices), the offspring carries it at the mate's position.
   */
  lemma ReorderCrossoverInherits(a: Chrom, b: Chrom, point: nat)
    requires CanReorderCross(a, b, point)
    requires b.genes[LocateGene(b.genes, point)].dna in DnaSet(a.genes)
    ensures var k := LocateGene(b.genes, point);
      ReorderCrossover(a, b, point).genes[k].dna == b.genes[k].dna
  {
    var k := LocateGene(b.genes, point);
    var x := b.genes[k].dna;
    var j :| 0 <= j < |a.genes| && a.genes[j].dna == x;
    var i := FindDna(a.genes, x);
    assert i <= j;
  }

  /** Completeness of two chromosomes with the same choices means each has every gene DNA of the other. */
  lemma CompleteShared(a: Chrom, b: Chrom, k: nat)
    requires Complete(a) && Complete(b) && a.variant == b.variant && k < |b.genes|
    ensures b.genes[k].dna in DnaSet(a.genes)
  {
    assert b.genes[k].dna in DnaSet(b.genes);
  }

  // ---------------------------------------------------------------------------
  // Chromosome.mutate, by class

  /** The draws of one `chromosome.mutate`: per gene and position for Chromosome, one swap draw for ReorderingSetChromosome. */
  datatype ChromDraws = PerGene(sites: seq<seq<SiteDraw>>) | SwapDraws(swap: SwapDraw)

  /** The draws are of the right form and let every loop end; the assertions of the source hold. */
  predicate MutationDrawsFit(c: Chrom, d: ChromDraws, pMutate: real) {
    match c.variant
    case Plain =>
      && 0.0 <= pMutate <= 1.0
      && d.PerGene? && |d.sites| == |c.genes|
      && forall i :: 0 <= i < |c.genes| ==> GeneMutationFits(c.genes[i].kind, c.genes[i].dna, d.sites[i], pMutate)
    case ReorderingSet(_) =>
      && d.SwapDraws? && SwapFits(|c.genes|, d.swap, pMutate)
      && (d.swap.u < pMutate ==> Complete(c))
  }

  /** The chromosome after `chromosome.mutate(p_mutate)`. */
  function MutateChrom(c: Chrom, d: ChromDraws, pMutate: real): (r: Chrom)
    requires MutationDrawsFit(c, d, pMutate)
    ensures r.variant == c.variant && |r.genes| == |c.genes|
  {
    match c.variant
    case Plain =>
      c.(genes := seq(|c.genes|, i requires 0 <= i < |c.genes| =>
        c.genes[i].(dna := MutatedDna(c.genes[i].kind, c.genes[i].dna, d.sites[i], pMutate))))
    case ReorderingSet(_) =>
      c.(genes := SwapMutate(c.genes, d.swap, pMutate))
  }

  // ---------------------------------------------------------------------------
  // Populations of one layout

  /**
   * The shape every chromosome of a population shares: gene classes, gene lengths and
   * chromosome class. The examples build their populations this way; a
   * ReorderingSetChromosome layout is uniform (one gene class, one gene length), so
   * that reordering genes keeps the layout.
   */
  datatype Layout = Layout(kinds: seq<Kind>, lengths: seq<nat>, variant: Variant)

  predicate Uniform(l: Layout) {
    && (forall i, j :: 0 <= i < |l.kinds| && 0 <= j < |l.kinds| ==> l.kinds[i] == l.kinds[j])
    && (forall i, j :: 0 <= i < |l.lengths| && 0 <= j < |l.lengths| ==> l.lengths[i] == l.lengths[j])
  }

  predicate LayoutOk(l: Layout) {
    && |l.kinds| == |l.lengths|
    && (exists i :: 0 <= i < |l.lengths| && l.lengths[i] > 0)
    && (l.variant.ReorderingSet? ==>
          Uniform(l) && forall i, j :: 0 <= i < j < |l.variant.choices| ==> l.variant.choices[i] != l.variant.choices[j])
  }

  /** The chromosome has the layout, valid genes and, for a reordering chromosome, exactly its choices. */
  predicate Fits(c: Chrom, l: Layout) {
    && LayoutOk(l)
    && c.variant == l.variant
    && |c.genes| == |l.kinds|
    && (forall i :: 0 <= i < |c.genes| ==> c.genes[i].kind == l.kinds[i] && |c.genes[i].dna| == l.lengths[i])
    && GenesValid(c.genes)
    && (l.variant.ReorderingSet? ==> Complete(c))
  }

  /** Chromosomes of a layout have DNA to cross: `random.randrange(0, length)` has a value. */
  lemma FitsLength(c: Chrom, l: Layout)
    requires Fits(c, l)
    ensures Length(c) > 0
  {
    var i :| 0 <= i < |l.lengths| && l.lengths[i] > 0;
    JoinedSplit(c.genes, i);
  }

  /** Exchanging two genes keeps a reordering chromosome in its layout, which is uniform. */
  lemma SwapKeepsLayout(c: Chrom, l: Layout, i: nat, j: nat)
    requires Fits(c, l) && l.variant.ReorderingSet? && i < |c.genes| && j < |c.genes|
    ensures Fits(c.(genes := Swap(c.genes, i, j)), l)
  {
    var r := c.(genes := Swap(c.genes, i, j));
    assert Uniform(l);
    SwapPermutes(c.genes, i, j);
    forall m | 0 <= m < |r.genes|
      ensures r.genes[m].kind == l.kinds[m] && |r.genes[m].dna| == l.lengths[m]
      ensures ValidDna(r.genes[m].kind, r.genes[m].dna)
    {
      var n := if m == i then j else if m == j then i else m;
      assert r.genes[m] == c.genes[n];
    }
  }

  /** Mutation keeps a chromosome in its layout. */
  lemma MutateFits(c: Chrom, d: ChromDraws, pMutate: real, l: Layout)
    requires Fits(c, l) && MutationDrawsFit(c, d, pMutate)
    ensures Fits(MutateChrom(c, d, pMutate), l)
  {
    var r := MutateChrom(c, d, pMutate);
    if c.variant.Plain? {
      forall i | 0 <= i < |c.genes|
        ensures ValidDna(r.genes[i].kind, r.genes[i].dna) && |r.genes[i].dna| == |c.genes[i].dna|
      {
        MutatedDnaProperties(c.genes[i].kind, c.genes[i].dna, d.sites[i], pMutate);
      }
    } else {
      var gs := c.genes;
      if d.swap.u < pMutate {
        var g1 := Pick(d.swap.first, |gs|);
        var g2 := Redraw(Indices(|gs|), g1, d.swap.seconds);
        SwapKeepsLayout(c, l, g1, g2);
      }
    }
  }

  /** A zero mutation rate changes no chromosome. */
  lemma MutateZeroRate(c: Chrom, d: ChromDraws, l: Layout)
    requires Fits(c, l) && MutationDrawsFit(c, d, 0.0)
    ensures MutateChrom(c, d, 0.0) == c
  {
    var r := MutateChrom(c, d, 0.0);
    if c.variant.Plain? {
      forall i | 0 <= i < |c.genes| ensures r.genes[i] == c.genes[i] {
        MutatedDnaProperties(c.genes[i].kind, c.genes[i].dna, d.sites[i], 0.0);
      }
    }
  }

  /** Crossover of two chromosomes of one layout, by the class of the first. */
  predicate CanCrossover(a: Chrom, b: Chrom, point: nat) {
    if a.variant.Plain? then CanCross(a, b, point) else CanReorderCross(a, b, point)
  }

  /** The first chromosome after `a.crossover(b, point)`. */
  function CrossoverFirst(a: Chrom, b: Chrom, point: nat): (r: Chrom)
    requires CanCrossover(a, b, point)
    ensures r.variant == a.variant
  {
    if a.variant.Plain? then Crossover(a, b, point).0 else ReorderCrossover(a, b, point)
  }

  /** Chromosome.crossover of two chromosomes of one layout is defined and keeps the layout. */
  lemma SpliceCrossoverFits(a: Chrom, b: Chrom, point: nat, l: Layout)
    requires Fits(a, l) && Fits(b, l) && a.variant.Plain?
    ensures CanCross(a, b, point) && Fits(Crossover(a, b, point).0, l)
  {
    CrossoverSettable(a, b, point);
  }

  /** ReorderingSetChromosome.crossover at a point inside the DNA is defined and keeps the layout. */
  lemma ReorderCrossoverFits(a: Chrom, b: Chrom, point: nat, l: Layout)
    requires Fits(a, l) && Fits(b, l) && a.variant.ReorderingSet? && point < Length(b)
    ensures CanReorderCross(a, b, point) && Fits(ReorderCrossover(a, b, point), l)
  {
    LocateGeneSpans(b.genes, point);
    var k := LocateGene(b.genes, point);
    var i := FindDna(a.genes, b.genes[k].dna);
    if i < |a.genes| {
      SwapKeepsLayout(a, l, k, i);
    }
  }

  /** Two chromosomes of one layout can always be crossed at a point inside their DNA, and the offspring keeps the layout. */
  lemma CrossoverFits(a: Chrom, b: Chrom, point: nat, l: Layout)
    requires Fits(a, l) && Fits(b, l) && point < Length(b)
    ensures CanCrossover(a, b, point) && Fits(CrossoverFirst(a, b, point), l)
  {
    if a.variant.Plain? {
      SpliceCrossoverFits(a, b, point, l);
    } else {
      ReorderCrossoverFits(a, b, point, l);
    }
  }

  /** The elitist step: a chromosome takes the DNA of another of its layout gene by gene and keeps its layout. */
  lemma WithDnaFits(c: Chrom, best: Chrom, l: Layout)
    requires Fits(c, l) && Fits(best, l)
    ensures Settable(c, Dna(best))
    ensures Fits(WithDna(c, Dna(best)), l)
    ensures forall i :: 0 <= i < |c.genes| ==> WithDna(c, Dna(best)).genes[i].dna == best.genes[i].dna
  {
    assert SameShape(c.genes, best.genes);
    SetGenesShape(c.genes, best.genes);
    var r := SetGenes(c.genes, Dna(best));
    forall i | 0 <= i < |r|
      ensures r[i] == c.genes[i].(dna := best.genes[i].dna)
      ensures ValidDna(r[i].kind, r[i].dna)
    {
      assert best.genes[i].kind == r[i].kind;
    }
    assert DnaSet(r) == DnaSet(best.genes) by {
      forall x | x in DnaSet(best.genes) ensures x in DnaSet(r) {
        var k :| 0 <= k < |best.genes| && best.genes[k].dna == x;
        assert r[k].dna == x;
      }
    }
  }

  // ---------------------------------------------------------------------------
  // Chromosome objects

  predicate Distinct<T(==)>(xs: seq<T>) {
    forall i, j :: 0 <= i < j < |xs| ==> xs[i] != xs[j]
  }

  /** The first loop of ReorderingSetChromosome.crossover: the index of the gene whose DNA slice holds `point`. */
  method LocateIndex(gs: seq<GeneValue>, point: nat) returns (idx: nat)
    ensures idx == LocateGene(gs, point)
  {
    var end := 0;
    idx := 0;
    while idx < |gs|
      invariant idx <= |gs|
      invariant end == Offset(gs, idx)
      invariant LocateGene(gs, point, idx) == LocateGene(gs, point)
    {
      JoinedStep(gs, idx);
      end := end + |gs[idx].dna|;
      if point < end {
        return;
      }
      idx := idx + 1;
    }
  }

  /** The second loop of ReorderingSetChromosome.crossover: the index of the first gene with DNA `x`, or the gene count. */
  method FindIndex(gs: seq<GeneValue>, x: string) returns (i: nat)
    ensures i == FindDna(gs, x)
  {
    i := 0;
    while i < |gs|
      invariant i <= |gs|
      invariant FindDna(gs, x, i) == FindDna(gs, x)
    {
      if gs[i].dna == x {
        return;
      }
      i := i + 1;
    }
  }

  /** The values of a list of gene objects. */
  function Values(gs: seq<Gene>): (r: seq<GeneValue>)
    reads gs
    ensures |r| == |gs| && forall i :: 0 <= i < |gs| ==> r[i] == gs[i].Value()
  {
    if |gs| == 0 then [] else Values(gs[..|gs| - 1]) + [gs[|gs| - 1].Value()]
  }

  /**
   * A chromosome object (Chromosome or ReorderingSetChromosome, told apart by
   * `variant`) holding a list of gene objects.
   */
  class Chromosome {
    var genes: seq<Gene>
    const variant: Variant

    /** Every gene is valid, no gene object is listed twice, and the choices are distinct. */
    ghost predicate Valid()
      reads this, genes
    {
      && (forall i :: 0 <= i < |genes| ==> genes[i].Valid())
      && Distinct(genes)
      && (variant.ReorderingSet? ==> Distinct(variant.choices))
    }

    function Value(): Chrom
      reads this, genes
    {
      Chrom(Values(genes), variant)
    }

    /** The gene values of valid gene objects are valid. */
    lemma ValidValue()
      requires Valid()
      ensures GenesValid(Value().genes)
    {
    }

    /** Gene objects whose values are valid are valid. */
    lemma GenesValidValue()
      requires GenesValid(Value().genes)
      ensures forall i :: 0 <= i < |genes| ==> genes[i].Valid()
    {
      var vs := Values(genes);
      forall i | 0 <= i < |genes|
        ensures genes[i].Valid()
      {
        assert vs[i] == genes[i].Value() && ValidDna(vs[i].kind, vs[i].dna);
      }
    }

    /** `Chromosome(genes)` */
    constructor (genes: seq<Gene>)
      requires Distinct(genes) && forall i :: 0 <= i < |genes| ==> genes[i].Valid()
      ensures Valid() && this.genes == genes
      ensures Value() == Chrom(Values(genes), Plain)
    {
      this.genes := genes;
      this.variant := Plain;
    }

    /** `ReorderingSetChromosome(genes, choices)`: the choices must be distinct. */
    constructor Reordering(genes: seq<Gene>, choices: seq<string>)
      requires Distinct(genes) && forall i :: 0 <= i < |genes| ==> genes[i].Valid()
      requires Distinct(choices)
      ensures Valid() && this.genes == genes
      ensures Value() == Chrom(Values(genes), ReorderingSet(choices))
    {
      this.genes := genes;
      this.variant := ReorderingSet(choices);
    }

    /** The `dna` setter: consecutive slices of `dna` go to the genes in order. */
    method SetDna(dna: string)
      requires Valid() && Settable(Value(), dna)
      modifies genes`dna
      ensures Valid() && Value() == WithDna(old(Value()), dna)
    {
      ghost var before := Value().genes;
      ghost var target := SetGenes(before, dna);
      AssignSlices(dna, before);
      GenesValidValue();
    }

    /** The first `k` gene objects hold their slices of `dna`; the others still hold their values in `before`. */
    ghost predicate Assigned(dna: string, before: seq<GeneValue>, k: nat)
      reads this, genes
    {
      && k <= |genes| == |before| && |dna| == |Joined(before)|
      && (forall j :: 0 <= j < k ==> genes[j].Value() == SetGenes(before, dna)[j])
      && (forall j :: k <= j < |genes| ==> genes[j].Value() == before[j])
    }

    /**
     * The loop of the setter: each gene object in turn takes the slice of `dna` that
     * starts where the previous one ended, which is what `SetGenes` gives it.
     */
    method AssignSlices(dna: string, ghost before: seq<GeneValue>)
      requires Distinct(genes) && |before| == |genes| && |dna| == |Joined(before)|
      requires Values(genes) == before
      requires GenesValid(SetGenes(before, dna))
      modifies genes`dna
      ensures Values(genes) == SetGenes(before, dna)
    {
      var off := 0;
      var k := 0;
      assert before[..0] == [];
      while k < |genes|
        invariant 0 <= k <= |genes| && off == Offset(before, k)
        invariant Assigned(dna, before, k)
      {
        var len := AssignNext(dna, before, k, off);
        off := off + len;
        k := k + 1;
      }
      assert Values(genes) == SetGenes(before, dna);
    }

    /**
     * One pass of the setter's loop: gene `k` takes the `len` characters of `dna` from
     * `off`, the end of the previous gene's slice; the other genes keep their DNA.
     */
    method AssignNext(dna: string, ghost before: seq<GeneValue>, k: nat, off: nat) returns (len: nat)
      requires Distinct(genes) && k < |genes| && Assigned(dna, before, k)
      requires off == Offset(before, k)
      requires GenesValid(SetGenes(before, dna))
      modifies {genes[k]}`dna
      ensures off + len == Offset(before, k + 1)
      ensures Assigned(dna, before, k + 1)
    {
      ghost var target := SetGenes(before, dna);
      SetGenesStep(before, dna, k);
      len := genes[k].Length();
      assert genes[k].Value() == before[k];
      var piece := dna[off..off + len];
      assert off + len == Offset(before, k + 1);
      assert target[k] == before[k].(dna := piece);
      assert ValidDna(target[k].kind, target[k].dna);
      assert forall j :: 0 <= j < |genes| && j != k ==> genes[j] != genes[k];
      genes[k].SetDna(piece);
      assert genes[k].Value() == target[k];
    }

    /** The two chromosomes of a crossover share no gene object. */
    ghost predicate Apart(other: Chromosome)
      reads this, other
    {
      this != other && forall i, j :: 0 <= i < |genes| && 0 <= j < |other.genes| ==> genes[i] != other.genes[j]
    }

    /** Sharing no gene object is a symmetric relation. */
    lemma ApartSymmetric(other: Chromosome)
      requires Apart(other)
      ensures other.Apart(this)
    {
    }

    /** SetDna, with what it leaves alone: a chromosome that shares no gene object with this one. */
    method SetDnaBeside(dna: string, other: Chromosome)
      requires Valid() && Settable(Value(), dna) && other.Valid() && Apart(other)
      modifies genes`dna
      ensures Valid() && Value() == WithDna(old(Value()), dna)
      ensures other.Valid() && other.Value() == old(other.Value()) && Apart(other)
    {
      ghost var theirs := other.Value().genes;
      SetDna(dna);
      forall k | 0 <= k < |other.genes|
        ensures other.genes[k].Value() == theirs[k] && other.genes[k].Valid()
      {
        assert forall m :: 0 <= m < |genes| ==> genes[m] != other.genes[k];
      }
      assert Values(other.genes) == theirs;
    }

    /** Chromosome.crossover: splice the two DNAs at `point` and set them back. */
    method SpliceCrossover(other: Chromosome, point: nat)
      requires Valid() && other.Valid() && variant.Plain? && Apart(other)
      requires CanCross(Value(), other.Value(), point)
      modifies genes`dna, other.genes`dna
      ensures Valid() && other.Valid()
      ensures (Value(), other.Value()) == Crossover(old(Value()), old(other.Value()), point)
    {
      var a := Value();
      var b := other.Value();
      var newDna := Splice(Dna(a), Dna(b), point);
      var otherNewDna := Splice(Dna(b), Dna(a), point);
      ghost var r := Crossover(a, b, point);
      assert r == (WithDna(a, newDna), WithDna(b, otherNewDna));
      SetDnaBeside(newDna, other);
      assert Value() == r.0;
      ApartSymmetric(other);
      other.SetDnaBeside(otherNewDna, this);
      assert Value() == r.0 && other.Value() == r.1;
    }

    /** The swap of ReorderingSetChromosome: positions `i` and `j` take copies of each other's genes. */
    method SwapCopies(i: nat, j: nat)
      requires Valid() && i < |genes| && j < |genes|
      modifies this
      ensures Valid() && Value() == old(Value()).(genes := Swap(old(Value()).genes, i, j))
    {
      ghost var target := Swap(Value().genes, i, j);
      var next := SwappedCopies(genes, i, j);
      genes := next;
      forall k | 0 <= k < |genes| ensures genes[k].Value() == target[k] {
      }
      assert Values(genes) == target;
    }

    /** `tmp = genes[j].copy(); genes[j] = genes[i].copy(); genes[i] = tmp` on a list of distinct genes. */
    static method SwappedCopies(gs: seq<Gene>, i: nat, j: nat) returns (next: seq<Gene>)
      requires Distinct(gs) && i < |gs| && j < |gs|
      requires forall m :: 0 <= m < |gs| ==> gs[m].Valid()
      ensures Distinct(next) && Values(next) == Swap(old(Values(gs)), i, j)
      ensures forall m :: 0 <= m < |next| ==> next[m].Valid()
    {
      ghost var before := Values(gs);
      var tmp := gs[j].Copy();
      var g := gs[i].Copy();
      next := gs[j := g][i := tmp];
      forall a, b | 0 <= a < b < |next| ensures next[a] != next[b] {
        if a != i && a != j && b != i && b != j {
          assert next[a] == gs[a] && next[b] == gs[b];
        }
      }
      forall m | 0 <= m < |next| ensures next[m].Value() == Swap(before, i, j)[m] {
        if m != i && m != j {
          assert next[m] == gs[m];
        }
      }
      assert Values(next) == Swap(before, i, j);
    }

    /**
     * ReorderingSetChromosome.crossover: locate the mate's gene at `point`, then move
     * this chromosome's gene with the same DNA to that position. Only this chromosome's
     * list of genes is replaced, so the mate is left as it was.
     */
    method ReorderingCrossover(other: Chromosome, point: nat)
      requires Valid() && other.Valid()
      requires CanReorderCross(Value(), other.Value(), point)
      modifies this
      ensures Valid() && Value() == ReorderCrossover(old(Value()), old(other.Value()), point)
    {
      var a := Value();
      var b := other.Value();
      var idx := LocateIndex(b.genes, point);
      var i := FindIndex(a.genes, b.genes[idx].dna);
      ReorderCrossoverAt(a, b, point, i);
      if i < |genes| {
        SwapCopies(i, idx);
      }
    }

    /** Chromosome.mutate: every gene object in turn is offered the mutation. */
    method MutateGenes(pMutate: real, sites: seq<seq<SiteDraw>>)
      requires Valid() && variant.Plain? && MutationDrawsFit(Value(), PerGene(sites), pMutate)
      modifies genes`dna
      ensures Valid() && Value() == MutateChrom(old(Value()), PerGene(sites), pMutate)
    {
      ghost var before := Value().genes;
      ghost var target := MutateChrom(Value(), PerGene(sites), pMutate).genes;
      var k := 0;
      while k < |genes|
        invariant 0 <= k <= |genes|
        invariant forall j :: 0 <= j < |genes| ==> genes[j].Valid()
        invariant forall j :: 0 <= j < k ==> genes[j].Value() == target[j]
        invariant forall j :: k <= j < |genes| ==> genes[j].Value() == before[j]
      {
        label L:
        genes[k].Mutate(pMutate, sites[k]);
        forall j | 0 <= j < |genes| && j != k
          ensures genes[j].Value() == old@L(genes[j].Value())
        {
          assert genes[j] != genes[k];
        }
        k := k + 1;
      }
      assert Values(genes) == target;
    }

    /** ReorderingSetChromosome.mutate: with probability `pMutate`, two distinct genes change places. */
    method SwapMutation(pMutate: real, d: SwapDraw)
      requires Valid() && variant.ReorderingSet? && MutationDrawsFit(Value(), SwapDraws(d), pMutate)
      modifies this
      ensures Valid() && Value() == MutateChrom(old(Value()), SwapDraws(d), pMutate)
    {
      if d.u < pMutate {
        var n := |genes|;
        var g1 := Pick(d.first, n);
        var g2 := Gene.RedrawLoop(Indices(n), g1, d.seconds);
        SwapCopies(g1, g2);
      }
    }

    /** `[g.copy() for g in self.genes]`: fresh, distinct copies with the same values. */
    static method CopyGenes(gs: seq<Gene>) returns (copies: seq<Gene>)
      requires forall j :: 0 <= j < |gs| ==> gs[j].Valid()
      ensures |copies| == |gs| && Distinct(copies) && Values(copies) == Values(gs)
      ensures forall j :: 0 <= j < |copies| ==> fresh(copies[j]) && copies[j].Valid()
    {
      copies := [];
      var k := 0;
      while k < |gs|
        invariant 0 <= k <= |gs| && |copies| == k
        invariant Distinct(copies)
        invariant forall j :: 0 <= j < k ==> fresh(copies[j]) && copies[j].Valid()
        invariant forall j :: 0 <= j < k ==> copies[j].Value() == gs[j].Value()
      {
        var g := gs[k].Copy();
        forall j | 0 <= j < k ensures copies[j] != g {
        }
        copies := copies + [g];
        k := k + 1;
      }
      assert Values(copies) == Values(gs);
    }

    /** `copy`: a new chromosome of the same class over fresh copies of the genes. */
    method Copy() returns (c: Chromosome)
      requires Valid()
      ensures fresh(c) && c.Valid() && c.Value() == Value()
      ensures forall j :: 0 <= j < |c.genes| ==> fresh(c.genes[j])
    {
      ghost var v := Value();
      var copies := CopyGenes(genes);
      assert Values(copies) == v.genes;
      if variant.Plain? {
        c := new Chromosome(copies);
      } else {
        c := new Chromosome.Reordering(copies, variant.choices);
      }
    }
  }
}
