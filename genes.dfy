/**
 * Genes: fixed-alphabet strings of "DNA" (ga/genes.py).
 *
 * Randomness is passed in. A call of `random.random()` is a draw `u` with
 * 0 <= u < 1; a uniform index choice among `n` items (`random.choice`,
 * `random.randrange(n)`) is the index floor(u * n) of such a draw.
 */
module Genes {
  import opened Wrappers

  /** The concrete gene classes, which differ only in GENETIC_MATERIAL_OPTIONS. */
  datatype Kind = Base | Binary | Base10 | Alphabet | Nucleotide

  /** GENETIC_MATERIAL_OPTIONS of each gene class. */
  function Options(kind: Kind): string {
    match kind
    case Base => ""
    case Binary => "01"
    case Base10 => "0123456789"
    case Alphabet => "ABCDEFGHIJKLMNOPQRSTUVWXYZ"
    case Nucleotide => "ATCG"
  }

  /** `_check_dna`: every character of the DNA belongs to the gene's alphabet. */
  predicate ValidDna(kind: Kind, dna: string) {
    forall i :: 0 <= i < |dna| ==> dna[i] in Options(kind)
  }

  /** The value of a gene object: its class, DNA, suppression flag and name. */
  datatype GeneValue = GeneValue(kind: Kind, dna: string, suppressed: bool, name: Option<string>)

  // ---------------------------------------------------------------------------
  // Draws

  /** A value `random.random()` can return. */
  predicate IsDraw(u: real) {
    0.0 <= u < 1.0
  }

  predicate AllDraws(us: seq<real>) {
    forall i :: 0 <= i < |us| ==> IsDraw(us[i])
  }

  /** The index a uniform choice among `n` items makes with draw `u`. */
  function Pick(u: real, n: nat): (k: nat)
    requires IsDraw(u) && n > 0
    ensures k < n
  {
    var x := u * n as real;
    assert 0.0 <= x < n as real by {
      assert u * n as real <= 1.0 * n as real;
      assert u * n as real < 1.0 * n as real;
    }
    x.Floor
  }

  /** The draw with which a uniform choice among `n` items picks index `k`. */
  lemma PickOf(k: nat, n: nat)
    requires k < n
    ensures IsDraw(k as real / n as real) && Pick(k as real / n as real, n) == k
  {
    var u := k as real / n as real;
    assert u * n as real == k as real;
  }

  /** `random.choice(options)` with draw `u`. */
  function Choice<T>(options: seq<T>, u: real): T
    requires IsDraw(u) && |options| > 0
  {
    options[Pick(u, |options|)]
  }

  // ---------------------------------------------------------------------------
  // create_random

  /** The DNA `create_random` builds from one choice draw per position. */
  function RandomDna(kind: Kind, draws: seq<real>): (dna: string)
    requires AllDraws(draws)
    requires |draws| > 0 ==> |Options(kind)| > 0
    ensures |dna| == |draws| && ValidDna(kind, dna)
  {
    seq(|draws|, i requires 0 <= i < |draws| => Choice(Options(kind), draws[i]))
  }

  // ---------------------------------------------------------------------------
  // BaseGene.mutate

  /** The draws for one position: the mutation draw and the redraws of the symbol loop. */
  datatype SiteDraw = SiteDraw(u: real, redraws: seq<real>)

  /**
   * A loop that draws from `options` until the drawn item differs from `bit` ends on these
   * redraws (BaseGene.mutate redraws a symbol, ReorderingSetChromosome.mutate an index).
   */
  predicate CanRedraw<T(==)>(options: seq<T>, bit: T, redraws: seq<real>) {
    && |options| > 0
    && AllDraws(redraws)
    && exists j :: 0 <= j < |redraws| && Choice(options, redraws[j]) != bit
  }

  /** The item the redraw loop ends with: the first redrawn item unlike `bit`. */
  function Redraw<T(==)>(options: seq<T>, bit: T, redraws: seq<real>): (c: T)
    requires CanRedraw(options, bit, redraws)
    ensures c in options && c != bit
    decreases |redraws|
  {
    if Choice(options, redraws[0]) != bit then Choice(options, redraws[0])
    else
      assert CanRedraw(options, bit, redraws[1..]) by {
        var j :| 0 <= j < |redraws| && Choice(options, redraws[j]) != bit;
        assert redraws[1..][j - 1] == redraws[j];
      }
      Redraw(options, bit, redraws[1..])
  }

  /** The redraw loop ends at the first redraw `k` unlike `bit`, whatever follows. */
  lemma {:induction false} RedrawAt<T>(options: seq<T>, bit: T, redraws: seq<real>, k: nat)
    requires |options| > 0 && AllDraws(redraws) && k < |redraws|
    requires forall j :: 0 <= j < k ==> Choice(options, redraws[j]) == bit
    requires Choice(options, redraws[k]) != bit
    ensures CanRedraw(options, bit, redraws)
    ensures Redraw(options, bit, redraws) == Choice(options, redraws[k])
  {
    if k > 0 {
      var rest := redraws[1..];
      assert rest[k - 1] == redraws[k];
      forall j | 0 <= j < k - 1
        ensures Choice(options, rest[j]) == bit
      {
        assert rest[j] == redraws[j + 1];
      }
      RedrawAt(options, bit, rest, k - 1);
    }
  }

  /** The redraw loop can end only if the alphabet holds a symbol other than `bit`. */
  lemma RedrawNeedsTwoSymbols<T>(options: seq<T>, bit: T, redraws: seq<real>)
    requires bit in options && CanRedraw(options, bit, redraws)
    ensures exists c :: c in options && c != bit
  {
    var j :| 0 <= j < |redraws| && Choice(options, redraws[j]) != bit;
    assert Choice(options, redraws[j]) in options;
  }

  /** Conversely, with a second symbol in the alphabet one redraw can end the loop. */
  lemma RedrawPossible<T>(options: seq<T>, bit: T, k: nat)
    requires k < |options| && options[k] != bit
    ensures CanRedraw(options, bit, [k as real / |options| as real])
  {
    PickOf(k, |options|);
    var rs := [k as real / |options| as real];
    assert Choice(options, rs[0]) == options[k];
  }

  /** What the source asks of the draws for one position of BaseGene.mutate. */
  predicate SiteFits(options: string, bit: char, d: SiteDraw, pMutate: real) {
    IsDraw(d.u) && (d.u < pMutate ==> CanRedraw(options, bit, d.redraws))
  }

  predicate MutationFits(options: string, dna: string, draws: seq<SiteDraw>, pMutate: real) {
    |draws| == |dna| && forall i :: 0 <= i < |dna| ==> SiteFits(options, dna[i], draws[i], pMutate)
  }

  /** BaseGene.mutate as a function of the draws. */
  function MutateDna(options: string, dna: string, draws: seq<SiteDraw>, pMutate: real): (r: string)
    requires MutationFits(options, dna, draws, pMutate)
    ensures |r| == |dna|
    ensures forall i :: 0 <= i < |dna| ==>
      if draws[i].u < pMutate then r[i] in options && r[i] != dna[i] else r[i] == dna[i]
  {
    seq(|dna|, i requires 0 <= i < |dna| =>
      if draws[i].u < pMutate then Redraw(options, dna[i], draws[i].redraws) else dna[i])
  }

  /** Mutation keeps a gene's DNA inside its alphabet. */
  lemma MutateDnaValid(kind: Kind, dna: string, draws: seq<SiteDraw>, pMutate: real)
    requires ValidDna(kind, dna) && MutationFits(Options(kind), dna, draws, pMutate)
    ensures ValidDna(kind, MutateDna(Options(kind), dna, draws, pMutate))
  {
  }

  /** No draw is below 0, so a zero mutation rate changes nothing. */
  lemma MutateDnaZeroRate(options: string, dna: string, draws: seq<SiteDraw>)
    requires MutationFits(options, dna, draws, 0.0)
    ensures MutateDna(options, dna, draws, 0.0) == dna
  {
    var r := MutateDna(options, dna, draws, 0.0);
    forall i | 0 <= i < |dna| ensures r[i] == dna[i] {
      assert IsDraw(draws[i].u);
    }
  }

  // ---------------------------------------------------------------------------
  // BinaryGene.mutate

  /** `'1' if bit == '0' else '0'` */
  function Flip(bit: char): char {
    if bit == '0' then '1' else '0'
  }

  /** The bitwise complement of a binary string. */
  function Complement(dna: string): (r: string)
    ensures |r| == |dna|
  {
    seq(|dna|, i requires 0 <= i < |dna| => Flip(dna[i]))
  }

  /** BinaryGene.mutate as a function of the draws (only the mutation draws are used). */
  function FlipDna(dna: string, draws: seq<SiteDraw>, pMutate: real): (r: string)
    requires |draws| == |dna|
    ensures |r| == |dna|
    ensures forall i :: 0 <= i < |dna| ==> r[i] == if draws[i].u < pMutate then Flip(dna[i]) else dna[i]
  {
    seq(|dna|, i requires 0 <= i < |dna| => if draws[i].u < pMutate then Flip(dna[i]) else dna[i])
  }

  /** On binary DNA each bit is either kept or complemented, and the result stays binary. */
  lemma FlipDnaBits(dna: string, draws: seq<SiteDraw>, pMutate: real)
    requires ValidDna(Binary, dna) && |draws| == |dna|
    ensures ValidDna(Binary, FlipDna(dna, draws, pMutate))
    ensures forall i :: 0 <= i < |dna| ==>
      (FlipDna(dna, draws, pMutate)[i] == dna[i]) != (draws[i].u < pMutate)
  {
    var r := FlipDna(dna, draws, pMutate);
    forall i | 0 <= i < |dna|
      ensures r[i] in Options(Binary) && ((r[i] == dna[i]) != (draws[i].u < pMutate))
    {
      assert dna[i] in "01";
    }
  }

  /** With every draw below the rate the result is the complement. */
  lemma FlipDnaAll(dna: string, draws: seq<SiteDraw>, pMutate: real)
    requires |draws| == |dna|
    requires forall i :: 0 <= i < |draws| ==> draws[i].u < pMutate
    ensures FlipDna(dna, draws, pMutate) == Complement(dna)
  {
  }

  /** Two complete flips restore a binary DNA. */
  lemma ComplementTwice(dna: string)
    requires ValidDna(Binary, dna)
    ensures Complement(Complement(dna)) == dna
  {
    forall i | 0 <= i < |dna| ensures Complement(Complement(dna))[i] == dna[i] {
      assert dna[i] in "01";
    }
  }

  /** A zero rate flips nothing. */
  lemma FlipDnaZeroRate(dna: string, draws: seq<SiteDraw>)
    requires |draws| == |dna| && forall i :: 0 <= i < |draws| ==> IsDraw(draws[i].u)
    ensures FlipDna(dna, draws, 0.0) == dna
  {
  }

  // ---------------------------------------------------------------------------
  // Dispatch of `mutate` by gene class

  /** What the source asks of the draws for `gene.mutate(p_mutate)`. */
  predicate GeneMutationFits(kind: Kind, dna: string, draws: seq<SiteDraw>, pMutate: real) {
    if kind == Binary then |draws| == |dna| && forall i :: 0 <= i < |draws| ==> IsDraw(draws[i].u)
    else MutationFits(Options(kind), dna, draws, pMutate)
  }

  /** The DNA after `gene.mutate(p_mutate)`: BinaryGene flips, every other class redraws. */
  function MutatedDna(kind: Kind, dna: string, draws: seq<SiteDraw>, pMutate: real): (r: string)
    requires GeneMutationFits(kind, dna, draws, pMutate)
  {
    if kind == Binary then FlipDna(dna, draws, pMutate) else MutateDna(Options(kind), dna, draws, pMutate)
  }

  /** Mutation of any gene class keeps the length and the alphabet; a zero rate keeps the DNA. */
  lemma MutatedDnaProperties(kind: Kind, dna: string, draws: seq<SiteDraw>, pMutate: real)
    requires ValidDna(kind, dna) && GeneMutationFits(kind, dna, draws, pMutate)
    ensures |MutatedDna(kind, dna, draws, pMutate)| == |dna|
    ensures ValidDna(kind, MutatedDna(kind, dna, draws, pMutate))
    ensures pMutate <= 0.0 ==> MutatedDna(kind, dna, draws, pMutate) == dna
  {
    if kind == Binary {
      FlipDnaBits(dna, draws, pMutate);
    } else {
      MutateDnaValid(kind, dna, draws, pMutate);
      var r := MutateDna(Options(kind), dna, draws, pMutate);
      if pMutate <= 0.0 {
        forall i | 0 <= i < |dna| ensures r[i] == dna[i] {
          assert IsDraw(draws[i].u);
        }
      }
    }
  }

  // ---------------------------------------------------------------------------
  // Gene objects

  /** A gene object (BaseGene and its subclasses); `kind` stands for the object's class. */
  class Gene {
    const kind: Kind
    var dna: string
    var suppressed: bool
    var name: Option<string>

    ghost predicate Valid()
      reads this
    {
      ValidDna(kind, dna)
    }

    function Value(): GeneValue
      reads this
    {
      GeneValue(kind, dna, suppressed, name)
    }

    /** `__init__` checks the DNA against the alphabet before storing anything. */
    constructor (kind: Kind, dna: string, suppressed: bool, name: Option<string>)
      requires ValidDna(kind, dna)
      ensures Valid() && Value() == GeneValue(kind, dna, suppressed, name)
    {
      this.kind := kind;
      this.dna := dna;
      this.suppressed := suppressed;
      this.name := name;
    }

    /** `create_random`: one uniform alphabet choice per position. */
    static method CreateRandom(kind: Kind, length: nat, draws: seq<real>, suppressed: bool, name: Option<string>)
      returns (g: Gene)
      requires |draws| == length && AllDraws(draws)
      requires length > 0 ==> |Options(kind)| > 0
      ensures fresh(g) && g.Valid()
      ensures g.Value() == GeneValue(kind, RandomDna(kind, draws), suppressed, name)
      ensures |g.dna| == length
    {
      var dna := RandomDna(kind, draws);
      g := new Gene(kind, dna, suppressed, name);
    }

    /** The `length` property. */
    function Length(): nat
      reads this
    {
      |dna|
    }

    /** The `dna` setter: the new DNA is checked, then stored; nothing else changes. */
    method SetDna(newDna: string)
      requires ValidDna(kind, newDna)
      modifies this`dna
      ensures Valid()
      ensures dna == newDna
    {
      dna := newDna;
    }

    /** `mutate`: BinaryGene overrides the redrawing mutation of BaseGene with bit flips. */
    method Mutate(pMutate: real, draws: seq<SiteDraw>)
      requires Valid() && GeneMutationFits(kind, dna, draws, pMutate)
      modifies this`dna
      ensures Valid()
      ensures dna == MutatedDna(kind, old(dna), draws, pMutate)
    {
      MutatedDnaProperties(kind, dna, draws, pMutate);
      if kind == Binary {
        MutateBinary(pMutate, draws);
      } else {
        MutateBase(pMutate, draws);
      }
    }

    /** The loop `while new_bit == bit: new_bit = random.choice(options)` of BaseGene.mutate. */
    static method RedrawLoop<T(==)>(options: seq<T>, bit: T, redraws: seq<real>) returns (newBit: T)
      requires CanRedraw(options, bit, redraws)
      ensures newBit == Redraw(options, bit, redraws)
      ensures newBit in options && newBit != bit
    {
      newBit := bit;
      var k := 0;
      while newBit == bit
        invariant 0 <= k <= |redraws|
        invariant forall j :: 0 <= j < k - 1 ==> Choice(options, redraws[j]) == bit
        invariant k == 0 ==> newBit == bit
        invariant k > 0 ==> newBit == Choice(options, redraws[k - 1])
        decreases |redraws| - k
      {
        if k == |redraws| {
          assert false;
        }
        newBit := Choice(options, redraws[k]);
        k := k + 1;
      }
      RedrawAt(options, bit, redraws, k - 1);
    }

    /** BaseGene.mutate: a selected position redraws until the symbol changes. */
    method MutateBase(pMutate: real, draws: seq<SiteDraw>)
      requires Valid() && kind != Binary && MutationFits(Options(kind), dna, draws, pMutate)
      modifies this`dna
      ensures dna == MutateDna(Options(kind), old(dna), draws, pMutate)
    {
      var options := Options(kind);
      var current := dna;
      ghost var target := MutateDna(options, current, draws, pMutate);
      MutateDnaValid(kind, current, draws, pMutate);
      var newDna: string := [];
      var i := 0;
      while i < |current|
        invariant 0 <= i <= |current|
        invariant newDna == target[..i]
        invariant unchanged(this)
      {
        var bit := current[i];
        if draws[i].u < pMutate {
          bit := RedrawLoop(options, bit, draws[i].redraws);
        }
        newDna := newDna + [bit];
        i := i + 1;
      }
      assert newDna == target;
      SetDna(newDna);
    }

    /** BinaryGene.mutate: a selected bit is complemented. */
    method MutateBinary(pMutate: real, draws: seq<SiteDraw>)
      requires Valid() && kind == Binary && |draws| == |dna|
      modifies this`dna
      ensures dna == FlipDna(old(dna), draws, pMutate)
    {
      ghost var target := FlipDna(dna, draws, pMutate);
      FlipDnaBits(dna, draws, pMutate);
      var newDna: string := [];
      var i := 0;
      while i < |dna|
        invariant 0 <= i <= |dna|
        invariant newDna == target[..i]
      {
        var bit := dna[i];
        if draws[i].u < pMutate {
          bit := if bit == '0' then '1' else '0';
        }
        newDna := newDna + [bit];
        i := i + 1;
      }
      SetDna(newDna);
    }

    /** `copy`: a new gene of the same class with equal DNA, suppression flag and name. */
    method Copy() returns (g: Gene)
      requires Valid()
      ensures fresh(g) && g.Valid() && g.Value() == Value()
    {
      g := new Gene(kind, dna, suppressed, name);
    }
  }
}
