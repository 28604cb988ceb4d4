# ga — a verified model of a small genetic-algorithm library

This project models, in Dafny, the core of `ga`, a Python library for genetic algorithms. It covers the following parts:

- **genes** (`ga/genes.py`): a gene holds a DNA string over its class's alphabet: binary, base-10, upper-case alphabet or nucleotides. The constructor and the `dna` setter check the DNA. `mutate` either redraws a symbol until it changes or, for binary genes, flips a bit. `copy` duplicates a gene.
- **chromosomes** (`ga/chromosomes.py`): a chromosome is an ordered list of gene objects.
  - The `dna` property joins the genes' DNA. Its setter hands consecutive slices back to the genes.
  - `crossover` splices two DNA strings at a point.
  - `mutate` offers the mutation to every gene.
  - `ReorderingSetChromosome` keeps a fixed set of distinct gene DNAs. It mutates by swapping two genes, and crosses over by moving the gene the partner has at the crossover point.
- **translators** (`ga/translators.py`): binary and decimal integers, the signed binary floating-point encoding, and `translate_chromosome`.
- **util** (`ga/util.py`): the fitness-weighted cumulative probabilities of a sorted population, and the choice of an element by such probabilities.
- **the engine** (`ga/algorithms.py`):
  - `compete`: survival by a blend of the position in the all-time fitness range and in the current one;
  - `reproduce`: fitness-weighted parent choice, with crossover with a random mate;
  - `mutate` and `refresh`;
  - the generation loop of `run`: new-best detection, the elitist step, `quit_after`, `refresh_after`, the per-generation records, and `should_terminate`.
- **two clients**:
  - `IrrigationGA` (`ga/examples/irrigation.py`): places a sprinkler on a crop map. It covers map parsing, reach, the out-of-map penalty, the bounding-box crop count, the fitness cache and the drawn map.
  - `BiggestMultipleGA` (`ga/examples/biggest_multiple.py`): looks for the largest common multiple of some factors that a binary gene can encode.

Randomness is passed in as draws:
- every `random.random()` is a real number in [0, 1);
- every `random.choice` or `random.randrange(n)` is the index `floor(u * n)` of such a draw.

`run` takes an `Oracle`, a record of functions that supply each generation's draws. Python `assert`s become preconditions. Most `int(...)` calls that Python would reject, and most list indices that would raise `IndexError`, become `None`. One exception: in the reordering crossover, a point past the partner's DNA makes `chromosome.genes[other_gene_idx]` raise. That case is a precondition, and the engine only draws points inside the DNA.

Gene and chromosome objects are classes whose methods update them in place. Each method is proved against a function on values (`GeneValue`, `Chrom`), and the lemmas are proved about those functions. The engine is a class whose population is a sequence of chromosome values. Its operations update its fields, and each is proved against a specification function. The irrigation and biggest-multiple clients are classes with their own state: the fitness cache, and the `found_best` flag.

Module layout:
- `wrappers.dfy`: `Option`.
- `genes.dfy`, `chromosomes.dfy`, `translators.dfy`, `util.dfy`: the library modules.
- `ranking.dfy`: the stable sort and `max`/`min` by key that the engine relies on.
- `competition.dfy`, `reproduction.dfy`, `bookkeeping.dfy`: the steps of a generation, as functions.
- `algorithms.dfy`: the engine class.
- `irrigation.dfy`, `biggest_multiple.dfy`: the two clients.

## Model

| member | source | states |
|---|---|---|
| Genes.Pick | ga/genes.py:74 | a uniform choice among n items picks an index below n |
| Genes.PickOf | ga/genes.py:74 | every index k < n is picked by the draw k / n, so every item can be chosen |
| Genes.RandomDna | ga/genes.py:16-25 | `create_random` yields one symbol per draw, every one in the class's alphabet |
| Genes.Redraw | ga/genes.py:71-75 | the redraw loop ends with a symbol of the alphabet that differs from the old one |
| Genes.RedrawAt | ga/genes.py:73-74 | the loop ends at the first redraw whose symbol differs, whatever draws follow |
| Genes.RedrawNeedsTwoSymbols | ga/genes.py:73-74 | the loop can end only if the alphabet has a second symbol |
| Genes.RedrawPossible | ga/genes.py:73-74 | with a second symbol in the alphabet, a single redraw can end the loop |
| Genes.MutateDna | ga/genes.py:61-79 | length kept; a position whose draw is under the rate gets a different symbol of the alphabet, every other position is unchanged |
| Genes.MutateDnaValid | ga/genes.py:61-88 | redrawing mutation keeps the DNA inside the alphabet, so the setter's `_check_dna` passes |
| Genes.MutateDnaZeroRate | ga/genes.py:70 | at rate 0 no draw is below the rate and the DNA is unchanged |
| Genes.FlipDnaBits | ga/genes.py:104-116 | on binary DNA every bit is kept or complemented and the result stays binary |
| Genes.FlipDnaAll | ga/genes.py:104-116 | when every draw is under the rate, the result is the complement |
| Genes.ComplementTwice | ga/genes.py:112 | complementing twice restores binary DNA |
| Genes.FlipDnaZeroRate | ga/genes.py:111 | at rate 0 no bit flips |
| Genes.MutatedDnaProperties | ga/genes.py:61-116 | mutation of any gene class keeps the length and the alphabet, and a zero rate keeps the DNA |
| Genes.Gene.constructor | ga/genes.py:27-40 | a gene with checked DNA and the given suppression flag and name |
| Genes.Gene.CreateRandom | ga/genes.py:15-25 | a fresh valid gene of the requested length whose DNA is the one the draws choose |
| Genes.Gene.SetDna | ga/genes.py:52-59 | DNA accepted by the alphabet check is stored |
| Genes.Gene.Mutate | ga/genes.py:61-116 | the new DNA is the mutation of the old by the gene's class (flip for binary, redraw otherwise), and the gene stays valid |
| Genes.Gene.RedrawLoop | ga/genes.py:71-75 | the loop's result is the first differing redraw, in the alphabet and unlike the old symbol |
| Genes.Gene.MutateBase | ga/genes.py:61-79 | the new DNA is the redrawing mutation of the old |
| Genes.Gene.MutateBinary | ga/genes.py:104-116 | the new DNA is the bit-flip mutation of the old |
| Genes.Gene.Copy | ga/genes.py:81-83 | a fresh gene with equal class, DNA, suppression flag and name |
| Chromosomes.JoinedAppend | ga/chromosomes.py:21-23 | the joined DNA of two gene lists is the concatenation of their joined DNAs |
| Chromosomes.JoinedSplit | ga/chromosomes.py:21-23 | the joined DNA is the genes before k, then gene k, then the genes after k |
| Chromosomes.JoinedAt | ga/chromosomes.py:21-23 | character t of gene k sits at that gene's offset plus t in the chromosome's DNA |
| Chromosomes.SetGenes | ga/chromosomes.py:26-45 | after the setter the genes keep class and length, the joined DNA is the new DNA, and nothing but the DNA of a gene changes |
| Chromosomes.SetGenesAt | ga/chromosomes.py:40-45 | gene k receives the slice of the new DNA at its offset |
| Chromosomes.SetGenesStep | ga/chromosomes.py:42-45 | one pass of the setter's loop: gene k takes the slice from its offset to the next gene's |
| Chromosomes.SetGenesSame | ga/chromosomes.py:26-45 | setting the DNA a chromosome already has changes nothing |
| Chromosomes.SetGenesShape | ga/chromosomes.py:26-45 | setting the DNA of a same-shaped gene list gives each gene its partner's DNA |
| Chromosomes.SetGenesTwice | ga/chromosomes.py:26-45 | a later assignment of the DNA replaces an earlier one completely |
| Chromosomes.WithDna | ga/chromosomes.py:26-45 | the chromosome after the setter has exactly the new DNA, the same class, same-shaped valid genes, and changes no gene's other fields |
| Chromosomes.WithOwnDna | ga/chromosomes.py:26-45 | assigning a chromosome's own DNA is allowed and leaves it as it was |
| Chromosomes.WithDnaTwice | ga/chromosomes.py:26-45 | two assignments of the DNA act like the second one alone |
| Chromosomes.WithDnaRestore | ga/chromosomes.py:26-45 | assigning the old DNA back restores the chromosome |
| Chromosomes.Splice | ga/chromosomes.py:68-69 | `x[:p] + y[p:]` keeps the length and takes each character from x before p and from y after it |
| Chromosomes.Crossover | ga/chromosomes.py:52-72 | the two new DNAs are the two splices at the point, and each chromosome keeps its gene shape |
| Chromosomes.CrossoverExchanges | ga/chromosomes.py:68-72 | at every position the two characters are kept or exchanged: none is lost or invented |
| Chromosomes.CrossoverInvolution | ga/chromosomes.py:52-72 | crossing the offspring again at the same point gives back the parents |
| Chromosomes.CrossoverEnds | ga/chromosomes.py:68-72 | at point 0 the DNAs are exchanged whole; at or past the end nothing changes |
| Chromosomes.CrossoverSettable | ga/chromosomes.py:67-72 | chromosomes of one shape with valid genes pass crossover's assertions and every gene's `_check_dna` |
| Chromosomes.MixSettable | ga/chromosomes.py:71-72 | DNA that takes each character from one of two valid same-shaped gene lists is valid for both |
| Chromosomes.MixChar | ga/chromosomes.py:71-72 | each character a gene receives from a mixed DNA comes from that gene in one of the two lists |
| Chromosomes.Swap | ga/chromosomes.py:125-127 | positions i and j exchange their genes and every other position is unchanged |
| Chromosomes.SwapPermutes | ga/chromosomes.py:125-129 | the swap is a permutation and keeps the set of gene DNAs, so `_check_genes` still passes |
| Chromosomes.SwapMutate | ga/chromosomes.py:115-129 | the swap mutation is a permutation that keeps the set of DNAs, and with a draw at or above the rate nothing changes |
| Chromosomes.SwapMutateExchanges | ga/chromosomes.py:117-127 | a swap mutation exchanges exactly two distinct genes |
| Chromosomes.LocateGene | ga/chromosomes.py:133-141 | the located gene is the first one whose end lies past the point |
| Chromosomes.LocateGeneSpans | ga/chromosomes.py:133-141 | the located gene's slice of the DNA holds the point; a point past the end locates no gene |
| Chromosomes.FindDna | ga/chromosomes.py:144-150 | the search finds the first gene with the given DNA, or the gene count if there is none |
| Chromosomes.ReorderCrossoverNoMatch | ga/chromosomes.py:144-152 | when no gene has the partner's DNA, the crossover is allowed at any point inside the partner's DNA, whatever the partner's length, and leaves the chromosome as it was |
| Chromosomes.ReorderCrossover | ga/chromosomes.py:131-152 | the reordering crossover is a permutation of the genes that keeps the chromosome complete, so `_check_genes` passes |
| Chromosomes.ReorderCrossoverAt | ga/chromosomes.py:144-150 | the result is the swap of the found gene with the gene at the located index |
| Chromosomes.ReorderCrossoverInherits | ga/chromosomes.py:131-152 | afterwards the gene at the located index has the DNA the partner has there |
| Chromosomes.CompleteShared | ga/chromosomes.py:108-113 | complete chromosomes over the same choices share every gene DNA, so the search always finds one |
| Chromosomes.MutateChrom | ga/chromosomes.py:74-83 | mutation keeps the chromosome's class and number of genes |
| Chromosomes.FitsLength | ga/algorithms.py:173 | a chromosome of a layout has DNA to cross: `randrange(0, length)` has a value |
| Chromosomes.SwapKeepsLayout | ga/chromosomes.py:125-129 | exchanging two genes keeps a reordering chromosome in its uniform layout |
| Chromosomes.MutateFits | ga/chromosomes.py:74-129 | mutation of either chromosome class keeps the chromosome in its layout |
| Chromosomes.MutateZeroRate | ga/chromosomes.py:74-129 | a zero mutation rate changes no chromosome |
| Chromosomes.CrossoverFirst | ga/chromosomes.py:52-152 | the crossed copy keeps its chromosome class |
| Chromosomes.SpliceCrossoverFits | ga/chromosomes.py:52-72 | crossover of two chromosomes of one layout passes its assertions and keeps the layout |
| Chromosomes.ReorderCrossoverFits | ga/chromosomes.py:131-152 | the reordering crossover at a point inside the DNA passes its assertions and keeps the layout |
| Chromosomes.CrossoverFits | ga/chromosomes.py:52-152 | two chromosomes of one layout can always be crossed at a point inside their DNA, and the result keeps the layout |
| Chromosomes.WithDnaFits | ga/chromosomes.py:26-45 | a chromosome can take the DNA of another of its layout, gene by gene, and stays in the layout |
| Chromosomes.LocateIndex | ga/chromosomes.py:133-141 | the first loop of the reordering crossover computes LocateGene |
| Chromosomes.FindIndex | ga/chromosomes.py:144-150 | the search loop of the reordering crossover computes FindDna |
| Chromosomes.Chromosome.ValidValue | ga/chromosomes.py:17-18 | the gene values of valid gene objects are valid |
| Chromosomes.Chromosome.constructor | ga/chromosomes.py:11-18 | a chromosome over the given gene objects |
| Chromosomes.Chromosome.Reordering | ga/chromosomes.py:102-106 | a reordering chromosome over distinct choices |
| Chromosomes.Chromosome.SetDna | ga/chromosomes.py:26-45 | the chromosome's value becomes WithDna of the old value: consecutive slices go to the genes |
| Chromosomes.Chromosome.AssignSlices | ga/chromosomes.py:40-45 | after the setter's loop the gene objects' values are SetGenes of their old values: each holds its slice of the new DNA and keeps its class, suppression flag and name |
| Chromosomes.Chromosome.AssignNext | ga/chromosomes.py:42-45 | one pass of the loop gives gene k the value SetGenes assigns it, leaves the later genes as they were, and advances the offset by the gene's length |
| Chromosomes.Chromosome.ApartSymmetric | ga/algorithms.py:172-174 | sharing no gene object is a symmetric relation between the two crossed copies |
| Chromosomes.Chromosome.SetDnaBeside | ga/chromosomes.py:71-72 | setting one chromosome's DNA leaves a chromosome that shares no gene object with it untouched |
| Chromosomes.Chromosome.SpliceCrossover | ga/chromosomes.py:52-72 | both chromosomes take the values of Crossover of their old values |
| Chromosomes.Chromosome.SwapCopies | ga/chromosomes.py:125-127 | positions i and j hold copies of each other's genes; the rest is unchanged |
| Chromosomes.Chromosome.SwappedCopies | ga/chromosomes.py:125-127 | the new gene list has distinct objects whose values are the swapped old values |
| Chromosomes.Chromosome.ReorderingCrossover | ga/chromosomes.py:131-152 | the chromosome's value becomes ReorderCrossover of the old values |
| Chromosomes.Chromosome.MutateGenes | ga/chromosomes.py:74-83 | the chromosome's value becomes MutateChrom of the old value, one gene after the other |
| Chromosomes.Chromosome.SwapMutation | ga/chromosomes.py:115-129 | the chromosome's value becomes the swap mutation of the old value |
| Chromosomes.Chromosome.CopyGenes | ga/chromosomes.py:86-87 | fresh, distinct gene copies with the same values |
| Chromosomes.Chromosome.Copy | ga/chromosomes.py:85-88 | a fresh chromosome of the same class and value over fresh gene objects |
| Translators.DigitChar | ga/translators.py:48 | every digit value below the base has a digit character that reads back as it |
| Translators.NumeralValue | ga/translators.py:48 | a numeral of n digits is worth less than radix ** n |
| Translators.ParseInt | ga/translators.py:48 | on text over the gene alphabets, `int(s, radix)` yields a value exactly when s is a non-empty string of digits of the base, and the value fits its width |
| Translators.Numeral | ga/translators.py:48 | every number below radix ** width is written with exactly `width` digits |
| Translators.NumeralRoundTrip | ga/translators.py:48 | reading a written numeral gives back the number |
| Translators.NumeralValueRoundTrip | ga/translators.py:48 | writing the value of a numeral at its own width gives back the numeral: decoding is one-to-one at a fixed width |
| Translators.Pow10 | ga/translators.py:97 | 10 ** e is positive for every integer exponent |
| Translators.Scaled | ga/translators.py:97 | `base * 10 ** exponent` has the sign of base |
| Translators.BinaryIntValue | ga/translators.py:46-48 | the binary translator decodes exactly the binary numerals, below 2 ** length |
| Translators.Base10IntValue | ga/translators.py:104-105 | the decimal translator decodes exactly the decimal numerals, below 10 ** length |
| Translators.Signed | ga/translators.py:85-95 | a sign character '0' keeps the magnitude positive and any other character negates it |
| Translators.BinaryFloatValue | ga/translators.py:65-97 | the float decoding yields a value exactly when the sign, significand and exponent fields are present and binary |
| Translators.TranslateGene | ga/translators.py:46-105 | the float translator yields reals, the integer translators integers |
| Translators.TranslateGenes | ga/translators.py:30-39 | one product per gene, in gene order; it fails exactly when some gene fails |
| Translators.TranslateChromosome | ga/translators.py:30-39 | `translate_chromosome` gives one product per gene, in order, and fails exactly when some gene fails |
| Translators.IntTranslatorsTotal | ga/translators.py:46-105 | a valid non-empty binary or decimal gene always decodes, below base ** length |
| Translators.BinaryIntRoundTrip | ga/translators.py:46-48 | every unsigned integer below 2 ** width is the binary value of the DNA that writes it |
| Translators.Base10IntRoundTrip | ga/translators.py:104-105 | every number below 10 ** width is read back from its decimal DNA |
| Translators.BinaryFloatExample | ga/translators.py:78-83 | the documented example "001111" with significand length 3 decodes to 0.3 (signed), and to 0.1 unsigned |
| Translators.FloatDna | ga/translators.py:65-97 | the encoding of sign, significand, exponent sign and exponent has length len + expWidth + 2 |
| Translators.BinaryFloatRoundTrip | ga/translators.py:65-97 | signed decoding of an encoded value is sign * significand * 10 ** (± exponent) |
| Translators.UnsignedSkipsOneBit | ga/translators.py:89-95 | in unsigned mode the bit after the significand is read by no field |
| Util.Fitnesses | ga/util.py:15 | the fitness of each chromosome, in order |
| Util.MinFit | ga/util.py:16 | `min` is an element no other element is below |
| Util.MaxFit | ga/util.py:17 | `max` is an element no other element exceeds |
| Util.Cdf | ga/util.py:15-24 | one probability per chromosome, each in [0, 1] |
| Util.UnitShare | ga/util.py:22 | i / n lies in (0, 1] and is 1 only for i = n |
| Util.Scale | ga/util.py:24 | (fit - min) / range lies in [0, 1], is 0 exactly at the minimum and 1 exactly at the maximum |
| Util.ComputeFitnessCdf | ga/util.py:4-24 | the chromosomes come back sorted by fitness as a permutation, with one probability in [0, 1] each |
| Util.CdfUniform | ga/util.py:19-22 | with equal fitnesses the probabilities are (i+1)/n: strictly increasing and ending at 1 |
| Util.CdfLinear | ga/util.py:24 | otherwise each probability is the fitness's position in the range: 0 exactly at the minimum, 1 exactly at the maximum |
| Util.CdfMonotone | ga/util.py:24 | a fitter chromosome never gets a smaller probability |
| Util.CdfSorted | ga/util.py:13-24 | over the sorted population the probabilities are non-decreasing and end at 1, and start at 0 when the fitnesses differ |
| Util.FirstExceeding | ga/util.py:41-46 | the chosen index is the first whose probability exceeds the draw |
| Util.WeightedChoice | ga/util.py:27-46 | the loop returns the element at the first probability exceeding the draw, or nothing if none does |
| Util.ChoiceFromCdf | ga/util.py:4-46 | against the probabilities of a sorted population the checks pass and an element is always chosen, never a weakest one when fitnesses differ |
| Util.UniformChoice | ga/util.py:19-22 | with equal fitnesses the weighted choice is the uniform choice with the same draw |
| Util.PickBounds | ga/genes.py:74 | the uniform pick is the integer part of the draw times n |
| Util.FirstExceedingAt | ga/util.py:41-46 | the first exceeding index is characterised by its two defining facts |
| Ranking.Insert | ga/algorithms.py:78-84 | insertion into a sorted list yields a sorted permutation with the element added |
| Ranking.SortBy | ga/algorithms.py:78-84 | `sort` yields the chromosomes in ascending fitness order, as a permutation |
| Ranking.InsertStable | ga/algorithms.py:78-84 | the inserted element goes after every element of its own key |
| Ranking.SortStable | ga/algorithms.py:78-84 | the sort is stable: elements of equal fitness keep their relative order |
| Ranking.FittestIndex | ga/algorithms.py:70-72 | `max(key=...)` picks the first element of greatest fitness |
| Ranking.WeakestIndex | ga/algorithms.py:74-76 | `min(key=...)` picks the first element of least fitness |
| Ranking.SortedFirstWeakest | ga/algorithms.py:258-259 | after sorting, the first chromosome has the least fitness |
| Ranking.SortedLastFittest | ga/algorithms.py:99-101 | after sorting, the last chromosome has the greatest fitness |
| Competition.Lowered | ga/algorithms.py:103-104 | the all-time minimum becomes the smaller of the old one and the current minimum |
| Competition.Raised | ga/algorithms.py:105-106 | the all-time maximum becomes the larger of the old one and the current maximum |
| Competition.RatioBounds | ga/algorithms.py:115-116 | a fitness inside a range lies at a position in [0, 1] of it, and the position is 1 when the range is zero |
| Competition.SurvivalBounds | ga/algorithms.py:108-121 | the survival probability lies in [0, 1], and is 1 when the all-time range is zero |
| Competition.Blend | ga/algorithms.py:121 | a weighted blend of two positions in [0, 1] lies between 0 and the sum of the weights |
| Competition.KeptIndices | ga/algorithms.py:113-124 | the kept positions ascend, and a position is kept exactly when its draw is under its probability |
| Competition.Select | ga/algorithms.py:124 | the kept chromosomes are those at the kept positions, in order |
| Competition.KeptStep | ga/algorithms.py:123-124 | one more pass appends the chromosome exactly when its draw is under its probability |
| Competition.KeptSelects | ga/algorithms.py:112-124 | the survivor list the loop builds is the population at the kept positions |
| Competition.KeptAny | ga/algorithms.py:123-126 | somebody survives exactly when some draw is under its probability |
| Competition.SurvivorsShape | ga/algorithms.py:112-130 | `compete` returns a non-empty, order-preserving sub-list, or the whole population when no draw succeeds |
| Competition.AllSurvive | ga/algorithms.py:115-130 | with every probability 1 every chromosome survives |
| Competition.AllKept | ga/algorithms.py:112-124 | when every draw succeeds every position is kept |
| Competition.ProbabilitiesBounds | ga/algorithms.py:99-121 | once the all-time extremes enclose the current ones every probability lies in [0, 1] |
| Competition.ChooseSurvivors | ga/algorithms.py:112-130 | the survivor loop computes Survivors |
| Reproduction.FitsSameLength | ga/algorithms.py:173 | chromosomes of one layout have DNA of one length, so the crossover point fits the mate |
| Reproduction.SortedPopulation | ga/util.py:13 | sorting the survivors keeps them in the layout |
| Reproduction.FitnessesSorted | ga/util.py:13-15 | the fitnesses of the sorted survivors ascend |
| Reproduction.ParentIndex | ga/algorithms.py:166 | the weighted parent choice always picks a survivor |
| Reproduction.ParentNotWeakest | ga/algorithms.py:160-166 | when the survivors' fitnesses differ, the chosen parent is never a weakest one |
| Reproduction.Child | ga/algorithms.py:164-176 | every offspring keeps the layout |
| Reproduction.ChildCopies | ga/algorithms.py:166 | without crossover the offspring is a copy of a survivor, and never of a weakest one when fitnesses differ |
| Reproduction.ChildCrosses | ga/algorithms.py:168-174 | with crossover the offspring is the parent crossed with a survivor at a point inside the DNA |
| Reproduction.Offspring | ga/algorithms.py:163-176 | one offspring per draw, all in the layout |
| Reproduction.OffspringStep | ga/algorithms.py:164-176 | one more pass appends the child of the next draw |
| Reproduction.ReproducedShape | ga/algorithms.py:132-178 | `reproduce` yields `max(len(survivors), target_size)` chromosomes: the survivors first (sorted, otherwise untouched), all in the layout |
| Algorithms.Mutated | ga/algorithms.py:180-189 | mutating a population keeps its size |
| Algorithms.MutatedPopulation | ga/algorithms.py:180-189 | mutation keeps every chromosome in the layout, and a zero rate changes none |
| Algorithms.SurvivorsPopulation | ga/algorithms.py:112-130 | the survivors are a non-empty population of the layout |
| Algorithms.ElitistProperties | ga/algorithms.py:256-259 | the elitist step keeps size and layout: a weakest chromosome takes the DNA of the best, and the rest of the sorted population is as it was |
| Algorithms.RecordsExtend | ga/algorithms.py:271-273 | recording a generation extends the three records by that generation |
| Algorithms.RecordsKeep | ga/algorithms.py:261-263 | a generation that quits leaves the records as they were |
| Algorithms.RunStateStep | ga/algorithms.py:261-276 | the loop stops after a step exactly when the step quit or `should_terminate` held |
| Algorithms.PopulationDrawsFit | ga/algorithms.py:188-189 | a generation's mutation draws fit every chromosome of the population |
| Algorithms.OracleOffspringOk | ga/algorithms.py:164-174 | a generation's offspring draws are draws |
| Algorithms.GeneticAlgorithm.constructor | ga/algorithms.py:15-63 | the weights lie in [0, 1] and sum to 1; the original population size is kept; nothing is recorded yet |
| Algorithms.GeneticAlgorithm.GetFittest | ga/algorithms.py:70-72 | a chromosome of the population with the greatest fitness |
| Algorithms.GeneticAlgorithm.GetWeakest | ga/algorithms.py:74-76 | a chromosome of the population with the least fitness |
| Algorithms.GeneticAlgorithm.Compete | ga/algorithms.py:86-130 | the population is sorted, the all-time extremes take in the current ones, and the survivors are Survivors of those probabilities and draws |
| Algorithms.GeneticAlgorithm.Sort | ga/algorithms.py:78-84 | the population becomes its stable sort by fitness |
| Algorithms.GeneticAlgorithm.WidenRange | ga/algorithms.py:103-106 | the all-time extremes take in the current minimum and maximum |
| Algorithms.GeneticAlgorithm.Reproduce | ga/algorithms.py:132-178 | the result is Reproduced of the survivors and draws |
| Algorithms.GeneticAlgorithm.Offspring1 | ga/algorithms.py:165-176 | one pass of the loop makes Child of its draw |
| Algorithms.GeneticAlgorithm.Mutate | ga/algorithms.py:180-189 | the population becomes Mutated of the old one |
| Algorithms.GeneticAlgorithm.Refresh | ga/algorithms.py:191-198 | the population becomes its mutation at the rate 0.5 |
| Algorithms.GeneticAlgorithm.Generation | ga/algorithms.py:240-242 | compete, reproduce and mutate: the population and the all-time extremes become Bred of the old ones. The old population is sorted, the extremes take in its extremes, and the survivors are Survivors of its probabilities and draws |
| Algorithms.GeneticAlgorithm.Breed | ga/algorithms.py:241-242 | the population becomes the mutation of Reproduced of the survivors; the extremes and records are unchanged |
| Algorithms.GeneticAlgorithm.Bred | ga/algorithms.py:240-242 | a generation's compete, reproduce and mutate lead from a state with a non-empty population of the layout to another such state with its extremes set |
| Algorithms.GeneticAlgorithm.Kept | ga/algorithms.py:256-269 | the elitist step and the refresh keep the population's size and layout and leave the all-time extremes alone |
| Algorithms.GeneticAlgorithm.KeepElite | ga/algorithms.py:256-259 | the population becomes Elitist of the old one |
| Algorithms.GeneticAlgorithm.Record | ga/algorithms.py:271-273 | the records gain the generation's fittest, its fitness and the best fitness so far |
| Algorithms.GeneticAlgorithm.NextGeneration | ga/algorithms.py:239-273 | one generation follows the step Next: the generation's fittest is the fittest of the bred population, the engine and the overall fittest evolve as Evolves says (Bred, then Kept), and the records are booked by the step |
| Algorithms.GeneticAlgorithm.Bookkeep | ga/algorithms.py:245-273 | the generation's fittest is the fittest of the mutated population; the population becomes Kept of it: the elitist overwrite when there is no new best, the refresh when Next says so; new-best generations and records follow Next |
| Algorithms.GeneticAlgorithm.JudgeStep | ga/algorithms.py:245-259 | the new best, counter and new-best generations are those of the step Next; without a new best the elitist step runs when enabled |
| Algorithms.GeneticAlgorithm.Judge | ga/algorithms.py:245-259 | a fitter generation's fittest becomes the best; otherwise the counter grows and the elitist step runs |
| Algorithms.GeneticAlgorithm.Settle | ga/algorithms.py:261-273 | quit exactly when the counter reached `quit_after`; otherwise refresh when it reached `refresh_after`, then record. The population becomes its mutation at 0.5 exactly when refreshing, and stays as it was otherwise |
| Algorithms.GeneticAlgorithm.Advance | ga/algorithms.py:239-276 | one pass of `run`'s loop extends the trace by one step, keeps the records in agreement with it, and appends the next engine state and overall fittest to the evolution |
| Algorithms.GeneticAlgorithm.Pass | ga/algorithms.py:239-276 | one generation of the loop appends Next to the trace, and the engine and overall fittest evolve from the old state as Evolves says |
| Algorithms.GeneticAlgorithm.Generations | ga/algorithms.py:239-276 | the loop runs all generations unless a quit or `should_terminate` stops it; the engine states start at the initial one, each evolves from the one before, and the last is the final state |
| Algorithms.GeneticAlgorithm.Run | ga/algorithms.py:200-280 | `run` follows Trace over the generations' fittest fitnesses; it stops early only on a quit or `should_terminate`, returns a chromosome of the best fitness seen, and keeps records that agree with the trace. The engine states of the generations start at the initial population with no extremes, each evolves from the one before (Evolution), and the last is the final population |
| Algorithms.GeneticAlgorithm.EvolutionExtend | ga/algorithms.py:239-276 | a generation that evolves from the last state extends the run's evolution |
| Algorithms.GeneticAlgorithm.EvolutionFitAt | ga/algorithms.py:239-248 | in a run's evolution, each generation's traced fitness is that of the fittest chromosome bred from the state before it |
| Algorithms.GeneticAlgorithm.EvolutionLast | ga/algorithms.py:239-248 | the same for the last generation of the run |
| Algorithms.GeneticAlgorithm.StartRun | ga/algorithms.py:226-237 | the records are cleared, the all-time extremes are reset, and the overall fittest is the population's fittest |
| Bookkeeping.Next | ga/algorithms.py:248-269 | a generation is a new best exactly when it beats the best so far; the best never decreases and is one of the two fitnesses; a quit is never a refresh |
| Bookkeeping.Recorded | ga/algorithms.py:261-273 | every generation is recorded except a last one that quit |
| Bookkeeping.TraceAt | ga/algorithms.py:239-269 | each step of the trace is Next of the one before it |
| Bookkeeping.TraceExtend | ga/algorithms.py:239-269 | one more generation appends one step |
| Bookkeeping.BestAt | ga/algorithms.py:248-250 | the best fitness so far is at least the initial fitness and every fitness up to now, and is one of them |
| Bookkeeping.UpsetIsRecord | ga/algorithms.py:248-251 | a generation is a new best exactly when it beats the initial fittest and every earlier generation |
| Bookkeeping.UpsetGenerationsIncrease | ga/algorithms.py:251 | `new_fittest_generations` is strictly increasing and holds exactly the new-best generations |
| Bookkeeping.CounterSteps | ga/algorithms.py:252-269 | a new best or a refresh resets the counter, otherwise it grows by one |
| Bookkeeping.CounterCountsStagnation | ga/algorithms.py:248-254 | without refresh the counter is the number of generations since the last new best |
| Bookkeeping.RefreshBoundsCounter | ga/algorithms.py:265-269 | with `refresh_after` r > 0 the counter stays below r |
| Bookkeeping.QuitOnStagnation | ga/algorithms.py:261-263 | a run quits only after q generations without a new best |
| Irrigation.Lead | ga/examples/irrigation.py:73 | the whitespace `strip` removes from the front |
| Irrigation.Trail | ga/examples/irrigation.py:73 | the whitespace `strip` removes from the back |
| Irrigation.Strip | ga/examples/irrigation.py:73 | `strip` leaves text that neither starts nor ends with whitespace |
| Irrigation.StripIsTrim | ga/examples/irrigation.py:73 | `strip` keeps a contiguous piece and removes only whitespace |
| Irrigation.StripTrimmed | ga/examples/irrigation.py:73 | stripping already-trimmed text changes nothing |
| Irrigation.StripLine | ga/examples/irrigation.py:72-73 | a trimmed row with its line break strips back to the row |
| Irrigation.SplitFacts | ga/examples/irrigation.py:71-72 | the lines of a text concatenate back to it, one per line break, each ending at its only break |
| Irrigation.LinesOfText | ga/examples/irrigation.py:71-72 | the lines `StringIO` yields reassemble the text, and there is one per break plus an unfinished last line |
| Irrigation.StripAll | ga/examples/irrigation.py:72-73 | one stripped row per line, in order |
| Irrigation.MapstrToList | ga/examples/irrigation.py:67-75 | `mapstr_to_list` yields the stripped lines of the map string |
| Irrigation.SplitJoined | ga/examples/irrigation.py:71-72 | rows joined with line breaks read back as the rows with breaks, the last one unfinished |
| Irrigation.MapRoundTrip | ga/examples/irrigation.py:67-75 | `mapstr_to_list` of trimmed rows joined by line breaks gives the rows back |
| Irrigation.ReachesSymmetric | ga/examples/irrigation.py:78-90 | reach does not depend on which point is the sprinkler |
| Irrigation.ReachesIsDistance | ga/examples/irrigation.py:88-90 | the squared comparison agrees with `sqrt(dx² + dy²) <= r` |
| Irrigation.ReachInBox | ga/examples/irrigation.py:146-151 | every reached cell lies in the square the bounding box scans |
| Irrigation.ReachesOwnCell | ga/examples/irrigation.py:78-90 | the sprinkler reaches its own cell |
| Irrigation.SliceIndex | ga/examples/irrigation.py:153-154 | a Python slice bound clamps into [0, n] and leaves in-range bounds alone |
| Irrigation.RowCount | ga/examples/irrigation.py:154-156 | a row segment holds no more reached crops than cells |
| Irrigation.RowInBox | ga/examples/irrigation.py:150-156 | cutting a row to the columns around the sprinkler loses no reached crop |
| Irrigation.BoxIsWholeMap | ga/examples/irrigation.py:146-156 | inside the map the bounding-box count equals the count over the whole map |
| Irrigation.OwnCropCounted | ga/examples/irrigation.py:155-160 | a sprinkler on a crop counts that crop, so subtracting it cannot go below 0 |
| Irrigation.OutOfBoundsPenalty | ga/examples/irrigation.py:133-141 | a placement beyond the map scores minus w·h for each coordinate beyond it |
| Irrigation.InBoundsFitness | ga/examples/irrigation.py:143-163 | a placement on the map scores the reached crops of the whole map less the one it stands on, never negative |
| Irrigation.OutOfBoundsLoses | ga/examples/irrigation.py:133-163 | every placement beyond the map scores below every placement on it |
| Irrigation.Placement | ga/examples/irrigation.py:130 | the coordinates are the binary values of exactly two binary genes |
| Irrigation.FitnessOfDna | ga/examples/irrigation.py:126-130 | a chromosome's fitness depends only on its DNA, which makes caching by DNA sound |
| Irrigation.PaintedRow | ga/examples/irrigation.py:172-182 | each cell becomes the marker for its kind and reach |
| Irrigation.PyIndex | ga/examples/irrigation.py:184 | Python indexing: negative counts from the end, out of range raises |
| Irrigation.SprinklerGrid | ga/examples/irrigation.py:170-184 | the drawn map has the map's shape |
| Irrigation.MapShowsFitness | ga/examples/irrigation.py:120-186 | on the map, the drawn watered-crop markers number exactly the fitness |
| Irrigation.IrrigationGA.constructor | ga/examples/irrigation.py:94-118 | keeps the map and dimensions, parses the rows and starts an empty, sound cache |
| Irrigation.IrrigationGA.CountCrops | ga/examples/irrigation.py:143-156 | the nested loops count the reached crops of the sliced bounding box |
| Irrigation.IrrigationGA.EvalFitness | ga/examples/irrigation.py:120-163 | the result is the chromosome's fitness whether it is cached or not; new fitnesses are cached and the cache stays sound |
| Irrigation.IrrigationGA.FreshFitness | ga/examples/irrigation.py:129-163 | the fitness computed without the cache |
| Irrigation.IrrigationGA.MapSprinkler | ga/examples/irrigation.py:165-186 | `map_sprinkler` draws SprinklerMap |
| BiggestMultiple.Dividing | ga/examples/biggest_multiple.py:54-58 | at most every factor divides the number |
| BiggestMultiple.ScoreCounts | ga/examples/biggest_multiple.py:54-58 | the score is (dividing − failing) factors, lies in [−k, k], and is k exactly when every factor divides the number |
| BiggestMultiple.Product | ga/examples/biggest_multiple.py:62 | the product of factors ≥ 1 is at least 1 |
| BiggestMultiple.ProductIsCommonMultiple | ga/examples/biggest_multiple.py:62 | the product is a common multiple of the factors |
| BiggestMultiple.LeastCommonMultiple | ga/examples/biggest_multiple.py:62-64 | the least positive common multiple exists, divides by every factor, and is at most the product |
| BiggestMultiple.OptimumIsLargest | ga/examples/biggest_multiple.py:61-66 | the corrected test holds exactly when the number is a common multiple and no larger one is encodable |
| BiggestMultiple.OptimumWithinAsWritten | ga/examples/biggest_multiple.py:61-66 | whenever the corrected test holds, the test as written holds too |
| BiggestMultiple.AsWrittenStopsEarly | ga/examples/biggest_multiple.py:61-66 | the product test stops on 8 for factors 2 and 4 with 4 bits, although 12 is a larger common multiple |
| BiggestMultiple.FitnessSign | ga/examples/biggest_multiple.py:71 | the fitness is 0 for 0 and otherwise has the sign of the score |
| BiggestMultiple.Ones | ga/examples/biggest_multiple.py:39 | `'1' * n` is n ones |
| BiggestMultiple.OnesValue | ga/examples/biggest_multiple.py:39 | `int('1' * n, 2)` is 2 ** n − 1, the largest encodable value |
| BiggestMultiple.BiggestMultipleGA.constructor | ga/examples/biggest_multiple.py:21-41 | one-gene chromosomes and factors ≥ 1; `max_encoded_val` is 2 ** length − 1; no best found yet |
| BiggestMultiple.BiggestMultipleGA.ScoreOf | ga/examples/biggest_multiple.py:54-58 | the score loop computes Score |
| BiggestMultiple.BiggestMultipleGA.EvalFitness | ga/examples/biggest_multiple.py:43-71 | the fitness is score · number / max_encoded_val, and `found_best` is set exactly when the (corrected) optimum test holds |
| BiggestMultiple.BiggestMultipleGA.ShouldTerminate | ga/examples/biggest_multiple.py:73-74 | stopping implies that a largest encodable common multiple was found |

## Left out

- Random numbers: every call to Python's `random` module is a draw passed in by the caller. The model proves what holds for all draws; it says nothing about distributions.
- Floating point: fitnesses, probabilities and the float translator use exact reals.
  - `float(base * 10 ** exponent)` rounds in Python and is exact here.
  - `1e999999999` (infinity) is the `Infinite` marker of the all-time extremes.
  - `math.sqrt` in `sprinkler_reaches_cell` becomes a comparison of squares (`ReachesIsDistance` shows the two agree on exact reals).
- `time.time()`, `run_time_s` and every `print` are left out: they are output, not state that any operation reads.
- `ga/examples/polynomials.py`, `ga/examples/travelling_salesman.py`, the example `run()` drivers, `ga/examples/__init__.py`, `__str__` and `__iter__` are not part of this model.
- `eval_fitness` of the engine is a function parameter, and so is `should_terminate`. BiggestMultipleGA and IrrigationGA are modelled as their own classes and do not subclass the engine, because Dafny classes cannot override methods without traits.
- Algorithms.GeneticAlgorithm.Run: in the source the initial `overall_fittest = self.get_fittest()` is not copied, so a mutation in the first generation can change that object while `overall_fittest_fit` keeps its old value. The model keeps chromosomes as values, so this aliasing is not captured.
- Algorithms.GeneticAlgorithm.constructor: the population must fit one layout, meaning the same chromosome class and the same gene classes and lengths throughout. Python accepts any list of chromosomes, including plain chromosomes whose genes split the DNA differently; crossover between such chromosomes is not modelled.
- Translators.ParseInt: Python's `int(s, base)` also accepts surrounding whitespace, a sign, underscores between digits, a base prefix such as `0b`, and non-ASCII digits. The model reads only text over the gene alphabets, which is all a gene's DNA can hold.
- Reordering chromosomes in the engine are limited to layouts whose genes all share one class and length. The elitist `dna` setter does not call `_check_genes`, and with unequal gene lengths it could leave the set of DNAs incomplete.
- Irrigation.IrrigationGA.EvalFitness: a DNA that does not decode, or a lookup that raises `IndexError`, gives `None` and is not cached. This is where Python raises.
- Irrigation.Marks: the markers of `map_sprinkler` are single characters, as the defaults are.
- BiggestMultiple.BiggestMultipleGA.constructor: the translator argument and the remaining arguments forwarded to the engine are not modelled; the class always uses the binary integer translator.
- BiggestMultiple.BiggestMultipleGA.EvalFitness: the optimum test uses the least common multiple rather than the product of the factors (see Findings).
- Translators.BinaryFloatValue: Python's docstring says a sign bit of 0 is negative; the code treats '0' as positive and the model follows the code.

## Findings

| source | as written | input that shows it | evidently intended | confidence | as-written member | corrected member |
|---|---|---|---|---|---|---|
| ga/examples/biggest_multiple.py:61-66 | the run stops when `number + product(factors) > max_encoded_val` | factors [2, 4] with a 4-bit gene (max 15): number 8 passes the test, yet 12 is a larger common multiple ≤ 15 | stop only when no larger common multiple is encodable, i.e. compare against the least common multiple | not executed | BiggestMultiple.AsWrittenStopsEarly | BiggestMultiple.OptimumIsLargest |
