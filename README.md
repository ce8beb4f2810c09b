# Genetic bundle search: operator layer in Dafny

This project models the operator layer of a genetic algorithm. The algorithm
searches a product catalog for a bundle whose total price is close to a target
price and which covers many product families. A chromosome is a sequence of
0/1 genes. Gene i says whether the product whose code is at position i of the
sorted code list is in the bundle. The modelled operators are:

- building the sorted code list and the random initial population;
- decoding a chromosome into its price and its per-family product counts;
- picking the best individual;
- size-2 tournament selection;
- single-point crossover;
- in-place mutation;
- elitism.

Every random draw of the program is a parameter of the model:

- gene draws are reals in [0, 1);
- tournament draws are index pairs;
- crossover points are given per pair;
- mutation sites are (individual, gene) cells.

Fitness values are only compared, so they are `real`s.

Modules, one per component:

- `Genome` (genome.dfy): catalog records, chromosomes, the program's constants
  (16 products, 40 individuals, the fitness thresholds -10e9 and 10e9), and the
  zero-value catalog lookup.
- `Encoding` (encoding.dfy): `ChooseCodes`, `BuildGene`,
  `BuildInitialPopulation`, `Contains`.
- `Decoding` (decoding.dfy): `QuantifyChromosome` and the spec functions for
  price and family distribution.
- `Selection` (selection.dfy): `GetBestIndividual`, `Tournament`,
  `SelectParents`.
- `Recombination` (recombination.dfy): `Offspring` (spec) and `Crossover`
  (the loop).
- `Mutation` (mutation.dfy): `MutateAll` (spec) and `Mutate` (in place on an
  array).
- `Elitism` (elitism.dfy): `EqualSlices`, `WorstIndex`, `WithElite` (spec)
  and `InsertBestIndividual` (in place on an array).
- `Generation` (generation.dfy): one breeding step composed from the
  operators above.

Each loop of the program is a method. Its `ensures` either states the result
outright or ties it to a specification function. Lemmas and the functions'
own contracts then prove what the program promises about those functions.
In-place operators work on `array<seq<int>>`: the outer slice is the array,
and each row is a sequence value.

Where the code and the prose description of the system differ, the model
follows the code:

- The count of mutations comes from the constant population and universe
  sizes, not from the population's length.
- The crossover loop writes a child slot at every step of the pool, not only
  at the end of each pair.
- Selection and elitism compare fitness against the sentinels -10e9 and
  10e9.

## Model

| member | source | states |
|---|---|---|
| `Encoding.SortInts` | genetic.go:99 | the integer sort returns an ascending permutation (equal multisets) of its input |
| `Encoding.InsertSorted` | genetic.go:99 | inserting into an ascending sequence keeps it ascending and adds exactly the one element |
| `Encoding.AscendingSetIsStrict` | genetic.go:94-101 | an ascending permutation of a set of keys is strictly ascending (no code is listed twice) |
| `Encoding.ChooseCodes` | genetic.go:94-101 | the code list is strictly ascending and holds exactly the catalog's keys; the size argument plays no part |
| `Encoding.StrictlyAscendingUnique` | genetic.go:94-101 | two strictly ascending lists with the same codes are equal, so the catalog alone fixes every bit position |
| `Encoding.BuildGene` | genetic.go:108-114 | a chromosome of `univSize` binary genes; gene i is 1 exactly when its draw is at least 0.5 (randEnabled, genetic.go:85-90) |
| `Encoding.BuildInitialPopulation` | genetic.go:125-131 | `sz` chromosomes, each of `univSize` binary genes, gene (i, j) set exactly when its draw is at least 0.5 |
| `Encoding.Contains` | genetic.go:116-123 | true exactly when `n` occurs in the slice |
| `Decoding.QuantifyChromosome` | genetic.go:136-151 | the price is the sum of the prices of the included products; the family map has a key exactly for each family with an included product, its value counts those products, and the values add up to the number of included genes; an unknown code reads as family 0, price 0 |
| `Decoding.FamiliesCountProducts` | genetic.go:136-151 | for every family f: f is a key of the distribution iff some included product has family f, and its count equals the number of such products |
| `Decoding.FamiliesTotal` | genetic.go:136-151 | the family counts add up to the number of included genes |
| `Decoding.PriceBounds` | genetic.go:136-151 | with catalog prices in [0, maxPrice) (as the catalog generator draws them, genetic.go:80), the bundle price is non-negative, 0 for an empty bundle, and below maxPrice times the number of included products |
| `Decoding.EmptyBundle` | genetic.go:136-151 | no included gene iff an empty family distribution, and then the price is 0 (the case the fitness function treats as a sentinel) |
| `Decoding.TwoOfFourBundle` | genetic.go:136-151 | codes 10..40 of families 0,1,0,1 priced 3000: chromosome [1,1,0,0] has price 6000 and distribution {0:1, 1:1} |
| `Selection.FirstMaxAbove` | genetic.go:199-208 | the scan yields -1 iff no fitness exceeds the floor; otherwise the first index of the maximum fitness, which exceeds the floor |
| `Selection.GetBestIndividual` | genetic.go:199-211 | a slice of length len(pop[0]) copied from the first fittest individual; equal to that individual when all chromosomes have the same length |
| `Selection.Tournament` | genetic.go:231-240 | the winner is one of the two drawn indices, its fitness is at least the other's, and on a tie it is the first drawn |
| `Selection.SelectParents` | genetic.go:217-244 | 2 * popSize winners in [0, popSize), the k-th being the tournament winner of the k-th draw of two distinct indices |
| `Selection.TournamentPressure` | genetic.go:233-240 | an individual strictly worse than all others never wins a tournament; one strictly better than all others wins every tournament it is drawn into |
| `Selection.TwoIndividuals` | genetic.go:233-240 | with fitnesses [5.0, 10.0] every tournament selects index 1 |
| `Recombination.Offspring` | genetic.go:246-271 | len(pop) children; child k is the first parent of pair k up to its crossover point followed by the second parent from that point, as long as the second parent; unreached slots are empty; an odd pool leaves its last slot holding the previous child |
| `Recombination.Crossover` | genetic.go:246-271 | the loop that writes slot n/2 at every step of the pool builds exactly the offspring above |
| `Recombination.FullPoolKeepsShape` | genetic.go:257-269 | with a pool of 2 * popSize entries and points in [1, univSize), every slot holds its pair's child and the children are popSize binary chromosomes of univSize genes |
| `Mutation.Flip` | genetic.go:282-287 | 0 and 1 swap, every other value is left alone |
| `Mutation.MutateAt` | genetic.go:277-287 | one step changes only the chosen cell, flipping it, and no row length |
| `Mutation.MutateAll` | genetic.go:273-289 | a pass keeps the number of rows and every row length |
| `Mutation.MutationParity` | genetic.go:273-289 | after a pass each cell holds its old gene flipped once per time it was drawn; a 0/1 gene changed iff its cell was drawn an odd number of times |
| `Mutation.MutationKeepsShape` | genetic.go:273-289 | a pass keeps a well-formed population well-formed (same size, same row length, binary genes) |
| `Mutation.Mutate` | genetic.go:273-289 | the in-place pass over MutationCount(popSize * univSize) drawn cells leaves the array equal to the pass applied to its old contents |
| `Elitism.EqualSlices` | genetic.go:291-302 | true exactly when the lengths match and the slices agree at every index |
| `Elitism.FirstMinBelow` | genetic.go:308-315 | the scan yields -1 iff no fitness is below the ceiling; otherwise the first index of the minimum fitness |
| `Elitism.WorstIndex` | genetic.go:308-315 | the slot for the elite: the first index of minimum fitness, or 0 when every fitness is at least 10e9 |
| `Elitism.WithElite` | genetic.go:306-327 | the result holds the elite; it is the old population when a row already equals the elite, otherwise only the worst slot changes and it becomes the elite |
| `Elitism.InsertBestIndividual` | genetic.go:306-327 | the in-place step leaves the array equal to the population with the elite put back |
| `Generation.NextPopulation` | genetic.go:404-424 | selection, crossover, mutation and elitism take a well-formed population to a well-formed one of the same size that contains the previous generation's best chromosome |

## Left out

- Reading and writing the product file, CSV parsing, `os.Exit` and `log.Fatal`
  (genetic.go:35-69, 357-376): file I/O.
- `calculateFitness` and `averageFit` (genetic.go:158-184, 349-355): `float64`
  arithmetic with rounding. Fitness is an input of the model.
- `mapUniverse`, `randEnabled`'s generator and `rndInt` (genetic.go:71-90): the
  pseudo-random source. Each draw is a parameter that lies in the range
  `rndInt` or `rand.Float64` gives.
- `evaluatePopulation` and `decodePopulation` (genetic.go:186-196, 330-346):
  loops over the decoder that only feed console output.
- `main` (genetic.go:378-430): the driver loop, its statistics and printing.
  Only one breeding step is composed, in `Generation.NextPopulation`.
- Map iteration order in `ChooseCodes`: the keys are collected in an arbitrary
  order and then sorted, so the order does not reach the result.
- `SelectParents`: the redraw loop for the second index is summarised by its
  first accepted draw, which differs from the first index. With a population
  of one, no such draw exists and the program never terminates; such inputs
  fail the precondition.
- Fitness as `real`: NaN and infinities of `float64` are not modelled.
- `Mutate`: `int(0.05 * nrGenes)` is modelled as `nrGenes / 20`, which is the
  same value for the program's 640 genes (32 mutations).
- Go slice aliasing: rows are values here. `getBestIndividual` and
  `insertBestIndivual` copy their slices, so this makes no difference for
  them. An odd-length pool in `crossover` leaves two slots sharing one slice;
  the model gives both slots equal values, but a later in-place mutation of
  one would also change the other in the program.
- `Crossover`: Go can reslice past a row's length up to its capacity. The model
  requires each crossover point to lie within both parents' lengths.
