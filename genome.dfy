/**
 * Shared vocabulary of the genetic search: the product catalog, chromosomes
 * (bit-vectors indexed against a sorted code list) and populations.
 */
module Genome {

  /** Catalog entry of one product: its family (category) and its price in cents. */
  datatype Product = Product(family: int, price: int)

  /** The universe of products, keyed by product code. */
  type Catalog = map<int, Product>

  /** One gene per position of the code list; 1 means the product is in the bundle. */
  type Chromosome = seq<int>

  type Population = seq<Chromosome>

  /** The program's fixed universe and population sizes. */
  const UnivSize: nat := 16
  const PopSize: nat := 40

  /** A fitness above this floor is needed before an individual can be the best one. */
  const MaxFitFloor: real := -10000000000.0
  /** A fitness below this ceiling is needed before an individual can be the worst one. */
  const MinFitCeiling: real := 10000000000.0

  /**
   * Reading a code from the catalog as a map index does: a missing code
   * yields the zero record (family 0, price 0).
   */
  function Lookup(univ: Catalog, code: int): Product
  {
    if code in univ then univ[code] else Product(0, 0)
  }

  predicate IsBinary(c: Chromosome)
  {
    forall i :: 0 <= i < |c| ==> c[i] == 0 || c[i] == 1
  }

  /** `popSize` chromosomes, each of `univSize` genes, all 0 or 1. */
  predicate WellFormed(pop: Population, popSize: nat, univSize: nat)
  {
    && |pop| == popSize
    && forall i :: 0 <= i < |pop| ==> |pop[i]| == univSize && IsBinary(pop[i])
  }

  /** A row of `n` zeros, as a freshly made integer slice. */
  function Zeros(n: nat): (z: seq<int>)
    ensures |z| == n
    ensures forall i :: 0 <= i < n ==> z[i] == 0
  {
    if n == 0 then [] else Zeros(n - 1) + [0]
  }
}
