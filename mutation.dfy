/**
 * In-place mutation: a fixed number of randomly chosen cells of the
 * population have their gene flipped. The chosen cells are passed in as
 * `sites`, in the order they are drawn; a cell may be chosen repeatedly.
 */
module Mutation {
  import opened Genome

  /** One drawn cell: a row of the population and a gene position in it. */
  datatype Site = Site(individual: int, allele: int)

  /** A 0 becomes 1, a 1 becomes 0, any other value stays as it is. */
  function Flip(g: int): (h: int)
    ensures h == g <==> g != 0 && g != 1
    ensures (g == 0 || g == 1) ==> h == 1 - g
  {
    if g == 0 then 1 else if g == 1 then 0 else g
  }

  predicate Fits(pop: Population, s: Site)
  {
    0 <= s.individual < |pop| && 0 <= s.allele < |pop[s.individual]|
  }

  predicate SitesFit(pop: Population, sites: seq<Site>)
  {
    forall k :: 0 <= k < |sites| ==> Fits(pop, sites[k])
  }

  /** Same number of rows, each of the same length. */
  predicate SameShape(p: Population, q: Population)
  {
    |p| == |q| && forall i :: 0 <= i < |p| ==> |p[i]| == |q[i]|
  }

  /** One mutation step: only the chosen cell changes, and it is flipped. */
  function MutateAt(pop: Population, s: Site): (r: Population)
    requires Fits(pop, s)
    ensures SameShape(r, pop)
    ensures r[s.individual][s.allele] == Flip(pop[s.individual][s.allele])
    ensures forall i, j :: 0 <= i < |r| && 0 <= j < |r[i]| && (i != s.individual || j != s.allele) ==>
              r[i][j] == pop[i][j]
  {
    var row := pop[s.individual];
    pop[s.individual := row[s.allele := Flip(row[s.allele])]]
  }

  /** The whole pass: the steps applied in the order the cells were drawn. */
  function MutateAll(pop: Population, sites: seq<Site>): (r: Population)
    requires SitesFit(pop, sites)
    ensures SameShape(r, pop)
  {
    if sites == [] then pop
    else
      var q := MutateAll(pop, sites[..|sites| - 1]);
      MutateAt(q, sites[|sites| - 1])
  }

  /** How many times cell (i, j) was drawn. */
  function Hits(sites: seq<Site>, i: int, j: int): nat
  {
    if sites == [] then 0
    else Hits(sites[..|sites| - 1], i, j) + (if sites[|sites| - 1] == Site(i, j) then 1 else 0)
  }

  /**
   * After a pass, each cell holds its old gene flipped once per time it was
   * drawn: a 0/1 gene changes exactly when its cell was drawn an odd number
   * of times, and any other value never changes.
   */
  lemma {:induction false} MutationParity(pop: Population, sites: seq<Site>, i: int, j: int)
    requires SitesFit(pop, sites)
    requires 0 <= i < |pop| && 0 <= j < |pop[i]|
    ensures MutateAll(pop, sites)[i][j] ==
              if Hits(sites, i, j) % 2 == 0 then pop[i][j] else Flip(pop[i][j])
    ensures (pop[i][j] == 0 || pop[i][j] == 1) ==>
              (MutateAll(pop, sites)[i][j] != pop[i][j] <==> Hits(sites, i, j) % 2 == 1)
  {
    if sites != [] {
      var init := sites[..|sites| - 1];
      MutationParity(pop, init, i, j);
      var q := MutateAll(pop, init);
      var s := sites[|sites| - 1];
      assert MutateAll(pop, sites) == MutateAt(q, s);
    }
  }

  /** A pass keeps every chromosome binary and of the same length. */
  lemma MutationKeepsShape(pop: Population, sites: seq<Site>, popSize: nat, univSize: nat)
    requires WellFormed(pop, popSize, univSize) && SitesFit(pop, sites)
    ensures WellFormed(MutateAll(pop, sites), popSize, univSize)
  {
  }

  /**
   * Number of mutations for a population of `nrGenes` genes at probability
   * 0.05: the truncation of 0.05 * nrGenes.
   */
  function MutationCount(nrGenes: nat): nat
  {
    nrGenes / 20
  }

  /**
   * The mutation pass over `popSize` rows of at least `univSize` genes each:
   * the number of steps is fixed by those sizes, not by the array's length.
   */
  method Mutate(pop: array<seq<int>>, popSize: nat, univSize: nat, sites: seq<Site>)
    requires popSize <= pop.Length
    requires forall i :: 0 <= i < popSize ==> univSize <= |pop[i]|
    requires |sites| == MutationCount(popSize * univSize)
    requires forall k :: 0 <= k < |sites| ==>
               0 <= sites[k].individual < popSize && 0 <= sites[k].allele < univSize
    modifies pop
    ensures SitesFit(old(pop[..]), sites)
    ensures pop[..] == MutateAll(old(pop[..]), sites)
  {
    ghost var start := pop[..];
    assert SitesFit(start, sites);
    for i := 0 to |sites|
      invariant SitesFit(start, sites[..i])
      invariant pop[..] == MutateAll(start, sites[..i])
    {
      assert sites[..i + 1][..i] == sites[..i];
      var individual := sites[i].individual;
      var allele := sites[i].allele;
      var gene := pop[individual][allele];
      if gene == 0 {
        pop[individual] := pop[individual][allele := 1];
      } else if gene == 1 {
        pop[individual] := pop[individual][allele := 0];
      } else {
        assert pop[individual][allele := gene] == pop[individual];
      }
      assert pop[..] == MutateAt(MutateAll(start, sites[..i]), sites[i]);
    }
    assert sites[..|sites|] == sites;
  }
}
