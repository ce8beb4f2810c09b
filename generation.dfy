/**
 * One breeding step of the generation loop, composed from the operators:
 * capture the elite, select the mating pool, cross over, mutate, and put the
 * elite back.
 */
module Generation {
  import opened Genome
  import opened Selection
  import opened Recombination
  import opened Mutation
  import opened Elitism

  /** The random draws of one breeding step. */
  predicate ValidStepDraws(popSize: nat, univSize: nat, draws: seq<Draw>, cps: seq<nat>, sites: seq<Site>)
  {
    && |draws| == 2 * popSize && ValidDraws(draws, popSize)
    && |cps| == popSize && (forall k :: 0 <= k < popSize ==> 1 <= cps[k] < univSize)
    && forall k :: 0 <= k < |sites| ==> 0 <= sites[k].individual < popSize && 0 <= sites[k].allele < univSize
  }

  /**
   * The next population from a well-formed one and its fitness: it has the
   * same number of chromosomes, all of the same length and binary, and it
   * holds the elite of the previous generation.
   */
  function NextPopulation(pop: Population, fit: seq<real>, popSize: nat, univSize: nat,
                          draws: seq<Draw>, cps: seq<nat>, sites: seq<Site>): (next: Population)
    requires WellFormed(pop, popSize, univSize) && |fit| == popSize
    requires 0 <= FirstMaxAbove(fit, MaxFitFloor)
    requires ValidStepDraws(popSize, univSize, draws, cps, sites)
    ensures WellFormed(next, popSize, univSize)
    ensures pop[FirstMaxAbove(fit, MaxFitFloor)] in next
  {
    var best := pop[FirstMaxAbove(fit, MaxFitFloor)];
    var parents := seq(2 * popSize, k requires 0 <= k < 2 * popSize => Tournament(fit, draws[k]));
    FullPoolKeepsShape(pop, parents, cps, popSize, univSize);
    var children := Offspring(pop, parents, cps);
    MutationKeepsShape(children, sites, popSize, univSize);
    var mutated := MutateAll(children, sites);
    var next := WithElite(mutated, best, fit);
    assert forall i :: 0 <= i < |next| ==> next[i] == mutated[i] || next[i] == best;
    next
  }
}
