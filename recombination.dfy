/**
 * Single-point crossover. The mating pool is read in consecutive pairs; the
 * crossover point of each pair is drawn in [1, indivSize), where indivSize
 * is the length of the first chromosome. The points are passed in as
 * `cps`, one per pair.
 */
module Recombination {
  import opened Genome

  /** What the crossover loop needs of its inputs so that no index or slice fails. */
  predicate ValidCrossover(pop: Population, parents: seq<int>, cps: seq<nat>)
  {
    && |pop| > 0
    && |parents| <= 2 * |pop|
    && |cps| == |parents| / 2
    && (forall n :: 0 <= n < 2 * |cps| ==> 0 <= parents[n] < |pop|)
    && forall k :: 0 <= k < |cps| ==>
         && 1 <= cps[k] < |pop[0]|
         && cps[k] <= |pop[parents[2 * k]]|
         && cps[k] <= |pop[parents[2 * k + 1]]|
  }

  /** The child of pair k: the first parent up to the crossover point, then the second. */
  function Child(pop: Population, parents: seq<int>, cps: seq<nat>, k: nat): seq<int>
    requires ValidCrossover(pop, parents, cps) && k < |cps|
  {
    var cp := cps[k];
    pop[parents[2 * k]][..cp] + pop[parents[2 * k + 1]][cp..]
  }

  /** The `child` variable after the first n steps: the last child built, or the initial zero row. */
  function LastChild(pop: Population, parents: seq<int>, cps: seq<nat>, n: nat): seq<int>
    requires ValidCrossover(pop, parents, cps) && n <= |parents|
  {
    if n < 2 then Zeros(|pop[0]|) else Child(pop, parents, cps, n / 2 - 1)
  }

  /**
   * Slot k of the children after the first n steps. Every step n writes slot
   * n / 2: odd steps write a new child, even steps a copy of the previous one.
   */
  function SlotAfter(pop: Population, parents: seq<int>, cps: seq<nat>, n: nat, k: nat): seq<int>
    requires ValidCrossover(pop, parents, cps) && n <= |parents|
  {
    if k < n / 2 then Child(pop, parents, cps, k)
    else if k == n / 2 && n % 2 == 1 then LastChild(pop, parents, cps, n)
    else []
  }

  /**
   * The new population: one child per pair of the pool, in pair order, and
   * empty rows for slots no pair reaches. An odd pool leaves its last slot
   * holding the previous child (the zero row when the pool has one entry).
   */
  function Offspring(pop: Population, parents: seq<int>, cps: seq<nat>): (children: Population)
    requires ValidCrossover(pop, parents, cps)
    ensures |children| == |pop|
    ensures forall k :: 0 <= k < |parents| / 2 ==>
              && |children[k]| == |pop[parents[2 * k + 1]]|
              && children[k][..cps[k]] == pop[parents[2 * k]][..cps[k]]
              && children[k][cps[k]..] == pop[parents[2 * k + 1]][cps[k]..]
    ensures forall k :: (|parents| + 1) / 2 <= k < |pop| ==> children[k] == []
    ensures |parents| % 2 == 1 ==>
              children[|parents| / 2] ==
                (if |parents| == 1 then Zeros(|pop[0]|) else children[|parents| / 2 - 1])
  {
    var children := seq(|pop|, k requires 0 <= k < |pop| => SlotAfter(pop, parents, cps, |parents|, k));
    assert forall k :: 0 <= k < |parents| / 2 ==> children[k] == Child(pop, parents, cps, k);
    children
  }

  /**
   * The crossover loop: a pass over the pool that builds each pair's child at
   * its second entry and stores the current child at slot n / 2 at every step.
   */
  method Crossover(pop: Population, parents: seq<int>, cps: seq<nat>) returns (children: Population)
    requires ValidCrossover(pop, parents, cps)
    ensures children == Offspring(pop, parents, cps)
  {
    children := seq(|pop|, _ => []);
    var child := Zeros(|pop[0]|);
    var crosspoint := 0;
    for n := 0 to |parents|
      invariant |children| == |pop|
      invariant child == LastChild(pop, parents, cps, n)
      invariant forall k :: 0 <= k < |pop| ==> children[k] == SlotAfter(pop, parents, cps, n, k)
    {
      if n % 2 == 1 {
        crosspoint := cps[n / 2];
        var parent1 := pop[parents[n - 1]];
        var parent2 := pop[parents[n]];
        child := parent1[0..crosspoint] + parent2[crosspoint..];
      }
      children := children[n / 2 := child];
    }
  }

  /**
   * With a pool of two entries per individual, every slot holds its pair's
   * child, and a well-formed population of chromosomes of at least two genes
   * breeds a well-formed population.
   */
  lemma FullPoolKeepsShape(pop: Population, parents: seq<int>, cps: seq<nat>, popSize: nat, univSize: nat)
    requires WellFormed(pop, popSize, univSize) && popSize > 0
    requires |parents| == 2 * popSize
    requires forall n :: 0 <= n < |parents| ==> 0 <= parents[n] < popSize
    requires |cps| == popSize && forall k :: 0 <= k < popSize ==> 1 <= cps[k] < univSize
    ensures ValidCrossover(pop, parents, cps)
    ensures WellFormed(Offspring(pop, parents, cps), popSize, univSize)
    ensures forall k :: 0 <= k < popSize ==> Offspring(pop, parents, cps)[k] == Child(pop, parents, cps, k)
  {
  }
}
