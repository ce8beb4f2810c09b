/**
 * Selection: the best individual of a generation, and size-2 tournament
 * selection of the mating pool. Fitness values are only compared, so they
 * are modelled as reals.
 */
module Selection {
  import opened Genome

  /**
   * The scan of the best-individual search: the first index holding the
   * greatest fitness, among fitnesses strictly above `floor`; -1 when none is.
   */
  function FirstMaxAbove(fit: seq<real>, floor: real): (i: int)
    ensures -1 <= i < |fit|
    ensures i == -1 <==> forall j :: 0 <= j < |fit| ==> fit[j] <= floor
    ensures i >= 0 ==> floor < fit[i]
    ensures i >= 0 ==> forall j :: 0 <= j < |fit| ==> fit[j] <= fit[i]
    ensures i >= 0 ==> forall j :: 0 <= j < i ==> fit[j] < fit[i]
  {
    if fit == [] then -1
    else
      var i := FirstMaxAbove(fit[..|fit| - 1], floor);
      var maxFit := if i == -1 then floor else fit[i];
      if fit[|fit| - 1] > maxFit then |fit| - 1 else i
  }

  /** A fresh slice of `n` zeros with `src` copied over its first elements. */
  function CopyInto(n: nat, src: seq<int>): (dst: seq<int>)
    ensures |dst| == n
  {
    if n <= |src| then src[..n] else src + Zeros(n - |src|)
  }

  /**
   * A copy of the first fittest individual, in a slice as long as the first
   * chromosome. When all chromosomes have that length it is the individual itself.
   */
  method GetBestIndividual(pop: Population, fit: seq<real>) returns (best: Chromosome)
    requires |pop| > 0
    requires 0 <= FirstMaxAbove(fit, MaxFitFloor) < |pop|
    ensures |best| == |pop[0]|
    ensures best == CopyInto(|pop[0]|, pop[FirstMaxAbove(fit, MaxFitFloor)])
    ensures (forall k :: 0 <= k < |pop| ==> |pop[k]| == |pop[0]|) ==>
              best == pop[FirstMaxAbove(fit, MaxFitFloor)]
  {
    var maxFit := MaxFitFloor;
    var indxMax := -1;
    best := Zeros(|pop[0]|);
    for i := 0 to |fit|
      invariant indxMax == FirstMaxAbove(fit[..i], MaxFitFloor)
      invariant maxFit == if indxMax == -1 then MaxFitFloor else fit[indxMax]
    {
      assert fit[..i + 1][..i] == fit[..i];
      if fit[i] > maxFit {
        maxFit := fit[i];
        indxMax := i;
      }
    }
    assert fit[..|fit|] == fit;
    best := CopyInto(|best|, pop[indxMax]);
  }

  /** The two indices drawn for one tournament; the second is redrawn until it differs. */
  datatype Draw = Draw(first: int, second: int)

  /** Draws of two distinct indices in [0, popSize). */
  predicate ValidDraws(draws: seq<Draw>, popSize: nat)
  {
    forall k :: 0 <= k < |draws| ==>
      0 <= draws[k].first < popSize && 0 <= draws[k].second < popSize && draws[k].first != draws[k].second
  }

  /**
   * Winner of one tournament: the strictly fitter index, the first drawn on a tie.
   */
  function Tournament(fit: seq<real>, d: Draw): (w: int)
    requires 0 <= d.first < |fit| && 0 <= d.second < |fit|
    ensures w == d.first || w == d.second
    ensures fit[w] >= fit[d.first] && fit[w] >= fit[d.second]
    ensures fit[d.first] == fit[d.second] ==> w == d.first
  {
    if fit[d.first] > fit[d.second] then d.first
    else if fit[d.second] > fit[d.first] then d.second
    else d.first
  }

  /**
   * The mating pool: 2 * popSize tournament winners, one per draw, in draw order.
   */
  method SelectParents(p: Population, fit: seq<real>, ucodes: seq<int>, popSize: nat, draws: seq<Draw>)
    returns (parents: seq<int>)
    requires popSize <= |fit|
    requires |draws| == 2 * popSize && ValidDraws(draws, popSize)
    ensures |parents| == 2 * popSize
    ensures forall k :: 0 <= k < |parents| ==> 0 <= parents[k] < popSize
    ensures forall k :: 0 <= k < |parents| ==> parents[k] == Tournament(fit, draws[k])
  {
    parents := [];
    for n := 0 to 2 * popSize
      invariant |parents| == n
      invariant forall k :: 0 <= k < n ==> parents[k] == Tournament(fit, draws[k])
    {
      var rnd1 := draws[n].first;
      var rnd2 := draws[n].second;
      var fpar1 := fit[rnd1];
      var fpar2 := fit[rnd2];
      if fpar1 > fpar2 {
        parents := parents + [rnd1];
      } else if fpar2 > fpar1 {
        parents := parents + [rnd2];
      } else {
        parents := parents + [rnd1];
      }
    }
  }

  /**
   * An individual strictly less fit than every other one never wins a
   * tournament, and one strictly fitter than every other wins each tournament
   * it is drawn into.
   */
  lemma {:induction false} TournamentPressure(fit: seq<real>, popSize: nat, draws: seq<Draw>, w: int)
    requires popSize <= |fit| && ValidDraws(draws, popSize) && 0 <= w < popSize
    ensures (forall j :: 0 <= j < popSize && j != w ==> fit[w] < fit[j]) ==>
              forall k :: 0 <= k < |draws| ==> Tournament(fit, draws[k]) != w
    ensures (forall j :: 0 <= j < popSize && j != w ==> fit[j] < fit[w]) ==>
              forall k :: 0 <= k < |draws| && (draws[k].first == w || draws[k].second == w) ==>
                Tournament(fit, draws[k]) == w
  {
  }

  /** Two individuals of fitness 5 and 10: every tournament picks the second. */
  lemma TwoIndividuals(draws: seq<Draw>)
    requires ValidDraws(draws, 2)
    ensures forall k :: 0 <= k < |draws| ==> Tournament([5.0, 10.0], draws[k]) == 1
  {
  }
}
