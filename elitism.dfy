/**
 * Elitism: the best chromosome of the previous generation is put back into
 * the bred population, in the slot of the previous generation's least fit
 * individual, unless an equal chromosome is already there.
 */
module Elitism {
  import opened Genome

  /** Whether two slices have the same length and the same elements. */
  method EqualSlices(a: seq<int>, b: seq<int>) returns (eq: bool)
    ensures eq <==> |a| == |b| && forall i :: 0 <= i < |a| ==> a[i] == b[i]
    ensures eq <==> a == b
  {
    if |a| != |b| {
      return false;
    }
    for i := 0 to |a|
      invariant forall j :: 0 <= j < i ==> a[j] == b[j]
    {
      if a[i] != b[i] {
        return false;
      }
    }
    return true;
  }

  /**
   * The scan for the worst individual: the first index holding the smallest
   * fitness, among fitnesses strictly below `ceiling`; -1 when none is.
   */
  function FirstMinBelow(fit: seq<real>, ceiling: real): (i: int)
    ensures -1 <= i < |fit|
    ensures i == -1 <==> forall j :: 0 <= j < |fit| ==> fit[j] >= ceiling
    ensures i >= 0 ==> fit[i] < ceiling
    ensures i >= 0 ==> forall j :: 0 <= j < |fit| ==> fit[i] <= fit[j]
    ensures i >= 0 ==> forall j :: 0 <= j < i ==> fit[i] < fit[j]
  {
    if fit == [] then -1
    else
      var i := FirstMinBelow(fit[..|fit| - 1], ceiling);
      var minFit := if i == -1 then ceiling else fit[i];
      if fit[|fit| - 1] < minFit then |fit| - 1 else i
  }

  /** The slot the elite goes to: the worst index, or 0 when no fitness is below the ceiling. */
  function WorstIndex(fit: seq<real>): (w: nat)
    ensures |fit| > 0 ==> w < |fit|
    ensures (exists j :: 0 <= j < |fit| && fit[j] < MinFitCeiling) ==>
              && (forall j :: 0 <= j < |fit| ==> fit[w] <= fit[j])
              && (forall j :: 0 <= j < w ==> fit[w] < fit[j])
    ensures (forall j :: 0 <= j < |fit| ==> fit[j] >= MinFitCeiling) ==> w == 0
  {
    var i := FirstMinBelow(fit, MinFitCeiling);
    if i == -1 then 0 else i
  }

  /**
   * The population after elitism: unchanged when it already holds the elite,
   * otherwise the elite replaces the worst slot and nothing else changes.
   */
  function WithElite(pop: Population, best: Chromosome, fit: seq<real>): (r: Population)
    requires best in pop || WorstIndex(fit) < |pop|
    ensures |r| == |pop|
    ensures best in r
    ensures best in pop ==> r == pop
    ensures best !in pop ==>
              r[WorstIndex(fit)] == best && forall i :: 0 <= i < |pop| && i != WorstIndex(fit) ==> r[i] == pop[i]
  {
    if best in pop then pop
    else
      var r := pop[WorstIndex(fit) := best];
      assert r[WorstIndex(fit)] == best;
      r
  }

  /**
   * Elitism in place: scan the old fitness for the worst slot, look for a row
   * equal to the elite, and overwrite the worst slot with a copy of the elite
   * when there is none.
   */
  method InsertBestIndividual(pop: array<seq<int>>, best: seq<int>, fit: seq<real>)
    requires best in pop[..] || WorstIndex(fit) < pop.Length
    modifies pop
    ensures pop[..] == WithElite(old(pop[..]), best, fit)
  {
    var alreadyPresent := false;
    var idxWorst := 0;
    var minFit := MinFitCeiling;
    var scanned := -1;
    for i := 0 to |fit|
      invariant scanned == FirstMinBelow(fit[..i], MinFitCeiling)
      invariant idxWorst == if scanned == -1 then 0 else scanned
      invariant minFit == if scanned == -1 then MinFitCeiling else fit[scanned]
      invariant pop[..] == old(pop[..])
    {
      assert fit[..i + 1][..i] == fit[..i];
      if fit[i] < minFit {
        minFit := fit[i];
        idxWorst := i;
        scanned := i;
      }
    }
    assert fit[..|fit|] == fit;
    assert idxWorst == WorstIndex(fit);
    var b := best;
    var k := 0;
    while k < pop.Length
      invariant 0 <= k <= pop.Length
      invariant b !in pop[..k]
      invariant pop[..] == old(pop[..])
    {
      var eq := EqualSlices(pop[k], b);
      if eq {
        alreadyPresent := true;
        break;
      }
      k := k + 1;
    }
    assert alreadyPresent <==> best in pop[..];
    if !alreadyPresent {
      pop[idxWorst] := b;
    }
  }
}
