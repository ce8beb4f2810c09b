/**
 * Encoding: the sorted code list that fixes every bit position, and the
 * random initial population. Random draws are passed in as parameters.
 */
module Encoding {
  import opened Genome

  predicate Ascending(s: seq<int>)
  {
    forall i, j :: 0 <= i < j < |s| ==> s[i] <= s[j]
  }

  predicate StrictlyAscending(s: seq<int>)
  {
    forall i, j :: 0 <= i < j < |s| ==> s[i] < s[j]
  }

  /** Inserts `x` into an ascending sequence, keeping it ascending. */
  function InsertSorted(s: seq<int>, x: int): (r: seq<int>)
    requires Ascending(s)
    ensures Ascending(r)
    ensures multiset(r) == multiset(s) + multiset{x}
    ensures |r| == |s| + 1 && r[0] == (if s != [] && s[0] < x then s[0] else x)
  {
    if s == [] || x <= s[0] then [x] + s
    else
      var rest := InsertSorted(s[1..], x);
      assert s == [s[0]] + s[1..];
      [s[0]] + rest
  }

  /** The library integer sort: an ascending permutation of its input. */
  method SortInts(a: seq<int>) returns (s: seq<int>)
    ensures Ascending(s)
    ensures multiset(s) == multiset(a)
  {
    s := [];
    for i := 0 to |a|
      invariant Ascending(s)
      invariant multiset(s) == multiset(a[..i])
    {
      assert a[..i + 1] == a[..i] + [a[i]];
      s := InsertSorted(s, a[i]);
    }
    assert a[..|a|] == a;
  }

  /** An ascending permutation of a set has no repeated element. */
  lemma AscendingSetIsStrict(s: seq<int>, keys: set<int>)
    requires Ascending(s)
    requires multiset(s) == multiset(keys)
    ensures StrictlyAscending(s)
  {
    forall i, j | 0 <= i < j < |s|
      ensures s[i] < s[j]
    {
      var x := s[i];
      assert s == s[..i] + [s[i]] + s[i + 1..j] + [s[j]] + s[j + 1..];
      assert multiset(s)[x] >= 1 + (if s[j] == x then 1 else 0);
      assert multiset(keys)[x] <= 1;
    }
  }

  lemma NonEmptyHasMember(s: set<int>)
    requires s != {}
    ensures exists x :: x in s
  {
    assert (forall y :: y !in s) ==> s == {};
  }

  /**
   * The catalog's codes, sorted ascending. The size argument is ignored,
   * as it is in the program.
   */
  method ChooseCodes(univ: Catalog, sz: int) returns (codes: seq<int>)
    ensures StrictlyAscending(codes)
    ensures forall c :: c in codes <==> c in univ
  {
    var allCodes: seq<int> := [];
    var rest := univ.Keys;
    while rest != {}
      invariant rest <= univ.Keys
      invariant multiset(allCodes) == multiset(univ.Keys - rest)
      decreases rest
    {
      NonEmptyHasMember(rest);
      var key :| key in rest;
      assert univ.Keys - (rest - {key}) == (univ.Keys - rest) + {key};
      allCodes := allCodes + [key];
      rest := rest - {key};
    }
    assert univ.Keys - rest == univ.Keys;
    codes := SortInts(allCodes);
    AscendingSetIsStrict(codes, univ.Keys);
    assert forall c :: c in codes <==> c in multiset(codes);
  }

  /**
   * Two strictly ascending code lists with the same codes are equal, so the
   * bit positions of a chromosome are determined by the catalog alone.
   */
  lemma {:induction false} StrictlyAscendingUnique(a: seq<int>, b: seq<int>)
    requires StrictlyAscending(a) && StrictlyAscending(b)
    requires forall c :: c in a <==> c in b
    ensures a == b
  {
    assert a != [] ==> a[0] in a && a[0] in b;
    assert b != [] ==> b[0] in b && b[0] in a;
    if a != [] {
      var j :| 0 <= j < |b| && b[j] == a[0];
      assert b[0] <= b[j];
      var k :| 0 <= k < |a| && a[k] == b[0];
      assert a[0] <= a[k];
      forall c
        ensures c in a[1..] <==> c in b[1..]
      {
        if c in a[1..] {
          var j :| 1 <= j < |a| && a[j] == c;
          assert a[0] < c;
          assert c in b;
        }
        if c in b[1..] {
          var j :| 1 <= j < |b| && b[j] == c;
          assert b[0] < c;
          assert c in a;
        }
      }
      StrictlyAscendingUnique(a[1..], b[1..]);
      assert a == [a[0]] + a[1..] && b == [b[0]] + b[1..];
    }
  }

  /** One gene from one uniform draw r in [0, 1): below one half disables the product. */
  function RandEnabled(r: real): int
  {
    if r < 0.5 then 0 else 1
  }

  /**
   * A random chromosome of `univSize` genes; `draws` holds the uniform draws
   * in [0, 1) taken for each gene in turn. The code list is not consulted.
   */
  method BuildGene(codes: seq<int>, univSize: nat, draws: seq<real>) returns (g: Chromosome)
    requires |draws| == univSize
    requires forall i :: 0 <= i < |draws| ==> 0.0 <= draws[i] < 1.0
    ensures |g| == univSize && IsBinary(g)
    ensures forall i :: 0 <= i < univSize ==> (g[i] == 1 <==> draws[i] >= 0.5)
  {
    g := [];
    for c := 0 to univSize
      invariant |g| == c && IsBinary(g)
      invariant forall i :: 0 <= i < c ==> (g[i] == 1 <==> draws[i] >= 0.5)
    {
      g := g + [RandEnabled(draws[c])];
    }
  }

  /** `sz` random chromosomes; `draws[i]` holds the draws for chromosome i. */
  method BuildInitialPopulation(sz: nat, all: seq<int>, univSize: nat, draws: seq<seq<real>>)
    returns (pop: Population)
    requires |draws| == sz
    requires forall i :: 0 <= i < sz ==> |draws[i]| == univSize
    requires forall i, j :: 0 <= i < sz && 0 <= j < |draws[i]| ==> 0.0 <= draws[i][j] < 1.0
    ensures WellFormed(pop, sz, univSize)
    ensures forall i, j :: 0 <= i < sz && 0 <= j < univSize ==> (pop[i][j] == 1 <==> draws[i][j] >= 0.5)
  {
    pop := [];
    for i := 0 to sz
      invariant WellFormed(pop, i, univSize)
      invariant forall k, j :: 0 <= k < i && 0 <= j < univSize ==> (pop[k][j] == 1 <==> draws[k][j] >= 0.5)
    {
      var g := BuildGene(all, univSize, draws[i]);
      pop := pop + [g];
    }
  }

  /** Whether `n` occurs in `sl`. */
  method Contains(sl: seq<int>, n: int) returns (found: bool)
    ensures found <==> n in sl
  {
    for i := 0 to |sl|
      invariant n !in sl[..i]
    {
      if sl[i] == n {
        return true;
      }
    }
    assert sl[..|sl|] == sl;
    return false;
  }
}
