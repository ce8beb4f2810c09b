/**
 * Decoding a chromosome: the total price of the products it includes and
 * the number of included products per family.
 */
module Decoding {
  import opened Genome

  /** Every included gene has a code at its position in the code list. */
  predicate Addressable(chrom: Chromosome, ucodes: seq<int>)
  {
    forall i :: 0 <= i < |chrom| && chrom[i] == 1 ==> i < |ucodes|
  }

  /** The product at gene position `i`, or the zero record when the code is unknown. */
  function ProductAt(univ: Catalog, ucodes: seq<int>, i: nat): Product
    requires i < |ucodes|
  {
    Lookup(univ, ucodes[i])
  }

  /** Sum of the prices of the included products among the first `n` genes. */
  function PriceOf(univ: Catalog, chrom: Chromosome, ucodes: seq<int>, n: nat): int
    requires n <= |chrom| && Addressable(chrom, ucodes)
  {
    if n == 0 then 0
    else PriceOf(univ, chrom, ucodes, n - 1)
         + (if chrom[n - 1] == 1 then ProductAt(univ, ucodes, n - 1).price else 0)
  }

  /** Number of included genes among the first `n`. */
  function IncludedCount(chrom: Chromosome, n: nat): nat
    requires n <= |chrom|
  {
    if n == 0 then 0
    else IncludedCount(chrom, n - 1) + (if chrom[n - 1] == 1 then 1 else 0)
  }

  /** Number of included genes among the first `n` whose product is of family `f`. */
  function FamilyCount(univ: Catalog, chrom: Chromosome, ucodes: seq<int>, n: nat, f: int): nat
    requires n <= |chrom| && Addressable(chrom, ucodes)
  {
    if n == 0 then 0
    else FamilyCount(univ, chrom, ucodes, n - 1, f)
         + (if chrom[n - 1] == 1 && ProductAt(univ, ucodes, n - 1).family == f then 1 else 0)
  }

  /** One more product of family `f`, as the map increment does (absent counts start at 0). */
  function Bump(m: map<int, int>, f: int): map<int, int>
  {
    m[f := (if f in m then m[f] else 0) + 1]
  }

  /** The family distribution accumulated over the first `n` genes. */
  function FamiliesOf(univ: Catalog, chrom: Chromosome, ucodes: seq<int>, n: nat): map<int, int>
    requires n <= |chrom| && Addressable(chrom, ucodes)
  {
    if n == 0 then map[]
    else
      var m := FamiliesOf(univ, chrom, ucodes, n - 1);
      if chrom[n - 1] == 1 then Bump(m, ProductAt(univ, ucodes, n - 1).family) else m
  }

  /**
   * Price and family distribution of a chromosome: one pass over its genes,
   * looking up each included product's code.
   */
  method QuantifyChromosome(univ: Catalog, chrom: Chromosome, ucodes: seq<int>)
    returns (price: int, families: map<int, int>)
    requires Addressable(chrom, ucodes)
    ensures price == PriceOf(univ, chrom, ucodes, |chrom|)
    ensures families == FamiliesOf(univ, chrom, ucodes, |chrom|)
    ensures forall f :: f in families <==> FamilyCount(univ, chrom, ucodes, |chrom|, f) > 0
    ensures forall f :: f in families ==> families[f] == FamilyCount(univ, chrom, ucodes, |chrom|, f)
    ensures Total(families) == IncludedCount(chrom, |chrom|)
  {
    price := 0;
    families := map[];
    var pCode := 0;
    for i := 0 to |chrom|
      invariant price == PriceOf(univ, chrom, ucodes, i)
      invariant families == FamiliesOf(univ, chrom, ucodes, i)
    {
      if chrom[i] == 1 {
        pCode := ucodes[i];
        var u := Lookup(univ, pCode);
        price := price + u.price;
        var family := u.family;
        families := families[family := (if family in families then families[family] else 0) + 1];
      }
    }
    forall f {
      FamiliesCountProducts(univ, chrom, ucodes, |chrom|, f);
    }
    FamiliesTotal(univ, chrom, ucodes, |chrom|);
  }

  /**
   * The distribution has a key exactly for the families of included products,
   * and each key counts the included products of that family.
   */
  lemma {:induction false} FamiliesCountProducts(univ: Catalog, chrom: Chromosome, ucodes: seq<int>, n: nat, f: int)
    requires n <= |chrom| && Addressable(chrom, ucodes)
    ensures f in FamiliesOf(univ, chrom, ucodes, n) <==> FamilyCount(univ, chrom, ucodes, n, f) > 0
    ensures f in FamiliesOf(univ, chrom, ucodes, n) ==>
              FamiliesOf(univ, chrom, ucodes, n)[f] == FamilyCount(univ, chrom, ucodes, n, f)
  {
    if n > 0 {
      FamiliesCountProducts(univ, chrom, ucodes, n - 1, f);
    }
  }

  /** Sum of the values of a map. */
  ghost function Total(m: map<int, int>): int
    decreases |m|
  {
    if |m| == 0 then 0
    else
      var k := AnyKey(m);
      assert (m - {k}).Keys == m.Keys - {k};
      m[k] + Total(m - {k})
  }

  ghost function AnyKey(m: map<int, int>): (k: int)
    requires |m| > 0
    ensures k in m
  {
    assert (forall y :: y !in m.Keys) ==> m.Keys == {};
    var k :| k in m.Keys; k
  }

  /** The sum of a map's values can be split at any key. */
  lemma {:induction false} TotalRemove(m: map<int, int>, k: int)
    requires k in m
    ensures Total(m) == m[k] + Total(m - {k})
    decreases |m|
  {
    var j := AnyKey(m);
    if j != k {
      assert (m - {j}).Keys == m.Keys - {j};
      assert (m - {k}).Keys == m.Keys - {k};
      TotalRemove(m - {j}, k);
      TotalRemove(m - {k}, j);
      assert m - {j} - {k} == m - {k} - {j};
    }
  }

  lemma BumpTotal(m: map<int, int>, f: int)
    ensures Total(Bump(m, f)) == Total(m) + 1
  {
    TotalRemove(Bump(m, f), f);
    if f in m {
      TotalRemove(m, f);
      assert Bump(m, f) - {f} == m - {f};
    } else {
      assert Bump(m, f) - {f} == m;
    }
  }

  /** The family counts add up to the number of included products. */
  lemma {:induction false} FamiliesTotal(univ: Catalog, chrom: Chromosome, ucodes: seq<int>, n: nat)
    requires n <= |chrom| && Addressable(chrom, ucodes)
    ensures Total(FamiliesOf(univ, chrom, ucodes, n)) == IncludedCount(chrom, n)
  {
    if n > 0 {
      FamiliesTotal(univ, chrom, ucodes, n - 1);
      if chrom[n - 1] == 1 {
        BumpTotal(FamiliesOf(univ, chrom, ucodes, n - 1), ProductAt(univ, ucodes, n - 1).family);
      }
    }
  }

  /**
   * With every catalog price in [0, maxPrice), the bundle's price lies between
   * 0 and maxPrice times the number of included products (strictly below when
   * something is included).
   */
  lemma {:induction false} PriceBounds(univ: Catalog, chrom: Chromosome, ucodes: seq<int>, n: nat, maxPrice: int)
    requires n <= |chrom| && Addressable(chrom, ucodes)
    requires 0 < maxPrice
    requires forall c :: c in univ ==> 0 <= univ[c].price < maxPrice
    ensures 0 <= PriceOf(univ, chrom, ucodes, n)
    ensures IncludedCount(chrom, n) > 0 ==> PriceOf(univ, chrom, ucodes, n) < maxPrice * IncludedCount(chrom, n)
    ensures IncludedCount(chrom, n) == 0 ==> PriceOf(univ, chrom, ucodes, n) == 0
  {
    if n > 0 {
      PriceBounds(univ, chrom, ucodes, n - 1, maxPrice);
      if chrom[n - 1] == 1 {
        var p := ProductAt(univ, ucodes, n - 1).price;
        assert 0 <= p < maxPrice;
        var c := IncludedCount(chrom, n - 1);
        assert maxPrice * (c + 1) == maxPrice * c + maxPrice;
      }
    }
  }

  /** An empty bundle has no price and no families: the sentinel case of the fitness. */
  lemma {:induction false} EmptyBundle(univ: Catalog, chrom: Chromosome, ucodes: seq<int>, n: nat)
    requires n <= |chrom| && Addressable(chrom, ucodes)
    ensures IncludedCount(chrom, n) == 0 <==> FamiliesOf(univ, chrom, ucodes, n) == map[]
    ensures IncludedCount(chrom, n) == 0 ==> PriceOf(univ, chrom, ucodes, n) == 0
  {
    if n > 0 {
      EmptyBundle(univ, chrom, ucodes, n - 1);
      if chrom[n - 1] == 1 {
        var f := ProductAt(univ, ucodes, n - 1).family;
        assert f in FamiliesOf(univ, chrom, ucodes, n);
      }
    }
  }

  /**
   * Codes 10, 20, 30, 40 of families 0, 1, 0, 1, each priced 3000: the bundle
   * of the first two costs 6000 and has one product of each family.
   */
  lemma TwoOfFourBundle()
    ensures var univ := map[10 := Product(0, 3000), 20 := Product(1, 3000),
                            30 := Product(0, 3000), 40 := Product(1, 3000)];
            var chrom := [1, 1, 0, 0];
            var ucodes := [10, 20, 30, 40];
            && PriceOf(univ, chrom, ucodes, 4) == 6000
            && FamiliesOf(univ, chrom, ucodes, 4) == map[0 := 1, 1 := 1]
  {
  }
}
