/** Token-set Jaccard similarity: the loop, its meaning, and the triangle bound of the Jaccard distance. */
module Similarity {

  /** |A inter B| / |A union B|, and 0 when both sets are empty. */
  ghost function JaccardIndex<T>(a: set<T>, b: set<T>): real {
    if a + b == {} then 0.0 else |a * b| as real / |a + b| as real
  }

  lemma UnionSize<T>(a: set<T>, b: set<T>)
    ensures |a + b| == |a| + |b| - |a * b|
  {
    assert a + b == a + (b - a);
    assert b == (b - a) + (a * b);
  }

  /** The share of the common elements among all; none of two empty sets. */
  lemma IndexIsShare<T>(a: set<T>, b: set<T>)
    ensures JaccardIndex(a, b) * |a + b| as real == |a * b| as real
    ensures a == b && a != {} ==> JaccardIndex(a, b) == 1.0
    ensures a * b == {} ==> JaccardIndex(a, b) == 0.0
  {
    if a + b == {} {
      assert a * b == {};
    }
    if a == b {
      assert a * b == a + b;
    }
  }

  /** The counting loop computes the Jaccard index. */
  method Jaccard<T(==)>(a: set<T>, b: set<T>) returns (similarity: real)
    ensures similarity == JaccardIndex(a, b)
  {
    UnionSize(a, b);
    if |a| == 0 && |b| == 0 {
      return 0.0;
    }
    var intersect := 0;
    var rest := a;
    while rest != {}
      invariant rest <= a
      invariant intersect == |(a - rest) * b|
    {
      var token :| token in rest;
      assert (a - (rest - {token})) * b == (a - rest) * b + (if token in b then {token} else {});
      if token in b {
        intersect := intersect + 1;
      }
      rest := rest - {token};
    }
    assert (a - rest) * b == a * b;
    var union := |a| + |b| - intersect;
    assert union == |a + b|;
    similarity := if union == 0 then 0.0 else intersect as real / union as real;
  }

  lemma IndexRange<T>(a: set<T>, b: set<T>)
    ensures 0.0 <= JaccardIndex(a, b) <= 1.0
    ensures JaccardIndex(a, b) == JaccardIndex(b, a)
    ensures JaccardIndex(a, b) == 1.0 <==> a == b != {}
  {
    assert a + b == b + a && a * b == b * a;
    UnionSize(a, b);
    if a + b != {} {
      SubsetSize(a * b, a + b);
      var i, u := |a * b| as real, |a + b| as real;
      QuotientBounds(i, u);
      if a == b {
        assert a * b == a + b;
      }
      if |a * b| == |a + b| {
        SubsetSize(a * b, a);
        SubsetSize(a, a + b);
        SubsetSize(b, a + b);
        assert a == a + b == b;
      }
    }
  }

  /** Comparing fractions by cross multiplication. */
  lemma QuotientOrder(a: real, b: real, c: real, d: real)
    requires b > 0.0 && d > 0.0 && a * d <= c * b
    ensures a / b <= c / d
  {
    var x, y := a / b, c / d;
    assert x * b == a && y * d == c;
    assert (x - y) * (b * d) == x * b * d - y * d * b == a * d - c * b;
    PositiveProduct(b, d);
    if x > y {
      PositiveProduct(x - y, b * d);
    }
  }

  lemma PositiveProduct(x: real, y: real)
    requires x > 0.0 && y > 0.0
    ensures x * y > 0.0
  {
  }

  lemma QuotientBounds(i: real, u: real)
    requires 0.0 <= i <= u && u > 0.0
    ensures 0.0 <= i / u <= 1.0
    ensures i / u == 1.0 <==> i == u
  {
    QuotientOrder(0.0, 1.0, i, u);
    QuotientOrder(i, u, 1.0, 1.0);
    var x := i / u;
    assert x * u == i;
    if i == u {
      QuotientOrder(1.0, 1.0, i, u);
    }
  }

  lemma SubsetSize<T>(a: set<T>, b: set<T>)
    requires a <= b
    ensures |a| <= |b|
    ensures |a| == |b| ==> a == b
  {
    assert b == a + (b - a);
  }

  // ---------- the distance 1 - J on a common universe ----------

  /** Elements in exactly one of the two sets. */
  ghost function Differ<T>(a: set<T>, b: set<T>): set<T> {
    (a - b) + (b - a)
  }

  /** 1 - J(a, b) is the share of the union on which the sets differ. */
  lemma DistanceIsShare<T>(a: set<T>, b: set<T>)
    requires a + b != {}
    ensures 1.0 - JaccardIndex(a, b) == |Differ(a, b)| as real / |a + b| as real
  {
    assert a + b == a * b + Differ(a, b);
    assert |a + b| == |a * b| + |Differ(a, b)|;
    ComplementShare(|a * b|, |Differ(a, b)|, |a + b|);
  }

  lemma ComplementShare(i: nat, d: nat, u: nat)
    requires u > 0 && i + d == u
    ensures 1.0 - i as real / u as real == d as real / u as real
  {
    var x, y := i as real / u as real, d as real / u as real;
    assert x * u as real == i as real && y * u as real == d as real;
    var e := x + y - 1.0;
    assert e * u as real == x * u as real + y * u as real - u as real == 0.0;
    if e != 0.0 {
      NonZeroProduct(e, u as real);
    }
  }

  lemma NonZeroProduct(x: real, y: real)
    requires x != 0.0 && y > 0.0
    ensures x * y != 0.0
  {
  }

  /** Adding the same amount to both parts of a proper fraction does not make it smaller. */
  lemma MediantGrows(p: nat, q: nat, r: nat)
    requires p <= q && q > 0
    ensures p as real / q as real <= (p + r) as real / (q + r) as real
  {
    assert p * (q + r) == p * q + p * r && (p + r) * q == p * q + q * r;
    ProductOrder(p, q, r);
    QuotientOrder(p as real, q as real, (p + r) as real, (q + r) as real);
  }

  lemma ProductOrder(p: nat, q: nat, r: nat)
    requires p <= q
    ensures p * r <= q * r
  {
  }

  /** Enlarging the denominator makes a fraction smaller. */
  lemma WiderShare(p: nat, q: nat, u: nat)
    requires 0 < q <= u
    ensures p as real / u as real <= p as real / q as real
  {
    ProductOrder(q, u, p);
    QuotientOrder(p as real, u as real, p as real, q as real);
  }

  lemma SumOfShares(p: nat, q: nat, s: nat, u: nat)
    requires u > 0 && p <= q + s
    ensures p as real / u as real <= q as real / u as real + s as real / u as real
  {
    ProductOrder(p, q + s, u);
    QuotientOrder(p as real, u as real, (q + s) as real, u as real);
    assert (q + s) as real / u as real == (q as real + s as real) / u as real;
  }

  /** Elements of the middle set alone are counted in both differences with it. */
  lemma DifferenceChain<T>(a: set<T>, b: set<T>, c: set<T>)
    ensures |Differ(a, c)| + |b - (a + c)| <= |Differ(a, b)| + |Differ(b, c)|
  {
    var extra := b - (a + c);
    assert Differ(a, c) + extra <= Differ(a, b) + Differ(b, c);
    assert |Differ(a, c) + extra| == |Differ(a, c)| + |extra|;
    SubsetSize(Differ(a, c) + extra, Differ(a, b) + Differ(b, c));
    UnionSize(Differ(a, b), Differ(b, c));
  }

  lemma UnionSizes<T>(a: set<T>, b: set<T>, c: set<T>)
    ensures |a + c| + |b - (a + c)| == |a + b + c|
    ensures |Differ(a, c)| <= |a + c|
    ensures |a + b| <= |a + b + c| && |b + c| <= |a + b + c|
  {
    assert a + c + (b - (a + c)) == a + b + c;
    SubsetSize(Differ(a, c), a + c);
    SubsetSize(a + b, a + b + c);
    SubsetSize(b + c, a + b + c);
  }

  lemma DistanceChain(ac: nat, uac: nat, ab: nat, uab: nat, bc: nat, ubc: nat, extra: nat, all: nat)
    requires ac + extra <= ab + bc && uac + extra == all && ac <= uac
    requires 0 < uac && 0 < uab <= all && 0 < ubc <= all
    ensures ac as real / uac as real <= ab as real / uab as real + bc as real / ubc as real
  {
    MediantGrows(ac, uac, extra);
    SumOfShares(ac + extra, ab, bc, all);
    WiderShare(ab, uab, all);
    WiderShare(bc, ubc, all);
  }

  /** J(a, c) >= J(a, b) + J(b, c) - 1 for all token sets, the empty ones included. */
  lemma ChainBound<T>(a: set<T>, b: set<T>, c: set<T>)
    ensures JaccardIndex(a, c) >= JaccardIndex(a, b) + JaccardIndex(b, c) - 1.0
  {
    IndexRange(a, b);
    IndexRange(b, c);
    IndexRange(a, c);
    if a + b == {} || b + c == {} {
      return;
    }
    if a + c == {} {
      assert a * b == {} && JaccardIndex(a, b) == 0.0;
      return;
    }
    DistanceIsShare(a, b);
    DistanceIsShare(b, c);
    DistanceIsShare(a, c);
    DifferenceChain(a, b, c);
    UnionSizes(a, b, c);
    DistanceChain(|Differ(a, c)|, |a + c|, |Differ(a, b)|, |a + b|, |Differ(b, c)|, |b + c|, |b - (a + c)|,
                  |a + b + c|);
  }

  const SIMILARITY_THRESHOLD: real := 0.7

  /** Two entries that are each near-duplicates of a third one are still similar by at least 0.4. */
  lemma NearDuplicatesOfOne<T>(a: set<T>, b: set<T>, c: set<T>)
    requires JaccardIndex(a, b) >= SIMILARITY_THRESHOLD
    requires JaccardIndex(c, b) >= SIMILARITY_THRESHOLD
    ensures JaccardIndex(a, c) >= 0.4
  {
    IndexRange(b, c);
    ChainBound(a, b, c);
  }

  /** The bound is attained, so no better constant holds. */
  lemma ChainBoundIsTight()
    ensures exists a: set<int>, b: set<int>, c: set<int> ::
      JaccardIndex(a, b) >= SIMILARITY_THRESHOLD && JaccardIndex(c, b) >= SIMILARITY_THRESHOLD
          && JaccardIndex(a, c) == 0.4
  {
    var b := {0, 1, 2, 3, 4, 5, 6, 7, 8, 9};
    var a, c := {0, 1, 2, 3, 4, 5, 6}, {3, 4, 5, 6, 7, 8, 9};
    assert |a| == 7 && |b| == 10 && |c| == 7;
    assert a * b == a && a + b == b && c * b == c && c + b == b;
    assert a * c == {3, 4, 5, 6} && a + c == b;
    assert JaccardIndex(a, b) == 0.7 && JaccardIndex(c, b) == 0.7 && JaccardIndex(a, c) == 0.4;
  }
}
