/** Vector similarity, ranking and aggregation, over the real numbers. */
module Similarity {
  import opened StableSort

  type Vector = seq<real>

  function Sq(x: real): real {
    x * x
  }

  function Product(x: real, y: real): real {
    x * y
  }

  /** `sqrt(x)` is the nonnegative square root of `x`. */
  predicate IsRoot(sqrt: real -> real, x: real) {
    sqrt(x) >= 0.0 && Sq(sqrt(x)) == x
  }

  /** The inner product of the first `n` coordinates. */
  function Dot(a: Vector, b: Vector, n: nat): real
    requires n <= |a| && n <= |b|
  {
    if n == 0 then 0.0 else Dot(a, b, n - 1) + a[n - 1] * b[n - 1]
  }

  function NormSq(a: Vector): real {
    Dot(a, a, |a|)
  }

  /** Zero everywhere but for a one at `i`. */
  function Axis(dim: nat, i: nat): (r: Vector)
    ensures |r| == dim
  {
    seq(dim, j requires 0 <= j < dim => if j == i then 1.0 else 0.0)
  }

  /** The product with an axis picks one coordinate out. */
  lemma {:induction false} DotAxis(a: Vector, i: nat, n: nat)
    requires n <= |a|
    ensures Dot(a, Axis(|a|, i), n) == if i < n then a[i] else 0.0
  {
    if n > 0 {
      DotAxis(a, i, n - 1);
    }
  }

  /** And it adds up. With the axes this leaves no other inner product. */
  lemma {:induction false} DotAdds(a: Vector, b: Vector, c: Vector, s: real, n: nat)
    requires n <= |a| == |b| == |c|
    requires forall i | 0 <= i < |b| :: c[i] == a[i] + s * b[i]
    ensures forall v: Vector | |v| == |a| :: Dot(v, c, n) == Dot(v, a, n) + s * Dot(v, b, n)
  {
    if n > 0 {
      DotAdds(a, b, c, s, n - 1);
      forall v: Vector | |v| == |a| ensures Dot(v, c, n) == Dot(v, a, n) + s * Dot(v, b, n) {
        Spread(v[n - 1], a[n - 1], b[n - 1], s, Dot(v, b, n - 1));
        assert Dot(v, c, n - 1) == Dot(v, a, n - 1) + s * Dot(v, b, n - 1);
      }
    }
  }

  lemma Spread(x: real, a: real, b: real, s: real, d: real)
    ensures x * (a + s * b) + s * d == x * a + s * (d + x * b)
  {
  }

  // --------------------------------------------------------- Cauchy-Schwarz

  lemma SquareNonnegative(x: real)
    ensures x * x >= 0.0
  {
  }

  lemma {:induction false} DotSelfNonnegative(a: Vector, n: nat)
    requires n <= |a|
    ensures Dot(a, a, n) >= 0.0
  {
    if n > 0 {
      DotSelfNonnegative(a, n - 1);
      SquareNonnegative(a[n - 1]);
    }
  }

  /** What one more coordinate asks of the bound. */
  lemma CrossTerm(d: real, p: real, q: real, x: real, y: real)
    requires p >= 0.0 && q >= 0.0 && d * d <= p * q
    ensures 2.0 * d * (x * y) <= p * (y * y) + q * (x * x)
  {
    var t := p * (y * y) + q * (x * x) - 2.0 * d * (x * y);
    if p == 0.0 {
      ZeroSquare(d);
      SquareNonnegative(x);
      ProductNonnegative(q, x * x);
    } else {
      calc {
        p * t;
        (p * y) * (p * y) + (p * q) * (x * x) - 2.0 * (p * y) * (d * x);
        ((p * y) - (d * x)) * ((p * y) - (d * x)) + (p * q - d * d) * (x * x);
      }
      SquareNonnegative(p * y - d * x);
      SquareNonnegative(x);
      ProductNonnegative(p * q - d * d, x * x);
      PositiveFactor(p, t);
    }
  }

  lemma Scale(u: real, m: real)
    requires u > 0.0 && m > 0.0
    ensures Product(u, m) > 0.0
  {
  }

  lemma NonzeroSquare(d: real)
    requires d != 0.0
    ensures Sq(d) > 0.0
  {
    var m := if d > 0.0 then d else -d;
    Scale(m, m);
    assert Product(m, m) == Sq(d);
  }

  lemma ZeroSquare(d: real)
    requires Sq(d) <= 0.0
    ensures d == 0.0
  {
    hide Sq;
    if d != 0.0 {
      NonzeroSquare(d);
    }
  }

  lemma ProductNonnegative(u: real, v: real)
    requires u >= 0.0 && v >= 0.0
    ensures u * v >= 0.0
  {
  }

  lemma PositiveFactor(p: real, t: real)
    requires p > 0.0 && p * t >= 0.0
    ensures t >= 0.0
  {
  }

  /** Cauchy-Schwarz, coordinate by coordinate as the loop accumulates. */
  lemma {:induction false} DotIsBounded(a: Vector, b: Vector, n: nat)
    requires n <= |a| && n <= |b|
    ensures Sq(Dot(a, b, n)) <= Product(Dot(a, a, n), Dot(b, b, n))
  {
    if n > 0 {
      var d, p, q := Dot(a, b, n - 1), Dot(a, a, n - 1), Dot(b, b, n - 1);
      var x, y := a[n - 1], b[n - 1];
      DotIsBounded(a, b, n - 1);
      DotSelfNonnegative(a, n - 1);
      DotSelfNonnegative(b, n - 1);
      CrossTerm(d, p, q, x, y);
      Expand(d, p, q, x, y);
    }
  }

  lemma Expand(d: real, p: real, q: real, x: real, y: real)
    requires d * d <= p * q && 2.0 * d * (x * y) <= p * (y * y) + q * (x * x)
    ensures (d + x * y) * (d + x * y) <= (p + x * x) * (q + y * y)
  {
    assert (d + x * y) * (d + x * y) == d * d + 2.0 * d * (x * y) + (x * y) * (x * y);
    assert (p + x * x) * (q + y * y) == p * q + p * (y * y) + q * (x * x) + (x * x) * (y * y);
    assert (x * y) * (x * y) == (x * x) * (y * y);
  }

  // -------------------------------------------------------------- similarity

  /** The cosine of two vectors: zero unless both have the same dimension and a norm. */
  function Cosine(a: Vector, b: Vector, sqrt: real -> real): real {
    if |a| != |b| then 0.0
    else
      var denominator := sqrt(Product(NormSq(a), NormSq(b)));
      if denominator == 0.0 then 0.0 else Dot(a, b, |a|) / denominator
  }

  /** One loop accumulates the three sums. */
  method CosineSimilarity(a: Vector, b: Vector, sqrt: real -> real) returns (r: real)
    ensures r == Cosine(a, b, sqrt)
  {
    if |a| != |b| {
      return 0.0;
    }
    var dot, normA, normB := 0.0, 0.0, 0.0;
    for i := 0 to |a|
      invariant dot == Dot(a, b, i) && normA == Dot(a, a, i) && normB == Dot(b, b, i)
    {
      dot := dot + a[i] * b[i];
      normA := normA + a[i] * a[i];
      normB := normB + b[i] * b[i];
    }
    assert normA == NormSq(a) && normB == NormSq(b);
    var denominator := sqrt(Product(normA, normB));
    return if denominator == 0.0 then 0.0 else dot / denominator;
  }

  /** Squares compare as absolute values do. */
  lemma AbsBound(d: real, m: real)
    requires m > 0.0 && Sq(d) <= Sq(m)
    ensures -m <= d <= m
  {
    var e := if d >= 0.0 then d else -d;
    if e > m {
      assert Product(e - m, e + m) == Sq(e) - Sq(m) && Sq(e) == Sq(d);
      hide Sq, Product;
      Scale(e - m, e + m);
    }
  }

  lemma RatioInRange(d: real, m: real)
    requires m > 0.0 && -m <= d <= m
    ensures -1.0 <= d / m <= 1.0
  {
  }

  /** Every pair of vectors of any dimension: the similarity is in `[-1, 1]`, the distance in `[0, 2]`. */
  lemma CosineInRange(a: Vector, b: Vector, sqrt: real -> real)
    requires |a| == |b| ==> IsRoot(sqrt, Product(NormSq(a), NormSq(b)))
    ensures -1.0 <= Cosine(a, b, sqrt) <= 1.0
    ensures 0.0 <= Distance(Cosine(a, b, sqrt)) <= 2.0
  {
    if |a| == |b| {
      var m := sqrt(Product(NormSq(a), NormSq(b)));
      DotIsBounded(a, b, |a|);
      hide Sq, Product, Dot;
      if m != 0.0 {
        AbsBound(Dot(a, b, |a|), m);
        RatioInRange(Dot(a, b, |a|), m);
      }
    }
  }

  function Distance(similarity: real): real {
    1.0 - similarity
  }

  /** A vector with a norm is as similar to itself as can be. */
  lemma CosineOfItself(a: Vector, sqrt: real -> real)
    requires NormSq(a) != 0.0 && IsRoot(sqrt, Product(NormSq(a), NormSq(a)))
    ensures Cosine(a, a, sqrt) == 1.0
  {
    var p := NormSq(a);
    var m := sqrt(Product(p, p));
    DotSelfNonnegative(a, |a|);
    NonzeroSquare(p);
    assert Sq(m) == Sq(p) && Sq(0.0) == 0.0;
    hide Sq, Product, Dot;
    AbsBound(m, p);
    AbsBound(p, m);
    EqualRatio(p, m);
  }

  lemma EqualRatio(x: real, y: real)
    requires x == y != 0.0
    ensures x / y == 1.0
  {
  }

  lemma {:induction false} DotSymmetric(a: Vector, b: Vector, n: nat)
    requires n <= |a| && n <= |b|
    ensures Dot(a, b, n) == Dot(b, a, n)
  {
    if n > 0 {
      DotSymmetric(a, b, n - 1);
    }
  }

  lemma CosineSymmetric(a: Vector, b: Vector, sqrt: real -> real)
    ensures Cosine(a, b, sqrt) == Cosine(b, a, sqrt)
  {
    if |a| == |b| {
      DotSymmetric(a, b, |a|);
      assert Product(NormSq(a), NormSq(b)) == Product(NormSq(b), NormSq(a));
    }
  }

  /** The similarity is the inner product in units of the two norms, wherever both are vectors of one
      dimension with a norm, and zero elsewhere; the distance is what is missing to one. */
  lemma CosineIsRatio(a: Vector, b: Vector, sqrt: real -> real)
    requires |a| == |b| ==> IsRoot(sqrt, Product(NormSq(a), NormSq(b)))
    ensures |a| != |b| ==> Cosine(a, b, sqrt) == 0.0
    ensures |a| == |b| && (NormSq(a) == 0.0 || NormSq(b) == 0.0) ==> Cosine(a, b, sqrt) == 0.0
    ensures |a| == |b| && NormSq(a) != 0.0 && NormSq(b) != 0.0 ==>
              Cosine(a, b, sqrt) * sqrt(NormSq(a) * NormSq(b)) == Dot(a, b, |a|)
    ensures Distance(Cosine(a, b, sqrt)) + Cosine(a, b, sqrt) == 1.0
  {
    if |a| == |b| {
      var p, q := NormSq(a), NormSq(b);
      var m := sqrt(Product(p, q));
      DotSelfNonnegative(a, |a|);
      DotSelfNonnegative(b, |b|);
      if p == 0.0 || q == 0.0 {
        assert Product(p, q) == 0.0;
        ZeroSquare(m);
      } else {
        Scale(p, q);
        assert m != 0.0 by {
          assert Sq(0.0) == 0.0;
        }
        Undivide(Dot(a, b, |a|), m);
      }
    }
  }

  lemma Undivide(x: real, m: real)
    requires m != 0.0
    ensures x / m * m == x
  {
  }

  // ----------------------------------------------------------------- ranking

  type Scored = (nat, real)

  /** Higher scores first, earlier items first among equals. */
  predicate Before(p: Scored, q: Scored) {
    p.1 > q.1 || (p.1 == q.1 && p.0 < q.0)
  }

  predicate Ranked(s: seq<Scored>) {
    forall i, j | 0 <= i < j < |s| :: Before(s[i], s[j])
  }

  /** Descending by score: the comparison handed to the stable sort. */
  function ByScore(): (Scored, Scored) -> Ordering {
    (a: Scored, b: Scored) => if b.1 < a.1 then Less else if b.1 == a.1 then Equal else Greater
  }

  function Enumerated(items: seq<real>, from: nat): (r: seq<Scored>)
    ensures |r| == |items| && forall i | 0 <= i < |items| :: r[i] == (from + i, items[i])
  {
    if items == [] then [] else [(from, items[0])] + Enumerated(items[1..], from + 1)
  }

  function TopK(items: seq<real>, k: nat): seq<Scored> {
    var sorted := Sort<Scored>(ByScore(), Enumerated(items, 0));
    if k < |sorted| then sorted[..k] else sorted
  }

  lemma {:induction false} InsertRanked(x: Scored, s: seq<Scored>)
    requires Ranked(s) && forall i | 0 <= i < |s| :: x.0 < s[i].0
    ensures Ranked(Insert<Scored>(ByScore(), x, s))
  {
    if s != [] {
      if ByScore()(x, s[0]) == Greater {
        var rest := s[1..];
        InsertRanked(x, rest);
        InsertContents<Scored>(ByScore(), x, rest);
        var r := Insert<Scored>(ByScore(), x, rest);
        forall j | 0 <= j < |r| ensures Before(s[0], r[j]) {
          assert r[j] in multiset(r);
          if r[j] != x {
            assert r[j] in rest;
            var i :| 0 <= i < |rest| && rest[i] == r[j];
            assert s[i + 1] == r[j];
          }
        }
      } else {
        forall j | 0 <= j < |s| ensures Before(x, s[j]) {
          assert j > 0 ==> Before(s[0], s[j]);
        }
      }
    }
  }

  lemma SortedIndices(rest: seq<Scored>, bound: nat)
    requires forall i | 0 <= i < |rest| :: bound < rest[i].0
    ensures forall i | 0 <= i < |Sort<Scored>(ByScore(), rest)| :: bound < Sort<Scored>(ByScore(), rest)[i].0
  {
    SortContents<Scored>(ByScore(), rest);
    var sorted := Sort<Scored>(ByScore(), rest);
    hide ByScore, Sort;
    forall i | 0 <= i < |sorted| ensures bound < sorted[i].0 {
      var e: Scored := sorted[i];
      assert e in multiset(sorted);
      assert e in multiset(rest);
      var k :| 0 <= k < |rest| && rest[k] == e;
    }
  }

  /** A stable sort of scored items ranks them. */
  lemma {:induction false} SortRanks(items: seq<real>, from: nat)
    ensures Ranked(Sort<Scored>(ByScore(), Enumerated(items, from)))
  {
    hide ByScore;
    if items != [] {
      var scored := Enumerated(items, from);
      var rest := Enumerated(items[1..], from + 1);
      assert scored == [scored[0]] + rest && scored[1..] == rest;
      SortRanks(items[1..], from + 1);
      SortedIndices(rest, from);
      InsertRanked(scored[0], Sort<Scored>(ByScore(), rest));
    }
  }

  lemma RankedPrefix(s: seq<Scored>, k: nat, q: Scored)
    requires Ranked(s) && k <= |s| && q in s && q !in s[..k]
    ensures forall i | 0 <= i < k :: Before(s[i], q)
  {
    var j :| 0 <= j < |s| && s[j] == q;
    assert forall i | 0 <= i < k :: s[..k][i] == s[i];
    assert j >= k;
  }

  /** The best `k` items with their indices: ranked, true to the input, and above everything left out. */
  lemma TopKPromise(items: seq<real>, k: nat)
    ensures var r := TopK(items, k);
            && |r| == (if k < |items| then k else |items|)
            && Ranked(r)
            && (forall e | e in r :: e.0 < |items| && e.1 == items[e.0])
            && (forall j | 0 <= j < |items| :: (j, items[j]) in r || forall i | 0 <= i < |r| :: Before(r[i], (j, items[j])))
  {
    var scored := Enumerated(items, 0);
    var sorted := Sort<Scored>(ByScore(), scored);
    SortRanks(items, 0);
    SortContents<Scored>(ByScore(), scored);
    var r := TopK(items, k);
    hide ByScore, Sort;
    forall e | e in r ensures e.0 < |items| && e.1 == items[e.0] {
      assert e in multiset(sorted);
    }
    forall j | 0 <= j < |items| && (j, items[j]) !in r ensures forall i | 0 <= i < |r| :: Before(r[i], (j, items[j])) {
      assert scored[j] == (j, items[j]) && scored[j] in scored;
      RankedPrefix(sorted, |r|, (j, items[j]));
    }
  }

  // ------------------------------------------------------------- aggregation

  const THRESHOLD := 0.000000001

  /** Coordinate `i` summed over the first `n` vectors; a shorter vector adds nothing there. */
  function ColumnSum(vectors: seq<Vector>, n: nat, i: nat): real
    requires n <= |vectors|
  {
    if n == 0 then 0.0
    else ColumnSum(vectors, n - 1, i) + if i < |vectors[n - 1]| then vectors[n - 1][i] else 0.0
  }

  /** The coordinate-wise mean. */
  function Mean(vectors: seq<Vector>): (m: Vector)
    requires vectors != []
    ensures |m| == |vectors[0]|
  {
    seq(|vectors[0]|, i requires 0 <= i < |vectors[0]| => ColumnSum(vectors, |vectors|, i) / |vectors| as real)
  }

  function Divided(v: Vector, unit: real): (r: Vector)
    requires unit != 0.0
    ensures |r| == |v|
  {
    seq(|v|, i requires 0 <= i < |v| => v[i] / unit)
  }

  /** The normalized mean, or the mean itself when it is too short to normalize. */
  function Aggregated(vectors: seq<Vector>, dim: nat, sqrt: real -> real): Vector {
    if vectors == [] then seq(dim, i => 0.0)
    else if |vectors| == 1 then vectors[0]
    else
      var mean := Mean(vectors);
      var norm := sqrt(NormSq(mean));
      if norm > THRESHOLD then Divided(mean, norm) else mean
  }

  lemma {:induction false} ColumnSumSplit(a: seq<Vector>, b: seq<Vector>, n: nat, i: nat)
    requires n <= |b|
    ensures ColumnSum(a + b, |a| + n, i) == ColumnSum(a, |a|, i) + ColumnSum(b, n, i)
  {
    if n > 0 {
      ColumnSumSplit(a, b, n - 1, i);
    } else {
      ColumnSumPrefix(a, b, |a|, i);
    }
  }

  lemma {:induction false} ColumnSumPrefix(a: seq<Vector>, b: seq<Vector>, n: nat, i: nat)
    requires n <= |a|
    ensures ColumnSum(a + b, n, i) == ColumnSum(a, n, i)
  {
    if n > 0 {
      ColumnSumPrefix(a, b, n - 1, i);
    }
  }

  /** The column sum of one vector is its coordinate, and lists of vectors add up: no other sum does both. */
  lemma ColumnSumAdds(a: seq<Vector>, b: seq<Vector>, v: Vector, i: nat)
    requires i < |v|
    ensures ColumnSum([v], 1, i) == v[i]
    ensures ColumnSum(a + b, |a + b|, i) == ColumnSum(a, |a|, i) + ColumnSum(b, |b|, i)
  {
    ColumnSumSplit(a, b, |b|, i);
    assert ColumnSum([v], 0, i) == 0.0;
  }

  /** The order of the vectors does not matter to the mean. */
  lemma MeanOfSwapped(a: seq<Vector>, b: seq<Vector>, dim: nat)
    requires a != [] && b != [] && forall k | 0 <= k < |a + b| :: |(a + b)[k]| == dim
    ensures Mean(a + b) == Mean(b + a)
  {
    assert |(a + b)[0]| == dim && (a + b)[|a|] == b[0] && (b + a)[0] == b[0];
    forall i | 0 <= i < dim ensures Mean(a + b)[i] == Mean(b + a)[i] {
      ColumnSumSplit(a, b, |b|, i);
      ColumnSumSplit(b, a, |a|, i);
    }
  }

  lemma {:induction false} ColumnSumOfEqual(vectors: seq<Vector>, v: Vector, n: nat, i: nat)
    requires n <= |vectors| && i < |v| && forall k | 0 <= k < |vectors| :: vectors[k] == v
    ensures ColumnSum(vectors, n, i) == n as real * v[i]
  {
    if n > 0 {
      ColumnSumOfEqual(vectors, v, n - 1, i);
      assert n as real == (n - 1) as real + 1.0;
    }
  }

  /** The mean of equal vectors is that vector. */
  lemma MeanOfEqual(vectors: seq<Vector>, v: Vector)
    requires vectors != [] && forall k | 0 <= k < |vectors| :: vectors[k] == v
    ensures Mean(vectors) == v
  {
    forall i | 0 <= i < |v| ensures Mean(vectors)[i] == v[i] {
      ColumnSumOfEqual(vectors, v, |vectors|, i);
      Redivide(v[i], |vectors| as real);
    }
  }

  lemma Redivide(x: real, m: real)
    requires m != 0.0
    ensures m * x / m == x
  {
  }

  /** Every coordinate of the aggregate of two or more vectors is that of the mean, in units of its norm when
      that is above the threshold; one vector is its own aggregate, and none gives zeros. */
  lemma AggregateIsMean(vectors: seq<Vector>, dim: nat, sqrt: real -> real, i: nat)
    ensures |vectors| == 0 ==> |Aggregated(vectors, dim, sqrt)| == dim && (i < dim ==> Aggregated(vectors, dim, sqrt)[i] == 0.0)
    ensures |vectors| == 1 ==> Aggregated(vectors, dim, sqrt) == vectors[0]
    ensures |vectors| > 1 ==>
              var r, norm := Aggregated(vectors, dim, sqrt), sqrt(NormSq(Mean(vectors)));
              && |r| == |vectors[0]|
              && (i < |r| ==> r[i] * (if norm > THRESHOLD then norm else 1.0) * |vectors| as real
                              == ColumnSum(vectors, |vectors|, i))
  {
    if |vectors| > 1 && i < |vectors[0]| {
      var mean := Mean(vectors);
      var norm := sqrt(NormSq(mean));
      Undivide(ColumnSum(vectors, |vectors|, i), |vectors| as real);
      if norm > THRESHOLD {
        Undivide(mean[i], norm);
      }
    }
  }

  /** Adds one vector into the running sum, in place. */
  method Accumulate(sum: array<real>, v: Vector)
    requires |v| <= sum.Length
    modifies sum
    ensures forall i | 0 <= i < sum.Length :: sum[i] == old(sum[i]) + if i < |v| then v[i] else 0.0
  {
    for i := 0 to |v|
      invariant forall j | 0 <= j < i :: sum[j] == old(sum[j]) + v[j]
      invariant forall j | i <= j < sum.Length :: sum[j] == old(sum[j])
    {
      sum[i] := sum[i] + v[i];
    }
  }

  /** Divides every coordinate, in place. */
  method DivideBy(a: array<real>, unit: real)
    requires unit != 0.0
    modifies a
    ensures a[..] == Divided(old(a[..]), unit)
  {
    for i := 0 to a.Length
      invariant forall j | 0 <= j < i :: a[j] == old(a[j]) / unit
      invariant forall j | i <= j < a.Length :: a[j] == old(a[j])
    {
      a[i] := a[i] / unit;
    }
  }

  method Sum(vectors: seq<Vector>) returns (sum: array<real>)
    requires vectors != [] && forall k | 0 <= k < |vectors| :: |vectors[k]| <= |vectors[0]|
    ensures fresh(sum) && sum.Length == |vectors[0]|
    ensures forall i | 0 <= i < sum.Length :: sum[i] == ColumnSum(vectors, |vectors|, i)
  {
    sum := new real[|vectors[0]|](_ => 0.0);
    for k := 0 to |vectors|
      invariant forall i | 0 <= i < sum.Length :: sum[i] == ColumnSum(vectors, k, i)
    {
      Accumulate(sum, vectors[k]);
    }
  }

  /** `aggregate_embeddings`; `dim` is the configured dimension of an empty answer. */
  method AggregateEmbeddings(vectors: seq<Vector>, dim: nat, sqrt: real -> real) returns (r: Vector)
    requires forall k | 0 <= k < |vectors| :: |vectors[k]| <= |vectors[0]|
    ensures r == Aggregated(vectors, dim, sqrt)
  {
    if vectors == [] {
      return seq(dim, i => 0.0);
    }
    if |vectors| == 1 {
      return vectors[0];
    }
    var mean := Sum(vectors);
    DivideBy(mean, |vectors| as real);
    assert mean[..] == Mean(vectors);
    var norm := sqrt(NormSq(mean[..]));
    if norm > THRESHOLD {
      DivideBy(mean, norm);
    }
    return mean[..];
  }

  lemma SquareOfProduct(r: real, unit: real)
    ensures r * r * Sq(unit) == Sq(r * unit)
  {
  }

  lemma Distribute(u: real, v: real, s: real)
    ensures (u + v) * s == u * s + v * s
  {
  }

  lemma CancelFactor(u: real, v: real, s: real)
    requires s > 0.0 && u * s == v * s
    ensures u == v
  {
    assert Product(u - v, s) == 0.0 && Product(v - u, s) == 0.0;
    hide Product;
    if u > v {
      Scale(u - v, s);
    } else if u < v {
      Scale(v - u, s);
    }
  }

  /** Dividing every coordinate divides the squared norm by the square. */
  lemma {:induction false} DividedNorm(v: Vector, unit: real, n: nat)
    requires unit > 0.0 && n <= |v|
    ensures Dot(Divided(v, unit), Divided(v, unit), n) * Sq(unit) == Dot(v, v, n)
  {
    if n > 0 {
      var d, r := Divided(v, unit), v[n - 1] / unit;
      DividedNorm(v, unit, n - 1);
      assert d[n - 1] == r && r * unit == v[n - 1];
      SquareOfProduct(r, unit);
      Distribute(Dot(d, d, n - 1), r * r, Sq(unit));
    }
  }

  /** Two or more vectors whose mean has a norm above the threshold aggregate to a unit vector. */
  lemma AggregateIsUnit(vectors: seq<Vector>, dim: nat, sqrt: real -> real)
    requires |vectors| >= 2 && IsRoot(sqrt, NormSq(Mean(vectors))) && sqrt(NormSq(Mean(vectors))) > THRESHOLD
    ensures NormSq(Aggregated(vectors, dim, sqrt)) == 1.0
  {
    var mean := Mean(vectors);
    var norm := sqrt(NormSq(mean));
    DividedNorm(mean, norm, |mean|);
    NonzeroSquare(norm);
    CancelFactor(NormSq(Divided(mean, norm)), 1.0, Sq(norm));
  }
}
