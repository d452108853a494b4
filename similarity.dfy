/** The ranker of backend/services/similarityService.js: cosine similarity of a query
    embedding against every product that carries an embedding array, a descending sort
    and a `slice(0, topK)`. Numbers are reals; `Math.sqrt` is a parameter that is only
    known to be a square root on the non-negative reals. */
module Similarity {
  import opened Wrappers

  type Vector = seq<real>

  /** What a product's `embedding` field holds, as far as the test `!product.embedding ||
      !Array.isArray(product.embedding)` tells values apart: a falsy value (absent, `null`,
      `0`, `""`), a truthy value that is not an array, or an array of numbers. An empty
      array is truthy, so `Array([])` is an eligible embedding. */
  datatype Embedding = Falsy | NonArray | Array(values: Vector)

  /** A product document of the catalog. */
  datatype Product = Product(
    id: string,
    name: string,
    category: Option<string>,
    imageUrl: string,
    embedding: Embedding)

  /** `{ ...product, similarity: score }`: the product with all its fields, and its score. */
  datatype Scored = Scored(product: Product, similarity: real)

  /** The `products` argument: a value that is not an array, or an array of products. */
  datatype Catalog = NotAnArray | Products(items: seq<Product>)

  // ---------------------------------------------------------------------------------
  // cosineSimilarity
  // ---------------------------------------------------------------------------------

  /** The constant 1e-10 added to the denominator. */
  const Epsilon: real := 0.0000000001

  /** `sqrt` behaves as `Math.sqrt` on the non-negative reals. */
  ghost predicate IsSqrt(sqrt: real -> real) {
    forall x: real :: 0.0 <= x ==> 0.0 <= sqrt(x) && sqrt(x) * sqrt(x) == x
  }

  /** The sum of `a[i] * b[i]` over `i < n`, accumulated from index 0 upwards. */
  function Dot(a: Vector, b: Vector, n: nat): real
    requires n <= |a| && n <= |b|
  {
    if n == 0 then 0.0 else Dot(a, b, n - 1) + a[n - 1] * b[n - 1]
  }

  /** The final division of cosineSimilarity: `dot / (sqrt(normA) * sqrt(normB) + 1e-10)`. */
  function Normalize(dot: real, normA: real, normB: real, sqrt: real -> real): real
    requires IsSqrt(sqrt) && 0.0 <= normA && 0.0 <= normB
  {
    assert 0.0 <= sqrt(normA) && 0.0 <= sqrt(normB);
    dot / (sqrt(normA) * sqrt(normB) + Epsilon)
  }

  /** The value cosineSimilarity(q, v) returns: the accumulators run over the query's
      indices only, so `v` must have at least `|q|` components. */
  function Cosine(q: Vector, v: Vector, sqrt: real -> real): real
    requires IsSqrt(sqrt) && |q| <= |v|
  {
    SquaresNonNegative(q, |q|);
    SquaresNonNegative(v, |q|);
    Normalize(Dot(q, v, |q|), Dot(q, q, |q|), Dot(v, v, |q|), sqrt)
  }

  /** The accumulator loop: after it, `dot`, `normA` and `normB` hold the sums over
      indices `0 .. |vecA| - 1`, and the result is their normalisation. */
  method CosineSimilarity(vecA: Vector, vecB: Vector, sqrt: real -> real) returns (s: real)
    requires IsSqrt(sqrt) && |vecA| <= |vecB|
    ensures s == Cosine(vecA, vecB, sqrt)
  {
    var dot, normA, normB := 0.0, 0.0, 0.0;
    for i := 0 to |vecA|
      invariant dot == Dot(vecA, vecB, i)
      invariant normA == Dot(vecA, vecA, i)
      invariant normB == Dot(vecB, vecB, i)
    {
      dot := dot + vecA[i] * vecB[i];
      normA := normA + vecA[i] * vecA[i];
      normB := normB + vecB[i] * vecB[i];
    }
    SquaresNonNegative(vecA, |vecA|);
    SquaresNonNegative(vecB, |vecA|);
    assert 0.0 <= sqrt(normA) && 0.0 <= sqrt(normB);
    s := dot / (sqrt(normA) * sqrt(normB) + Epsilon);
  }

  lemma {:induction false} SquaresNonNegative(a: Vector, n: nat)
    requires n <= |a|
    ensures 0.0 <= Dot(a, a, n)
  {
    if n > 0 {
      SquaresNonNegative(a, n - 1);
      assert 0.0 <= a[n - 1] * a[n - 1];
    }
  }

  /** The dot product reads `b` only below index `n`. */
  lemma {:induction false} DotReadsPrefix(a: Vector, b: Vector, b': Vector, n: nat)
    requires n <= |a| && n <= |b| && n <= |b'|
    requires b[..n] == b'[..n]
    ensures Dot(a, b, n) == Dot(a, b', n)
  {
    if n > 0 {
      assert b[n - 1] == b[..n][n - 1] == b'[n - 1];
      assert b[..n - 1] == b[..n][..n - 1] == b'[..n - 1];
      DotReadsPrefix(a, b, b', n - 1);
    }
  }

  lemma {:induction false} DotSymmetric(a: Vector, b: Vector, n: nat)
    requires n <= |a| && n <= |b|
    ensures Dot(a, b, n) == Dot(b, a, n)
  {
    if n > 0 {
      DotSymmetric(a, b, n - 1);
    }
  }

  /** Only the first `|q|` components of an item's embedding are read: a longer
      embedding scores as its truncation, and components past `|q|` never matter. */
  lemma CosineReadsQueryPrefix(q: Vector, v: Vector, w: Vector, sqrt: real -> real)
    requires IsSqrt(sqrt) && |q| <= |v| && |q| <= |w|
    requires v[..|q|] == w[..|q|]
    ensures Cosine(q, v, sqrt) == Cosine(q, w, sqrt)
    ensures Cosine(q, v, sqrt) == Cosine(q, v[..|q|], sqrt)
  {
    var n := |q|;
    DotReadsPrefix(q, v, w, n);
    DotReadsPrefix(v, v, w, n);
    DotSymmetric(v, w, n);
    DotReadsPrefix(w, v, w, n);
    DotSymmetric(w, w, n);
    assert Dot(v, v, n) == Dot(w, w, n);
    var t := v[..n];
    assert t[..n] == v[..n];
    DotReadsPrefix(q, v, t, n);
    DotReadsPrefix(v, v, t, n);
    DotSymmetric(v, t, n);
    DotReadsPrefix(t, v, t, n);
    assert Dot(v, v, n) == Dot(t, t, n);
  }

  /** For equal lengths the score does not depend on which vector is the query. */
  lemma CosineSymmetric(q: Vector, v: Vector, sqrt: real -> real)
    requires IsSqrt(sqrt) && |q| == |v|
    ensures Cosine(q, v, sqrt) == Cosine(v, q, sqrt)
  {
    DotSymmetric(q, v, |q|);
    SquaresNonNegative(q, |q|);
    SquaresNonNegative(v, |q|);
    var a, b := sqrt(Dot(q, q, |q|)), sqrt(Dot(v, v, |q|));
    assert a * b == b * a;
  }

  /** 2dxy <= ay^2 + x^2b whenever d^2 <= ab: the induction step of Cauchy-Schwarz. */
  lemma CrossTermBound(d: real, a: real, b: real, x: real, y: real)
    requires 0.0 <= a && 0.0 <= b && d * d <= a * b
    ensures 2.0 * d * x * y <= a * y * y + x * x * b
  {
    assert 0.0 <= x * x;
    assert 0.0 <= x * x * b;
    if a == 0.0 {
      assert d * d <= 0.0;
      if d != 0.0 {
        assert 0.0 < d * d;
      }
    } else {
      var e := a * y - d * x;
      var t := a * y * y + x * x * b - 2.0 * d * x * y;
      assert 0.0 <= e * e;
      assert 0.0 <= x * x * (a * b - d * d);
      assert a * t == e * e + x * x * (a * b - d * d);
    }
  }

  /** Cauchy-Schwarz over the accumulated sums: dot^2 <= normA * normB. */
  lemma {:induction false} CauchySchwarz(a: Vector, b: Vector, n: nat)
    requires n <= |a| && n <= |b|
    ensures Dot(a, b, n) * Dot(a, b, n) <= Dot(a, a, n) * Dot(b, b, n)
  {
    if n > 0 {
      CauchySchwarz(a, b, n - 1);
      SquaresNonNegative(a, n - 1);
      SquaresNonNegative(b, n - 1);
      var d, p, q := Dot(a, b, n - 1), Dot(a, a, n - 1), Dot(b, b, n - 1);
      var x, y := a[n - 1], b[n - 1];
      CrossTermBound(d, p, q, x, y);
      assert (d + x * y) * (d + x * y) == d * d + 2.0 * d * x * y + x * x * y * y;
      assert (p + x * x) * (q + y * y) == p * q + p * y * y + x * x * q + x * x * y * y;
    }
  }

  lemma RootBound(d: real, p: real)
    requires 0.0 <= p && d * d <= p * p
    ensures -p <= d <= p
  {
    if d > p {
      SquareGrows(p, d);
      assert false;
    }
    if -d > p {
      SquareGrows(p, -d);
      assert false;
    }
  }

  lemma SquareGrows(x: real, y: real)
    requires 0.0 <= x < y
    ensures x * x < y * y
  {
    assert 0.0 <= x * (y - x);
    assert 0.0 < y * (y - x);
  }

  lemma NormalizeBounded(d: real, a: real, b: real, sqrt: real -> real)
    requires IsSqrt(sqrt) && 0.0 <= a && 0.0 <= b && d * d <= a * b
    ensures -1.0 < Normalize(d, a, b, sqrt) < 1.0
  {
    var sa, sb := sqrt(a), sqrt(b);
    var p := sa * sb;
    assert 0.0 <= sa && 0.0 <= sb && sa * sa == a && sb * sb == b;
    assert 0.0 <= p;
    assert p * p == (sa * sa) * (sb * sb);
    RootBound(d, p);
    var den := p + Epsilon;
    assert -den < d < den;
    var r := d / den;
    assert Normalize(d, a, b, sqrt) == r;
    assert r * den == d;
  }

  /** The score of every pair lies strictly between -1 and 1: the epsilon keeps it away
      from both ends. */
  lemma CosineBounded(q: Vector, v: Vector, sqrt: real -> real)
    requires IsSqrt(sqrt) && |q| <= |v|
    ensures -1.0 < Cosine(q, v, sqrt) < 1.0
  {
    var n := |q|;
    SquaresNonNegative(q, n);
    SquaresNonNegative(v, n);
    CauchySchwarz(q, v, n);
    NormalizeBounded(Dot(q, v, n), Dot(q, q, n), Dot(v, v, n), sqrt);
  }

  /** The epsilon avoids the division by zero: when the query or the item is all zero
      over the query's indices, the score is 0. */
  lemma ZeroNormScoresZero(q: Vector, v: Vector, sqrt: real -> real)
    requires IsSqrt(sqrt) && |q| <= |v|
    requires Dot(q, q, |q|) == 0.0 || Dot(v, v, |q|) == 0.0
    ensures Cosine(q, v, sqrt) == 0.0
  {
    CauchySchwarz(q, v, |q|);
    SquaresNonNegative(q, |q|);
    SquaresNonNegative(v, |q|);
    if Dot(q, v, |q|) != 0.0 {
      assert 0.0 < Dot(q, v, |q|) * Dot(q, v, |q|);
    }
  }

  /** A vector against itself scores n / (n + 1e-10) with n its squared norm: 0 for the
      zero vector, otherwise below 1 by less than 1e-10 / n. */
  lemma SelfSimilarity(q: Vector, sqrt: real -> real)
    requires IsSqrt(sqrt)
    ensures var n := Dot(q, q, |q|);
      && 0.0 <= n
      && Cosine(q, q, sqrt) == n / (n + Epsilon)
      && (n == 0.0 ==> Cosine(q, q, sqrt) == 0.0)
      && (0.0 < n ==> 0.0 < Cosine(q, q, sqrt) < 1.0 && (1.0 - Cosine(q, q, sqrt)) * n < Epsilon)
  {
    var n := Dot(q, q, |q|);
    SquaresNonNegative(q, |q|);
    assert sqrt(n) * sqrt(n) == n;
    var r := n / (n + Epsilon);
    assert r * (n + Epsilon) == n;
    if 0.0 < n {
      assert 0.0 < r;
      assert (1.0 - r) * (n + Epsilon) == Epsilon;
      assert (1.0 - r) * n < (1.0 - r) * (n + Epsilon);
    }
  }

  // ---------------------------------------------------------------------------------
  // computeSimilarity
  // ---------------------------------------------------------------------------------

  /** The products `map(...).filter(p => p !== null)` keeps: those whose embedding is an array. */
  function Eligible(items: seq<Product>): (r: seq<Product>)
    ensures |r| <= |items|
    ensures forall p :: p in r <==> p in items && p.embedding.Array?
  {
    if items == [] then []
    else (if items[0].embedding.Array? then [items[0]] else []) + Eligible(items[1..])
  }

  /** The filter keeps duplicates: each product with an array embedding occurs in the
      result as often as in the catalog, and any other product not at all. */
  lemma {:induction false} EligibleCounts(items: seq<Product>)
    ensures forall p :: multiset(Eligible(items))[p] == if p.embedding.Array? then multiset(items)[p] else 0
  {
    if items != [] {
      EligibleCounts(items[1..]);
      assert items == [items[0]] + items[1..];
    }
  }

  lemma {:induction false} NoneEligible(items: seq<Product>)
    requires forall p :: p in items ==> !p.embedding.Array?
    ensures Eligible(items) == []
  {
    if items != [] {
      NoneEligible(items[1..]);
    }
  }

  /** Every eligible product's embedding has at least the query's length (a shorter one
      would read `undefined` components and score NaN). */
  predicate LongEnough(query: Vector, items: seq<Product>) {
    forall p :: p in items && p.embedding.Array? ==> |query| <= |p.embedding.values|
  }

  predicate Rankable(query: Vector, products: Catalog) {
    products.Products? ==> LongEnough(query, products.items)
  }

  /** The filter-then-map of computeSimilarity: every eligible product, in catalog order, with its score. */
  function ScoreAll(query: Vector, items: seq<Product>, sqrt: real -> real): seq<Scored>
    requires IsSqrt(sqrt) && LongEnough(query, items)
  {
    if items == [] then []
    else
      var rest := ScoreAll(query, items[1..], sqrt);
      if items[0].embedding.Array? then
        [Scored(items[0], Cosine(query, items[0].embedding.values, sqrt))] + rest
      else
        rest
  }

  /** ScoreAll keeps exactly the eligible products, in catalog order, each with all its
      fields and with the cosine of its embedding against the query as its score. */
  lemma ScoreAllSpec(query: Vector, items: seq<Product>, sqrt: real -> real)
    requires IsSqrt(sqrt) && LongEnough(query, items)
    ensures var r := ScoreAll(query, items, sqrt);
      && |r| == |Eligible(items)|
      && (forall i :: 0 <= i < |r| ==> r[i].product == Eligible(items)[i])
      && forall x :: x in r ==>
        && x.product.embedding.Array?
        && |query| <= |x.product.embedding.values|
        && x.similarity == Cosine(query, x.product.embedding.values, sqrt)
  {
    ScoreAllProducts(query, items, sqrt);
    ScoreAllScores(query, items, sqrt);
  }

  lemma {:induction false} ScoreAllProducts(query: Vector, items: seq<Product>, sqrt: real -> real)
    requires IsSqrt(sqrt) && LongEnough(query, items)
    ensures |ScoreAll(query, items, sqrt)| == |Eligible(items)|
    ensures forall i :: 0 <= i < |Eligible(items)| ==> ScoreAll(query, items, sqrt)[i].product == Eligible(items)[i]
  {
    if items != [] {
      ScoreAllProducts(query, items[1..], sqrt);
      ScoreAllUnfold(query, items, sqrt);
    }
  }

  /** One step of the map-and-filter: an eligible head is scored and kept, any other
      head is dropped. */
  lemma ScoreAllUnfold(query: Vector, items: seq<Product>, sqrt: real -> real)
    requires IsSqrt(sqrt) && LongEnough(query, items) && items != []
    ensures var p, rest, tail := items[0], ScoreAll(query, items[1..], sqrt), Eligible(items[1..]);
      if p.embedding.Array? then
        && |query| <= |p.embedding.values|
        && ScoreAll(query, items, sqrt) == [Scored(p, Cosine(query, p.embedding.values, sqrt))] + rest
        && Eligible(items) == [p] + tail
      else
        ScoreAll(query, items, sqrt) == rest && Eligible(items) == tail
  {
  }

  lemma {:induction false} ScoreAllScores(query: Vector, items: seq<Product>, sqrt: real -> real)
    requires IsSqrt(sqrt) && LongEnough(query, items)
    ensures forall x :: x in ScoreAll(query, items, sqrt) ==>
      && x.product.embedding.Array?
      && |query| <= |x.product.embedding.values|
      && x.similarity == Cosine(query, x.product.embedding.values, sqrt)
  {
    if items != [] {
      ScoreAllScores(query, items[1..], sqrt);
    }
  }

  /** The scored products with similarity exactly `c`, in their order in `s`. */
  function WithScore(s: seq<Scored>, c: real): seq<Scored> {
    if s == [] then []
    else (if s[0].similarity == c then [s[0]] else []) + WithScore(s[1..], c)
  }

  /** The group of score `c` holds exactly the elements of `s` that score `c`. */
  lemma {:induction false} WithScoreMembers(s: seq<Scored>, c: real)
    ensures forall x :: x in WithScore(s, c) <==> x in s && x.similarity == c
  {
    if s != [] {
      WithScoreMembers(s[1..], c);
      assert s == [s[0]] + s[1..];
    }
  }

  predicate SortedDesc(s: seq<Scored>) {
    forall i, j :: 0 <= i < j < |s| ==> s[i].similarity >= s[j].similarity
  }

  /** Places `x` before the first element it is not smaller than. */
  function Insert(x: Scored, s: seq<Scored>): seq<Scored> {
    if s == [] || x.similarity >= s[0].similarity then [x] + s
    else [s[0]] + Insert(x, s[1..])
  }

  /** `sort((a, b) => b.similarity - a.similarity)`: a stable sort, descending by
      similarity (Array.prototype.sort is stable since ECMAScript 2019). */
  function SortDesc(s: seq<Scored>): seq<Scored> {
    if s == [] then [] else Insert(s[0], SortDesc(s[1..]))
  }

  /** The index `Array.prototype.slice(0, end)` stops at on an array of length `len`:
      a negative `end` counts back from the end of the array. */
  function SliceEnd(len: nat, end: int): (k: nat)
    ensures k <= len
  {
    if end < 0 then (if len + end < 0 then 0 else len + end)
    else if end < len then end
    else len
  }

  function Slice(s: seq<Scored>, end: int): (r: seq<Scored>)
    ensures r <= s && |r| == SliceEnd(|s|, end)
  {
    s[..SliceEnd(|s|, end)]
  }

  /** The products the ranker may return, scored, in catalog order. */
  function Candidates(query: Vector, products: Catalog, sqrt: real -> real): seq<Scored>
    requires IsSqrt(sqrt) && Rankable(query, products)
  {
    match products
    case NotAnArray => []
    case Products(items) => ScoreAll(query, items, sqrt)
  }

  function EligibleCount(products: Catalog): nat {
    match products
    case NotAnArray => 0
    case Products(items) => |Eligible(items)|
  }

  /** computeSimilarity(queryEmbedding, products, topK). */
  function ComputeSimilarity(query: Vector, products: Catalog, topK: int, sqrt: real -> real): seq<Scored>
    requires IsSqrt(sqrt) && Rankable(query, products)
  {
    if products.NotAnArray? || |products.items| == 0 then []
    else Slice(SortDesc(ScoreAll(query, products.items, sqrt)), topK)
  }

  // ---- the sort ----

  lemma {:induction false} InsertPermutes(x: Scored, s: seq<Scored>)
    ensures multiset(Insert(x, s)) == multiset(s) + multiset{x}
  {
    if !(s == [] || x.similarity >= s[0].similarity) {
      InsertPermutes(x, s[1..]);
      assert s == [s[0]] + s[1..];
    }
  }

  lemma {:induction false} InsertSorted(x: Scored, s: seq<Scored>)
    requires SortedDesc(s)
    ensures SortedDesc(Insert(x, s))
  {
    if !(s == [] || x.similarity >= s[0].similarity) {
      var t := Insert(x, s[1..]);
      InsertSorted(x, s[1..]);
      InsertPermutes(x, s[1..]);
      forall j | 0 <= j < |t|
        ensures t[j].similarity <= s[0].similarity
      {
        assert t[j] in multiset(t);
        if t[j] != x {
          assert t[j] in multiset(s[1..]);
          var k :| 0 <= k < |s[1..]| && s[1..][k] == t[j];
          assert s[k + 1] == t[j];
        }
      }
    }
  }

  lemma WithScoreCons(x: Scored, s: seq<Scored>, c: real)
    ensures WithScore([x] + s, c) == (if x.similarity == c then [x] else []) + WithScore(s, c)
  {
    assert ([x] + s)[0] == x;
    assert ([x] + s)[1..] == s;
  }

  lemma {:induction false} InsertStable(x: Scored, s: seq<Scored>, c: real)
    ensures WithScore(Insert(x, s), c) == WithScore([x] + s, c)
  {
    if !(s == [] || x.similarity >= s[0].similarity) {
      var gx := if x.similarity == c then [x] else [];
      var g0 := if s[0].similarity == c then [s[0]] else [];
      var rest := WithScore(s[1..], c);
      InsertStable(x, s[1..], c);
      assert Insert(x, s) == [s[0]] + Insert(x, s[1..]);
      WithScoreCons(s[0], Insert(x, s[1..]), c);
      WithScoreCons(x, s[1..], c);
      assert WithScore(Insert(x, s), c) == g0 + (gx + rest);
      assert s == [s[0]] + s[1..];
      WithScoreCons(s[0], s[1..], c);
      WithScoreCons(x, s, c);
      assert WithScore([x] + s, c) == gx + (g0 + rest);
      assert g0 == [] || gx == [];
    }
  }

  /** Sorting permutes: the result holds the same elements, each as often. */
  lemma {:induction false} SortDescPermutes(s: seq<Scored>)
    ensures multiset(SortDesc(s)) == multiset(s)
    ensures |SortDesc(s)| == |s|
  {
    if s != [] {
      SortDescPermutes(s[1..]);
      InsertPermutes(s[0], SortDesc(s[1..]));
      assert s == [s[0]] + s[1..];
    }
    assert |multiset(SortDesc(s))| == |multiset(s)|;
  }

  /** The result is ordered by non-increasing similarity. */
  lemma {:induction false} SortDescSorted(s: seq<Scored>)
    ensures SortedDesc(SortDesc(s))
  {
    if s != [] {
      SortDescSorted(s[1..]);
      InsertSorted(s[0], SortDesc(s[1..]));
    }
  }

  /** Stability: the elements of any one score keep their input order. */
  lemma {:induction false} SortDescStable(s: seq<Scored>, c: real)
    ensures WithScore(SortDesc(s), c) == WithScore(s, c)
  {
    if s != [] {
      SortDescStable(s[1..], c);
      InsertStable(s[0], SortDesc(s[1..]), c);
      WithScoreCons(s[0], SortDesc(s[1..]), c);
      WithScoreCons(s[0], s[1..], c);
      assert s == [s[0]] + s[1..];
    }
  }

  lemma InOwnGroup(s: seq<Scored>)
    requires s != []
    ensures s[0] in WithScore(s, s[0].similarity)
  {
  }

  lemma TailGroups(r: seq<Scored>, t: seq<Scored>, c: real)
    requires r != [] && t != [] && r[0] == t[0]
    requires WithScore(r, c) == WithScore(t, c)
    ensures WithScore(r[1..], c) == WithScore(t[1..], c)
  {
    var g := if r[0].similarity == c then [r[0]] else [];
    assert r == [r[0]] + r[1..] && t == [t[0]] + t[1..];
    WithScoreCons(r[0], r[1..], c);
    WithScoreCons(t[0], t[1..], c);
    assert g + WithScore(r[1..], c) == g + WithScore(t[1..], c);
    assert WithScore(r[1..], c) == (g + WithScore(r[1..], c))[|g|..];
    assert WithScore(t[1..], c) == (g + WithScore(t[1..], c))[|g|..];
  }

  /** Two sequences sorted by descending similarity whose groups of equal score agree
      are equal. */
  lemma {:induction false} SortedByGroups(r: seq<Scored>, t: seq<Scored>)
    requires SortedDesc(r) && SortedDesc(t)
    requires forall c :: WithScore(r, c) == WithScore(t, c)
    ensures r == t
  {
    if r == [] || t == [] {
      if r != [] {
        InOwnGroup(r);
        assert false;
      }
      if t != [] {
        InOwnGroup(t);
        assert false;
      }
    } else {
      var m := r[0].similarity;
      InOwnGroup(r);
      InOwnGroup(t);
      WithScoreMembers(t, m);
      WithScoreMembers(r, t[0].similarity);
      assert r[0] in t;
      assert t[0] in r;
      assert t[0].similarity == m;
      WithScoreCons(r[0], r[1..], m);
      WithScoreCons(t[0], t[1..], m);
      assert r == [r[0]] + r[1..] && t == [t[0]] + t[1..];
      assert WithScore(r, m)[0] == r[0];
      assert r[0] == t[0];
      forall c
        ensures WithScore(r[1..], c) == WithScore(t[1..], c)
      {
        TailGroups(r, t, c);
      }
      SortedByGroups(r[1..], t[1..]);
    }
  }

  /** SortDesc is THE stable descending sort: any sequence that is sorted and keeps each
      score's elements in input order is SortDesc of the input. */
  lemma StableSortUnique(s: seq<Scored>, r: seq<Scored>)
    requires SortedDesc(r)
    requires forall c :: WithScore(r, c) == WithScore(s, c)
    ensures r == SortDesc(s)
  {
    SortDescSorted(s);
    forall c
      ensures WithScore(r, c) == WithScore(SortDesc(s), c)
    {
      SortDescStable(s, c);
    }
    SortedByGroups(r, SortDesc(s));
  }

  lemma {:induction false} WithScorePrefix(a: seq<Scored>, b: seq<Scored>, c: real)
    requires a <= b
    ensures WithScore(a, c) <= WithScore(b, c)
  {
    if a != [] {
      assert a[0] == b[0];
      assert a[1..] <= b[1..];
      WithScorePrefix(a[1..], b[1..], c);
    }
  }

  // ---- the whole ranker ----

  /** The result is SortDesc of the candidates cut by the slice rule. */
  lemma RankIsSlicedSort(query: Vector, products: Catalog, topK: int, sqrt: real -> real)
    requires IsSqrt(sqrt) && Rankable(query, products)
    ensures ComputeSimilarity(query, products, topK, sqrt)
      == Slice(SortDesc(Candidates(query, products, sqrt)), topK)
    ensures |Candidates(query, products, sqrt)| == EligibleCount(products)
  {
    if products.Products? {
      ScoreAllSpec(query, products.items, sqrt);
    }
  }

  /** The candidates are eligible catalog products scored by their cosine. */
  lemma CandidatesSpec(query: Vector, products: Catalog, sqrt: real -> real)
    requires IsSqrt(sqrt) && Rankable(query, products)
    ensures forall x :: x in Candidates(query, products, sqrt) ==>
      && products.Products?
      && x.product in products.items
      && x.product.embedding.Array?
      && |query| <= |x.product.embedding.values|
      && x.similarity == Cosine(query, x.product.embedding.values, sqrt)
  {
    if products.Products? {
      var c := Candidates(query, products, sqrt);
      ScoreAllSpec(query, products.items, sqrt);
      forall x | x in c
        ensures x.product in products.items
      {
        var i :| 0 <= i < |c| && c[i] == x;
        assert x.product in Eligible(products.items);
      }
    }
  }

  /** Length: `min(topK, #eligible)` for `topK >= 0`; JavaScript's slice rule for a
      negative `topK` (all but the last `-topK`); never more than the eligible products,
      and all of them once `topK` reaches their number. */
  lemma RankLength(query: Vector, products: Catalog, topK: int, sqrt: real -> real)
    requires IsSqrt(sqrt) && Rankable(query, products)
    ensures var r, n := ComputeSimilarity(query, products, topK, sqrt), EligibleCount(products);
      && |r| == SliceEnd(n, topK)
      && (0 <= topK ==> |r| == if topK < n then topK else n)
      && (topK < 0 ==> |r| == if n + topK < 0 then 0 else n + topK)
      && (n <= topK ==> multiset(r) == multiset(Candidates(query, products, sqrt)))
  {
    var c := Candidates(query, products, sqrt);
    RankIsSlicedSort(query, products, topK, sqrt);
    SortDescPermutes(c);
    var sorted := SortDesc(c);
    if |c| <= topK {
      assert sorted[..|sorted|] == sorted;
    }
  }

  /** The result is ordered by non-increasing similarity. */
  lemma RankSorted(query: Vector, products: Catalog, topK: int, sqrt: real -> real)
    requires IsSqrt(sqrt) && Rankable(query, products)
    ensures SortedDesc(ComputeSimilarity(query, products, topK, sqrt))
  {
    var c := Candidates(query, products, sqrt);
    RankIsSlicedSort(query, products, topK, sqrt);
    SortDescSorted(c);
  }

  lemma SliceSplits(s: seq<Scored>, end: int)
    ensures multiset(s) == multiset(Slice(s, end)) + multiset(s[|Slice(s, end)|..])
  {
    assert s == Slice(s, end) + s[|Slice(s, end)|..];
  }

  /** Every result is an eligible product of the catalog, with all its fields, scored by
      the cosine of its embedding against the query; the result is a sub-multiset of the
      scored eligible products, so a product appears at most as often as in the catalog. */
  lemma RankMembers(query: Vector, products: Catalog, topK: int, sqrt: real -> real)
    requires IsSqrt(sqrt) && Rankable(query, products)
    ensures var r := ComputeSimilarity(query, products, topK, sqrt);
      && multiset(r) <= multiset(Candidates(query, products, sqrt))
      && forall x :: x in r ==>
        && products.Products?
        && x.product in products.items
        && x.product.embedding.Array?
        && |query| <= |x.product.embedding.values|
        && x.similarity == Cosine(query, x.product.embedding.values, sqrt)
  {
    var c := Candidates(query, products, sqrt);
    var r := ComputeSimilarity(query, products, topK, sqrt);
    RankIsSlicedSort(query, products, topK, sqrt);
    CandidatesSpec(query, products, sqrt);
    SortDescPermutes(c);
    SliceSplits(SortDesc(c), topK);
    forall x | x in r
      ensures x in c
    {
      assert x in multiset(r);
      assert x in multiset(SortDesc(c));
    }
  }

  /** Top-K dominance: every scored eligible product left out scores at most as high as
      every product kept. */
  lemma RankDominance(query: Vector, products: Catalog, topK: int, sqrt: real -> real)
    requires IsSqrt(sqrt) && Rankable(query, products)
    ensures var r := ComputeSimilarity(query, products, topK, sqrt);
      forall x: Scored, y: Scored :: x in multiset(Candidates(query, products, sqrt)) - multiset(r) && y in r ==>
        x.similarity <= y.similarity
  {
    var c := Candidates(query, products, sqrt);
    var r := ComputeSimilarity(query, products, topK, sqrt);
    RankIsSlicedSort(query, products, topK, sqrt);
    SortDescPermutes(c);
    SortDescSorted(c);
    var sorted := SortDesc(c);
    var rest := sorted[|r|..];
    SliceSplits(sorted, topK);
    assert multiset(c) - multiset(r) == multiset(rest);
    SortedSplit(sorted, |r|);
    assert r == sorted[..|r|];
    forall x: Scored | x in multiset(c) - multiset(r)
      ensures x in rest
    {
    }
  }

  /** In a sorted sequence, everything after a cut scores at most what precedes it. */
  lemma SortedSplit(s: seq<Scored>, k: nat)
    requires SortedDesc(s) && k <= |s|
    ensures forall x, y :: x in s[k..] && y in s[..k] ==> x.similarity <= y.similarity
  {
    forall x, y | x in s[k..] && y in s[..k]
      ensures x.similarity <= y.similarity
    {
      var j :| 0 <= j < |s[k..]| && s[k..][j] == x;
      var i :| 0 <= i < k && s[..k][i] == y;
      assert s[i] == y && s[k + j] == x;
    }
  }

  /** Ties keep catalog order: the results of any one score are a prefix of the eligible
      products of that score, in catalog order. */
  lemma RankStable(query: Vector, products: Catalog, topK: int, sqrt: real -> real, c: real)
    requires IsSqrt(sqrt) && Rankable(query, products)
    ensures WithScore(ComputeSimilarity(query, products, topK, sqrt), c)
      <= WithScore(Candidates(query, products, sqrt), c)
  {
    var cs := Candidates(query, products, sqrt);
    RankIsSlicedSort(query, products, topK, sqrt);
    WithScorePrefix(Slice(SortDesc(cs), topK), SortDesc(cs), c);
    SortDescStable(cs, c);
  }

  /** A product whose embedding is missing or not an array is never returned, and an
      array-valued embedding is never dropped for its content: for `topK` at least the
      catalog's size, exactly the eligible products come back. */
  lemma RankEligibility(query: Vector, items: seq<Product>, topK: int, sqrt: real -> real, p: Product)
    requires IsSqrt(sqrt) && LongEnough(query, items)
    requires |items| <= topK
    ensures (exists x :: x in ComputeSimilarity(query, Products(items), topK, sqrt) && x.product == p)
      <==> p in items && p.embedding.Array?
  {
    var products := Products(items);
    var c := ScoreAll(query, items, sqrt);
    var r := ComputeSimilarity(query, products, topK, sqrt);
    RankLength(query, products, topK, sqrt);
    RankMembers(query, products, topK, sqrt);
    assert multiset(r) == multiset(c);
    if p in items && p.embedding.Array? {
      ScoreAllSpec(query, items, sqrt);
      assert p in Eligible(items);
      var i :| 0 <= i < |Eligible(items)| && Eligible(items)[i] == p;
      assert c[i].product == p;
      assert c[i] in multiset(r);
    }
  }

  /** An empty catalog, a non-array catalog, and one without eligible products all give
      an empty result, whatever `topK` is. */
  lemma RankEmpty(query: Vector, products: Catalog, topK: int, sqrt: real -> real)
    requires IsSqrt(sqrt) && Rankable(query, products)
    requires products.NotAnArray? || forall p :: p in products.items ==> !p.embedding.Array?
    ensures ComputeSimilarity(query, products, topK, sqrt) == []
  {
    RankLength(query, products, topK, sqrt);
    if products.Products? {
      NoneEligible(products.items);
    }
  }

  // ---- a worked example ----

  lemma RootOfOne(sqrt: real -> real)
    requires IsSqrt(sqrt)
    ensures sqrt(1.0) == 1.0
  {
    var s := sqrt(1.0);
    assert 0.0 <= s && s * s == 1.0;
    assert (s - 1.0) * (s + 1.0) == 0.0;
    ZeroFactor(s - 1.0, s + 1.0);
  }

  lemma ZeroFactor(x: real, p: real)
    requires 0.0 < p && x * p == 0.0
    ensures x == 0.0
  {
  }

  lemma RootExceeds(s: real, y: real)
    requires 0.0 <= s && 0.0 <= y && y * y < s * s
    ensures y < s
  {
    assert (s - y) * (s + y) > 0.0;
  }

  lemma QuotientLess(n1: real, d1: real, n2: real, d2: real)
    requires 0.0 < d1 && 0.0 < d2 && n1 * d2 < n2 * d1
    ensures n1 / d1 < n2 / d2
  {
    var q1, q2 := n1 / d1, n2 / d2;
    assert q1 * d1 == n1 && q2 * d2 == n2;
    assert (q2 - q1) * (d1 * d2) == n2 * d1 - n1 * d2;
    PositiveFactor(q2 - q1, d1 * d2);
  }

  lemma PositiveFactor(x: real, p: real)
    requires 0.0 < p && 0.0 < x * p
    ensures 0.0 < x
  {
  }

  lemma DotOfPairs(a: Vector, b: Vector)
    requires |a| == 2 && |b| == 2
    ensures Dot(a, b, 2) == a[0] * b[0] + a[1] * b[1]
  {
    assert Dot(a, b, 1) == a[0] * b[0];
  }

  /** Catalog a = [1, 0], b = [0, 1], c = [0.7, 0.7], query [1, 0], topK 2: the result is
      a (score 1 / (1 + 1e-10)) then c (score about 0.707); b is left out. */
  lemma WorkedExample(sqrt: real -> real)
    requires IsSqrt(sqrt)
    ensures var a := Product("a", "a", None, "a.jpg", Array([1.0, 0.0]));
      var b := Product("b", "b", None, "b.jpg", Array([0.0, 1.0]));
      var c := Product("c", "c", None, "c.jpg", Array([0.7, 0.7]));
      var q := [1.0, 0.0];
      ComputeSimilarity(q, Products([a, b, c]), 2, sqrt)
        == [Scored(a, 1.0 / (1.0 + Epsilon)), Scored(c, 0.7 / (sqrt(0.98) + Epsilon))]
  {
    var a := Product("a", "a", None, "a.jpg", Array([1.0, 0.0]));
    var b := Product("b", "b", None, "b.jpg", Array([0.0, 1.0]));
    var c := Product("c", "c", None, "c.jpg", Array([0.7, 0.7]));
    var q := [1.0, 0.0];
    var items := [a, b, c];
    RootOfOne(sqrt);
    var root := sqrt(0.98);
    assert 0.0 <= root && root * root == 0.98;
    RootExceeds(root, 0.7);
    var sa, sb, sc := 1.0 / (1.0 + Epsilon), 0.0, 0.7 / (root + Epsilon);
    DotOfPairs(q, q);
    DotOfPairs(q, a.embedding.values);
    DotOfPairs(a.embedding.values, a.embedding.values);
    DotOfPairs(q, b.embedding.values);
    DotOfPairs(b.embedding.values, b.embedding.values);
    DotOfPairs(q, c.embedding.values);
    DotOfPairs(c.embedding.values, c.embedding.values);
    assert Cosine(q, a.embedding.values, sqrt) == sa;
    assert Cosine(q, b.embedding.values, sqrt) == sb;
    assert Cosine(q, c.embedding.values, sqrt) == sc;
    var ka, kb, kc := Scored(a, sa), Scored(b, sb), Scored(c, sc);
    assert items[1..] == [b, c] && items[1..][1..] == [c];
    assert [c][1..] == [];
    assert ScoreAll(q, [c], sqrt) == [kc];
    assert ScoreAll(q, [b, c], sqrt) == [kb, kc];
    assert ScoreAll(q, items, sqrt) == [ka, kb, kc];
    assert 0.0 < sc;
    QuotientLess(0.7, root + Epsilon, 1.0, 1.0 + Epsilon);
    assert sc < sa;
    assert [ka, kb, kc][1..] == [kb, kc] && [kb, kc][1..] == [kc];
    assert [kc][1..] == [];
    assert SortDesc([kc]) == [kc];
    assert Insert(kb, []) == [kb];
    assert SortDesc([kb, kc]) == [kc, kb];
    assert SortDesc([ka, kb, kc]) == [ka, kc, kb];
  }
}
