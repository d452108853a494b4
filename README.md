# Visual product search: ranking and catalog cache, modelled in Dafny

This project models the two parts of the visual product tracker backend that hold real logic.

- **The ranker** (`backend/services/similarityService.js`). `cosineSimilarity` accumulates a
  dot product and two squared norms over the query's indices, then divides by
  `sqrt(normA) * sqrt(normB) + 1e-10`. `computeSimilarity` returns `[]` for a non-array or
  empty catalog. Otherwise it keeps the products whose `embedding` is a truthy array,
  attaches a `similarity` to each, sorts them in descending order and keeps `slice(0, topK)`.
- **The search service** (`backend/services/searchService.js`). `getProducts` serves the
  catalog from the module-level `productsCache` / `cacheTimestamp` pair. It refetches the
  whole catalog when the cache is missing or at least `CACHE_TIMEOUT` (300000 ms) old.
  `searchByImageUrl` and `searchByImageFile` get the query embedding first, then the
  products. They rank the products and project each hit onto
  `{ id, name, category, image_url, score }`. They report the catalog size and echo the
  category filter.

Files:

- `wrappers.dfy`: `Option` (JavaScript `null`) and `Result` (a value, or a thrown error).
- `similarity.dfy`, module `Similarity`: the ranker.
  - The loop is a method (`CosineSimilarity`) proved against the spec function `Cosine`.
    `Cosine` is built on `Dot`, the sum accumulated from index 0.
  - The pipeline is a pure function (`ComputeSimilarity`). It is built from `ScoreAll`
    (map and filter), `SortDesc` (a stable insertion sort, standing for
    `Array.prototype.sort`, which is stable since ECMAScript 2019) and `Slice`
    (JavaScript's `slice(0, end)`, including its rule for a negative `end`).
- `search.dfy`, module `Search`: the cache and the search entry points.
  - The class `ProductCache` holds `productsCache` and `cacheTimestamp`, plus a ghost count
    of store fetches.
  - Its method `GetProducts` is specified by the pure transition `GetProductsStep`.
    `Run` applies that transition to a series of calls.
  - `Respond` is the response the searches build.

Numbers are modelled as mathematical reals:

- The division and the `1e-10` epsilon are exact.
- `Math.sqrt` is a parameter `sqrt`. The predicate `IsSqrt` says only that it returns the
  non-negative square root of a non-negative real.
- So the ranking lemmas hold for every such function, and no floating-point claim is made.

The clock and the collaborators are explicit parameters:

- `now` is the value `Date.now()` returns on entry to `getProducts`. For the search entry points it is that reading, taken after the embedding has been awaited, not the `startTime` read when the search begins.
- `fetched` is what `getAllProducts()` would return or throw.
- `embedding` is what the embedding provider returns or throws.

Behaviour of the code that is easy to misread, and what the model does:

- **Embedding length.** Items whose embedding length differs from the query's are not
  dropped. The loop runs over the query's length and reads only that prefix of the item's
  embedding.
  - A longer embedding is scored on its first `|query|` components
    (`CosineReadsQueryPrefix`).
  - A shorter one would read `undefined` and score NaN. The precondition `LongEnough`
    excludes that case.
- **`topK`.** It is not required to be positive. A negative value keeps all but the last
  `-topK` hits, as `slice` does (`RankLength`).
- **Staleness.** A cache is stale when `now - cacheTimestamp >= CACHE_TIMEOUT`, not only when
  it is strictly older. A timestamp of `0` is falsy, so it always counts as stale. An empty
  cached array is truthy, so it is served while fresh.
- **Fetch failure.** There is no stale-fallback option. The store's error propagates, and
  the cache variables are left as they were (`CacheMiss`). The next call with a clock that has not gone backwards asks the store again (`FailureThenRefetch`).
- **Category filter.** The parameter is echoed in the response and never narrows the
  ranking. The model keeps that behaviour (`CategoryIgnored`).

## Model

| member | source | states |
|---|---|---|
| `Similarity.Cosine` | backend/services/similarityService.js:3-9 | Defines the score the loop computes: the dot product over the query's indices (`Dot`) divided by the product of the two roots plus `1e-10` (`Normalize`). `CosineSimilarity` computes it; `CosineBounded`, `CosineSymmetric`, `CosineReadsQueryPrefix` and `SelfSimilarity` hold of it. |
| `Similarity.CosineSimilarity` | backend/services/similarityService.js:2-10 | After the loop over the query's indices, `dot`, `normA` and `normB` are the sums of `q[i]*v[i]`, `q[i]^2` and `v[i]^2` over the indices below the query length. The result is `dot / (sqrt(normA)*sqrt(normB) + 1e-10)` (the function `Cosine`). |
| `Similarity.SquaresNonNegative` | backend/services/similarityService.js:6-7 | The squared-norm accumulators are never negative, so the denominator is at least 1e-10 and the division is always defined. |
| `Similarity.DotReadsPrefix` | backend/services/similarityService.js:4-5 | The dot product over the first `n` indices depends only on those components of the second vector. |
| `Similarity.CosineReadsQueryPrefix` | backend/services/similarityService.js:4 | An item's embedding is read only below the query's length: it scores as its truncation to the query length. Two embeddings that agree there score alike. |
| `Similarity.CosineSymmetric` | backend/services/similarityService.js:3-9 | For equal lengths, swapping query and item gives the same score. |
| `Similarity.CauchySchwarz` | backend/services/similarityService.js:3-8 | The accumulators satisfy `dot^2 <= normA * normB` (proved by induction over the loop's sums). |
| `Similarity.CosineBounded` | backend/services/similarityService.js:9 | In real arithmetic, every score lies strictly between -1 and 1: the epsilon keeps it off both ends. |
| `Similarity.ZeroNormScoresZero` | backend/services/similarityService.js:9 | The epsilon avoids the division by zero: when the query or the item is all zero over the query's indices, the score is 0. |
| `Similarity.SelfSimilarity` | backend/services/similarityService.js:9 | In real arithmetic, a vector against itself scores `n / (n + 1e-10)`, with `n` its squared norm. That is 0 for the zero vector; otherwise it lies in (0, 1) and falls short of 1 by less than `1e-10 / n`. |
| `Similarity.Eligible` | backend/services/similarityService.js:18-21 | A product survives the filter if and only if it is in the catalog and its `embedding` is an array. Ineligible products are dropped silently, never with an error. |
| `Similarity.EligibleCounts` | backend/services/similarityService.js:17-21 | The filter keeps duplicates: each product with an array embedding occurs as often as in the catalog, every other product not at all. So `#eligible` counts duplicate catalog entries. |
| `Similarity.ScoreAll` | backend/services/similarityService.js:17-21 | Defines the map-then-filter: each product with a truthy array embedding, in catalog order, spread with its `similarity`. `ScoreAllSpec` states what it returns. |
| `Similarity.ScoreAllSpec` | backend/services/similarityService.js:17-21 | The scored list has one entry per eligible product, in catalog order. Each entry is that product with all its fields, plus `similarity = Cosine(query, embedding)`. |
| `Similarity.SortDesc` | backend/services/similarityService.js:24 | Defines the sort as insertion (`Insert` places an element before the first one it is not smaller than). `SortDescPermutes`, `SortDescSorted`, `SortDescStable` and `StableSortUnique` show it is the stable descending sort. |
| `Similarity.SortDescPermutes` | backend/services/similarityService.js:24 | Sorting is a permutation: same multiset, same length. |
| `Similarity.SortDescSorted` | backend/services/similarityService.js:24 | The sorted list has non-increasing `similarity`. |
| `Similarity.SortDescStable` | backend/services/similarityService.js:24 | For every score value, the products with that score keep their input order. |
| `Similarity.StableSortUnique` | backend/services/similarityService.js:24 | Any sequence that is sorted descending and keeps each score's products in input order equals `SortDesc` of the input. So the insertion sort is exactly the stable descending sort the comparator asks for. |
| `Similarity.SliceEnd` | backend/services/similarityService.js:27 | The end index of `slice(0, topK)` never passes the array's length (a negative `topK` counts back from the end). |
| `Similarity.Slice` | backend/services/similarityService.js:27 | `slice(0, topK)` returns a prefix of the array, `SliceEnd` elements long. |
| `Similarity.ComputeSimilarity` | backend/services/similarityService.js:13-28 | Defines `computeSimilarity`: `[]` for a non-array or empty catalog, otherwise the sorted scored candidates cut by `slice(0, topK)`. The `Rank` lemmas below hold of it. |
| `Similarity.RankIsSlicedSort` | backend/services/similarityService.js:13-28 | `computeSimilarity` is the slice of the sorted scored candidates. The candidates number exactly the eligible products (none for a non-array catalog). |
| `Similarity.RankLength` | backend/services/similarityService.js:14-27 | The output has `min(topK, #eligible)` entries for `topK >= 0`, and `max(#eligible + topK, 0)` for negative `topK`. Once `topK >= #eligible`, every eligible product is returned, with no padding. |
| `Similarity.RankSorted` | backend/services/similarityService.js:24-27 | The output is ordered by non-increasing similarity. |
| `Similarity.RankMembers` | backend/services/similarityService.js:17-27 | Every output entry is an eligible catalog product with its fields unchanged, scored by the cosine of its embedding. The output is a sub-multiset of the scored eligible products. |
| `Similarity.RankDominance` | backend/services/similarityService.js:24-27 | Top-K dominance: every scored eligible product left out scores at most as high as every product returned. |
| `Similarity.RankStable` | backend/services/similarityService.js:24-27 | Ties keep catalog order: for every score, the returned products of that score are a prefix of the eligible products of that score, in catalog order. |
| `Similarity.RankEligibility` | backend/services/similarityService.js:17-21 | With `topK` at least the catalog size, a product appears in the output if and only if it is in the catalog and has an array embedding. |
| `Similarity.RankEmpty` | backend/services/similarityService.js:14-21 | A non-array catalog, an empty catalog, or one without an array embedding yields `[]` for every `topK`. |
| `Similarity.WorkedExample` | backend/services/similarityService.js:13-28 | Catalog a=[1,0], b=[0,1], c=[0.7,0.7], query [1,0], topK 2: the result is exactly a then c, with scores `1/(1+1e-10)` and `0.7/(sqrt(0.98)+1e-10)`; b is left out. |
| `Search.ProductCache.constructor` | backend/services/searchService.js:6-7 | The cache starts with both `productsCache` and `cacheTimestamp` null and no fetch made. |
| `Search.ProductCache.GetProducts` | backend/services/searchService.js:91-103 | The new cache state and the value returned or thrown are exactly those of the transition `GetProductsStep` for the old state, the `now` read on entry and the store's answer. |
| `Search.IsFresh` | backend/services/searchService.js:95 | Defines the freshness test: a cached array (an empty one counts), a truthy stamp (0 is falsy) and `now - stamp < CACHE_TIMEOUT`. `FreshnessWindow` and `StaysStale` hold of it. |
| `Search.GetProductsStep` | backend/services/searchService.js:91-103 | Defines `getProducts` as one transition of the cache variables: a hit, or one fetch that replaces cache and stamp on success and keeps them on a throw. `CacheHit` and `CacheMiss` state its two branches. |
| `Search.Run` | backend/services/searchService.js:91-103 | Defines a series of `getProducts` calls, each starting from the previous call's state, with one result per call. `RunFetches`, `HitsWhileFresh`, `RefreshThenHits`, `RefreshAfterWindow` and the failure lemmas hold of it. |
| `Search.RunFetches` | backend/services/searchService.js:95-100 | Over any series of calls the store is asked at most once per call, and never fewer times in total than before. |
| `Search.CacheHit` | backend/services/searchService.js:95-96 | On a fresh cache (non-null cache, truthy stamp, `now - stamp < CACHE_TIMEOUT`) the cached array is returned, the store is not asked and nothing changes. |
| `Search.CacheMiss` | backend/services/searchService.js:99-102 | Otherwise the store is asked exactly once. A successful answer replaces the cache wholesale and stamps it with the entry `now`. A thrown error is rethrown with cache and stamp unchanged. |
| `Search.FreshnessWindow` | backend/services/searchService.js:95 | With a non-zero stamp `t`, the cache is fresh if and only if `now < t + 300000`. At exactly `t + 300000` it is stale, because the comparison is strict. |
| `Search.HitsWhileFresh` | backend/services/searchService.js:95-97 | Any series of calls made while the cache is fresh returns the cached array every time and leaves the state, including the fetch count, unchanged. |
| `Search.RefreshThenHits` | backend/services/searchService.js:95-102 | After a refresh at a non-zero `now = t`, all later calls before `t + CACHE_TIMEOUT` return the fetched array, and the store has been asked exactly once. |
| `Search.RefreshAfterWindow` | backend/services/searchService.js:95-102 | After a refresh at `t`, a call at or after `t + CACHE_TIMEOUT` asks the store again and returns its answer. |
| `Search.FailureKeepsSnapshot` | backend/services/searchService.js:95-100 | A failed refetch keeps the previous array and stamp. Their window had already closed at the failed call, so a retry is served from them only if the clock reads earlier than at the failed call (a clock going backwards). |
| `Search.StaysStale` | backend/services/searchService.js:95 | A cache that is stale at one reading is stale at every later reading. |
| `Search.FailureThenRefetch` | backend/services/searchService.js:95-100 | With a clock that does not go backwards, the call after a failed refetch asks the store again and returns its answer: two fetches, never a hit on the kept snapshot. |
| `Search.FailuresKeepFetching` | backend/services/searchService.js:95-100 | While the store keeps failing and the kept snapshot is stale at each reading, every call asks the store once and rethrows its error. The cache variables stay as they were, and the fetch count grows by the number of calls. |
| `Search.ProductCache.Search` | backend/services/searchService.js:14-47 | The embedding is obtained first: its error is rethrown with the cache untouched. Otherwise the cache takes the `getProducts` step. A store error is rethrown, and a successful answer yields the response `Respond` builds. |
| `Search.ProductCache.SearchByImageUrl` | backend/services/searchService.js:11-48 | As `Search`, with the image URL echoed as the query descriptor. |
| `Search.ProductCache.SearchByImageFile` | backend/services/searchService.js:51-88 | As `Search`, with the MIME type echoed as the query descriptor. |
| `Search.Respond` | backend/services/searchService.js:19-42 | Defines the response built from a catalog: the ranker's output projected entry by entry (`ProjectAll`, `Project`), the catalog length, and the echoed descriptor and category. `ResponseShape`, `ResponseRanked` and `CategoryIgnored` hold of it. |
| `Search.ResponseShape` | backend/services/searchService.js:26-42 | `results` has the ranker output's length and order. Entry `i` projects the `i`-th product's id, name, category and image url, with `score = similarity`. `total_products_searched` is the full catalog length, and the descriptor and category are echoed. |
| `Search.ResponseRanked` | backend/services/searchService.js:19-32 | The response scores are non-increasing. There are `min(topK, #eligible)` entries for `topK >= 0`. Each entry is the projection of an eligible catalog product carrying its cosine score, and there are never more entries than `total_products_searched`. |
| `Search.CategoryIgnored` | backend/services/searchService.js:19-41 | The category filter is echoed back but never changes `results`. |

## Left out

- Floating point: IEEE rounding, NaN and Infinity are not modelled. Numbers are reals, and `Math.sqrt` is any function that is a square root on non-negative reals. The bounds of `CosineBounded` and `SelfSimilarity` hold in real arithmetic only: in doubles the `1e-10` is absorbed once `sqrt(normA) * sqrt(normB)` reaches about 1e6, so `[1e4]` against itself scores exactly 1 and `[17320.5, 1]` against itself scores 1.0000000000000002.
- Similarity.Cosine: `LongEnough` excludes an item embedding shorter than the query. In the source, that item reads `undefined` components and scores NaN, and the sort's treatment of NaN is left out with it.
- Every catalog entry is a product document. A `null` or `undefined` entry, which would throw a TypeError at `product.embedding`, and any other primitive entry, which the filter drops, cannot be represented. The store returns only documents.
- Embedding arrays holding non-numbers are not modelled: an embedding array is a sequence of reals.
- Search.ProductCache.SearchByImageUrl: the embedding provider returning `undefined` without throwing is not modelled. Its answer is a vector or an error.
- Product documents carry only `id`, `name`, `category`, `image_url` and `embedding`. Other document fields (for example `_id`), and a document's own `similarity` field being overwritten by the spread, are not represented.
- The cached array is returned as a value: the sharing of one array object between the cache and its callers (aliasing) is not modelled.
- `Date.now()`, `elapsed_ms` and all timing are left out. The clock reading is the parameter `now`.
- `async`/`await` interleavings, and two requests refreshing a stale cache at the same time, are not modelled. Each call runs to completion.
- The default parameter values (`topK = 5`, `category = null`) are not modelled. Callers pass both.
- `initializeSearchService` only connects to the database and is not part of this model.
- `console` logging is not modelled.
- backend/server.js is not part of this model: HTTP routing, upload handling, `parseInt(top_k) || 5` and status codes.
- backend/services/embeddingService.js is not part of this model: calls to the embedding API, payloads and base64 encoding.
- backend/services/mongoService.js is not part of this model: the database driver, including `getProductsByIds`.
- frontend/src/App.jsx is not part of this model: the user interface.
