/** The search service of backend/services/searchService.js: the module-level product
    cache with its five-minute freshness window, and the two search entry points that
    rank the cached catalog against a query embedding and shape the response.
    The clock, the catalog store and the embedding provider are parameters: `now` is the
    value `Date.now()` returns on entry to getProducts (for a search, the reading taken
    after the embedding has been awaited, not the search's start time), and `fetched` / `embedding` are what the store
    and the provider answer (a value, or the error they throw). */
module Search {
  import opened Wrappers
  import opened Similarity

  /** `CACHE_TIMEOUT`: five minutes in milliseconds. */
  const CacheTimeout: int := 5 * 60 * 1000

  /** An error thrown by a collaborator and rethrown unchanged. */
  datatype Error = Error(message: string)

  /** The cache variables, and (as a count the source does not keep) how many times the
      catalog store was asked for the whole catalog. */
  datatype CacheState = CacheState(products: Option<seq<Product>>, stamp: Option<int>, fetches: nat)

  /** The outcome of one getProducts call: the new cache state and what the call returns
      or throws. */
  datatype Served = Served(state: CacheState, result: Result<seq<Product>, Error>)

  /** getProducts' freshness test: `productsCache && cacheTimestamp && now - cacheTimestamp <
      CACHE_TIMEOUT`. An array, even an empty one, is truthy; a timestamp of 0 is not. */
  predicate IsFresh(s: CacheState, now: int) {
    && s.products.Some?
    && s.stamp.Some?
    && s.stamp.value != 0
    && now - s.stamp.value < CacheTimeout
  }

  /** getProducts as a transition: a hit returns the cached array and changes nothing;
      otherwise the store is asked once, and only a successful answer replaces the cache
      and stamps it with the `now` sampled on entry. */
  function GetProductsStep(s: CacheState, now: int, fetched: Result<seq<Product>, Error>): Served {
    if IsFresh(s, now) then Served(s, Success(s.products.value))
    else
      match fetched
      case Success(items) => Served(CacheState(Some(items), Some(now), s.fetches + 1), Success(items))
      case Failure(e) => Served(s.(fetches := s.fetches + 1), Failure(e))
  }

  /** One call of getProducts: the clock reading on entry and the store's answer if asked. */
  datatype Call = Call(now: int, fetched: Result<seq<Product>, Error>)

  /** The results of a series of getProducts calls, and the final state. */
  datatype Trace = Trace(state: CacheState, results: seq<Result<seq<Product>, Error>>)

  /** The series of calls, one step after another: one result per call. */
  function Run(s: CacheState, calls: seq<Call>): (t: Trace)
    ensures |t.results| == |calls|
    decreases |calls|
  {
    if calls == [] then Trace(s, [])
    else
      var first := GetProductsStep(s, calls[0].now, calls[0].fetched);
      var rest := Run(first.state, calls[1..]);
      Trace(rest.state, [first.result] + rest.results)
  }

  /** Each call asks the store at most once, and the count never goes down. */
  lemma {:induction false} RunFetches(s: CacheState, calls: seq<Call>)
    ensures s.fetches <= Run(s, calls).state.fetches <= s.fetches + |calls|
    decreases |calls|
  {
    if calls != [] {
      RunFetches(GetProductsStep(s, calls[0].now, calls[0].fetched).state, calls[1..]);
    }
  }

  lemma CacheHit(s: CacheState, now: int, fetched: Result<seq<Product>, Error>)
    requires IsFresh(s, now)
    ensures GetProductsStep(s, now, fetched) == Served(s, Success(s.products.value))
  {
  }

  /** A miss asks the store exactly once; a successful answer replaces the cache wholesale
      and stamps it with `now`; a thrown error leaves both variables as they were and is
      rethrown. */
  lemma CacheMiss(s: CacheState, now: int, fetched: Result<seq<Product>, Error>)
    requires !IsFresh(s, now)
    ensures var served := GetProductsStep(s, now, fetched);
      && served.state.fetches == s.fetches + 1
      && served.result == fetched
      && (fetched.Success? ==> served.state.products == Some(fetched.value) && served.state.stamp == Some(now))
      && (fetched.Failure? ==> served.state.products == s.products && served.state.stamp == s.stamp)
  {
  }

  /** The window is half-open: a cache stamped at `t` (non-zero) is fresh for readings
      strictly below `t + CACHE_TIMEOUT` and stale from `t + CACHE_TIMEOUT` on. */
  lemma FreshnessWindow(items: seq<Product>, t: int, fetches: nat, now: int)
    requires t != 0
    ensures IsFresh(CacheState(Some(items), Some(t), fetches), now) <==> now < t + CacheTimeout
    ensures !IsFresh(CacheState(Some(items), Some(t), fetches), t + 300000)
  {
  }

  /** Calls made while the cache stays fresh all return the cached array and never reach
      the store. */
  lemma {:induction false} HitsWhileFresh(s: CacheState, calls: seq<Call>)
    requires forall i :: 0 <= i < |calls| ==> IsFresh(s, calls[i].now)
    ensures Run(s, calls).state == s
    ensures forall i :: 0 <= i < |calls| ==> Run(s, calls).results[i] == Success(s.products.value)
  {
    if calls != [] {
      HitsWhileFresh(s, calls[1..]);
      var rest := Run(s, calls[1..]);
      assert Run(s, calls).results == [Success(s.products.value)] + rest.results;
    }
  }

  /** After a refresh at a non-zero `t`, every later call whose clock reading is below
      `t + CACHE_TIMEOUT` returns the fetched array, and the store is asked only once. */
  lemma RefreshThenHits(s: CacheState, t: int, items: seq<Product>, calls: seq<Call>)
    requires !IsFresh(s, t) && t != 0
    requires forall i :: 0 <= i < |calls| ==> calls[i].now < t + CacheTimeout
    ensures var trace := Run(s, [Call(t, Success(items))] + calls);
      && trace.state == CacheState(Some(items), Some(t), s.fetches + 1)
      && forall i :: 0 <= i < |trace.results| ==> trace.results[i] == Success(items)
  {
    var refreshed := CacheState(Some(items), Some(t), s.fetches + 1);
    var all := [Call(t, Success(items))] + calls;
    assert all[1..] == calls;
    HitsWhileFresh(refreshed, calls);
  }

  /** Once the window has elapsed the next call asks the store again. */
  lemma RefreshAfterWindow(s: CacheState, t: int, items: seq<Product>, later: Call)
    requires !IsFresh(s, t) && t + CacheTimeout <= later.now
    ensures var trace := Run(s, [Call(t, Success(items)), later]);
      && trace.state.fetches == s.fetches + 2
      && trace.results[1] == later.fetched
  {
    var refreshed := CacheState(Some(items), Some(t), s.fetches + 1);
    assert [Call(t, Success(items)), later][1..] == [later];
    assert Run(refreshed, [later]).state.fetches == s.fetches + 2;
  }

  /** A failed refresh keeps the previous snapshot. Its window has already closed at the
      failed call's reading, so a retry is served from it only when the clock reads earlier
      than at the failed call (`retry.now < now` follows from the requires). */
  lemma FailureKeepsSnapshot(s: CacheState, now: int, e: Error, retry: Call)
    requires IsFresh(s, retry.now) && !IsFresh(s, now)
    ensures var trace := Run(s, [Call(now, Failure(e)), retry]);
      && trace.results == [Failure(e), Success(s.products.value)]
      && trace.state == s.(fetches := s.fetches + 1)
  {
    var failed := s.(fetches := s.fetches + 1);
    var calls := [Call(now, Failure(e)), retry];
    assert calls[1..] == [retry];
    RunOne(failed, retry);
    assert Run(s, calls) == Trace(failed, [Failure(e)] + [Success(s.products.value)]);
  }

  /** A series of one call is that call's step. */
  lemma RunOne(s: CacheState, c: Call)
    ensures Run(s, [c]) == Trace(GetProductsStep(s, c.now, c.fetched).state,
                                 [GetProductsStep(s, c.now, c.fetched).result])
  {
    assert [c][1..] == [];
  }

  /** A stale cache stays stale as the clock moves forward. */
  lemma StaysStale(s: CacheState, now: int, later: int)
    requires !IsFresh(s, now) && now <= later
    ensures !IsFresh(s, later)
  {
  }

  /** With a clock that does not go backwards, a failed refresh is never followed by a hit
      on the kept snapshot: the next call asks the store again and returns its answer. */
  lemma FailureThenRefetch(s: CacheState, now: int, e: Error, next: Call)
    requires !IsFresh(s, now) && now <= next.now
    ensures var trace := Run(s, [Call(now, Failure(e)), next]);
      && trace.state.fetches == s.fetches + 2
      && trace.results == [Failure(e), next.fetched]
  {
    var failed := s.(fetches := s.fetches + 1);
    StaysStale(s, now, next.now);
    assert !IsFresh(failed, next.now);
    assert [Call(now, Failure(e)), next][1..] == [next];
    assert [next][1..] == [];
    assert Run(failed, [next]).results == [next.fetched];
  }

  /** While the store keeps failing and the snapshot is stale at every reading, each call
      asks the store, rethrows its error and leaves the cache variables as they were. */
  lemma {:induction false} FailuresKeepFetching(s: CacheState, calls: seq<Call>)
    requires forall i :: 0 <= i < |calls| ==> calls[i].fetched.Failure? && !IsFresh(s, calls[i].now)
    ensures Run(s, calls).state == s.(fetches := s.fetches + |calls|)
    ensures forall i :: 0 <= i < |calls| ==> Run(s, calls).results[i] == calls[i].fetched
    decreases |calls|
  {
    if calls != [] {
      var failed := s.(fetches := s.fetches + 1);
      forall i | 0 <= i < |calls[1..]|
        ensures calls[1..][i].fetched.Failure? && !IsFresh(failed, calls[1..][i].now)
      {
        assert calls[1..][i] == calls[i + 1];
      }
      FailuresKeepFetching(failed, calls[1..]);
      assert Run(s, calls).results == [calls[0].fetched] + Run(failed, calls[1..]).results;
    }
  }

  /** The module-level variables `productsCache` and `cacheTimestamp`. */
  class ProductCache {
    var productsCache: Option<seq<Product>>
    var cacheTimestamp: Option<int>
    ghost var fetches: nat

    ghost function State(): CacheState
      reads this
    {
      CacheState(productsCache, cacheTimestamp, fetches)
    }

    /** Both variables start out `null`. */
    constructor ()
      ensures State() == CacheState(None, None, 0)
    {
      productsCache := None;
      cacheTimestamp := None;
      fetches := 0;
    }

    /** getProducts(), with `now` the value of `Date.now()` on entry and `fetched` what
        `getAllProducts()` returns or throws when it is called. */
    method GetProducts(now: int, fetched: Result<seq<Product>, Error>) returns (r: Result<seq<Product>, Error>)
      modifies this
      ensures Served(State(), r) == GetProductsStep(old(State()), now, fetched)
    {
      if productsCache.Some? && cacheTimestamp.Some? && cacheTimestamp.value != 0
        && now - cacheTimestamp.value < CacheTimeout
      {
        return Success(productsCache.value);
      }
      fetches := fetches + 1;
      match fetched {
        case Failure(e) =>
          return Failure(e);
        case Success(items) =>
          productsCache := Some(items);
          cacheTimestamp := Some(now);
          return Success(productsCache.value);
      }
    }

    /** The embedding of the query must be compatible with the products getProducts will
        serve (shorter item embeddings would be scored as NaN). */
    ghost predicate Servable(query: Vector, now: int, fetched: Result<seq<Product>, Error>)
      reads this
    {
      var served := GetProductsStep(State(), now, fetched);
      served.result.Success? ==> LongEnough(query, served.result.value)
    }

    /** The shared body of searchByImageUrl and searchByImageFile: the embedding is
        requested first, so a provider error leaves the cache untouched; then the
        products are got, ranked and shaped. `now` is getProducts' own clock reading,
        taken after the embedding call returns, not the start time the search reads. */
    method Search(descriptor: QueryDescriptor, topK: int, category: Option<string>, now: int,
                  embedding: Result<Vector, Error>, fetched: Result<seq<Product>, Error>,
                  sqrt: real -> real)
      returns (r: Result<SearchResponse, Error>)
      requires IsSqrt(sqrt)
      requires embedding.Success? ==> Servable(embedding.value, now, fetched)
      modifies this
      ensures embedding.Failure? ==> r == Failure(embedding.error) && State() == old(State())
      ensures embedding.Success? ==>
        var served := GetProductsStep(old(State()), now, fetched);
        && State() == served.state
        && r == match served.result
                case Failure(e) => Failure(e)
                case Success(items) => Success(Respond(embedding.value, items, topK, descriptor, category, sqrt))
    {
      if embedding.Failure? {
        return Failure(embedding.error);
      }
      var query := embedding.value;
      var products := GetProducts(now, fetched);
      match products {
        case Failure(e) =>
          return Failure(e);
        case Success(items) =>
          var similar := ComputeSimilarity(query, Products(items), topK, sqrt);
          var results := ProjectAll(similar);
          return Success(SearchResponse(results, |items|, descriptor, category));
      }
    }

    /** searchByImageUrl(imageUrl, topK, category). */
    method SearchByImageUrl(imageUrl: string, topK: int, category: Option<string>, now: int,
                            embedding: Result<Vector, Error>, fetched: Result<seq<Product>, Error>,
                            sqrt: real -> real)
      returns (r: Result<SearchResponse, Error>)
      requires IsSqrt(sqrt)
      requires embedding.Success? ==> Servable(embedding.value, now, fetched)
      modifies this
      ensures embedding.Failure? ==> r == Failure(embedding.error) && State() == old(State())
      ensures embedding.Success? ==>
        var served := GetProductsStep(old(State()), now, fetched);
        && State() == served.state
        && r == match served.result
                case Failure(e) => Failure(e)
                case Success(items) => Success(Respond(embedding.value, items, topK, QueryImageUrl(imageUrl), category, sqrt))
    {
      r := Search(QueryImageUrl(imageUrl), topK, category, now, embedding, fetched, sqrt);
    }

    /** searchByImageFile(imageBuffer, mimeType, topK, category); the buffer only reaches
        the embedding provider, whose answer is `embedding`. */
    method SearchByImageFile(mimeType: string, topK: int, category: Option<string>, now: int,
                             embedding: Result<Vector, Error>, fetched: Result<seq<Product>, Error>,
                             sqrt: real -> real)
      returns (r: Result<SearchResponse, Error>)
      requires IsSqrt(sqrt)
      requires embedding.Success? ==> Servable(embedding.value, now, fetched)
      modifies this
      ensures embedding.Failure? ==> r == Failure(embedding.error) && State() == old(State())
      ensures embedding.Success? ==>
        var served := GetProductsStep(old(State()), now, fetched);
        && State() == served.state
        && r == match served.result
                case Failure(e) => Failure(e)
                case Success(items) => Success(Respond(embedding.value, items, topK, QueryImageType(mimeType), category, sqrt))
    {
      r := Search(QueryImageType(mimeType), topK, category, now, embedding, fetched, sqrt);
    }
  }

  // ---------------------------------------------------------------------------------
  // Result shaping
  // ---------------------------------------------------------------------------------

  /** One entry of `results`: `{ id, name, category, image_url, score }`. */
  datatype ResultEntry = ResultEntry(id: string, name: string, category: Option<string>, imageUrl: string, score: real)

  /** `query_image_url` for a search by URL, `query_image_type` for a search by file. */
  datatype QueryDescriptor = QueryImageUrl(url: string) | QueryImageType(mimeType: string)

  /** The response object, without `elapsed_ms`. */
  datatype SearchResponse = SearchResponse(
    results: seq<ResultEntry>,
    totalProductsSearched: nat,
    query: QueryDescriptor,
    categoryFilter: Option<string>)

  function Project(s: Scored): ResultEntry {
    ResultEntry(s.product.id, s.product.name, s.product.category, s.product.imageUrl, s.similarity)
  }

  /** `similarProducts.map(product => ({ ... }))`. */
  function ProjectAll(similar: seq<Scored>): seq<ResultEntry> {
    seq(|similar|, i requires 0 <= i < |similar| => Project(similar[i]))
  }

  /** The response a search builds from the query embedding and the products it got. */
  function Respond(query: Vector, items: seq<Product>, topK: int, descriptor: QueryDescriptor,
                   category: Option<string>, sqrt: real -> real): SearchResponse
    requires IsSqrt(sqrt) && LongEnough(query, items)
  {
    SearchResponse(ProjectAll(ComputeSimilarity(query, Products(items), topK, sqrt)), |items|, descriptor, category)
  }

  /** The results follow the ranker's output one for one, in its order, each projecting
      the product's id, name, category and image url with the similarity as score; the
      total counts the whole catalog, eligible or not; descriptor and category are echoed. */
  lemma ResponseShape(query: Vector, items: seq<Product>, topK: int, descriptor: QueryDescriptor,
                      category: Option<string>, sqrt: real -> real)
    requires IsSqrt(sqrt) && LongEnough(query, items)
    ensures var resp, similar := Respond(query, items, topK, descriptor, category, sqrt),
                                 ComputeSimilarity(query, Products(items), topK, sqrt);
      && |resp.results| == |similar|
      && (forall i :: 0 <= i < |similar| ==>
        && resp.results[i].id == similar[i].product.id
        && resp.results[i].name == similar[i].product.name
        && resp.results[i].category == similar[i].product.category
        && resp.results[i].imageUrl == similar[i].product.imageUrl
        && resp.results[i].score == similar[i].similarity)
      && resp.totalProductsSearched == |items|
      && resp.query == descriptor
      && resp.categoryFilter == category
  {
  }

  /** What a caller sees of the ranking: scores non-increasing, `min(topK, #eligible)`
      entries for `topK >= 0`, each the projection of an eligible catalog product scored
      by its cosine, while the total counts ineligible products too. */
  lemma ResponseRanked(query: Vector, items: seq<Product>, topK: int, descriptor: QueryDescriptor,
                       category: Option<string>, sqrt: real -> real)
    requires IsSqrt(sqrt) && LongEnough(query, items)
    ensures var resp := Respond(query, items, topK, descriptor, category, sqrt);
      && (forall i, j :: 0 <= i < j < |resp.results| ==> resp.results[i].score >= resp.results[j].score)
      && |resp.results| == SliceEnd(|Eligible(items)|, topK)
      && (0 <= topK ==> |resp.results| == if topK < |Eligible(items)| then topK else |Eligible(items)|)
      && (forall e :: e in resp.results ==> exists p ::
        && p in items
        && p.embedding.Array?
        && |query| <= |p.embedding.values|
        && e == ResultEntry(p.id, p.name, p.category, p.imageUrl, Cosine(query, p.embedding.values, sqrt)))
      && |resp.results| <= resp.totalProductsSearched
  {
    var similar := ComputeSimilarity(query, Products(items), topK, sqrt);
    RankSorted(query, Products(items), topK, sqrt);
    RankLength(query, Products(items), topK, sqrt);
    RankMembers(query, Products(items), topK, sqrt);
    var results := ProjectAll(similar);
    forall e | e in results
      ensures exists p ::
        && p in items
        && p.embedding.Array?
        && |query| <= |p.embedding.values|
        && e == ResultEntry(p.id, p.name, p.category, p.imageUrl, Cosine(query, p.embedding.values, sqrt))
    {
      var i :| 0 <= i < |results| && results[i] == e;
      assert similar[i] in similar;
      var p := similar[i].product;
      assert p in items;
    }
  }

  /** The category filter is echoed but never narrows the results. */
  lemma CategoryIgnored(query: Vector, items: seq<Product>, topK: int, descriptor: QueryDescriptor,
                        c1: Option<string>, c2: Option<string>, sqrt: real -> real)
    requires IsSqrt(sqrt) && LongEnough(query, items)
    ensures Respond(query, items, topK, descriptor, c1, sqrt).results
         == Respond(query, items, topK, descriptor, c2, sqrt).results
    ensures Respond(query, items, topK, descriptor, c1, sqrt).categoryFilter == c1
  {
  }
}
