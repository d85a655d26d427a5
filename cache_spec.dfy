/**
 * The expiring web cache on values: a map from URL to the current entry, and the
 * decision `get_url` makes for one request. The classes in Webcache and
 * ExtUtilWebcache are proved to change their map exactly as Get says.
 */
module CacheSpec {
  import opened Wrappers

  type Bytes = seq<bv8>

  /**
   * What the fetch collaborator did for one request: it returned a response
   * (any status, the body is kept either way) or it raised.
   */
  datatype Fetch = Response(status: int, body: Bytes) | Raised

  /** The exception `get_url` passes on when the fetch raises. */
  datatype CacheError = FetchRaised

  /** A cache entry as a value: its timestamps, the fetched bytes and the derived slot. */
  datatype Entry = Entry(createdAt: int, expiresAt: int, content: Bytes, extra: Option<Bytes>)

  /** Expiry is strict: an entry is fresh only before its expiry instant. */
  predicate IsFresh(e: Entry, now: int) {
    now < e.expiresAt
  }

  /** The entry built from freshly fetched content at time now. */
  function NewEntry(content: Bytes, ttl: int, now: int): (e: Entry)
    ensures e.createdAt == now && e.expiresAt == e.createdAt + ttl
    ensures e.content == content && e.extra == None
  {
    Entry(now, now + ttl, content, None)
  }

  /** The cache after one request and what the request returned. */
  datatype Lookup = Lookup(cache: map<string, Entry>, result: Result<Entry, CacheError>)

  /** True when a request for url at time now is served from the cache. */
  predicate Hit(cache: map<string, Entry>, url: string, now: int) {
    url in cache && IsFresh(cache[url], now)
  }

  /** One `get_url(url)` at time now, with fetch standing for what the fetch would do. */
  function Get(cache: map<string, Entry>, ttl: int, url: string, now: int, fetch: Fetch): (l: Lookup)
    ensures l.result.Success? ==> url in l.cache && l.cache[url] == l.result.value
    ensures l.result.Failure? <==> !Hit(cache, url, now) && fetch.Raised?
    ensures l.result.Failure? ==> l.cache == cache
  {
    if Hit(cache, url, now) then Lookup(cache, Success(cache[url]))
    else match fetch
      case Response(_, body) =>
        var e := NewEntry(body, ttl, now);
        Lookup(cache[url := e], Success(e))
      case Raised => Lookup(cache, Failure(FetchRaised))
  }

  /** `clear_cache(url)`. */
  function Clear(cache: map<string, Entry>, url: string): (c: map<string, Entry>)
    ensures url !in c
    ensures forall u :: u != url ==> (u in c <==> u in cache)
    ensures forall u :: u in c ==> c[u] == cache[u]
  {
    cache - {url}
  }

  /** Attaching a derived value to the entry cached for url. */
  function WithExtra(cache: map<string, Entry>, url: string, extra: Option<Bytes>): map<string, Entry>
    requires url in cache
  {
    cache[url := cache[url].(extra := extra)]
  }

  /** A hit returns the cached entry itself, whatever the fetch would have done, and changes nothing. */
  lemma HitIgnoresFetch(cache: map<string, Entry>, ttl: int, url: string, now: int, f1: Fetch, f2: Fetch)
    requires Hit(cache, url, now)
    ensures Get(cache, ttl, url, now, f1) == Get(cache, ttl, url, now, f2) == Lookup(cache, Success(cache[url]))
  {
  }

  /**
   * A miss (no entry, or an expired one) that fetches successfully stores a brand-new
   * entry for url, with the new body whatever the status, and no derived value.
   */
  lemma MissStoresNewEntry(cache: map<string, Entry>, ttl: int, url: string, now: int, status: int, body: Bytes)
    requires !Hit(cache, url, now)
    ensures var l := Get(cache, ttl, url, now, Response(status, body));
      && l.result.Success?
      && l.result.value == Entry(now, now + ttl, body, None)
      && l.cache == cache[url := l.result.value]
  {
  }

  /** A fetch that raises stores nothing: a stale entry stays where it was. */
  lemma FailedFetchKeepsCache(cache: map<string, Entry>, ttl: int, url: string, now: int)
    requires !Hit(cache, url, now)
    ensures Get(cache, ttl, url, now, Raised) == Lookup(cache, Failure(FetchRaised))
  {
  }

  /** A request writes only the slot of its own URL. */
  lemma GetWritesOnlyItsUrl(cache: map<string, Entry>, ttl: int, url: string, now: int, fetch: Fetch, u: string)
    requires u != url
    ensures var c := Get(cache, ttl, url, now, fetch).cache;
      (u in c <==> u in cache) && (u in cache ==> c[u] == cache[u])
  {
  }

  /**
   * Freshness: a second request for the same URL made before the first result expires
   * is answered with that same entry, so only one fetch happens.
   */
  lemma SecondGetWithinTtlIsServedFromCache(
    cache: map<string, Entry>, ttl: int, url: string, t1: int, f1: Fetch, t2: int, f2: Fetch)
    requires Get(cache, ttl, url, t1, f1).result.Success?
    requires t2 < Get(cache, ttl, url, t1, f1).result.value.expiresAt
    ensures var l1 := Get(cache, ttl, url, t1, f1);
      Get(l1.cache, ttl, url, t2, f2) == l1
  {
    var l1 := Get(cache, ttl, url, t1, f1);
    assert url in l1.cache && l1.cache[url] == l1.result.value;
  }

  /**
   * Expiry: a request at or after the expiry instant fetches again and returns the new
   * content; a derived value attached to the old entry is not carried over.
   */
  lemma GetAfterExpiryRefetches(
    cache: map<string, Entry>, ttl: int, url: string, now: int, extra: Option<Bytes>, status: int, body: Bytes)
    requires url in cache && now >= cache[url].expiresAt
    ensures var l := Get(WithExtra(cache, url, extra), ttl, url, now, Response(status, body));
      l.result == Success(Entry(now, now + ttl, body, None))
  {
  }

  /** After `clear_cache(url)` the next request fetches, however recent the cleared entry was. */
  lemma ClearForcesFetch(cache: map<string, Entry>, ttl: int, url: string, now: int, status: int, body: Bytes)
    ensures Get(Clear(cache, url), ttl, url, now, Response(status, body)).result == Success(NewEntry(body, ttl, now))
    ensures Get(Clear(cache, url), ttl, url, now, Raised).result == Failure(FetchRaised)
  {
  }

  /**
   * The scenario of a 60-second cache: fetched at 0 it expires at 60, at 59 the same entry
   * comes back, at 61 a new fetch gives an entry that expires at 121.
   */
  lemma SixtySecondScenario(body1: Bytes, body2: Bytes, f: Fetch)
    ensures var l0 := Get(map[], 60, "http://x", 0, Response(200, body1));
      && l0.result == Success(Entry(0, 60, body1, None))
      && Get(l0.cache, 60, "http://x", 59, f) == l0
      && Get(l0.cache, 60, "http://x", 61, Response(200, body2)).result == Success(Entry(61, 121, body2, None))
  {
  }
}
