/**
 * The web cache of the packaged bot: `CacheEntry` objects held in a dictionary from
 * URL to entry. The clock and the HTTP fetch are parameters of each call.
 */
module Webcache {
  import opened Wrappers
  import opened CacheSpec
  import Freshness
  import Decimal

  /** One fetched response: the content never changes, only `extra` has a setter. */
  class CacheEntry {
    const createdAt: int
    const expiresAt: int
    const content: Bytes
    var extra: Option<Bytes>

    /** An entry for content fetched at time now that lives ttl seconds. */
    constructor (content: Bytes, ttl: int, now: int)
      ensures View() == NewEntry(content, ttl, now)
    {
      createdAt := now;
      expiresAt := now + ttl;
      this.content := content;
      extra := None;
    }

    /** The entry as a value. */
    function View(): Entry
      reads this
    {
      Entry(createdAt, expiresAt, content, extra)
    }

    /** The `extra` setter: it changes the derived slot and nothing else. */
    method SetExtra(value: Option<Bytes>)
      modifies this`extra
      ensures View() == old(View()).(extra := value)
    {
      extra := value;
    }

    /** `last_refreshed_str` read at time now. */
    function LastRefreshedStr(now: int): (s: string)
      ensures s == "Just refreshed" <==> createdAt - 30 <= now <= createdAt + 30
      ensures s == "Refreshed 1 minute ago" <==> createdAt + 30 < now < createdAt + 90
      ensures !(createdAt - 30 <= now < createdAt + 90) ==>
        s == "Refreshed " + Decimal.IntToString(Freshness.RoundedMinutes(now - createdAt)) + " minutes ago"
    {
      Freshness.LastRefreshed(now - createdAt)
    }
  }

  class WebCache {
    var cache: map<string, CacheEntry>
    const cacheExpirySeconds: int

    constructor (cacheExpirySeconds: int)
      ensures this.cacheExpirySeconds == cacheExpirySeconds && cache == map[]
    {
      this.cacheExpirySeconds := cacheExpirySeconds;
      cache := map[];
    }

    /** The constructor called without an argument: fifteen-minute entries. */
    constructor Default()
      ensures cacheExpirySeconds == 900 && cache == map[]
    {
      cacheExpirySeconds := 900;
      cache := map[];
    }

    /** The cache as a map of values. */
    ghost function Contents(): map<string, Entry>
      reads this, cache.Values
    {
      map u | u in cache :: cache[u].View()
    }

    /** Whether a request for url at time now is served from the cache. */
    predicate Cached(url: string, now: int)
      reads this
    {
      url in cache && now < cache[url].expiresAt
    }

    /**
     * `get_url` at time now. On a hit the cached object itself comes back and the map is
     * unchanged; on a miss a new entry object replaces the slot of url, unless the fetch
     * raised, in which case the map stays as it was.
     */
    method GetUrl(url: string, now: int, fetch: Fetch) returns (r: Result<CacheEntry, CacheError>)
      modifies this
      ensures old(Cached(url, now)) ==> r == Success(old(cache[url])) && cache == old(cache)
      ensures !old(Cached(url, now)) && fetch.Response? ==>
        && r.Success? && fresh(r.value)
        && r.value.View() == NewEntry(fetch.body, cacheExpirySeconds, now)
        && cache == old(cache)[url := r.value]
      ensures !old(Cached(url, now)) && fetch.Raised? ==> r == Failure(FetchRaised) && cache == old(cache)
      ensures var l := Get(old(Contents()), cacheExpirySeconds, url, now, fetch);
        Contents() == l.cache && (r.Success? <==> l.result.Success?) && (r.Success? ==> r.value.View() == l.result.value)
    {
      if url in cache {
        var entry := cache[url];
        if now < entry.expiresAt {
          return Success(entry);
        }
      }
      match fetch
      case Raised =>
        r := Failure(FetchRaised);
      case Response(_, body) =>
        var entry := new CacheEntry(body, cacheExpirySeconds, now);
        cache := cache[url := entry];
        r := Success(entry);
    }

    /** `clear_cache`: forgets url, if it was cached; the next request for it fetches. */
    method ClearCache(url: string)
      modifies this
      ensures cache == old(cache) - {url}
      ensures Contents() == Clear(old(Contents()), url)
      ensures forall now :: !Cached(url, now)
    {
      if url in cache {
        cache := cache - {url};
      }
    }
  }

  /** The freshness, expiry and clear behaviour of one cache, traced through the class. */
  method CacheScenario(body1: Bytes, body2: Bytes, png: Bytes)
  {
    var c := new WebCache(60);
    var r0 := c.GetUrl("http://x", 0, Response(200, body1));
    assert r0.Success? && r0.value.expiresAt == 60;
    var e0 := r0.value;
    e0.SetExtra(Some(png));
    var r1 := c.GetUrl("http://x", 59, Raised);
    assert r1 == Success(e0) && e0.extra == Some(png) && e0.content == body1;
    var r2 := c.GetUrl("http://x", 61, Response(500, body2));
    assert r2.Success? && r2.value != e0 && r2.value.content == body2 && r2.value.extra == None;
    assert r2.value.expiresAt == 121;
    c.ClearCache("http://x");
    var r3 := c.GetUrl("http://x", 62, Raised);
    assert r3 == Failure(FetchRaised) && "http://x" !in c.cache;
  }
}
