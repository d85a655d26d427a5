/**
 * The older web cache under extensions/util: the same entry class and request logic
 * as Webcache, with `getUrl` for `get_url` and no way to clear an entry.
 */
module ExtUtilWebcache {
  import opened Wrappers
  import opened CacheSpec
  import Freshness
  import Decimal

  class CacheEntry {
    const createdAt: int
    const expiresAt: int
    const content: Bytes
    var extra: Option<Bytes>

    constructor (content: Bytes, ttl: int, now: int)
      ensures View() == NewEntry(content, ttl, now)
    {
      createdAt := now;
      expiresAt := now + ttl;
      this.content := content;
      extra := None;
    }

    function View(): Entry
      reads this
    {
      Entry(createdAt, expiresAt, content, extra)
    }

    method SetExtra(value: Option<Bytes>)
      modifies this`extra
      ensures View() == old(View()).(extra := value)
    {
      extra := value;
    }

    function LastRefreshedStr(now: int): (s: string)
      ensures s == "Just refreshed" <==> createdAt - 30 <= now <= createdAt + 30
      ensures s == "Refreshed 1 minute ago" <==> createdAt + 30 < now < createdAt + 90
      ensures !(createdAt - 30 <= now < createdAt + 90) ==>
        s == "Refreshed " + Decimal.IntToString(Freshness.RoundedMinutes(now - createdAt)) + " minutes ago"
    {
      Freshness.LastRefreshed(now - createdAt)
    }
  }

  class WebCache {
    var cache: map<string, CacheEntry>
    const cacheExpiryTime: int

    constructor (cacheExpirySeconds: int)
      ensures cacheExpiryTime == cacheExpirySeconds && cache == map[]
    {
      cacheExpiryTime := cacheExpirySeconds;
      cache := map[];
    }

    /** Called without an argument the cache keeps entries for 900 seconds. */
    constructor Default()
      ensures cacheExpiryTime == 900 && cache == map[]
    {
      cacheExpiryTime := 900;
      cache := map[];
    }

    ghost function Contents(): map<string, Entry>
      reads this, cache.Values
    {
      map u | u in cache :: cache[u].View()
    }

    predicate Cached(url: string, now: int)
      reads this
    {
      url in cache && now < cache[url].expiresAt
    }

    /** `getUrl`: the same decision as Webcache.WebCache.GetUrl. */
    method GetUrl(url: string, now: int, fetch: Fetch) returns (r: Result<CacheEntry, CacheError>)
      modifies this
      ensures old(Cached(url, now)) ==> r == Success(old(cache[url])) && cache == old(cache)
      ensures !old(Cached(url, now)) && fetch.Response? ==>
        && r.Success? && fresh(r.value)
        && r.value.View() == NewEntry(fetch.body, cacheExpiryTime, now)
        && cache == old(cache)[url := r.value]
      ensures !old(Cached(url, now)) && fetch.Raised? ==> r == Failure(FetchRaised) && cache == old(cache)
      ensures var l := Get(old(Contents()), cacheExpiryTime, url, now, fetch);
        Contents() == l.cache && (r.Success? <==> l.result.Success?) && (r.Success? ==> r.value.View() == l.result.value)
    {
      if url in cache {
        var entry := cache[url];
        if now < entry.expiresAt {
          return Success(entry);
        }
      }
      match fetch
      case Raised =>
        r := Failure(FetchRaised);
      case Response(_, body) =>
        var entry := new CacheEntry(body, cacheExpiryTime, now);
        cache := cache[url := entry];
        r := Success(entry);
    }
  }
}
