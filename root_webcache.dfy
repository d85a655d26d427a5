/**
 * The first web cache, at the top of the repository: entries are dictionaries with a
 * 'timestamp' and a 'content' key and, once `cacheRelatedData` is called, an 'extra' key.
 */
module RootWebcache {
  import opened Wrappers
  import opened CacheSpec

  /** The 'extra' key of an entry dictionary: absent, or present with a value or None. */
  datatype ExtraSlot = NoExtra | Extra(value: Option<Bytes>)

  /** One entry dictionary. Only its 'extra' key is ever changed after it is built. */
  class DictEntry {
    const timestamp: int
    const content: Bytes
    var extra: ExtraSlot

    constructor (now: int, content: Bytes)
      ensures timestamp == now && this.content == content && extra == NoExtra
    {
      timestamp := now;
      this.content := content;
      extra := NoExtra;
    }
  }

  /** What `cacheRelatedData` does with the slot of url. */
  datatype RelatedAction = SetExtra(data: Option<Bytes>) | DeleteExtra | RaiseValueError | RaiseKeyError

  /** The outcome seen by the caller of `cacheRelatedData`. */
  datatype RelatedOutcome = Done | ValueError | KeyError

  function OutcomeOf(a: RelatedAction): RelatedOutcome {
    match a
    case SetExtra(_) => Done
    case DeleteExtra => Done
    case RaiseValueError => ValueError
    case RaiseKeyError => KeyError
  }

  /** The new 'extra' key of the entry an action applies to. */
  function Apply(slot: ExtraSlot, a: RelatedAction): ExtraSlot {
    match a
    case SetExtra(data) => Extra(data)
    case DeleteExtra => NoExtra
    case _ => slot
  }

  /**
   * `cacheRelatedData(url, data)` as written, over the 'extra' keys of the cached entries.
   * For data == None the test reads the entry cached under the literal key "url" rather
   * than the entry for url; a missing key raises KeyError, and so does deleting an
   * 'extra' key the entry for url does not have.
   */
  function RelatedDataAsWritten(view: map<string, ExtraSlot>, url: string, data: Option<Bytes>): (a: RelatedAction)
    ensures url !in view <==> a == RaiseValueError
    ensures data.Some? && url in view ==> a == SetExtra(data)
  {
    if url !in view then RaiseValueError
    else if data.Some? then SetExtra(data)
    else if "url" !in view then RaiseKeyError
    else if view["url"].Extra? then (if view[url].Extra? then DeleteExtra else RaiseKeyError)
    else SetExtra(data)
  }

  /** `cacheRelatedData` with the test reading the entry for url, as evidently intended. */
  function RelatedDataIntended(view: map<string, ExtraSlot>, url: string, data: Option<Bytes>): (a: RelatedAction)
    ensures a != RaiseKeyError
    ensures url !in view <==> a == RaiseValueError
    ensures url in view ==> Apply(view[url], a) == (if data.None? then (if view[url] == NoExtra then Extra(None) else NoExtra) else Extra(data))
  {
    if url !in view then RaiseValueError
    else if data.None? && view[url].Extra? then DeleteExtra
    else SetExtra(data)
  }

  /** Intended: on a cached URL, clearing with None leaves no derived value, and never raises. */
  lemma IntendedClearLeavesNoValue(view: map<string, ExtraSlot>, url: string)
    requires url in view
    ensures var a := RelatedDataIntended(view, url, None);
      OutcomeOf(a) == Done && Apply(view[url], a) in {NoExtra, Extra(None)}
  {
  }

  /**
   * Clearing the derived value of a cached URL raises KeyError as written (no entry is
   * called "url"), where the intended code removes the 'extra' key.
   */
  lemma RelatedDataLiteralKeyCounterexample()
    ensures var view := map["http://a" := Extra(Some([1]))];
      && RelatedDataAsWritten(view, "http://a", None) == RaiseKeyError
      && RelatedDataIntended(view, "http://a", None) == DeleteExtra
  {
  }

  class WebCache {
    var cache: map<string, DictEntry>
    const cacheExpiryTime: int

    /** Every URL has its own entry dictionary. */
    ghost predicate Valid()
      reads this
    {
      forall u, v :: u in cache && v in cache && u != v ==> cache[u] != cache[v]
    }

    constructor (cacheExpirySeconds: int)
      ensures Valid() && cacheExpiryTime == cacheExpirySeconds && cache == map[]
    {
      cacheExpiryTime := cacheExpirySeconds;
      cache := map[];
    }

    constructor Default()
      ensures Valid() && cacheExpiryTime == 900 && cache == map[]
    {
      cacheExpiryTime := 900;
      cache := map[];
    }

    /** The 'extra' key of every cached entry. */
    function ExtraView(): map<string, ExtraSlot>
      reads this, cache.Values
    {
      map u | u in cache :: cache[u].extra
    }

    predicate Cached(url: string, now: int)
      reads this
    {
      url in cache && now - cache[url].timestamp < cacheExpiryTime
    }

    /**
     * `getUrl`: the cached dictionary when it is younger than the expiry time, otherwise a
     * new dictionary with only a timestamp and the content (so no 'extra' key).
     */
    method GetUrl(url: string, now: int, fetch: Fetch) returns (r: Result<DictEntry, CacheError>)
      requires Valid()
      modifies this
      ensures Valid()
      ensures old(Cached(url, now)) ==> r == Success(old(cache[url])) && cache == old(cache)
      ensures !old(Cached(url, now)) && fetch.Response? ==>
        && r.Success? && fresh(r.value)
        && r.value.timestamp == now && r.value.content == fetch.body && r.value.extra == NoExtra
        && cache == old(cache)[url := r.value]
      ensures !old(Cached(url, now)) && fetch.Raised? ==> r == Failure(FetchRaised) && cache == old(cache)
    {
      if url in cache {
        var entry := cache[url];
        if now - entry.timestamp < cacheExpiryTime {
          return Success(entry);
        }
      }
      match fetch
      case Raised =>
        r := Failure(FetchRaised);
      case Response(_, body) =>
        var entry := new DictEntry(now, body);
        cache := cache[url := entry];
        r := Success(entry);
    }

    /** `cacheRelatedData` as written (see RelatedDataAsWritten). */
    method CacheRelatedData(url: string, data: Option<Bytes>) returns (r: RelatedOutcome)
      requires Valid()
      modifies cache.Values
      ensures Valid() && cache == old(cache)
      ensures var a := RelatedDataAsWritten(old(ExtraView()), url, data);
        && r == OutcomeOf(a)
        && ExtraView() == if url in old(cache) then old(ExtraView())[url := Apply(old(ExtraView())[url], a)] else old(ExtraView())
    {
      var a := RelatedDataAsWritten(ExtraView(), url, data);
      ApplyAction(url, a);
      r := OutcomeOf(a);
    }

    /** `cacheRelatedData` as evidently intended (see RelatedDataIntended). */
    method CacheRelatedDataIntended(url: string, data: Option<Bytes>) returns (r: RelatedOutcome)
      requires Valid()
      modifies cache.Values
      ensures Valid() && cache == old(cache)
      ensures r != KeyError && (r == ValueError <==> url !in cache)
      ensures var a := RelatedDataIntended(old(ExtraView()), url, data);
        && r == OutcomeOf(a)
        && ExtraView() == if url in old(cache) then old(ExtraView())[url := Apply(old(ExtraView())[url], a)] else old(ExtraView())
    {
      var a := RelatedDataIntended(ExtraView(), url, data);
      ApplyAction(url, a);
      r := OutcomeOf(a);
    }

    /** Carries out an action on the entry of url, leaving every other entry alone. */
    method ApplyAction(url: string, a: RelatedAction)
      requires Valid()
      requires url !in cache ==> a == RaiseValueError
      modifies cache.Values
      ensures ExtraView() == if url in cache then old(ExtraView())[url := Apply(old(ExtraView())[url], a)] else old(ExtraView())
    {
      match a
      case SetExtra(data) =>
        cache[url].extra := Extra(data);
      case DeleteExtra =>
        cache[url].extra := NoExtra;
      case _ =>
    }
  }
}
