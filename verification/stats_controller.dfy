/**
 * GET /api/stats (src/controllers/statsController.ts): the validation chain,
 * the "here"/"now" aggregate over the page_events table, and the
 * module-level result cache with its 30-second time-to-live and its lazy
 * sweep once more than 100 entries are held.
 */
module StatsController {
  import opened Wrappers
  import opened Types
  import Constants
  import Requests

  /** Time-to-live of a cached answer: 30 seconds. */
  const CACHE_TTL: int := 30 * 1000

  /** The sweep runs once the cache holds more entries than this. */
  const SWEEP_CEILING: int := 100

  const STATS_FAILED: string := "Failed to get stats"

  // ---------------------------------------------------------------------------
  // The aggregate query (statsController.ts:45-58)
  // ---------------------------------------------------------------------------

  /** The `WHERE domain = $domain AND path = $path` filter. */
  predicate OnPage(e: PageEvent, domain: string, path: string) {
    e.domain == domain && e.path == path
  }

  /** The user ids `COUNT(DISTINCT user_id)` counts: every user seen on the page. */
  function PageUsers(events: seq<PageEvent>, domain: string, path: string): set<string> {
    set e | e in events && OnPage(e, domain, path) :: e.userId
  }

  /** The user ids the conditional count counts: users seen on the page at or after `cutoff`. */
  function ActiveUsers(events: seq<PageEvent>, domain: string, path: string, cutoff: int): set<string> {
    set e | e in events && OnPage(e, domain, path) && e.timestamp >= cutoff :: e.userId
  }

  /** The first window start at which `t` no longer counts as "now". */
  function WindowStart(t: int): int {
    t - Constants.ACTIVITY_THRESHOLD_MS
  }

  /**
   * The answer computed on a cache miss at time `t`: `here` counts the
   * distinct users ever seen on the page, `now` those seen since the start
   * of the activity window; `now` never exceeds `here`, and the answer
   * echoes the requested domain and path.
   */
  function Aggregate(events: seq<PageEvent>, domain: string, path: string, t: int): (r: StatsResult)
    ensures r.domain == domain && r.path == path
    ensures r.here == |PageUsers(events, domain, path)|
    ensures r.now == |ActiveUsers(events, domain, path, WindowStart(t))|
    ensures 0 <= r.now <= r.here
  {
    var all := PageUsers(events, domain, path);
    var active := ActiveUsers(events, domain, path, WindowStart(t));
    SubsetCardinality(active, all);
    StatsResult(|all|, |active|, domain, path)
  }

  /** A subset is no larger than its superset. */
  lemma {:induction false} SubsetCardinality<T>(small: set<T>, big: set<T>)
    requires small <= big
    ensures |small| <= |big|
    decreases small
  {
    if small != {} {
      var x :| x in small;
      SubsetCardinality(small - {x}, big - {x});
    }
  }

  /** Appending one event adds at most its own user to either set. */
  lemma AppendEvent(events: seq<PageEvent>, e: PageEvent, domain: string, path: string, cutoff: int)
    ensures PageUsers(events + [e], domain, path)
      == PageUsers(events, domain, path) + (if OnPage(e, domain, path) then {e.userId} else {})
    ensures ActiveUsers(events + [e], domain, path, cutoff)
      == ActiveUsers(events, domain, path, cutoff)
         + (if OnPage(e, domain, path) && e.timestamp >= cutoff then {e.userId} else {})
  {
    assert forall x :: x in events + [e] <==> x in events || x == e;
  }

  /**
   * Recording a visit by a user not yet seen on the page raises `here` by
   * exactly one, and `now` by one when the visit lies in the window.
   */
  lemma NewVisitorCounted(events: seq<PageEvent>, e: PageEvent, t: int)
    requires e.userId !in PageUsers(events, e.domain, e.path)
    ensures var before, after := Aggregate(events, e.domain, e.path, t), Aggregate(events + [e], e.domain, e.path, t);
      && after.here == before.here + 1
      && after.now == before.now + (if e.timestamp >= WindowStart(t) then 1 else 0)
  {
    AppendEvent(events, e, e.domain, e.path, WindowStart(t));
    assert e.userId !in ActiveUsers(events, e.domain, e.path, WindowStart(t));
  }

  /** A visit by a user already seen on the page leaves `here` unchanged. */
  lemma ReturningVisitorNotRecounted(events: seq<PageEvent>, e: PageEvent, t: int)
    requires e.userId in PageUsers(events, e.domain, e.path)
    ensures Aggregate(events + [e], e.domain, e.path, t).here == Aggregate(events, e.domain, e.path, t).here
  {
    AppendEvent(events, e, e.domain, e.path, WindowStart(t));
    assert PageUsers(events + [e], e.domain, e.path) == PageUsers(events, e.domain, e.path);
  }

  /** An event for another page changes nothing on this page. */
  lemma OtherPageIgnored(events: seq<PageEvent>, e: PageEvent, domain: string, path: string, t: int)
    requires !OnPage(e, domain, path)
    ensures Aggregate(events + [e], domain, path, t) == Aggregate(events, domain, path, t)
  {
    AppendEvent(events, e, domain, path, WindowStart(t));
  }

  /** A page with no events has `here == 0` and `now == 0`; no error. */
  lemma UnseenPageIsZero(events: seq<PageEvent>, domain: string, path: string, t: int)
    requires forall e :: e in events ==> !OnPage(e, domain, path)
    ensures Aggregate(events, domain, path, t).here == 0
    ensures Aggregate(events, domain, path, t).now == 0
  {
    assert PageUsers(events, domain, path) == {};
  }

  /** Once every event on the page is older than the window, `now` is 0. */
  lemma QuietPageHasNobodyNow(events: seq<PageEvent>, domain: string, path: string, t: int)
    requires forall e :: e in events && OnPage(e, domain, path) ==> e.timestamp < WindowStart(t)
    ensures Aggregate(events, domain, path, t).now == 0
  {
    assert ActiveUsers(events, domain, path, WindowStart(t)) == {};
  }

  // ---------------------------------------------------------------------------
  // The cache (statsController.ts:6-8, 35-42, 67-81)
  // ---------------------------------------------------------------------------

  /** One cached answer and the time it was stored. */
  datatype CacheEntry = CacheEntry(data: StatsResult, timestamp: int)

  /** The cache key: domain and path joined by ":". */
  function CacheKey(domain: string, path: string): (key: string)
    ensures |key| == |domain| + 1 + |path|
    ensures key[..|domain|] == domain && key[|domain|] == ':' && key[|domain| + 1..] == path
  {
    domain + ":" + path
  }

  /** When neither domain holds ":", equal keys come from equal (domain, path) pairs. */
  lemma CacheKeyInjective(d1: string, p1: string, d2: string, p2: string)
    requires ':' !in d1 && ':' !in d2
    requires CacheKey(d1, p1) == CacheKey(d2, p2)
    ensures d1 == d2 && p1 == p2
  {
  }

  /** The key is not injective in general: a ":" in the domain lets two pages share one key. */
  lemma CacheKeyCollision()
    ensures CacheKey("a:b", "c") == CacheKey("a", "b:c")
  {
  }

  /** `now - cached.timestamp < CACHE_TTL` */
  predicate IsFresh(entry: CacheEntry, t: int) {
    t - entry.timestamp < CACHE_TTL
  }

  /** The entries the sweep keeps: exactly those stored at or after `cutoff`, unchanged. */
  function Swept(m: map<string, CacheEntry>, cutoff: int): (r: map<string, CacheEntry>)
    ensures forall k :: k in r <==> k in m && m[k].timestamp >= cutoff
    ensures forall k :: k in r ==> r[k] == m[k]
  {
    map k | k in m && m[k].timestamp >= cutoff :: m[k]
  }

  /**
   * The cache after a miss stores `data` under `key` at time `t`: the entry is
   * set, then, if more than SWEEP_CEILING entries are held, every entry older
   * than twice the time-to-live is dropped.
   */
  function AfterWrite(m: map<string, CacheEntry>, key: string, data: StatsResult, t: int): map<string, CacheEntry> {
    var written := m[key := CacheEntry(data, t)];
    if |written| > SWEEP_CEILING then Swept(written, t - CACHE_TTL * 2) else written
  }

  /** A write is visible to every identical query within the time-to-live. */
  lemma WriteThenHit(m: map<string, CacheEntry>, key: string, data: StatsResult, t: int, later: int)
    requires t <= later < t + CACHE_TTL
    ensures key in AfterWrite(m, key, data, t)
    ensures AfterWrite(m, key, data, t)[key] == CacheEntry(data, t)
    ensures IsFresh(AfterWrite(m, key, data, t)[key], later)
  {
  }

  /** Below the ceiling a write changes the written key and nothing else. */
  lemma WriteBelowCeiling(m: map<string, CacheEntry>, key: string, data: StatsResult, t: int)
    requires |m[key := CacheEntry(data, t)]| <= SWEEP_CEILING
    ensures AfterWrite(m, key, data, t) == m[key := CacheEntry(data, t)]
  {
  }

  /**
   * Above the ceiling the sweep removes exactly the other entries stored
   * before `t - 2 * CACHE_TTL` and keeps every other entry as it was.
   */
  lemma WriteAboveCeiling(m: map<string, CacheEntry>, key: string, data: StatsResult, t: int, k: string)
    requires |m[key := CacheEntry(data, t)]| > SWEEP_CEILING
    requires k != key && k in m
    ensures k in AfterWrite(m, key, data, t) <==> m[k].timestamp >= t - CACHE_TTL * 2
    ensures k in AfterWrite(m, key, data, t) ==> AfterWrite(m, key, data, t)[k] == m[k]
  {
  }

  /** What a cached answer may hold: it belongs under its own key and `now <= here`. */
  predicate WellFormedEntries(m: map<string, CacheEntry>) {
    forall k :: k in m ==>
      CacheKey(m[k].data.domain, m[k].data.path) == k && 0 <= m[k].data.now <= m[k].data.here
  }

  /** A map holding exactly the entries of `m` not older than `cutoff` is the swept map. */
  lemma SweptByKeys(m: map<string, CacheEntry>, cutoff: int, kept: map<string, CacheEntry>)
    requires forall k :: k in kept ==> k in m && kept[k] == m[k]
    requires forall k :: k in m ==> (k in kept <==> m[k].timestamp >= cutoff)
    ensures kept == Swept(m, cutoff)
  {
    assert kept.Keys == Swept(m, cutoff).Keys;
  }

  /** Storing a well-formed answer under its own key keeps every entry well formed. */
  lemma WriteKeepsWellFormed(m: map<string, CacheEntry>, key: string, data: StatsResult, t: int)
    requires WellFormedEntries(m)
    requires CacheKey(data.domain, data.path) == key && 0 <= data.now <= data.here
    ensures WellFormedEntries(AfterWrite(m, key, data, t))
  {
  }

  /**
   * The module-level `statsCache` map. Each request is one atomic step;
   * concurrent requests interleaving on the map are not modelled.
   */
  class StatsCache {
    var entries: map<string, CacheEntry>

    ghost predicate Valid()
      reads this
    {
      WellFormedEntries(entries)
    }

    constructor ()
      ensures Valid() && entries == map[]
    {
      entries := map[];
    }

    /** `statsCache.get(key)`, returned only when younger than the time-to-live. */
    method Lookup(key: string, t: int) returns (hit: Option<StatsResult>)
      ensures hit.Some? <==> key in entries && IsFresh(entries[key], t)
      ensures hit.Some? ==> hit.value == entries[key].data
    {
      if key in entries && IsFresh(entries[key], t) {
        hit := Some(entries[key].data);
      } else {
        hit := None;
      }
    }

    /** `statsCache.set(key, ...)` followed by the sweep loop over `entries()`. */
    method Write(key: string, data: StatsResult, t: int)
      requires Valid()
      requires CacheKey(data.domain, data.path) == key && 0 <= data.now <= data.here
      modifies this
      ensures Valid()
      ensures entries == AfterWrite(old(entries), key, data, t)
    {
      entries := entries[key := CacheEntry(data, t)];
      if |entries| > SWEEP_CEILING {
        var cutoff := t - CACHE_TTL * 2;
        ghost var written := entries;
        var pending := entries.Keys;
        while pending != {}
          invariant pending <= written.Keys
          invariant entries.Keys <= written.Keys
          invariant forall k :: k in entries ==> entries[k] == written[k]
          invariant forall k :: k in pending ==> k in entries
          invariant forall k :: k in written && k !in pending ==> (k in entries <==> written[k].timestamp >= cutoff)
          decreases pending
        {
          var k :| k in pending;
          if entries[k].timestamp < cutoff {
            entries := entries - {k};
          }
          pending := pending - {k};
        }
        SweptByKeys(written, cutoff, entries);
      }
      WriteKeepsWellFormed(old(entries), key, data, t);
    }
  }

  /** What the event store's aggregate read returns: its rows, or the error it threw. */
  datatype StoreRead = Rows(events: seq<PageEvent>) | StoreError(message: string)

  /**
   * `statsController` handling one request at time `t`: a refused request
   * and a failed read leave the cache alone; a fresh entry is answered as
   * cached; otherwise the aggregate is answered and written to the cache.
   */
  method HandleStats(cache: StatsCache, domain: Option<string>, path: Option<string>,
                     allowed: seq<string>, store: StoreRead, t: int)
      returns (resp: Response)
    requires cache.Valid()
    modifies cache
    ensures cache.Valid()
    ensures Requests.Validate(domain, path, allowed).Some? ==>
      && resp == Requests.RejectionResponse(Requests.Validate(domain, path, allowed).value)
      && cache.entries == old(cache.entries)
    ensures Requests.Validate(domain, path, allowed).None? ==>
      var key := CacheKey(domain.value, path.value);
      if key in old(cache.entries) && IsFresh(old(cache.entries)[key], t) then
        && resp == Response(200, Stats(old(cache.entries)[key].data))
        && cache.entries == old(cache.entries)
      else if store.StoreError? then
        && resp == Response(500, ErrorDetails(STATS_FAILED, store.message, domain.value, path.value))
        && cache.entries == old(cache.entries)
      else
        var result := Aggregate(store.events, domain.value, path.value, t);
        && resp == Response(200, Stats(result))
        && cache.entries == AfterWrite(old(cache.entries), key, result, t)
    ensures resp.body.Stats? ==> resp.status == 200 && 0 <= resp.body.result.now <= resp.body.result.here
  {
    var rejection := Requests.Validate(domain, path, allowed);
    if rejection.Some? {
      return Requests.RejectionResponse(rejection.value);
    }
    var key := CacheKey(domain.value, path.value);
    var cached := cache.Lookup(key, t);
    if cached.Some? {
      return Response(200, Stats(cached.value));
    }
    match store
    case StoreError(message) =>
      resp := Response(500, ErrorDetails(STATS_FAILED, message, domain.value, path.value));
    case Rows(events) =>
      var result := Aggregate(events, domain.value, path.value, t);
      cache.Write(key, result, t);
      resp := Response(200, Stats(result));
  }

  /**
   * A cached answer echoes the request: when neither domain holds ":", the
   * entry found under the request's key was computed for that very domain
   * and path.
   */
  lemma CachedAnswerEchoesRequest(m: map<string, CacheEntry>, domain: string, path: string)
    requires WellFormedEntries(m)
    requires CacheKey(domain, path) in m
    requires ':' !in domain && ':' !in m[CacheKey(domain, path)].data.domain
    ensures m[CacheKey(domain, path)].data.domain == domain
    ensures m[CacheKey(domain, path)].data.path == path
  {
    var data := m[CacheKey(domain, path)].data;
    CacheKeyInjective(data.domain, data.path, domain, path);
  }
}
