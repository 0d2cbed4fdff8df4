/**
 * The client script served at /widget.js (src/controllers/widgetController.ts,
 * the template literal at lines 9-452), as a sequential state machine.
 *
 * Each element opted in with `data-herenow` is Unseen, Initializing (in the
 * `initializingElements` WeakSet) or Initialized (carrying the
 * `data-herenow-initialized` attribute). The network is replaced by the
 * responses the environment chooses: every `fetch` is recorded in `calls`,
 * in the order it is issued, and its outcome is a parameter. Timers and
 * event listeners are explicit event methods (`On...`); they act only once
 * `init` has installed them.
 */
module Widget {
  import opened Wrappers
  import opened Types
  import Constants

  const USER_ID_KEY: string := "herenow_user_id"
  const SESSION_ID_KEY: string := "herenow_session_id"

  // ---------------------------------------------------------------------------
  // Pure decisions
  // ---------------------------------------------------------------------------

  /** `sub` occurs in `s` starting at index `i`. */
  predicate OccursAt(s: string, sub: string, i: int) {
    0 <= i <= |s| - |sub| && s[i..i + |sub|] == sub
  }

  /** `s.includes(sub)` */
  function Contains(s: string, sub: string): bool
    decreases |s|
  {
    if |s| < |sub| then false
    else if s[..|sub|] == sub then true
    else Contains(s[1..], sub)
  }

  /** Contains answers whether `sub` occurs somewhere in `s`. */
  lemma {:induction false} ContainsIffOccurs(s: string, sub: string)
    ensures Contains(s, sub) <==> exists i :: OccursAt(s, sub, i)
    decreases |s|
  {
    if |s| < |sub| {
    } else if s[..|sub|] == sub {
      assert OccursAt(s, sub, 0);
    } else {
      ContainsIffOccurs(s[1..], sub);
      if Contains(s[1..], sub) {
        var i :| OccursAt(s[1..], sub, i);
        assert s[i + 1..i + 1 + |sub|] == s[1..][i..i + |sub|];
        assert OccursAt(s, sub, i + 1);
      }
      if exists j :: OccursAt(s, sub, j) {
        var j :| OccursAt(s, sub, j);
        assert j != 0;
        assert s[1..][j - 1..j - 1 + |sub|] == s[j..j + |sub|];
        assert OccursAt(s[1..], sub, j - 1);
      }
    }
  }

  /**
   * The DOMAIN the script reports under: "localhost" stays itself, any host
   * containing "vercel.app" reports as "herenow.fyi", every other host as
   * itself.
   */
  function WidgetDomain(host: string): (domain: string)
    ensures host == "localhost" ==> domain == "localhost"
    ensures host != "localhost" && Contains(host, "vercel.app") ==> domain == "herenow.fyi"
    ensures !Contains(host, "vercel.app") ==> domain == host
  {
    if host == "localhost" then "localhost"
    else if Contains(host, "vercel.app") then "herenow.fyi"
    else host
  }

  /**
   * `isDarkMode()` on the root element's class list, its `data-theme`
   * attribute and the `prefers-color-scheme: dark` media query (`None` when
   * `matchMedia` is unavailable): a "dark" class wins over everything, then a
   * "light" class, then `data-theme` "dark"/"light", then the system setting.
   */
  function IsDarkMode(classes: set<string>, dataTheme: Option<string>, prefersDark: Option<bool>): (dark: bool)
    ensures "dark" in classes ==> dark
    ensures "dark" !in classes && "light" in classes ==> !dark
    ensures "dark" !in classes && "light" !in classes && dataTheme == Some("dark") ==> dark
    ensures "dark" !in classes && "light" !in classes && dataTheme == Some("light") ==> !dark
    ensures "dark" !in classes && "light" !in classes && dataTheme != Some("dark") && dataTheme != Some("light") ==>
      (dark <==> prefersDark == Some(true))
  {
    if "dark" in classes then true
    else if "light" in classes then false
    else if dataTheme == Some("dark") then true
    else if dataTheme == Some("light") then false
    else prefersDark == Some(true)
  }

  /**
   * Get-or-create on a storage map: the stored id when it is truthy,
   * otherwise `candidate`, which is then stored under `key`. Either way the map
   * afterwards holds the returned id under `key`.
   */
  function GetOrCreate(storage: map<string, string>, key: string, candidate: string): (r: (string, map<string, string>))
    ensures key in storage && storage[key] != "" ==> r.0 == storage[key] && r.1 == storage
    ensures !(key in storage && storage[key] != "") ==> r.0 == candidate && r.1 == storage[key := candidate]
    ensures key in r.1 && r.1[key] == r.0
  {
    if key in storage && storage[key] != "" then (storage[key], storage)
    else (candidate, storage[key := candidate])
  }

  /**
   * Once an id has been created (the generators never yield ""), every later
   * call returns that id and leaves the storage as it is, whatever fresh
   * value it is offered.
   */
  lemma GetOrCreateStable(storage: map<string, string>, key: string, candidate: string, later: string)
    requires candidate != ""
    ensures var (id, after) := GetOrCreate(storage, key, candidate);
      GetOrCreate(after, key, later) == (id, after)
  {
  }

  /**
   * The responses `fetch(.../api/track)` may give. An ok response whose body
   * fails to parse is caught before lastActivity moves, so it counts as
   * rejected; a non-ok response whose body fails to parse is caught as well
   * and has the same effect as any non-ok response.
   */
  datatype TrackResponse = TrackOk | TrackNotOk(status: int) | TrackRejected

  /** The responses `fetch(.../api/stats)` may give; a body that fails to parse counts as rejected. */
  datatype StatsResponse = StatsOk(stats: StatsResult) | StatsNotOk(status: int) | StatsRejected

  /** How a call of `fetchStats` ends: it returns stats or throws. */
  datatype FetchResult = Returned(stats: StatsResult) | Threw

  /**
   * The outcome of `fetchStats` for `path`: the server's stats when the
   * response is ok; zeros for this domain and path on a non-ok response; and
   * on a rejected fetch the `catch (error)` clause calls its own parameter,
   * which shadows the `error` logger, so the call throws.
   */
  function FetchStatsOutcome(resp: StatsResponse, domain: string, path: string): (r: FetchResult)
    ensures r.Threw? <==> resp.StatsRejected?
    ensures resp.StatsOk? ==> r == Returned(resp.stats)
    ensures resp.StatsNotOk? ==> r == Returned(StatsResult(0, 0, domain, path))
  {
    match resp
    case StatsOk(stats) => Returned(stats)
    case StatsNotOk(_) => Returned(StatsResult(0, 0, domain, path))
    case StatsRejected => Threw
  }

  /** `timeSinceLastActivity >= ACTIVITY_THRESHOLD` */
  predicate HeartbeatDue(t: int, lastActivity: int) {
    t - lastActivity >= Constants.ACTIVITY_THRESHOLD_MS
  }

  /**
   * The elements a rescan over `doc` starts, element by element: those not
   * initialized and not in flight (EligibleMembers states the set).
   */
  function Eligible(doc: seq<ElementId>, initialized: set<ElementId>, initializing: set<ElementId>): set<ElementId> {
    if doc == [] then {}
    else
      var e := doc[|doc| - 1];
      Eligible(doc[..|doc| - 1], initialized, initializing)
        + (if e !in initialized && e !in initializing then {e} else {})
  }

  /** An element is eligible exactly when it is listed, not initialized and not in flight. */
  lemma {:induction false} EligibleMembers(doc: seq<ElementId>, initialized: set<ElementId>, initializing: set<ElementId>, e: ElementId)
    ensures e in Eligible(doc, initialized, initializing) <==> e in doc && e !in initialized && e !in initializing
    decreases |doc|
  {
    if doc != [] {
      var front := doc[..|doc| - 1];
      EligibleMembers(front, initialized, initializing, e);
      assert doc == front + [doc[|doc| - 1]];
    }
  }

  /**
   * Scanning one more element adds it to the eligible set exactly when it is
   * eligible and not already there, and then the set grows by one.
   */
  lemma EligibleStep(doc: seq<ElementId>, i: int, initialized: set<ElementId>, initializing: set<ElementId>)
    requires 0 <= i < |doc|
    ensures var before, after := Eligible(doc[..i], initialized, initializing), Eligible(doc[..i + 1], initialized, initializing);
      if doc[i] !in initialized && doc[i] !in initializing && doc[i] !in before
      then after == before + {doc[i]} && |after| == |before| + 1
      else after == before
  {
    assert doc[..i + 1][..i] == doc[..i];
    var before := Eligible(doc[..i], initialized, initializing);
    if doc[i] !in initialized && doc[i] !in initializing && doc[i] !in before {
      assert |before + {doc[i]}| == |before| + 1;
    }
  }

  /** The track request issued for `path` with the ids get-or-create yields from the two storages. */
  function Visit(domain: string, path: string, local: map<string, string>, session: map<string, string>,
                 freshUser: string, freshSession: string): Call
  {
    TrackCall(domain, path, GetOrCreate(local, USER_ID_KEY, freshUser).0,
              GetOrCreate(session, SESSION_ID_KEY, freshSession).0)
  }

  /** A storage after `n` get-or-create calls under `key`, each offered `candidate`. */
  function StoreAfter(storage: map<string, string>, key: string, candidate: string, n: nat): map<string, string> {
    if n == 0 then storage else GetOrCreate(storage, key, candidate).1
  }

  /**
   * Repeated get-or-create calls offered the same candidate all return the
   * first call's id, and only the first one can change the storage.
   */
  lemma StoreAfterStep(storage: map<string, string>, key: string, candidate: string, n: nat)
    ensures GetOrCreate(StoreAfter(storage, key, candidate, n), key, candidate)
      == (GetOrCreate(storage, key, candidate).0, StoreAfter(storage, key, candidate, n + 1))
  {
    if n > 0 && !(key in storage && storage[key] != "") {
      assert storage[key := candidate][key := candidate] == storage[key := candidate];
    }
  }

  /** `n` copies of `v` followed by one more are `n + 1` copies. */
  lemma RepeatStep(prefix: seq<Call>, v: Call, n: nat)
    ensures prefix + seq(n, _ => v) + [v] == prefix + seq(n + 1, _ => v)
  {
    assert seq(n, _ => v) + [v] == seq(n + 1, _ => v);
  }

  // ---------------------------------------------------------------------------
  // The engine
  // ---------------------------------------------------------------------------

  /** A DOM element carrying `data-herenow`, by identity. */
  type ElementId = nat

  /** A network request the script issues. */
  datatype Call =
    | TrackCall(domain: string, path: string, userId: string, sessionId: string)
    | StatsCall(domain: string, path: string)

  class Engine {
    /** `isDomainAllowed(window.location.hostname)`; when false the script returns at once. */
    const enabled: bool
    /** DOMAIN */
    const domain: string
    /** window.location.pathname */
    var path: string
    /** document.hidden */
    var hidden: bool
    /** lastActivity */
    var lastActivity: int
    /** Elements carrying data-herenow-initialized. */
    var initialized: set<ElementId>
    /** The initializingElements WeakSet. */
    var initializing: set<ElementId>
    var localStore: map<string, string>
    var sessionStore: map<string, string>
    /** Every request issued, in order. */
    var calls: seq<Call>
    /** The numbers updateWidgetNumbers last wrote; None while the placeholder dashes show. */
    var shown: Option<StatsResult>
    /** init's currentStats. */
    var currentStats: Option<StatsResult>
    /** Whether init got past its first initializeElement and installed listeners and timers. */
    var listening: bool

    ghost predicate Valid()
      reads this
    {
      && initialized !! initializing
      && (listening ==> enabled && currentStats.Some?)
    }

    /** The script loading on `host` at `pathname`, with the storage it finds. */
    constructor (allowed: seq<string>, host: string, pathname: string, pageHidden: bool,
                 local: map<string, string>, session: map<string, string>)
      ensures Valid()
      ensures enabled == Constants.IsDomainAllowed(allowed, host) && domain == WidgetDomain(host)
      ensures path == pathname && hidden == pageHidden && lastActivity == 0
      ensures initialized == {} && initializing == {}
      ensures localStore == local && sessionStore == session
      ensures calls == [] && shown == None && currentStats == None && !listening
    {
      enabled := Constants.IsDomainAllowed(allowed, host);
      domain := WidgetDomain(host);
      path := pathname;
      hidden := pageHidden;
      lastActivity := 0;
      initialized, initializing := {}, {};
      localStore, sessionStore := local, session;
      calls := [];
      shown, currentStats := None, None;
      listening := false;
    }

    /**
     * The effect of one sendActivityUpdate on a visible page: a track request
     * with the stored or created ids and then a stats request are issued;
     * both storages hold those ids; lastActivity moves only on an ok track
     * response; the numbers shown change only when fetchStats returned.
     */
    twostate predicate ActivitySent(freshUser: string, freshSession: string,
                                    trackResp: TrackResponse, statsResp: StatsResponse, t: int)
      reads this
    {
      && calls == old(calls) + [Visit(domain, path, old(localStore), old(sessionStore), freshUser, freshSession),
                                StatsCall(domain, path)]
      && localStore == GetOrCreate(old(localStore), USER_ID_KEY, freshUser).1
      && sessionStore == GetOrCreate(old(sessionStore), SESSION_ID_KEY, freshSession).1
      && lastActivity == (if trackResp.TrackOk? then t else old(lastActivity))
      && shown == (if statsResp.StatsRejected? then old(shown)
                   else Some(FetchStatsOutcome(statsResp, domain, path).stats))
    }

    /**
     * The effect of initializeElement(e) run to its end: the requests,
     * storages, lastActivity and numbers of ActivitySent; the in-flight set
     * as it was; `e` marked exactly when fetchStats returned.
     */
    twostate predicate ElementInitialized(e: ElementId, freshUser: string, freshSession: string,
                                          trackResp: TrackResponse, statsResp: StatsResponse, t: int)
      reads this
    {
      && ActivitySent(freshUser, freshSession, trackResp, statsResp, t)
      && initializing == old(initializing)
      && initialized == old(initialized) + (if statsResp.StatsRejected? then {} else {e})
    }

    /** getUserId() */
    method GetUserId(candidate: string) returns (id: string)
      modifies this`localStore
      ensures (id, localStore) == GetOrCreate(old(localStore), USER_ID_KEY, candidate)
    {
      var r := GetOrCreate(localStore, USER_ID_KEY, candidate);
      id, localStore := r.0, r.1;
    }

    /** getSessionId() */
    method GetSessionId(candidate: string) returns (id: string)
      modifies this`sessionStore
      ensures (id, sessionStore) == GetOrCreate(old(sessionStore), SESSION_ID_KEY, candidate)
    {
      var r := GetOrCreate(sessionStore, SESSION_ID_KEY, candidate);
      id, sessionStore := r.0, r.1;
    }

    /** trackVisit up to its first await: the ids are read or created and the request is issued. */
    method StartTrackVisit(freshUser: string, freshSession: string)
      modifies this`localStore, this`sessionStore, this`calls
      ensures calls == old(calls) + [Visit(domain, path, old(localStore), old(sessionStore), freshUser, freshSession)]
      ensures localStore == GetOrCreate(old(localStore), USER_ID_KEY, freshUser).1
      ensures sessionStore == GetOrCreate(old(sessionStore), SESSION_ID_KEY, freshSession).1
    {
      var userId := GetUserId(freshUser);
      var sessionId := GetSessionId(freshSession);
      calls := calls + [TrackCall(domain, path, userId, sessionId)];
    }

    /**
     * The rest of trackVisit, at time `t`: only an ok response moves
     * lastActivity; non-ok and rejected responses are logged and swallowed.
     */
    method FinishTrackVisit(resp: TrackResponse, t: int)
      modifies this`lastActivity
      ensures lastActivity == if resp.TrackOk? then t else old(lastActivity)
    {
      if resp.TrackOk? {
        lastActivity := t;
      }
    }

    /** fetchStats(): issues the stats request; its outcome is FetchStatsOutcome. */
    method FetchStats(resp: StatsResponse) returns (r: FetchResult)
      modifies this`calls
      ensures calls == old(calls) + [StatsCall(domain, path)]
      ensures r == FetchStatsOutcome(resp, domain, path)
    {
      calls := calls + [StatsCall(domain, path)];
      r := FetchStatsOutcome(resp, domain, path);
    }

    /**
     * initializeElement(e) up to its first await: an element already marked
     * or already in flight is skipped with nothing issued; otherwise it joins
     * the in-flight set and its track request is issued.
     */
    method BeginInitialize(e: ElementId, freshUser: string, freshSession: string) returns (started: bool)
      requires Valid()
      modifies this`initializing, this`localStore, this`sessionStore, this`calls
      ensures Valid()
      ensures started <==> e !in old(initialized) && e !in old(initializing)
      ensures !started ==> && initializing == old(initializing) && calls == old(calls)
                           && localStore == old(localStore) && sessionStore == old(sessionStore)
      ensures started ==> && initializing == old(initializing) + {e}
                          && calls == old(calls) + [Visit(domain, path, old(localStore), old(sessionStore), freshUser, freshSession)]
                          && localStore == GetOrCreate(old(localStore), USER_ID_KEY, freshUser).1
                          && sessionStore == GetOrCreate(old(sessionStore), SESSION_ID_KEY, freshSession).1
    {
      if e in initialized || e in initializing {
        return false;
      }
      initializing := initializing + {e};
      StartTrackVisit(freshUser, freshSession);
      started := true;
    }

    /**
     * The rest of initializeElement(e) at time `t`, once the responses are in:
     * the stats request follows the track response; the element is marked
     * only when fetchStats returned, and leaves the in-flight set either way.
     */
    method CompleteInitialize(e: ElementId, trackResp: TrackResponse, statsResp: StatsResponse, t: int)
        returns (stats: Option<StatsResult>)
      requires Valid() && e in initializing
      modifies this`lastActivity, this`calls, this`shown, this`initialized, this`initializing
      ensures Valid()
      ensures lastActivity == if trackResp.TrackOk? then t else old(lastActivity)
      ensures calls == old(calls) + [StatsCall(domain, path)]
      ensures initializing == old(initializing) - {e}
      ensures FetchStatsOutcome(statsResp, domain, path).Returned? ==>
        var s := FetchStatsOutcome(statsResp, domain, path).stats;
        stats == Some(s) && shown == Some(s) && initialized == old(initialized) + {e}
      ensures FetchStatsOutcome(statsResp, domain, path).Threw? ==>
        stats == None && shown == old(shown) && initialized == old(initialized)
    {
      FinishTrackVisit(trackResp, t);
      var r := FetchStats(statsResp);
      if r.Returned? {
        shown := Some(r.stats);
        initialized := initialized + {e};
        stats := Some(r.stats);
      } else {
        stats := None;
      }
      initializing := initializing - {e};
    }

    /**
     * initializeElement(e) run to the end without another event in between:
     * a skipped element changes nothing; otherwise one track request and
     * then one stats request are issued, the element is marked exactly when
     * fetchStats returned, and the in-flight set is back to what it was.
     */
    method InitializeElement(e: ElementId, freshUser: string, freshSession: string,
                             trackResp: TrackResponse, statsResp: StatsResponse, t: int)
        returns (stats: Option<StatsResult>)
      requires Valid()
      modifies this`initializing, this`localStore, this`sessionStore, this`calls,
               this`lastActivity, this`shown, this`initialized
      ensures Valid()
      ensures e in old(initialized) || e in old(initializing) ==> stats == None && unchanged(this)
      ensures e !in old(initialized) && e !in old(initializing) ==>
        && ElementInitialized(e, freshUser, freshSession, trackResp, statsResp, t)
        && stats == (if statsResp.StatsRejected? then None
                     else Some(FetchStatsOutcome(statsResp, domain, path).stats))
    {
      var started := BeginInitialize(e, freshUser, freshSession);
      if !started {
        return None;
      }
      stats := CompleteInitialize(e, trackResp, statsResp, t);
    }

    /**
     * The state of a rescan of `doc` after its first `i` elements, from the
     * in-flight set, requests and storages it started with: every eligible
     * element among them is in flight and has issued the same track request.
     */
    ghost predicate Scanned(doc: seq<ElementId>, i: nat, initializing0: set<ElementId>, calls0: seq<Call>,
                            local0: map<string, string>, session0: map<string, string>,
                            freshUser: string, freshSession: string)
      requires i <= |doc|
      reads this
    {
      var picked := Eligible(doc[..i], initialized, initializing0);
      var v := Visit(domain, path, local0, session0, freshUser, freshSession);
      && initializing == initializing0 + picked
      && calls == calls0 + seq(|picked|, _ => v)
      && localStore == StoreAfter(local0, USER_ID_KEY, freshUser, |picked|)
      && sessionStore == StoreAfter(session0, SESSION_ID_KEY, freshSession, |picked|)
    }

    /** One element of the rescan: initializeElement(doc[i]) up to its first await. */
    method ScanElement(doc: seq<ElementId>, i: nat, freshUser: string, freshSession: string,
                       ghost initializing0: set<ElementId>, ghost calls0: seq<Call>,
                       ghost local0: map<string, string>, ghost session0: map<string, string>)
      requires i < |doc|
      requires Valid() && Scanned(doc, i, initializing0, calls0, local0, session0, freshUser, freshSession)
      modifies this`initializing, this`localStore, this`sessionStore, this`calls
      ensures Valid() && Scanned(doc, i + 1, initializing0, calls0, local0, session0, freshUser, freshSession)
    {
      EligibleStep(doc, i, initialized, initializing0);
      ghost var n := |Eligible(doc[..i], initialized, initializing0)|;
      var started := BeginInitialize(doc[i], freshUser, freshSession);
      if started {
        StoreAfterStep(local0, USER_ID_KEY, freshUser, n);
        StoreAfterStep(session0, SESSION_ID_KEY, freshSession, n);
        RepeatStep(calls0, Visit(domain, path, local0, session0, freshUser, freshSession), n);
      }
    }

    /**
     * reinitializeWidgets() over the elements `doc` lists: each element
     * without the initialized mark gets initializeElement, which is not
     * awaited, so each started element has joined the in-flight set and
     * issued its track request when the scan returns. All those requests
     * carry the same ids: the first get-or-create stores them.
     */
    method ReinitializeWidgets(doc: seq<ElementId>, freshUser: string, freshSession: string)
      requires Valid()
      modifies this`initializing, this`localStore, this`sessionStore, this`calls
      ensures Valid()
      ensures var n := |Eligible(doc, old(initialized), old(initializing))|;
              var v := Visit(domain, path, old(localStore), old(sessionStore), freshUser, freshSession);
        && initializing == old(initializing) + Eligible(doc, old(initialized), old(initializing))
        && calls == old(calls) + seq(n, _ => v)
        && localStore == StoreAfter(old(localStore), USER_ID_KEY, freshUser, n)
        && sessionStore == StoreAfter(old(sessionStore), SESSION_ID_KEY, freshSession, n)
    {
      for i := 0 to |doc|
        invariant Valid()
        invariant Scanned(doc, i, old(initializing), old(calls), old(localStore), old(sessionStore), freshUser, freshSession)
      {
        ScanElement(doc, i, freshUser, freshSession, old(initializing), old(calls), old(localStore), old(sessionStore));
      }
      assert doc[..|doc|] == doc;
    }

    /**
     * sendActivityUpdate() at time `t`: nothing while the page is hidden;
     * otherwise a visit is tracked and then stats are fetched, the numbers
     * shown being replaced when the fetch returns (a throw is caught here).
     */
    method SendActivityUpdate(freshUser: string, freshSession: string,
                              trackResp: TrackResponse, statsResp: StatsResponse, t: int)
      requires Valid()
      modifies this`localStore, this`sessionStore, this`calls, this`lastActivity, this`shown
      ensures Valid()
      ensures hidden ==> unchanged(this)
      ensures !hidden ==> ActivitySent(freshUser, freshSession, trackResp, statsResp, t)
    {
      if hidden {
        return;
      }
      StartTrackVisit(freshUser, freshSession);
      FinishTrackVisit(trackResp, t);
      var r := FetchStats(statsResp);
      if r.Returned? {
        shown := Some(r.stats);
      }
    }

    /**
     * handleVisibilityChange() at time `t`: a heartbeat is sent exactly when
     * the page is visible and at least the activity window has passed since
     * the last successful visit; otherwise nothing happens.
     */
    method HandleVisibilityChange(freshUser: string, freshSession: string,
                                  trackResp: TrackResponse, statsResp: StatsResponse, t: int)
      requires Valid()
      modifies this`localStore, this`sessionStore, this`calls, this`lastActivity, this`shown
      ensures Valid()
      ensures !hidden && HeartbeatDue(t, old(lastActivity)) ==>
        ActivitySent(freshUser, freshSession, trackResp, statsResp, t)
      ensures !(!hidden && HeartbeatDue(t, old(lastActivity))) ==> unchanged(this)
    {
      if !hidden && HeartbeatDue(t, lastActivity) {
        SendActivityUpdate(freshUser, freshSession, trackResp, statsResp, t);
      }
    }

    /**
     * init() at time `t` on the first `[data-herenow]` element, if any: the
     * element is initialized, and the listeners and timers are installed only
     * when its initializeElement returned stats, which become currentStats.
     */
    method Init(target: Option<ElementId>, freshUser: string, freshSession: string,
                trackResp: TrackResponse, statsResp: StatsResponse, t: int)
      requires Valid() && !listening
      modifies this`initializing, this`localStore, this`sessionStore, this`calls,
               this`lastActivity, this`shown, this`initialized, this`currentStats, this`listening
      ensures Valid()
      ensures !enabled || target.None? || target.value in old(initialized) || target.value in old(initializing) ==>
        unchanged(this)
      ensures enabled && target.Some? && target.value !in old(initialized) && target.value !in old(initializing) ==>
        && ElementInitialized(target.value, freshUser, freshSession, trackResp, statsResp, t)
        && listening == !statsResp.StatsRejected?
        && currentStats == (if statsResp.StatsRejected? then old(currentStats)
                            else Some(FetchStatsOutcome(statsResp, domain, path).stats))
    {
      if !enabled || target.None? {
        return;
      }
      var stats := InitializeElement(target.value, freshUser, freshSession, trackResp, statsResp, t);
      if stats.None? {
        return;
      }
      currentStats := stats;
      listening := true;
    }

    /**
     * A navigation to `newPath` (pushState, replaceState, popstate, a
     * framework route change, or the "herenow-rescan" event with the path
     * unchanged): the location changes; a rescan over `doc` follows only if
     * init installed its listeners, and its track requests are for `newPath`.
     */
    method OnNavigate(newPath: string, doc: seq<ElementId>, freshUser: string, freshSession: string)
      requires Valid()
      modifies this`path, this`initializing, this`localStore, this`sessionStore, this`calls
      ensures Valid()
      ensures path == newPath
      ensures !listening ==> unchanged(this`initializing, this`localStore, this`sessionStore, this`calls)
      ensures listening ==>
        var n := |Eligible(doc, initialized, old(initializing))|;
        var v := Visit(domain, newPath, old(localStore), old(sessionStore), freshUser, freshSession);
        && initializing == old(initializing) + Eligible(doc, initialized, old(initializing))
        && calls == old(calls) + seq(n, _ => v)
        && localStore == StoreAfter(old(localStore), USER_ID_KEY, freshUser, n)
        && sessionStore == StoreAfter(old(sessionStore), SESSION_ID_KEY, freshSession, n)
    {
      path := newPath;
      if listening {
        ReinitializeWidgets(doc, freshUser, freshSession);
      }
    }

    /** A visibilitychange event: the page becomes hidden or visible, and after init handleVisibilityChange runs. */
    method OnVisibilityChange(nowHidden: bool, freshUser: string, freshSession: string,
                              trackResp: TrackResponse, statsResp: StatsResponse, t: int)
      requires Valid()
      modifies this`hidden, this`localStore, this`sessionStore, this`calls, this`lastActivity, this`shown
      ensures Valid()
      ensures hidden == nowHidden
      ensures listening && !nowHidden && HeartbeatDue(t, old(lastActivity)) ==>
        ActivitySent(freshUser, freshSession, trackResp, statsResp, t)
      ensures !(listening && !nowHidden && HeartbeatDue(t, old(lastActivity))) ==>
        unchanged(this`localStore, this`sessionStore, this`calls, this`lastActivity, this`shown)
    {
      hidden := nowHidden;
      if listening {
        HandleVisibilityChange(freshUser, freshSession, trackResp, statsResp, t);
      }
    }

    /** The heartbeat interval (every ACTIVITY_THRESHOLD) firing: sendActivityUpdate after init. */
    method OnHeartbeatTick(freshUser: string, freshSession: string,
                           trackResp: TrackResponse, statsResp: StatsResponse, t: int)
      requires Valid()
      modifies this`localStore, this`sessionStore, this`calls, this`lastActivity, this`shown
      ensures Valid()
      ensures listening && !hidden ==> ActivitySent(freshUser, freshSession, trackResp, statsResp, t)
      ensures !(listening && !hidden) ==> unchanged(this)
    {
      if listening {
        SendActivityUpdate(freshUser, freshSession, trackResp, statsResp, t);
      }
    }

    /**
     * The 30-second refresh interval firing: stats are fetched and shown and
     * become currentStats; a throw from fetchStats escapes the callback and
     * leaves both as they were.
     */
    method OnRefreshTick(statsResp: StatsResponse)
      requires Valid()
      modifies this`calls, this`currentStats, this`shown
      ensures Valid()
      ensures !listening ==> calls == old(calls) && shown == old(shown) && currentStats == old(currentStats)
      ensures listening ==> calls == old(calls) + [StatsCall(domain, path)]
      ensures listening && !statsResp.StatsRejected? ==>
        && currentStats == Some(FetchStatsOutcome(statsResp, domain, path).stats)
        && shown == currentStats
      ensures listening && statsResp.StatsRejected? ==>
        currentStats == old(currentStats) && shown == old(shown)
    {
      if listening {
        var r := FetchStats(statsResp);
        if r.Returned? {
          currentStats := Some(r.stats);
          shown := currentStats;
        }
      }
    }

    /** A change of the root element's `class` or `data-theme`: re-render with currentStats, no request. */
    method OnThemeChange()
      requires Valid()
      modifies this`shown
      ensures Valid()
      ensures shown == if listening then currentStats else old(shown)
    {
      if listening {
        shown := currentStats;
      }
    }
  }

  /**
   * Two initializeElement calls on one element overlapping in time (the
   * second begins while the first awaits its track response) issue one
   * track request, not two.
   */
  method OverlappingInitializations(engine: Engine, e: ElementId, freshUser: string, freshSession: string,
                                    trackResp: TrackResponse, statsResp: StatsResponse, t: int)
    requires engine.Valid() && e !in engine.initialized && e !in engine.initializing
    modifies engine
    ensures engine.Valid()
    ensures engine.ElementInitialized(e, freshUser, freshSession, trackResp, statsResp, t)
  {
    var first := engine.BeginInitialize(e, freshUser, freshSession);
    var second := engine.BeginInitialize(e, freshUser, freshSession);
    assert first && !second;
    var _ := engine.CompleteInitialize(e, trackResp, statsResp, t);
  }
}
