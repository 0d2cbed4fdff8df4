# here-now presence analytics, modelled in Dafny

here-now counts who is on a web page. A small script embedded in a site
(the widget) records a visit with `POST /api/track`. It then asks
`GET /api/stats` for two numbers about the page: **here**, the distinct
users ever seen on it, and **now**, the distinct users seen in the last five
minutes. Both endpoints admit only domains on an allowlist read from
`ALLOWED_DOMAINS`. The stats endpoint keeps answers in a 30-second in-memory
cache.

The model has one module per source file, plus the shared data shapes:

- `Constants` (`src/lib/constants.ts`): the five-minute activity window; the
  parse of `ALLOWED_DOMAINS`, with `String.prototype.split` and
  `String.prototype.trim` written out; and the `isDomainAllowed` rule, which
  admits an exact match or one stripped `www.` prefix.
- `Requests`: the validation chain that both controllers run. A missing
  domain is answered 400, then a missing path 400, then a refused domain 403.
- `StatsController` (`src/controllers/statsController.ts`): the here/now
  aggregate over the `page_events` rows; the result cache, a class whose
  entry map is updated in place, with its sweep loop; and the whole request
  handler.
- `TrackController` (`src/controllers/trackController.ts`): the row an
  accepted visit appends, with generated ids standing in for missing ones,
  and the request handler over an append-only event store.
- `Widget` (`src/controllers/widgetController.ts`, the script inside the
  template literal): the pure decisions (reported domain, dark mode,
  get-or-create ids, the outcome of `fetchStats`) and an `Engine` class. The
  class holds the script's mutable state: `lastActivity`, the in-flight set,
  the initialized marks, both storages, `currentStats` and the numbers shown.
  Each callback and timer is one method. Every network request is appended
  to `calls`, and each response is a parameter.
- `Presence`: lemmas that connect the rows written by the track endpoint to
  the numbers the stats endpoint reports.

Inputs the server reads from its environment are parameters: the allowlist,
the clock `t` (milliseconds), the event-store outcome, and the ids `uuidv4`
would return. The widget's random ids are parameters too. All times in one
request are the same `t`.

Four behaviours of the code are easy to misread, and the model follows the
code in each:

- `fetchStats` names its catch parameter `error`, which hides the `error`
  logger. When the fetch itself is rejected, the catch clause calls the
  caught value and throws, so `fetchStats` throws instead of reaching its
  fallback of zeros. A non-ok response does return zeros, so the widget
  then shows 0 and 0. A rejected fetch leaves the shown numbers unchanged
  only because the throw escapes (`Widget.FetchStatsOutcome`,
  `Widget.Engine.OnRefreshTick`).
- `trackVisit` swallows every failure, so an element is marked initialized
  as soon as `fetchStats` returns, whether or not its visit was recorded,
  and including the zeros after a non-ok stats response
  (`Widget.Engine.InitializeElement`).
- Both endpoints check for a missing domain, then for a missing path, and
  only then the allowlist, so a request with an unlisted domain and no path
  is answered 400, not 403 (`Requests.Validate`).
- The cache key joins domain and path with `:`. Two different pages can
  share a key when a domain contains `:` (`StatsController.CacheKeyCollision`).

The event store is a class over the rows of `page_events`; its constructor
takes the rows the table already holds, since the code never creates or
empties the table.

## Model

| member | source | states |
|---|---|---|
| Constants.TrimStartIndexCut | src/lib/constants.ts:8 | the forward scan of `trim` passes only whitespace and stops at the first other character |
| Constants.TrimEndIndexCut | src/lib/constants.ts:8 | the backward scan of `trim` passes only whitespace and stops after a character that is not whitespace |
| Constants.TrimIsTrimmed | src/lib/constants.ts:8 | a trimmed entry neither starts nor ends with ECMAScript whitespace or a line terminator |
| Constants.TrimIsSlice | src/lib/constants.ts:8 | a trimmed entry is a contiguous slice of the raw entry, and everything cut off on either side is whitespace |
| Constants.TrimOfTrimmed | src/lib/constants.ts:8 | an entry that already has no whitespace at its ends is kept as it is |
| Constants.TrimIdempotent | src/lib/constants.ts:8 | trimming twice gives the same result as trimming once |
| Constants.Split | src/lib/constants.ts:8 | `split(',')` gives at least one piece, no piece holds a comma, and joining the pieces with commas gives back the input |
| Constants.SplitAfterPiece | src/lib/constants.ts:8 | a comma-free piece followed by a comma splits off as the first piece |
| Constants.SplitNoSeparator | src/lib/constants.ts:8 | a comma-free string splits into just itself |
| Constants.SplitJoin | src/lib/constants.ts:8 | splitting undoes joining, so the split of a string is its unique decomposition into comma-free pieces |
| Constants.TrimEach | src/lib/constants.ts:8 | the `map(d => d.trim())` keeps the number and order of the pieces and trims each one |
| Constants.TrimEachOfTrimmed | src/lib/constants.ts:8 | pieces that are already trimmed come through the map unchanged |
| Constants.ParseAllowedDomains | src/lib/constants.ts:5-13 | an unset or empty `ALLOWED_DOMAINS` gives `["localhost"]`; otherwise one trimmed entry per comma-separated piece, in order; the list is never empty |
| Constants.ParseJoinedList | src/lib/constants.ts:5-13 | a list of trimmed, comma-free domains written with commas is read back exactly |
| Constants.TrailingCommaAdmitsBareWww | src/lib/constants.ts:5-30 | a trailing comma adds an empty entry, and that entry admits the bare host `"www."` |
| Constants.IsDomainAllowed | src/lib/constants.ts:17-30 | listed domains are admitted; an unlisted `www.`-prefixed domain is admitted exactly when its remainder is listed; any other unlisted domain is refused |
| Constants.WwwEquivalence | src/lib/constants.ts:23-27 | `"www." + d` is admitted exactly when it or `d` is listed |
| Constants.OnlyOneWwwStripped | src/lib/constants.ts:24-26 | only one `www.` is stripped, so `"www.www." + d` is refused unless it or `"www." + d` is listed |
| Constants.NoReverseRule | src/lib/constants.ts:17-30 | listing `"www." + d` does not admit a bare, unlisted `d` |
| Constants.AllowlistMonotone | src/lib/constants.ts:17-30 | adding entries never turns an admitted domain into a refused one |
| Constants.DefaultList | src/lib/constants.ts:11-30 | the default list admits exactly `localhost` and `www.localhost` |
| Requests.Validate | src/controllers/statsController.ts:15-33 | a request goes on exactly when domain and path are both given and the domain is admitted; otherwise a missing domain is 400, then a missing path is 400, then a refused domain is 403, with the source's messages (the same chain as src/controllers/trackController.ts:11-29) |
| Requests.RejectionIsClientError | src/controllers/statsController.ts:16-33 | every refusal is 400 or 403, and it is 403 exactly when both parameters were given |
| StatsController.Aggregate | src/controllers/statsController.ts:44-65 | `here` is the number of distinct users on the page; `now` is the number of distinct users with a row at or after `t - 5 min`; `0 <= now <= here`; the answer echoes domain and path |
| StatsController.AppendEvent | src/controllers/statsController.ts:48-54 | appending one row adds at most its own user to the users counted for `here` and for `now` |
| StatsController.NewVisitorCounted | src/controllers/statsController.ts:48-58 | a row from a user not yet seen on the page raises `here` by one, and raises `now` by one when the row is inside the window |
| StatsController.ReturningVisitorNotRecounted | src/controllers/statsController.ts:50 | a further row from a user already seen leaves `here` unchanged |
| StatsController.OtherPageIgnored | src/controllers/statsController.ts:53 | a row for another domain or path changes nothing on this page |
| StatsController.UnseenPageIsZero | src/controllers/statsController.ts:56-58 | a page without rows reports `here = 0` and `now = 0`, with no error |
| StatsController.QuietPageHasNobodyNow | src/controllers/statsController.ts:45-51 | once every row of the page is older than the window, `now` is 0 |
| StatsController.CacheKey | src/controllers/statsController.ts:36 | the key is the domain, one `:` and the path, in that order |
| StatsController.CacheKeyInjective | src/controllers/statsController.ts:36 | when neither domain contains `:`, equal keys come from the same domain and path |
| StatsController.CacheKeyCollision | src/controllers/statsController.ts:36 | `("a:b", "c")` and `("a", "b:c")` share a key |
| StatsController.Swept | src/controllers/statsController.ts:74-81 | the sweep keeps exactly the entries stored at or after the cutoff, and keeps them unchanged |
| StatsController.WriteThenHit | src/controllers/statsController.ts:37-71 | a stored answer is served to the same key for the next 30 seconds, even when the sweep runs |
| StatsController.WriteBelowCeiling | src/controllers/statsController.ts:67-74 | when there are at most 100 entries, a write changes the written key and nothing else |
| StatsController.WriteAboveCeiling | src/controllers/statsController.ts:73-81 | when there are more than 100 entries, every other entry older than `t - 60 s` is dropped and every other entry is kept as it was |
| StatsController.WriteKeepsWellFormed | src/controllers/statsController.ts:60-71 | every cached answer stays stored under its own key with `0 <= now <= here` |
| StatsController.StatsCache.constructor | src/controllers/statsController.ts:7 | the cache starts empty |
| StatsController.StatsCache.Lookup | src/controllers/statsController.ts:36-42 | a cached answer is returned exactly when an entry for the key exists and is younger than 30 seconds |
| StatsController.StatsCache.Write | src/controllers/statsController.ts:67-81 | the set and the sweep loop leave exactly the entry map `AfterWrite` describes, and every entry stays well formed |
| StatsController.HandleStats | src/controllers/statsController.ts:10-95 | a refused request gets its 400/403 and leaves the cache alone; a fresh cache entry is served as stored; a store failure gets 500 "Failed to get stats" with details, domain and path, and the cache is unchanged; otherwise the aggregate is served and written to the cache |
| StatsController.CachedAnswerEchoesRequest | src/controllers/statsController.ts:36-41 | when no domain contains `:`, a cached answer found for a request was computed for that same domain and path |
| TrackController.IdOrGenerated | src/controllers/trackController.ts:38-39 | a truthy client id is kept; a missing or empty one is replaced by the generated id, so with a generator that never yields "" no empty id is stored |
| TrackController.NewEvent | src/controllers/trackController.ts:31-42 | the new row carries the requested domain and path, the kept or generated ids, and the time of the request |
| TrackController.EventStore.Append | src/controllers/trackController.ts:34-42 | an insert appends exactly one row and keeps every earlier row |
| TrackController.HandleTrack | src/controllers/trackController.ts:7-51 | a refused request gets its 400/403 and appends nothing; a failed insert gets 500 "Failed to track event" and appends nothing; an accepted request appends exactly one row and answers `{success: true, event_id}` |
| Presence.TwoVisitorsThenQuiet | src/controllers/statsController.ts:45-58 | two different visitors tracked at `t0` give here 2 and now 2 until `t0 + 5 min` inclusive, and here 2 and now 0 one millisecond later |
| Presence.AcceptedVisitCounts | src/controllers/statsController.ts:48-58 | the row for an accepted visit from a new user raises the page's here and now by one each |
| Widget.ContainsIffOccurs | src/controllers/widgetController.ts:57 | `includes` is true exactly when the substring occurs at some index |
| Widget.WidgetDomain | src/controllers/widgetController.ts:56-58 | `localhost` is reported as itself; any other host containing `vercel.app` is reported as `herenow.fyi`; every other host as itself |
| Widget.IsDarkMode | src/controllers/widgetController.ts:61-79 | a `dark` class wins; then a `light` class; then `data-theme` dark or light; then the system preference, which counts as light when `matchMedia` is missing |
| Widget.GetOrCreate | src/controllers/widgetController.ts:82-101 | a stored truthy id is returned and the storage is unchanged; otherwise the new id is returned and stored; afterwards the storage holds the returned id |
| Widget.GetOrCreateStable | src/controllers/widgetController.ts:82-91 | once an id is created, every later call returns it and leaves the storage unchanged |
| Widget.FetchStatsOutcome | src/controllers/widgetController.ts:171-182 | an ok response returns the server's stats; a non-ok response returns zeros for this domain and path; a rejected fetch throws |
| Widget.EligibleMembers | src/controllers/widgetController.ts:350 | an element is picked up by a rescan exactly when it is in the document, not marked initialized and not in flight |
| Widget.EligibleStep | src/controllers/widgetController.ts:350-354 | scanning one more element adds it to the picked set exactly when it is eligible and not already picked, and the set then grows by one |
| Widget.StoreAfterStep | src/controllers/widgetController.ts:82-101 | repeated get-or-create calls offered the same candidate all return the first call's id, and only the first can change the storage |
| Widget.Engine.constructor | src/controllers/widgetController.ts:48-58 | the script is enabled exactly when the host is admitted; DOMAIN is `WidgetDomain(host)`; `lastActivity` is 0; nothing is initialized or in flight; nothing has been issued or shown |
| Widget.Engine.GetUserId | src/controllers/widgetController.ts:82-91 | reads or creates the user id in localStorage under `herenow_user_id` |
| Widget.Engine.GetSessionId | src/controllers/widgetController.ts:94-101 | reads or creates the session id in sessionStorage under `herenow_session_id` |
| Widget.Engine.StartTrackVisit | src/controllers/widgetController.ts:108-122 | issues exactly one track request for DOMAIN and the current path, with the stored or newly created ids |
| Widget.Engine.FinishTrackVisit | src/controllers/widgetController.ts:124-134 | only an ok track response moves `lastActivity` to now; failures are swallowed |
| Widget.Engine.FetchStats | src/controllers/widgetController.ts:171-182 | issues exactly one stats request for DOMAIN and the current path, and its outcome is `FetchStatsOutcome` |
| Widget.Engine.BeginInitialize | src/controllers/widgetController.ts:303-316 | an element already marked or already in flight is skipped and nothing is issued; otherwise it joins the in-flight set and its track request is issued |
| Widget.Engine.CompleteInitialize | src/controllers/widgetController.ts:317-343 | the stats request follows; the element is marked and its numbers are shown exactly when `fetchStats` returned; it leaves the in-flight set either way |
| Widget.Engine.InitializeElement | src/controllers/widgetController.ts:303-344 | a skipped element changes nothing and returns nothing; otherwise one track request with the stored or newly created ids and then one stats request are issued, both storages hold those ids, `lastActivity` moves only on an ok track response, the element is marked and its numbers shown exactly when the fetch was not rejected, and the in-flight set is restored |
| Widget.Engine.ScanElement | src/controllers/widgetController.ts:350-354 | one more element of the rescan keeps the scan's state exactly as `Scanned` describes: picked elements in flight, one identical track request each, storages as after one get-or-create once any element started |
| Widget.Engine.ReinitializeWidgets | src/controllers/widgetController.ts:347-355 | every unmarked element that is not in flight joins the in-flight set; the earlier requests are followed by exactly one track request per such element, all for the current page and all carrying the ids the first get-or-create returned; the storages are as after one get-or-create when any element started, and unchanged otherwise |
| Widget.Engine.SendActivityUpdate | src/controllers/widgetController.ts:138-155 | nothing changes while the page is hidden; otherwise a track request with the stored or newly created ids and then a stats request are issued, both storages hold those ids, `lastActivity` moves only on an ok track response, and the shown numbers change only when the fetch returned |
| Widget.Engine.HandleVisibilityChange | src/controllers/widgetController.ts:158-168 | when the page is visible and at least 5 minutes have passed since the last successful visit, the whole effect of `sendActivityUpdate` (requests, storages, `lastActivity`, shown numbers) happens; otherwise nothing changes |
| Widget.Engine.Init | src/controllers/widgetController.ts:273-285 | when the script is disabled, there is no target, or the target is marked or in flight, nothing changes; otherwise the target gets the whole effect of `initializeElement`, and the listeners and timers are installed, with its stats as `currentStats`, exactly when its fetch was not rejected; a rejected fetch leaves `currentStats` as it was |
| Widget.Engine.OnNavigate | src/controllers/widgetController.ts:357-398 | the path changes; before init has installed its listeners nothing else changes; afterwards the rescan runs for the new path, issuing one track request per picked element with the ids the first get-or-create returned, and the storages are as after one get-or-create when any element started |
| Widget.Engine.OnVisibilityChange | src/controllers/widgetController.ts:400-401 | the page becomes hidden or visible; after init, when it is visible and the heartbeat is due, the whole effect of `sendActivityUpdate` happens; in every other case the requests, storages, `lastActivity` and shown numbers are unchanged |
| Widget.Engine.OnHeartbeatTick | src/controllers/widgetController.ts:403-406 | after init and on a visible page, the whole effect of `sendActivityUpdate` happens; when hidden or before init, nothing changes |
| Widget.Engine.OnRefreshTick | src/controllers/widgetController.ts:408-412 | after init, a stats request is issued; the result becomes `currentStats` and is shown, unless the fetch threw, in which case both stay as they were |
| Widget.Engine.OnThemeChange | src/controllers/widgetController.ts:287-300 | after init, the widget is re-rendered with `currentStats` and no request is issued |
| Widget.OverlappingInitializations | src/controllers/widgetController.ts:21-24 | two overlapping initializations of one element have the effect of one: one track request and one stats request, the storages and `lastActivity` as after one visit, the in-flight set as it was, and the element marked exactly when the fetch was not rejected |

## Left out

- Express routing, CORS, JSON parsing and the HTTP status helpers are not modelled. A query parameter or JSON body field that is not a string is not modelled either: parameters are absent, empty or a string. In the code, a truthy non-string `domain` makes `isDomainAllowed` throw at `startsWith` (src/lib/constants.ts:24), and a non-string id makes the insert fail; both end in a 500 answer, which the model does not produce from such inputs.
- The Prisma client and the raw SQL are not modelled. The aggregate is computed over the table's rows as a sequence, and a failed read or insert is an outcome parameter. `bigint` counts converted by `Number` are unbounded integers.
- Clocks and randomness are not modelled. `Date.now()`, `uuidv4()`, `Math.random()` and `crypto.randomUUID()` are parameters. Each request uses one time `t`, although the handler reads the clock up to four times.
- Concurrency is not modelled. Each server request is one atomic step, so interleaved requests on the shared cache map are out of scope. In the widget, a callback runs to its end unless it is split at an `await` (`BeginInitialize` / `CompleteInitialize`). Awaits inside `trackVisit` and `sendActivityUpdate` run in order.
- Timer delays are not modelled: the 100 ms navigation delay, the 500 ms hydration delay, `requestAnimationFrame` and the interval periods. Each timer firing is an explicit event method.
- DOM rendering is not modelled: the skeleton HTML, colours, styles and the pulse animation. Only the numbers last written (`shown`) are kept. An element leaving the document is not modelled; elements are identities.
- Logging and the `data-herenow-debug` flag are not modelled.
- `getDomainCheckJS` (src/lib/constants.ts:33-51) prints the same rule into the script; the widget uses `Constants.IsDomainAllowed`. An allowlist entry containing a quote would break the printed script; this is not modelled.
- Widget.Engine.ReinitializeWidgets: the `querySelectorAll` result is a parameter `doc`, so document order and duplicates are not checked against a real DOM.
- Constants.Trim: its own contract states only the length bound; what it cuts off is stated by `TrimIsTrimmed` and `TrimIsSlice`.
