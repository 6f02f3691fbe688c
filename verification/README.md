# A verified model of the URL shortener

The service keeps links in PostgreSQL and puts Redis in front of it: a cache of links with hot counters, a list that
buffers click events, cached summaries, and a sorted set per rate-limited key. This project models those state machines
and proves what they promise over whole runs. Redis is a set of maps with deadlines and a list, PostgreSQL a set of maps
with unique and foreign keys and transactions, time an integer clock.

- `RateLimiter.dfy`: the sliding-window Lua script. Every call reads two clocks, that of the application server (the
  score) and that of Redis (EXPIRE). The window bound and the optimality of greedy admission are proved for clocks that
  agree, the bound exactly for clocks that drift, and an interleaved run of many keys answers each key as a limiter that
  forgets nothing would.
- `Schema.dfy`, `UrlCache.dfy`, `UrlStore.dfy`, `UrlLaws.dfy`, `Services.dfy`: links, their cache and the redirect
  lookup, one request at a time. The cached service answers as the service without a cache does, except that it says 410 where the table
  alone says 404.
- `Interleaving.dfy`: the same cache under concurrency, where a transaction invalidates first and commits or aborts
  later, and a warm-up writes what it read earlier. Every redirect leads to a target once inserted under its code,
  staleness is characterised exactly, and so is how long it can last.
- `Pipeline.dfy`, `Processor.dfy`, `Grouping.dfy`: the click queue, its batch workers, and the denormalised counter.
- `EndToEnd.dfy`: the interleaved service and the workers over one table; every successful redirect is counted, waiting
  or lost.
- `Analytics.dfy`: summaries, their percentages and their daily figures.
- `Auth.dfy`: refresh-token rotation.
- `Listing.dfy`: pages of an owner's links.

Specification functions on values say what one request does; the classes carry the fields the services update and their
methods are proved to do exactly that; the theorems are about runs of the specification functions, and for each
operation a law spells out its conditions, fields and numbers without naming those functions.

Where code and documentation disagree the code is modelled. The repository's README describes the batch pop as LRANGE
and LTRIM (README.md:89-90); the code pops atomically with LMPOP. It also says a hot link never leaves the cache
(README.md:110); `UrlStore.HotLinksStayCached` says that holds exactly while every gap between clicks is below
min(3600, 2 * URL_CACHE_TTL).

Two results say where the code falls short of what it is for. A redirect queues the User-Agent and Referer headers
untruncated (app/main.py:135-136, app/services/redirect.py:101-112), the columns take 512 and 2048 characters
(app/models/click_event.py:34-35), and one refused insert rolls back the whole popped batch: the loss conditions of
`Pipeline` and `EndToEnd` name these widths (`Pipeline.LongHeaderLosesBatch`). And the limiter names its third result
the seconds until reset; on a denial it is always 1, whatever the set holds.

## Model

| member | source | states |
|---|---|---|
| RateLimiter.SlidingWindowRateLimiter.IsAllowed | app/cache/rate_limiter.py:60-100 | a call on a pair reads and writes that pair's key alone, as one step of the script, and loads the script's digest once |
| RateLimiter.SlidingWindowRateLimiter.EvalScript | app/cache/rate_limiter.py:17-36 | the commands of the script in order make exactly that step: prune, count, then deny or add and set the expiry |
| RateLimiter.OffsetClocksAgree | app/cache/rate_limiter.py:72-73 | application clocks within fixed offsets of the Redis clock satisfy the hypothesis of the bounds below |
| RateLimiter.Held | app/cache/rate_limiter.py:25-34 | neither pruning nor expiry removes an admission that is still inside the window (less the drift) |
| RateLimiter.WindowBoundUnderSkew | app/cache/rate_limiter.py:25-35 | with clocks that agree up to d, no half-open interval of length window - d holds more than limit admissions, EXPIRE included |
| RateLimiter.WindowBound | app/cache/rate_limiter.py:25-35 | with agreeing clocks every interval (t - window, t] holds at most limit admissions |
| RateLimiter.WindowBoundExactly | app/cache/rate_limiter.py:25-34 | over all runs with clocks within d, intervals of a given length hold at most limit admissions if and only if the length is at most window - d (0 when d exceeds the window), for every policy that admits anything; one tick more and some run overflows |
| RateLimiter.KeptIsWindow | app/cache/rate_limiter.py:25-26 | the count the script takes is the number of admissions in the current window |
| RateLimiter.RefinesFullLog | app/cache/rate_limiter.py:25-35 | every reply, with its remaining, equals that of a limiter that keeps all admissions forever |
| RateLimiter.GreedyIsOptimal | app/cache/rate_limiter.py:28-33 | on every prefix of the arrivals no schedule that respects the window has admitted more calls |
| RateLimiter.GreedyIsFeasible | app/cache/rate_limiter.py:28-33 | the limiter's own schedule respects the window, so it is a maximum |
| RateLimiter.NthAdmittedIsNoLater | app/cache/rate_limiter.py:28-33 | the n-th admission is never later than the n-th of any schedule that respects the window |
| RateLimiter.KeysAreInjective | app/cache/rate_limiter.py:71 | pairs whose endpoints do not clash never share a key, whatever the identifiers contain |
| RateLimiter.KeysShared | app/cache/rate_limiter.py:71 | requests to two endpoints can meet on one key if and only if one endpoint ends with a colon and the other (no two endpoints the routes pass do) |
| RateLimiter.PairsDoNotInterfere | app/cache/rate_limiter.py:66-87 | in any interleaving of requests to endpoints that do not clash with the pair's, the key of a pair holds what it would hold had that pair been alone |
| RateLimiter.EveryReplyIsTheLogs | app/cache/rate_limiter.py:66-90 | in any such interleaving every reply is that of the full-log limiter of its own pair |
| Grouping.TallyCounts | app/analytics/processor.py:102-104 | the counter has distinct keys, counts every occurrence once and loses none; GROUP BY is the same function |
| Grouping.SortKeeps | app/repositories/click_event.py:60 | ordering by any total preorder sorts and changes neither labels nor counts |
| Grouping.TopShape | app/repositories/click_event.py:55-62 | the groups kept under a limit are distinct, exact and in descending order |
| Grouping.TopRanks | app/repositories/click_event.py:60-61 | a group is left out only when the limit is reached, and never outranks a kept one |
| Schema.CodesNameOneRow | app/repositories/url.py:28-46 | the two-column lookups never match two rows, and find exactly the row with that short code |
| UrlCache.LookupHistory | app/cache/url_cache.py:37-62 | over any sequence of cache commands a lookup returns p if and only if p was put last, not dropped since, and lives: the put is younger than URL_CACHE_TTL, or a click that brought the running streak to the threshold and found the entry alive is younger than twice that |
| UrlCache.CounterIsStreak | app/cache/url_cache.py:54-56 | the hot counter is the number of clicks since the last invalidation with no gap of 3600 seconds, and runs out 3600 seconds after the last |
| UrlCache.CommandLaw | app/cache/url_cache.py:37-67 | a set entry is found for the given time to live, or URL_CACHE_TTL when none or zero is given; a deleted code is not found and its counter starts over; no command touches another code |
| UrlCache.URLCache.Set | app/cache/url_cache.py:45-47 | the entry with its deadline; no or zero time to live means the default |
| UrlCache.URLCache.Delete | app/cache/url_cache.py:49-50 | entry and counter of the code are gone, all others stay |
| UrlCache.URLCache.TrackClick | app/cache/url_cache.py:52-62 | the new count, its renewed window, and from the threshold on the entry's extended deadline |
| UrlCache.URLCache.InvalidateMany | app/cache/url_cache.py:64-67 | both keys of every listed code are gone |
| UrlStore.DrawnCodeIsFree | app/services/url.py:152-157 | the retry loop returns a drawn code no row carries and gives up only when all are taken |
| UrlStore.CreateExactly | app/services/url.py:56-74 | exactly when an accepted create succeeds, under which code, and with which error otherwise |
| UrlLaws.DrawsFirstFree | app/services/url.py:152-157 | the retry loop returns the first drawn code that no row carries |
| UrlLaws.CreateLaw | app/services/url.py:49-77 | for every request: Invalid exactly when alias, title, expiry or target are not allowed, Conflict or CodeCollision exactly when no code is to be had; else one row with exactly the fields asked for, cached for URL_CACHE_TTL; a failure changes nothing |
| UrlStore.CreateKeepsTable | app/services/url.py:59-74 | creates keep codes unique and aliases equal to codes, and break a constraint only on a repeated id |
| UrlStore.CreateThenResolve | app/services/url.py:49-77 | a created link leads to the requested URL at once |
| UrlStore.UpdateThenResolve | app/services/url.py:107-129 | after an update the new state of the row decides the very next resolve |
| UrlStore.DeleteThenResolve | app/services/url.py:131-148 | after a delete the code is not found |
| UrlLaws.UpdateLaw | app/services/url.py:107-129 | an update succeeds if and only if the row exists and the requester is its owner or an administrator; NotFound or Forbidden otherwise, with no change; it sets exactly the fields given and drops the code's keys |
| UrlLaws.DeleteLaw | app/services/url.py:131-148 | the same condition for a delete, which removes that row and drops the code's keys |
| UrlLaws.StrangersChangeNothing | app/services/url.py:116-143 | over any run in which neither its owner nor an administrator names it, a row stays as it is |
| UrlLaws.ResolveExactly | app/services/redirect.py:51-92 | a code leads to its row's target if and only if the row is active and its expiry is absent or in the future; it is Gone if and only if a live entry exists for an expired row |
| UrlLaws.ResolveEffects | app/services/redirect.py:65-81 | a failed resolve leaves the cache alone; a successful one counts one click, renews the counter for 3600 seconds and leaves the row's entry with the deadline it should have |
| UrlLaws.LinkLives | app/repositories/url.py:36-46 | over any run, a created link that neither owner nor administrator touches redirects to the requested URL at every time before its expiry and at none from it on |
| UrlStore.OtherCodesUnaffected | app/services/url.py:124-148 | no request changes where a code it does not name leads |
| UrlStore.MissWarmsCache | app/services/redirect.py:65-77 | a resolve that missed makes the next URL_CACHE_TTL seconds hits, with the same target |
| UrlStore.RunsStayCoherent | app/services/url.py:124-148 | in every run each cache entry is the serialization of an existing active row with that code |
| UrlStore.ResolveAgrees | app/services/redirect.py:51-92 | the cached answer equals the table's, but for 410 in place of 404, and 410 is said only of an active expired link |
| UrlStore.CachedRefinesUncached | app/services/redirect.py:51-78 | every run of the service answers as the same run without a cache, but for 410 in place of 404 |
| UrlStore.ClickMakesHot | app/services/redirect.py:65-81 | a click that brings the counter to the threshold leaves entry and counter with their full life |
| UrlStore.ClickRenews | app/cache/url_cache.py:54-60 | a click in time on a hot link is a hit and renews it |
| UrlStore.HotLinksStayCached | app/cache/url_cache.py:52-62 | over any run that leaves its row alone, a hot link answers every click from the cache with its counter at the threshold if and only if every gap between clicks is below min(3600, 2 * URL_CACHE_TTL) |
| Interleaving.Reachable | app/db/session.py:34-43 | the invariant on tables, open transactions, commits, cache entries, pending warm-ups and the log of cache commands holds in every reachable state |
| Interleaving.Provenance | app/services/redirect.py:53-77 | under any interleaving a redirect leads to the target of a row once inserted under that code |
| Interleaving.ServedExactly | app/services/redirect.py:51-63 | without a live entry a redirect is answered if and only if the table holds an active row with the code whose expiry is absent or in the future, and then with that row |
| Interleaving.AbortIsFinal | app/db/session.py:34-43 | a rolled-back transaction changes no row, ever |
| Interleaving.WarmOnce | app/services/redirect.py:65-77 | a warm-up writes the cache at most once, and never after it was lost |
| Interleaving.StaleOnlyByOverlap | app/services/url.py:122-148 | an entry lags its row exactly when a commit followed its read and that commit's invalidation preceded its write; otherwise it equals its row unless the row's insert has not committed |
| Interleaving.LookupIsEntry | app/cache/url_cache.py:37-62 | under any interleaving a lookup returns the entry last written if and only if that entry is alive |
| Interleaving.StaleAnswer | app/services/redirect.py:65-81 | a lookup answers with an entry that lags its row if and only if a commit overlaps the entry and the entry is alive; any cached answer that differs from its row is such a one, unless the row's insert has not committed; without a renewing click it ends URL_CACHE_TTL after the write |
| Interleaving.NoOverlapNoStaleness | app/services/url.py:122-148 | while no commit overlaps a live entry and the insert of every live cached row has committed, every cached answer equals its active row |
| Interleaving.StalenessLasts | app/cache/url_cache.py:54-60 | with a positive URL_CACHE_TTL, for every link without an expiry and every horizon there is a run in which the link is deactivated and still served when that much time has passed |
| Pipeline.GroupedEqualsPerEvent | app/analytics/processor.py:101-106 | one increment per distinct id, in any order, yields the table of one increment per event |
| Pipeline.IncrementsSum | app/analytics/processor.py:102-106 | the increments of a batch sum to its parsed events |
| Pipeline.EventsAreConserved | app/analytics/processor.py:59-108 | with any number of workers and failures every pushed event is queued, held by one worker, persisted or dropped |
| Pipeline.CountersStayExact | app/analytics/processor.py:98-108 | in every reachable state click_count is the number of stored events, and the stored events are the persisted ones, once each, less those of deleted links |
| Pipeline.StoredAsPushed | app/analytics/processor.py:77-96 | in every reachable state each click on a link is stored as often as an event with that link, time and visitor was pushed, less those waiting, held or dropped |
| Pipeline.FlushLaw | app/analytics/processor.py:73-108 | a batch commits if and only if every event with a link and a time names a link of the table and has texts within 64, 2, 100, 2048, 512, 50, 50 and 20 characters; then each is stored once as it was queued and each link's count grows by its events |
| Pipeline.DropsNothingExactly | app/analytics/processor.py:59-108 | for any number of workers a run drops nothing if and only if no worker dies with a batch and every event of every committed batch parses, names a URL of the table and fits its columns; so it is when no worker dies, no link is deleted and every pushed event lands |
| Pipeline.LostExactly | app/analytics/processor.py:64-108 | an event on a live link is lost exactly when its worker dies holding it or some event of its batch names a missing URL or does not fit |
| Pipeline.LongHeaderLosesBatch | app/models/click_event.py:34-35 | one event with a user agent over 512 or a referrer over 2048 characters loses its whole batch: nothing stored, nothing counted |
| Pipeline.UnfitIsDropped | app/repositories/click_event.py:16-19 | an event that does not parse or fit is never persisted; once queue and workers are empty, a run that was pushed one has dropped it |
| Pipeline.OneWorkerIsFifo | app/cache/analytics_cache.py:28-39 | with one worker, persisted, held and queued events spell out the pushed sequence if and only if the run loses nothing; in particular when nothing fails and every event lands |
| Processor.AnalyticsCache.PushEvent | app/cache/analytics_cache.py:28-29 | the event joins the end of the queue |
| Processor.AnalyticsCache.PopEvents | app/cache/analytics_cache.py:31-39 | the popped events and the rest are the old queue, and no more than count are popped |
| Processor.AnalyticsProcessor.Flush | app/analytics/processor.py:59-108 | pops one batch and persists it as one transaction or not at all; it is rolled back exactly when the database fails or refuses an event of the batch for its URL or its width |
| Processor.AnalyticsProcessor.Run | app/analytics/processor.py:51-57 | queue and database after the loop are those of the rounds, whatever flushes fail; exact counters stay exact and the queue follows the backlog |
| Processor.WorkIsARun | app/analytics/processor.py:51-108 | the rounds of the loop are a run of the state machine with one worker, a failed flush being a lost batch |
| Processor.ServedClickIsStored | app/services/redirect.py:94-112 | an event queued at a time by a visitor is stored with that time and that visitor by the flush that pops it and goes through |
| Processor.AnalyticsProcessor.Stop | app/analytics/processor.py:39-49 | shutdown pops one batch and commits it like any flush, so it empties the queue exactly when one batch was enough |
| Processor.BacklogBounded | app/analytics/processor.py:59-66 | while at most a batch arrives between flushes no flush leaves more than the first one did |
| Processor.DrainsExactly | app/analytics/processor.py:59-66 | n events without arrivals are drained by ceil(n / batch) flushes and not by fewer |
| Analytics.TenthsClose | app/services/analytics.py:57 | a rounded percentage is within half a tenth of the exact one and at most 100 |
| Analytics.PercentagesSum | app/services/analytics.py:52-60 | the percentages of n groups sum to at most 100 plus n half tenths |
| Analytics.BreakdownIsOk | app/services/analytics.py:52-60 | at most ten distinct labels in descending order, each at most 100.0 and together at most 100.5 percent |
| Analytics.BreakdownRanks | app/repositories/click_event.py:48-66 | shown counts are exact and no omitted value outranks a shown one |
| Analytics.DailyChain | app/repositories/click_event.py:68-86 | unique visitors <= summed daily uniques <= summed daily clicks = clicks of the period, days ascending |
| Analytics.PeriodExactly | app/repositories/click_event.py:35-46 | the clicks of a period are those of the link not older than its start, each as often as stored |
| Analytics.SummaryExactly | app/services/analytics.py:39-76 | every figure against the raw table: visitors are the distinct hashes since the start, a label's count the clicks with that value in that field, shares rounded half to even, a day's row its clicks and its distinct hashes; omitted labels do not outrank shown ones |
| Analytics.FreshSummaryOk | app/services/analytics.py:39-76 | on exact counters a fresh summary satisfies the whole chain up to total_clicks and all percentage bounds |
| Analytics.ReachableSummaryOk | app/services/analytics.py:39-76 | so does every summary of a database the click pipeline can reach |
| Analytics.SummaryAcrossReads | app/services/analytics.py:39-50 | when batches commit between the queries, unique visitors, summed uniques and summed clicks stay in order and exceed the total by no more than the clicks that landed; for a period that covers every click the summary is in order if and only if none landed |
| Analytics.AnalyticsService.GetSummary | app/services/analytics.py:28-79 | serves a live cached summary unchanged, else computes and caches one; every summary served is in order |
| Auth.AuthService.Register | app/services/auth.py:29-37 | a new account, or a refused email or id and no change |
| Auth.AuthService.Login | app/services/auth.py:39-72 | a stored refresh token for matching credentials, or an error and no change |
| Auth.AuthService.Refresh | app/services/auth.py:74-109 | the exchange as one transaction: a clash of the new token undoes the revocation |
| Auth.AuthService.Logout | app/services/auth.py:111-115 | a live token is revoked, anything else changes nothing |
| Auth.RotationIsSafe | app/services/auth.py:88-103 | at most one unrevoked token per login, no token exchanged twice, users match subjects, unrevoked tokens = logins - effective logouts |
| Auth.RevocationIsPermanent | app/repositories/refresh_token.py:16-24 | a revoked token stays so and is refused forever |
| Auth.RegisterThenLogin | app/services/auth.py:29-72 | a registration adds one active account unless email or id is taken; the account logs in at once with its password and with no other |
| Auth.LoginExactly | app/services/auth.py:39-72 | exactly when a login succeeds and which error it gives otherwise; the new row stands for 30 days, the pair is the account's, an access token of half an hour and a refresh token of 30 days |
| Auth.ExchangeExactly | app/services/auth.py:74-109 | exactly when a credential is exchanged and which error it gives otherwise; the old row is revoked, the new one stands for 30 days, the pair is the same user's, and nothing else changes |
| Auth.ChainGoesOn | app/services/auth.py:74-109 | the token an exchange returned is itself exchanged if and only if row and claim have not run out and no stored token of the user runs out in the second the next one would |
| Auth.LogoutExactly | app/services/auth.py:111-115 | a logout revokes the row of a standing token and changes nothing else |
| Auth.SameSecondExchangeFails | app/core/security.py:37-41 | a token presented in the second it was issued in is refused and stays valid |
| Listing.PagesPartition | app/services/url.py:97-105 | pages together are the listing, all but the last full, later ones empty |
| Listing.ListingSize | app/repositories/url.py:55-58 | the total is the length of the listing |
| Services.URLService.GenerateUniqueCode | app/services/url.py:152-157 | the loop computes the draw of the specification |
| Services.URLService.Create | app/services/url.py:49-77 | table, cache and answer are those of one create step |
| Services.URLService.Update | app/services/url.py:107-129 | table, cache and answer are those of one update step |
| Services.URLService.Delete | app/services/url.py:131-148 | table, cache and answer are those of one delete step, and the link's click events are gone |
| Services.URLService.ListByOwner | app/services/url.py:91-105 | the owner's rows that follow the earlier pages, newest first and each once, full before the last page and empty after it; the total counts them all |
| Services.RedirectService.Resolve | app/services/redirect.py:42-92 | the answer of the resolve laws, and the background tasks in order: a warm-up only after a miss, the click, the event |
| Services.RedirectService.Serve | app/services/redirect.py:42-114 | answer, cache and queue after a request; a success queues exactly one event, for the row it led to |
| EndToEnd.EveryRedirectIsCounted | app/services/redirect.py:42-112 | under any interleaving of lookups, background tasks, open transactions and workers, the successful redirects to a link are its click_count plus those whose event waits in a task, the queue or a worker plus those lost |
| EndToEnd.AnswerExactly | app/services/redirect.py:51-63 | which link a redirect leads to in any reachable state, from a live entry or from the table |
| EndToEnd.MissWarms | app/services/redirect.py:57-77 | an answered redirect leaves a warm-up of the very row after a miss, and none after a hit |
| EndToEnd.ResolvedAreTheSuccesses | app/services/redirect.py:51-92 | the redirects counted are exactly those of the run that were answered with a link, in order |
| EndToEnd.StoredClickWasVisited | app/services/redirect.py:83-112 | every stored click goes back to a successful redirect to that link by that visitor, and carries the time its background task ended |
| EndToEnd.LosslessRunsCountAll | app/analytics/processor.py:59-108 | nothing is lost if and only if no step loses anything; so it is when no task or worker is lost, no deletion begins, redirects lead to committed links and their headers fit; then click_count is the successful redirects less the waiting ones |

## Left out

- Routing, middleware, configuration, logging, migrations, QR codes, the parsing of user agents and `is_safe_url` (its verdict is a field of the request): plumbing without hard properties.
- Passwords, hashes, token signing and the text forms of ids, dates and payloads are injective and invertible; randomness is a parameter (request ids and row ids are fresh, drawn codes arbitrary).
- Floating point: clocks are integer ticks and percentages exact rationals rounded half to even.
- The Lua script, LMPOP and each SQL statement are atomic; a violated constraint rolls the transaction back; deleting a link deletes its click events.
- A listing is read against one fixed order of the owner's rows; rows created at the same instant have no fixed order in the query, and two pages may then be read against different orders.
- Both clock reads of a summary (its period and its daily figures) are one, and no link is deleted between its queries; `GetSummary` reads one snapshot, `SummaryAcrossReads` lets batches commit in between. The two reads of login and refresh are separate.
- Refresh-token transactions are serial; concurrent exchanges of one token are not part of the model.
- `revoke_all_for_user`, the analytics snapshots, the database connection pool and users' deletion: no service calls them.
- `AnalyticsCache` is two objects, the queue in `Processor` and the summaries in `Analytics`; summary invalidation has no caller and is left out.
- Processor.AnalyticsProcessor.Run: a worker cancelled between the pop and the commit is the `LoseBatch` step of `Pipeline`, not an outcome of this method, which runs for a given number of rounds.
- Redis itself does not fail, and each method of the URL cache is one step: the INCR and the two EXPIREs of track_click are not interleaved with an invalidation or a warm-up.
- Services.URLService.Create: commits in the same step as it writes the cache; the gap between the two is the subject of `Interleaving` and `EndToEnd`.
- Services.URLService.Update: the request schema's bound on titles is taken as met, and expiry times carry a time zone.
- Interleaving.Reachable: a redirect may read the table for a warm-up at any time, not only after a miss, and the time it checks expiry against is arbitrary; both only add runs.
