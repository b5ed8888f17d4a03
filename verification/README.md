# wafportal, verified model

A Dafny model of the parts of wafportal whose correctness only shows over whole
runs, with proofs about every run. `dafny verify dfyconfig.toml` checks it.

- **Rate limiter** (`TokenBucket`, `RateLimiter`, `LimiterRuns`, `Eviction`,
  `FloodBound`, `SplitLimiter`, `SplitExact`, `SplitFlood`). The class keeps the
  source's heap shape: a map to client objects, each owning a bucket. A client
  evicted by the sweep restarts with a full bucket, so eviction is a forgetful
  cache over "one bucket per client for ever". It is unobservable in every run
  exactly when `burst <= 0` or `rps * ttl >= burst`. `SplitLimiter` takes `Allow` and the sweep apart into
  their separate critical sections and lets any number of callers interleave;
  if callers may stall for up to D between the halves of `Allow`, eviction is
  unobservable exactly when `burst <= 0`, or `D <= ttl` and
  `rps * (ttl - D) >= burst`.
- **Control plane** (`Store`, `WafManager`, `Proxy`, `Api`, `ControlRuns`,
  `Requests`, `ReloadRace`). Engines and routing tables are a cache of the store,
  rebuilt in stages that can fail part-way. What each request does to the rows and
  to what clients are served, serial runs with and without failing store accesses,
  and concurrent reloads at the granularity of one engine lookup.
- **Sessions and the admin account** (`Bytes`, `Base64Url`, `Hex`, `Decimal`,
  `Session`, `Account`, `AuthRuns`). The token codec over bytes, and the secret,
  the username and the password across restarts on one settings table.
- **Events** (`EventSink`, `EventSummary`). The lossy queue between request
  handlers and the storing worker, and the one-pass summary of a transaction.

What is outside the source is a parameter. `rate.Limiter` is an ideal token
bucket over exact reals (it starts full, a denial leaves it unchanged); float and
nanosecond rounding are idealised. Clock readings, random draws, and whether a
draw or a store access fails, are inputs of the operation that makes them. Rule
compilation is an arbitrary predicate on the whole configuration text; URL parsing,
lower-casing, certificate loading, trimming, HMAC and bcrypt are arbitrary
functions. Where a result needs more it says so: `TagsCopied` and `NoCollisions`
(in the run at hand, nobody presents a payload with its right tag unless the server
has put that tag on a token, and no presented payload collides with an issued one)
for forged cookies, `IdealHash` (a hash matches the password it was made from and
no other, and passwords over 72 bytes are refused) for logins, `ClosedUnderRemoval`
for deletions.

Where code and comments differ the model follows the code:

- A comment says idle buckets go after about three cleanup intervals
  (internal/ratelimit/ratelimit.go:30-32). With one tick per ttl the bound is two
  (`LimiterRuns.Retention` with `gap == ttl`).
- The product promises that a rule that fails to compile is rejected so that the
  live firewall is never broken. The live part holds in every run
  (`ControlRuns.LiveIsLastGood`). The store keeps a rejected *update*, though
  (`ControlRuns.RejectedUpdateStays`), and from then on further changes do not
  reach the live data plane until the stored rules compile again.
  `ControlRuns.UpdateCanBreakStoredRules` gets there with any compiler that takes
  one directive and refuses another; `ControlRuns.RulesCompileIff` says that the
  stored rules compile all along a run exactly when no update writes a list that
  does not compile.
- Two reloads can overtake each other, and then the older list of directives may
  stay in force (`ReloadRace.OlderReloadCanWin`). `ReloadRace.EnginesCurrentIff`
  says exactly when the engines are those of the stored rules, and
  `ReloadRace.LiveIsCurrent` when engines and routes are both current.
- A start that fails to read the stored user name carries on and overwrites it
  with `admin` (internal/auth/auth.go:58-65); the history in
  `AuthRuns.LoginFollowsHistory` takes that into account.
- The UNIQUE constraint on domains is case-sensitive and routing is not. When
  domains differ only in case, TLS flags of a shadowed site stay behind
  (`Proxy.ShadowedSiteLeavesFlag`); `Proxy.FlagsMatchIff` says exactly when the
  flags are those of the site served.

## Model

| member | source | states |
|---|---|---|
| `RateLimiter.BucketObject.Allow` | internal/ratelimit/ratelimit.go:55 | one request against one bucket: new level, and admitted iff a whole token was there |
| `RateLimiter.Limiter.LockedLookup` | internal/ratelimit/ratelimit.go:46-54 | finds or creates the key's client with a full bucket, stamps it, touches no other entry, hands out the bucket the map holds |
| `RateLimiter.Limiter.Allow` | internal/ratelimit/ratelimit.go:45-56 | the whole map and the answer after one request, as a function of the map before |
| `RateLimiter.Limiter.CleanupTick` | internal/ratelimit/ratelimit.go:62-69 | deleting while walking the map leaves exactly the entries with `lastSeen >= cutoff`, unchanged |
| `TokenBucket.IdleRefills` | internal/ratelimit/ratelimit.go:55-66 | a bucket idle for a time that refills it is full |
| `LimiterRuns.ClientsIsolated` | internal/ratelimit/ratelimit.go:45-71 | a key's answers in any run equal those in the run with all other keys' requests erased |
| `LimiterRuns.Retention` | internal/ratelimit/ratelimit.go:58-70 | if a tick happened within `gap`, every entry was asked for within `ttl + gap` |
| `LimiterRuns.MapSizeBounded` | internal/ratelimit/ratelimit.go:14-15 | the map never holds more entries than there were requests in that span |
| `Eviction.EvictionUnobservable` | internal/ratelimit/ratelimit.go:45-71 | if ttl refills a bucket, every run of requests and ticks gives the answers of a limiter that never evicts |
| `Eviction.EvictionUnobservableIff` | internal/ratelimit/ratelimit.go:45-71 | the answers agree in all runs if and only if `burst <= 0` or `rps * ttl >= burst` |
| `Eviction.PauseRunAdmitted` | internal/ratelimit/ratelimit.go:62-66 | after any pause longer than ttl a spent client gets a second whole burst |
| `Eviction.PauseRunDenied` | internal/ratelimit/ratelimit.go:45-56 | the limiter that never evicts denies part of that second burst when the pause does not refill it |
| `Eviction.DefaultsUnobservable` | internal/config/config.go:70-75 | with the shipped settings eviction is unobservable |
| `FloodBound.AdmittedByTokens` | internal/ratelimit/ratelimit.go:45-71 | token conservation: admitted requests are at most tokens found, plus tokens refilled, plus one bonus per eviction |
| `FloodBound.EvictionsSpaced` | internal/ratelimit/ratelimit.go:52-66 | evictions of one key use up a whole ttl each |
| `FloodBound.FloodBounded` | internal/ratelimit/ratelimit.go:45-71 | in every window of length T of every run a key gets at most `burst + rps*T + floor(T/ttl) * max(0, burst - rps*ttl)` requests through |
| `FloodBound.FloodBoundedByRate` | internal/ratelimit/ratelimit.go:45-71 | with `rps * ttl >= burst` that is `burst` plus the refill over the window, `rps * T` |
| `SplitLimiter.PendingNeverEvicted` | internal/ratelimit/ratelimit.go:46-69 | if nobody stalls longer than ttl between the halves of Allow, no run from the start evicts a bucket with a pending take |
| `SplitLimiter.SplitEvictionUnobservable` | internal/ratelimit/ratelimit.go:46-69 | under that condition on rps, ttl, burst and the longest stall, every interleaving gives the answers of a limiter that never evicts |
| `SplitExact.SplitEvictionUnobservableIff` | internal/ratelimit/ratelimit.go:46-69 | with stalls of up to D, all interleavings give the answers of a limiter that never evicts if and only if `burst <= 0`, or D <= ttl and `rps * (ttl - D) >= burst` |
| `SplitExact.StalledCallerEscapes` | internal/ratelimit/ratelimit.go:53-55 | once a caller may stall longer than ttl, a whole burst and one request more get through in one instant, for any settings |
| `SplitExact.LateTakesEscape` | internal/ratelimit/ratelimit.go:52-66 | a burst of callers that take their tokens late, within ttl, is followed by a second whole burst before the first is refilled |
| `SplitExact.DefaultStall` | internal/config/config.go:70-75 | with the shipped settings the condition is D <= 598 seconds |
| `SplitExact.PendingKeptIff` | internal/ratelimit/ratelimit.go:46-69 | no run evicts a bucket with a pending take if and only if nobody may stall longer than ttl |
| `SplitFlood.AdmittedByTokens` | internal/ratelimit/ratelimit.go:46-69 | token conservation under interleaving: admitted requests are at most tokens found, plus refilled, plus one stall-dependent bonus per eviction |
| `SplitFlood.SplitFloodBounded` | internal/ratelimit/ratelimit.go:46-69 | in every window of length T of every interleaving with stalls of up to D <= ttl: at most `burst + rps*T + floor((T + D)/ttl) * max(0, burst - rps*(ttl - D))`, with no other assumption |
| `SplitFlood.SplitFloodBoundedByRate` | internal/ratelimit/ratelimit.go:46-69 | when a bucket refills despite the stall that is `burst` plus the refill over the window |
| `SplitLimiter.StepPreserves` | internal/ratelimit/ratelimit.go:46-69 | each half of Allow and of the sweep keeps one bucket per key, none of them evicted while a take is pending |
| `SplitLimiter.LookedUpSurvivesSweep` | internal/ratelimit/ratelimit.go:62-68 | a key looked up after the sweep read the clock survives that sweep, however long it waits for the lock |
| `Store.DeleteUndoesInsert` | internal/store/store.go:207-229 | deleting the row just inserted restores the rules table, as its id is fresh |
| `Store.EnabledDirectivesMean` | internal/store/store.go:181-198 | the list holds the directive of every enabled row and of no other, once each, in id order |
| `Store.ByDomainSorts` | internal/store/store.go:114-129 | sites are listed in domain order, each row once |
| `Store.Database.CreateRule` | internal/store/store.go:207-217 | appends a row under the next id, or fails and changes nothing |
| `Store.UpdateRuleMeans` | internal/store/store.go:219-224 | the new row takes the place of the row with its id, if there is one; every other row stays, in order |
| `Store.UpdateRuleUndone` | internal/store/store.go:219-224 | updating a row back to what it was restores the table |
| `Store.DeleteRuleMeans` | internal/store/store.go:226-229 | takes out the row with the id and no other, order kept |
| `Store.Database.EnabledRuleDirectives` | internal/store/store.go:183-198 | the directives of the enabled rules in id order |
| `Store.Database.CreateSite` | internal/store/store.go:138-148 | appends a row under the next id; a taken domain is refused and uses up no id |
| `Store.InsertConflictsIff` | internal/store/store.go:138-148 | an insert is refused iff its row would repeat a domain |
| `Store.UpdateConflictsIff` | internal/store/store.go:150-155 | an update is refused iff the table after it would repeat a domain |
| `Store.DeleteSiteMeans` | internal/store/store.go:157-160 | takes out the site with the id and no other; order and distinct domains kept |
| `WafManager.Manager.Build` | internal/waf/manager.go:62-76 | compiles base rules, custom text unless blank, and the engine setting last |
| `WafManager.TextHolds` | internal/waf/manager.go:42-69 | unless all are blank, the compiled text is the base rules, the lines of all directives, and the engine setting last |
| `WafManager.LinesHold` | internal/waf/manager.go:42 | each directive starts and ends a line of its own, in list order |
| `WafManager.TextWithoutRules` | internal/waf/manager.go:63-69 | with nothing but blank directives it is the base rules and the setting |
| `WafManager.Manager.Reload` | internal/waf/manager.go:41-60 | installs the on/detection pair of one directive list if both compile, otherwise changes nothing |
| `Proxy.Router.Reload` | internal/proxy/proxy.go:60-98 | the pass over the sites fills all three tables and swaps them as a whole |
| `Proxy.HostServed` | internal/proxy/proxy.go:114-122 | a host is served iff some routable site has its lower-cased name, with or without a port, and by the last such site |
| `Proxy.LastSiteServes` | internal/proxy/proxy.go:65-79 | a key is routed iff some enabled site with a valid upstream has it, and to the handler of the last such site |
| `Proxy.FlagsCollect` | internal/proxy/proxy.go:81-90 | exactly which keys carry an automatic or manual TLS flag |
| `Proxy.CertificatesLoaded` | internal/proxy/proxy.go:84-89 | a key has a certificate iff a manual site for it loads one from its certificate file and key file, and then that of the last such site |
| `Proxy.FlagsHaveHandlers` | internal/proxy/proxy.go:60-98 | no TLS flag without a handler |
| `Proxy.FlagsMatchSiteServed` | internal/proxy/proxy.go:79-90 | with distinct lower-cased domains the flags are those of the site served |
| `Proxy.FlagsMatchIff` | internal/proxy/proxy.go:79-90 | in general they are, iff no shadowed site has a flag the served one lacks |
| `Proxy.ShadowedSiteLeavesFlag` | internal/proxy/proxy.go:79-83 | two domains that differ in case: served as plain HTTP, flagged as TLS |
| `Proxy.GreatestDomainServes` | internal/store/store.go:114-115 | among sites with one key the one with the greatest domain serves |
| `Proxy.RedirectsAreServed` | internal/proxy/proxy.go:127-139 | on one snapshot a redirect to HTTPS leads to a routed site, and so does an allowed certificate order |
| `Proxy.RedirectIff` | internal/proxy/proxy.go:160-181 | a plaintext request is redirected iff some site that can serve its host is automatic or manual with a loadable pair; certificates are ordered iff one is automatic |
| `Proxy.ServedSiteRedirects` | internal/proxy/proxy.go:169-181 | a host whose serving site has TLS is redirected |
| `Api.ValidationAccepts` | internal/api/api.go:303-328 | exactly which sites validation accepts |
| `Api.ValidationFills` | internal/api/api.go:310-326 | it only fills in missing modes, with `on` and `auto`, and is idempotent |
| `Api.Server.Reload` | cmd/wafportal/main.go:55-69 | the staged refresh: what is live after success and after a stop at each stage |
| `Api.Server.CreateSite` | internal/api/api.go:138-153 | store, engines, routes and status after the request |
| `Api.Server.UpdateSite` | internal/api/api.go:155-171 | store, engines, routes and status after the request |
| `Api.Server.DeleteSite` | internal/api/api.go:173-180 | store, engines, routes and status after the request |
| `Api.Server.CreateRule` | internal/api/api.go:202-223 | the same, with the rollback of a rule whose reload failed |
| `Api.Server.UpdateRule` | internal/api/api.go:225-244 | the same, without a rollback |
| `Api.Server.DeleteRule` | internal/api/api.go:246-253 | store, engines, routes and status after the request |
| `Requests.SiteCreated` | internal/api/api.go:138-153 | which creations succeed; then there is one new last row, as posted with default modes, under an id above all earlier ones, and no other changes |
| `Requests.SiteUpdated` | internal/api/api.go:155-171 | which updates succeed; then the row with the id of the path is the posted one, in its place, and no other changes |
| `Requests.SiteDeleted` | internal/api/api.go:173-180 | after a deletion no row has the id, every other row stays in order, and the status tells a failed write |
| `Requests.RuleCreated` | internal/api/api.go:202-223 | the row, the status and the rollback for every outcome of the refresh |
| `Requests.RuleUpdated` | internal/api/api.go:225-244 | the row is replaced whatever the refresh does; the status tells whether it completed |
| `Requests.RuleDeleted` | internal/api/api.go:246-253 | after a deletion no rule has the id and every other stays in order |
| `Requests.RefreshStages` | cmd/wafportal/main.go:55-69 | what a refresh that stops at each stage has changed, down to the source and setting of both engines |
| `Requests.WinnerServes` | internal/proxy/proxy.go:65-90 | once the live part is that of the tables, a site with the greatest domain for its host answers for it in its stored mode, and redirects if it has TLS |
| `Requests.CreatedSiteServed` | internal/api/api.go:138-153 | after a completed refresh a created site is answered for in the mode that was posted |
| `Requests.UpdatedSiteServed` | internal/api/api.go:155-171 | so is an updated one |
| `Requests.DeletedSiteUnserved` | internal/api/api.go:173-180 | a host that only the deleted site could serve has no handler |
| `ControlRuns.RejectedRuleIsNoOp` | internal/api/api.go:215-220 | a rejected creation leaves rules, sites, engines and routes as they were and only uses up an id |
| `ControlRuns.RejectedUpdateStays` | internal/api/api.go:235-242 | a rejected update leaves the live part alone but stays in the store, unless it named no row or changed nothing |
| `ControlRuns.SitesStaySound` | internal/api/api.go:138-180 | in every run, whatever fails, site ids and domains stay distinct |
| `ControlRuns.LiveRefinesStore` | internal/api/api.go:138-253 | every request keeps: if the stored rules compile, engines and routes are the function of the tables that a reload computes |
| `ControlRuns.LiveRefinesStoreFromStartup` | cmd/wafportal/main.go:55-72 | so after every fault-free serial run from a successful startup |
| `ControlRuns.RequestKeepsUpToDate` | internal/api/api.go:138-253 | one request keeps that, and leaves the live part unchanged when the tables do not compile |
| `ControlRuns.LiveIsLastGood` | internal/waf/manager.go:38-40 | in every fault-free run the live part is the one of the last tables that compiled |
| `ControlRuns.UpdateCanBreakStoredRules` | internal/api/api.go:235-242 | for every compiler that takes one directive and refuses another, an update after which the stored rules no longer compile |
| `ControlRuns.RequestKeepsCompilingIff` | internal/api/api.go:202-253 | after one request the stored rules compile iff it is not an update that writes a list that does not compile, if leaving out a directive never harms |
| `ControlRuns.RulesCompileIff` | internal/api/api.go:202-253 | in a fault-free run they compile all along iff no update does that |
| `ControlRuns.StoredRulesKeepCompiling` | internal/api/api.go:215-219 | then the live part is the function of the tables after every run |
| `ControlRuns.RoutesOfLastComplete` | cmd/wafportal/main.go:55-72 | whatever store accesses fail, the routes are those of the last completed refresh, when engines and routes were the function of the tables |
| `ControlRuns.SerialRunsProtect` | cmd/wafportal/main.go:55-72 | so they serve exactly the routable sites stored at that moment, each on or detection site behind an engine of its mode, all engines of one generation |
| `ReloadRace.EnginesHaveProvenance` | internal/waf/manager.go:53-58 | under concurrent reloads the manager holds the pair of the list the store had enabled when the installing reload read it |
| `ReloadRace.HandlersHaveProvenance` | internal/proxy/proxy.go:76-77 | every engine in the live routes was installed at some moment after their sites were read, and comes from such a list |
| `ReloadRace.InspectionNeverLost` | internal/proxy/proxy.go:75-79 | for every interleaving the live routes serve exactly the routable sites stored when the publishing reload read them, each on or detection site behind an engine of its mode, only off sites bare |
| `ReloadRace.LiveRedirectsAreServed` | internal/proxy/proxy.go:127-139 | in every reachable configuration a redirect to HTTPS leads to a routed site, and so does an allowed certificate order |
| `ReloadRace.StepKeepsInvariant` | cmd/wafportal/main.go:55-69 | each step of any reload or request keeps what ties engines, routes and reloads under way to the moments at which they read the store |
| `ReloadRace.OlderReloadCanWin` | cmd/wafportal/main.go:55-69 | concurrent reloads can all succeed and still leave engines older than the store |
| `ReloadRace.EnginesCurrentIff` | cmd/wafportal/main.go:56-62 | the engines are those of the stored rules iff the rules the last installing reload had read enable the same list |
| `ReloadRace.RoutesBuiltInOne` | cmd/wafportal/main.go:63-68 | with no installation since their sites were read, the routes are what one undisturbed reload gives |
| `ReloadRace.LiveIsCurrent` | cmd/wafportal/main.go:55-69 | engines and routes are those of the current tables once both were read after the last store change, the sites after the last installation, whatever else is under way |
| `ReloadRace.AloneIsSerial` | cmd/wafportal/main.go:55-69 | the interleaved steps of a request that nobody disturbs do what the serial handler does |
| `ReloadRace.AloneRollsBack` | internal/api/api.go:215-220 | so do those of a created rule that does not compile |
| `Bytes.CutAtFirst` | internal/auth/auth.go:164 | cutting at the first separator recovers both parts |
| `Base64Url.DecodeInvertsEncode` | internal/auth/auth.go:134 | unpadded base64url (section 5 of RFC 4648): decode after encode is the identity on all byte sequences; safe alphabet, no dot; output length |
| `Base64Url.LettersAreAlphabet` | internal/auth/auth.go:134 | the letters are those of table 2 of RFC 4648, in its order |
| `Base64Url.GroupsKeepBits` | internal/auth/auth.go:134 | three bytes and four letters are the same number, high bits first; left-over bytes are padded with zeros |
| `Hex.DecodeInvertsEncode` | internal/auth/auth.go:205-225 | hex (section 8 of RFC 4648): decode after encode is the identity |
| `Hex.EncodesEachByte` | internal/auth/auth.go:205-209 | each byte becomes two digits, the high one first |
| `Decimal.ParseInvertsFormat` | internal/auth/auth.go:133 | 64-bit decimals read back as printed |
| `Decimal.BaseTen` | internal/auth/auth.go:133 | digits are to base ten, the last one last, with a minus sign for negative numbers |
| `Session.ReadInvertsPayload` | internal/auth/auth.go:176-184 | a payload reads back as its name iff the name has no bar and the time has not passed |
| `Session.TokenRoundTrip` | internal/auth/auth.go:131-185 | the token issued to a name at t verifies at n iff the name has no bar and n <= t + 604800, and gives that very name |
| `Session.TokenCarries` | internal/auth/auth.go:131-134 | name, bar and expiry in base64url before the dot, the keyed hash of that text in hex after it |
| `Session.TokenIsCookieValue` | internal/auth/auth.go:134-138 | every byte of a token is a cookie-octet of section 4.1.1 of RFC 6265 |
| `Account.Authenticator.LoadSecret` | internal/auth/auth.go:211-225 | the stored secret if there is one, else a new one that is stored |
| `Account.Authenticator.New` | internal/auth/auth.go:49-92 | settings table and authenticator after a start, on every path |
| `Account.Authenticator.StorePassword` | internal/auth/auth.go:122-128 | stores the hash, or fails and changes nothing |
| `Account.Authenticator.CheckLogin` | internal/auth/auth.go:100-109 | the stored name and a matching password, both; what a failing read does to the answer |
| `Account.Authenticator.Change` | internal/auth/auth.go:112-120 | table and error after a change request, on every path |
| `AuthRuns.SecretSurvivesRestarts` | internal/auth/auth.go:52-56 | processes running at any two moments of a run sign with the same secret |
| `AuthRuns.FirstSecretIsDrawn` | internal/auth/auth.go:211-225 | without a stored secret a start stores and uses the 32 bytes it drew, and later starts read them back |
| `AuthRuns.SecretIsDrawn` | internal/auth/auth.go:52-56 | in every run a process signs with the 32 bytes drawn by the start that first stored a secret |
| `AuthRuns.SessionsSurviveRestarts` | internal/auth/auth.go:159-185 | a token presented later, any restarts and password changes in between, is accepted iff its name has no bar and its week is not over |
| `AuthRuns.OnlyIssuedAccepted` | internal/auth/auth.go:164-175 | if tags are neither forged nor made to collide in the run, every accepted cookie was issued earlier in it, to that name, within the week |
| `AuthRuns.LoginFollowsHistory` | internal/auth/auth.go:49-128 | after any run on a fresh database, whatever fails in it, a login succeeds exactly for the name and password that folding the history gives |
| `AuthRuns.ChangeAnswers` | internal/auth/auth.go:112-128 | at any moment of any run: exactly when a change answers with which error, what it stores without one, and that it stores nothing with one |
| `AuthRuns.HistoryAgrees` | internal/auth/auth.go:49-128 | the same step by step from any table that agrees with what is known, the name and the running process included |
| `AuthRuns.GeneratedPasswordWorks` | internal/auth/auth.go:80-88 | a password is generated exactly when none was given and none stored, and it logs in |
| `AuthRuns.StartStoresHash` | internal/auth/auth.go:73-89 | whose hash is stored after a start, and under which salt |
| `EventSink.Buffer.Submit` | cmd/wafportal/main.go:211-217 | queues at the end, or drops when the buffer is full |
| `EventSink.Buffer.Take` | cmd/wafportal/main.go:219-220 | the worker takes the oldest event |
| `EventSink.Buffer.InsertEvent` | cmd/wafportal/main.go:221-223 | a row is added iff the insert succeeds; the worker goes on either way |
| `EventSink.EventsConserved` | cmd/wafportal/main.go:200-225 | at every moment of every interleaving: submitted = dropped + queued + in hand + stored + failed, and the queue is within capacity |
| `EventSink.StoredInOrder` | cmd/wafportal/main.go:219-225 | stored events are a subsequence of the submitted ones |
| `EventSink.DroppedOnlyWhenFull` | cmd/wafportal/main.go:211-217 | an event is itself dropped when the queue, the accepted events not yet received, is at capacity, and otherwise queued behind the rest |
| `EventSummary.BuildEvent` | internal/waf/middleware.go:115-176 | the one-pass loop computes the declarative summary, for all severities |
| `EventSummary.DetectionIdsMean` | internal/waf/middleware.go:133-139 | the reported ids are those of the rules with a severity and an id, once each, in order |
| `EventSummary.SummaryUnique` | internal/waf/middleware.go:115-176 | the declarative summary determines the event |

## Left out

- Rule sets and the compiler behind them, HMAC, bcrypt, random generation: parameters, as described above.
- FloodBound.FloodBounded: treats each request and each tick as one instant; with the critical sections taken apart `SplitFlood.SplitFloodBounded` takes its place.
- SplitFlood.SplitFloodBounded: nothing is claimed for stalls longer than ttl, where every forgotten bucket still held by a caller adds to the flood.
- EventSink.EventsConserved: the hand-over between a waiting worker and an unbuffered channel is not modelled; the program only makes a buffer of 4096.
- Api.ValidationFills: validation returns the filled-in site instead of writing it in place.
- Session.TokenRoundTrip: expiry times beyond 64 bits are not modelled.
- Logout and password change do not revoke sessions: cookies are stateless, so nothing is claimed.
- ReloadRace.LiveIsCurrent: a sufficient condition for the routes; they can also be current by coincidence, when an older list of sites gives the same tables. For the engines the condition is exact (`ReloadRace.EnginesCurrentIff`).
- Creation and update times of rows, SQL text, migrations, pagination, listing and statistics.
- HTTP plumbing: servers, timeouts, shutdown, request bodies, status codes written to clients by the data plane, TLS handshakes, certificate orders, the reverse proxy itself.
- The choice of the client key from a forwarded header, and configuration loading.
- The user interface and the installer.
