# template-go-api, modelled and proved

A Dafny model of the three stateful parts of `template-go-api`, with proofs of what they promise
over every input, every run and every interleaving:

- the **authorization engine** (`internal/authz`, the todo slice and the API-key authenticator): a
  request-scoped getter that routes, memoizes and swallows load errors, and the deny-by-default
  middleware around it;
- **keyset pagination** over a store that other clients keep changing (`internal/todo`, both
  repositories, the opaque cursor);
- the **per-key token-bucket limiter** with idle eviction (`internal/ratelimit`).

`dafny verify dfyconfig.toml` checks the whole project.

## How the model reads

- The objects the source updates in place are classes (`RateLimiter.InMemory`, `EntityGetter.Getter`,
  `MemoryRepository.Repository`, `PostgresRepository.Repository`, `TodoService.Service`, `Router.Api`).
  `TodoDeployment.Deployment` puts the service in the hands of concurrent clients.
  Each method is proved against a function of the old state; the theorems are about those functions.
- Clocks, id generators, database reachability, the API-key table and the slices' backends are
  parameters. A backend's reply may depend on how many loads came before, so a store may change or
  fail between any two loads of one request.
- The policy engine is an arbitrary adaptive query tree (`Query.Query`), so the theorems about the
  getter and the middleware hold for every policy set; `Cedar` adds a small concrete evaluator for the
  two shipped policy files, and `Ancestry` says what its search for parents computes.
- Interleavings are state machines over atomic steps: `TodoHistory` for the clients of the todo
  service, `LimiterInterleaving` for Allow's lookup and reservation against evictIdle's two steps. Every
  call of the service over PostgreSQL is a step of the first (`TodoDeployment`).
- Limiter times are real seconds since Go's zero time and never go back. `golang.org/x/time/rate` is not
  part of the repository; its contract is written as an ideal real-valued bucket, and the Reserve, Delay
  and Cancel of one Allow call happen at one instant. `RateLimiter.AllowStep` also merges the clock
  readings of the lookup and of the reservation; `LimiterInterleaving` and the three `Interleaved` modules
  keep them apart.
- Todo and cursor times are integer nanoseconds since 0000-01-01T00:00:00Z; the PostgreSQL adapter keeps
  microseconds, as timestamptz does. Strings are sequences of code points.

## Where the code does less than its comments say

- **Evicting an idle bucket can forget debt.** memory.go presents eviction as memory hygiene. It is
  invisible to clients if and only if `rps * ttl >= burst` (`LimiterExactness.TransparencyIsExact`), and
  the same condition decides whether a denied call is free (`LimiterRetry.DeniedCallsAreFreeExactly`).
  Configuration validation does not check it; the defaults (10 per second, 20, ten minutes) satisfy it.
  A request that reserves up to `slack` after its lookup makes that `rps * (ttl - slack) >= burst`
  (`InterleavedTransparency.InterleavedTransparencyIsExact`).
- **Retry-After can be longer than needed.** No earlier call is allowed if and only if `rps * ttl >= 1`
  (`LimiterRetry.RetryAfterIsTightExactly`); with a slower refill the bucket is forgotten, and full
  again, before the advertised wait is over. With that slack it is `rps * (ttl - slack) >= 1`
  (`InterleavedRetry.InterleavedRetryIsTightExactly`).
- **A cursor does not always marshal, or come back.** cursor.go:30-31 calls the error unreachable. A year
  past 9999 gives the empty token, which reads as the first page (`TodoHttp.LateYearsHaveNoToken`), and a
  zone offset with seconds comes back as another instant (`Timestamps.ReadPrinted`), after which a client may
  be sent the same page for ever (`TodoHttp.EarlierTokenNeverStops`). A walk by tokens is complete if and
  only if every token but the last comes back as a position with the same todos after it
  (`TodoHttp.TokenWalkExactly`).
- **Overlapping Complete calls rewrite the completion time**, although Todo.Complete preserves it. A client
  that found the todo open replaces the time another has stored since
  (`TodoHistory.OverlappingCompletesOverwrite`), and one that found it completed puts an older time back
  (`TodoHistory.StaleCompletedCopyOverwrites`). A run keeps every completed todo as it was if and only if
  none of its saves writes a copy that is no longer the stored one with another instant
  (`TodoHistory.CompletionsKeptExactly`); calls that do not overlap never do, failed and retried ones
  included (`TodoHistory.FirstCompletionWins`).
- **The in-memory fake is not always the adapter.** Both promise one page contract, but outside the limits
  1 to 2^31 - 2, and for positions the adapter rounds, they can differ
  (`TodoService.RoundedPositionRepeats`); `TodoService.ListBoth` says exactly when.
- **A title with U+0000 is valid and cannot be stored**: NewTodo accepts it and a PostgreSQL text column
  does not, so Create fails (`TodoService.NulTitleCannotBeStored`, `TodoService.Service.Create`).
- **A reservation can act on an evicted bucket** if and only if a request may wait longer than the idle
  TTL between its lookup and its reservation (`LimiterInterleaving.ReservationsStayAttachedExactly`).

## Model

| member | source | states |
|---|---|---|
| `TokenBucket.TakeMeaning` | internal/ratelimit/memory.go:64-87 | a call is allowed iff a whole token is there, a denied one reports the exact time to the next token and leaves the level as found |
| `TokenBucket.NoBurstTakes` | internal/ratelimit/memory.go:72-76 | without a burst every call is denied with no wait to report, and the bucket is untouched |
| `RateLimiter.InMemory.constructor` | internal/ratelimit/memory.go:43-62 | the idle TTL is floored at a minute and the map starts empty |
| `RateLimiter.InMemory.Allow` | internal/ratelimit/memory.go:68-87 | with lookup and reservation at one instant, lookup, reserve and cancel are one step of the limiter specification, for every burst including none |
| `RateLimiter.InMemory.FindBucket` | internal/ratelimit/memory.go:91-103 | the key has its bucket, full when new, and was seen now |
| `RateLimiter.InMemory.EvictIdle` | internal/ratelimit/memory.go:135-146 | exactly the entries idle for more than the TTL are gone, whatever the iteration order |
| `RateLimiter.InMemory.Stop` | internal/ratelimit/memory.go:105-117 | once stopped it stays stopped, a second call changes nothing, and the buckets are left alone |
| `RateLimiter.InMemory.JanitorTurn` | internal/ratelimit/memory.go:119-132 | the janitor exits iff it has been stopped and no tick was taken first; exiting evicts nothing, any other turn evicts exactly the idle entries |
| `LimiterBounds.AfterStop` | internal/ratelimit/memory.go:105-107 | once the janitor is gone Allow still works and no key leaves the map: each is decided by the bucket it has, or a full one on first use, for every rate, burst and TTL |
| `RateLimiter.Transparency` | internal/ratelimit/memory.go:15-26 | if an idle TTL refills the bucket, every run gives each key the decisions of one private never-evicted bucket that starts full |
| `LimiterExactness.TransparencyIsExact` | internal/ratelimit/memory.go:135-146 | that holds of every run if and only if rps * ttl >= burst |
| `LimiterBounds.RateBound` | internal/ratelimit/memory.go:43-46 | in every run and window of length T a key is allowed at most burst + T * max(rps, burst / ttl), which is burst + rps * T when an idle TTL refills the bucket |
| `LimiterBounds.NoBurstDeniesAll` | internal/ratelimit/memory.go:72-76 | a non-positive burst never allows anything |
| `LimiterBounds.ReachableSound` | internal/ratelimit/memory.go:68-103 | in every reachable state every bucket holds between zero and burst tokens and was last used when its key was last seen |
| `LimiterBounds.RetryAfterSuffices` | internal/ratelimit/middleware.go:102-107 | a denied client that waits the advertised whole seconds, always at least one, is allowed, whatever other keys and the janitor do meanwhile |
| `LimiterBounds.EvictionBoundsMap` | internal/ratelimit/memory.go:119-146 | with a tick at least every TTL no key stays in the map two TTLs after it was last seen |
| `LimiterRetry.RetryAfterIsTightExactly` | internal/ratelimit/memory.go:78-84 | no call before the reported RetryAfter has passed is allowed, in every run, if and only if there is no burst or rps * ttl >= 1 |
| `LimiterRetry.DeniedCallsAreFreeExactly` | internal/ratelimit/memory.go:78-84 | deleting a denied call changes no later decision for its key, in every run, if and only if rps * ttl >= burst |
| `LimiterRetry.Limit` | internal/ratelimit/middleware.go:77-111 | fails open without a key or a limiter, otherwise 429 exactly on a denial, with Retry-After rounded up to the next whole second when there is a wait |
| `LimiterInterleaving.ReservationsStayAttachedExactly` | internal/ratelimit/memory.go:68-103 | over all interleavings of lookups, reservations, cutoff reads and sweeps, every reservation acts on the bucket the map holds, if and only if requests reserve within one TTL of their lookup |
| `LimiterInterleaving.OversleepDetaches` | internal/ratelimit/memory.go:135-146 | the interleaving in which a slow request keeps an evicted bucket |
| `InterleavedTransparency.InterleavedTransparent` | internal/ratelimit/memory.go:68-103 | with requests reserving up to slack after their lookup, over all interleavings, every reservation is decided as by a private never-evicted bucket when there is no burst or rps * (ttl - slack) >= burst |
| `InterleavedTransparency.InterleavedTransparencyIsExact` | internal/ratelimit/memory.go:135-146 | for every burst and slack, that holds of every interleaving if and only if there is no burst or rps * (ttl - slack) >= burst |
| `InterleavedBounds.InterleavedRateBound` | internal/ratelimit/memory.go:68-103 | over all interleavings with a slack below the TTL a window of length T allows a key at most burst + T * max(rps, burst / (ttl - slack)), and nothing when there is no burst |
| `InterleavedRetry.InterleavedRetryIsTightExactly` | internal/ratelimit/memory.go:78-84 | over all interleavings every reservation before an earlier denial's RetryAfter has passed is denied, if and only if there is no burst or rps * (ttl - slack) >= 1 |
| `Entities.RoleParents` | internal/authz/principal_resolver.go:81-101 | a uid is a parent iff it is a Role named by a string member of the roles claim |
| `Entities.PrincipalEntityMeaning` | internal/authz/principal_resolver.go:65-78 | the principal entity has the principal's uid, its claims as attributes, and as parents exactly the roles it lists |
| `Ownership.ValidateTypeOwnership` | internal/authz/authz.go:113-149 | succeeds iff every resolver declares a type, nobody claims User or Anonymous, and no type is declared twice anywhere; an error names a real fault of the first contribution that has one |
| `Ownership.ClaimTypes` | internal/authz/authz.go:128-145 | the inner loop claims exactly the contribution's types or reports the first conflict |
| `Routing.IndexResolvers` | internal/authz/getter.go:66-120 | the routing table: slices by declared types, the principal resolver under the principal's own type, chained ahead of a slice that owns it |
| `Routing.RoutingMeaning` | internal/authz/getter.go:54-65 | on well-owned contributions the principal's uid is answered from its claims, any other uid by the one slice declaring its type, everything else by nobody, for every principal type |
| `Routing.RoutingPermutes` | internal/authz/getter.go:89-96 | reordering the contributions keeps them well owned and changes no answer |
| `EntityGetter.Getter.SetErr` | internal/authz/getter.go:172-176 | the first error is kept |
| `EntityGetter.Getter.Resolve` | internal/authz/getter.go:145-153 | a chained resolver answers the principal itself and falls back to the slice for the rest |
| `EntityGetter.Getter.ResolvePrincipal` | internal/authz/principal_resolver.go:68-78 | the principal entity for the bound uid only |
| `EntityGetter.Getter.ResolveSlice` | internal/authz/getter.go:155-176 | a slice load keeps the first failure it reports |
| `EntityGetter.Getter.Get` | internal/authz/getter.go:187-203 | one step of the memo: cached hit or miss, unowned miss, or one load |
| `EntityGetter.Getter.Authorize` | internal/authz/authz.go:211-213 | the evaluation pulls entities one by one through the getter |
| `EntityGetter.GetterIsACache` | internal/authz/getter.go:9-23 | over every sequence of lookups, with stores changing underneath, repeated lookups agree, each uid is loaded at most once, and Err is the first failure of the first load that reported one |
| `EntityGetter.DecisionOnSnapshot` | internal/authz/getter.go:184-203 | whatever the stores do, the decision is the uncached one on a single fixed set of facts, those the getter has shown |
| `EntityGetter.DecisionIsTrueOrError` | internal/authz/getter.go:14-20 | an error is recorded iff some load failed, and without one the decision is the one on a store that never fails |
| `Cedar.ForbidOverridesPermit` | internal/authz/authz.go:208-213 | for every bound on the ancestor search the merged policies allow iff some permit applies and no forbid does |
| `Ancestry.ScopeIsAncestry` | internal/authz/base.cedar:10-14 | `in` finds a target iff a path of parents leads to one, for every bound that covers the reachable entities |
| `Ancestry.BoundedScopeIsSound` | internal/todo/authz/policy.cedar:12-21 | whatever the bound, nothing is found that is not an ancestor |
| `Ancestry.DecisionByAncestry` | internal/authz/authz.go:208-213 | allowed iff principal, action and resource lie within the scopes of some permit and of no forbid, by ancestry |
| `PolicyMerge.PolicyIdInjective` | internal/authz/authz.go:80-90 | no two policies of base and slices share an id |
| `PolicyMerge.PolicyIdExamples` | internal/authz/authz.go:191-205 | an id is the document's name and the policy's place in it |
| `PolicyMerge.MergePolicies` | internal/authz/authz.go:194-206 | one document's policies are added under their ids and nothing else changes |
| `PolicyMerge.MergeAll` | internal/authz/authz.go:74-90 | succeeds iff every document parses, and then every policy is in the set under its own id and nothing else is; otherwise the first document that does not parse is named |
| `PolicyMerge.New` | internal/authz/authz.go:59-98 | succeeds iff ownership is unambiguous and every document parses; the principal resolver is prepended |
| `PolicyMerge.MergedDecision` | internal/authz/authz.go:53-58 | the decision depends neither on the order the merged set is walked in nor on the order of the slices |
| `PolicyMerge.MergedByAncestry` | internal/authz/authz.go:53-58 | the same decision stated by ancestry over the contributed policies, with no bound in the statement of what is allowed |
| `Authorization.Evaluate` | internal/authz/middleware.go:173-204 | the request carries the principal, the action, its resource and the claims; a recorded load failure beats any decision |
| `Authorization.Authorize` | internal/authz/middleware.go:120-156 | undeclared is 403, public proceeds as the caller, required follows the outcome; nothing else than 401, 403 and 500 is ever answered |
| `Authorization.ResourceMeaning` | internal/authz/middleware.go:206-229 | the resource of "<resource>:<verb>" has the resource part, first letter upper-cased, as its type and the bound path parameter as its id |
| `Authorization.FailsClosed` | internal/authz/middleware.go:169-204 | for every evaluator and every store whose loads may fail: the handler runs iff no load failed and the uncached evaluation on the true facts allows; a failed load is always 500, a true denial 401 or 403 |
| `Authorization.TrueFactsMeaning` | internal/authz/getter.go:48-65 | what those true facts are for an engine that New accepted |
| `ApiKeys.BuildPrincipal` | internal/authz/apikey/apikey.go:112-127 | the subject becomes a User whose Role parents are exactly its roles |
| `ApiKeys.Authenticate` | internal/authz/apikey/apikey.go:74-90 | a request that presents no key is anonymous; for the key it presents a failed lookup and an unknown key are different errors, a known key a User with exactly its roles |
| `ApiKeys.CredentialMeaning` | internal/authz/apikey/apikey.go:92-106 | a key is presented iff it is the trimmed X-API-Key or, without one, the trimmed text after "Bearer " in Authorization, and no other text is ever looked up |
| `ApiKeys.PresentedKeyIsRead` | internal/authz/apikey/apikey.go:95-106 | a key presented by either header is the key looked up, and X-API-Key wins |
| `TodoAuthz.EntityMeaning` | internal/todo/authz/facts.go:78-93 | the entity carries exactly the todo's fields under their names; two todos give the same entity iff they agree in id, title, status and, to the millisecond, both times |
| `TodoAuthz.ResolverIsHonest` | internal/todo/authz/facts.go:52-70 | the todo resolver answers with the stored todo's entity whenever it records no failure, and records one exactly when a load failed |
| `TodoAuthz.TodoResource` | internal/authz/middleware.go:217-229 | a todo operation's resource is the type the fact resolver owns, or the instance its path names |
| `TodoAuthz.BuildAuthorizer` | internal/app/app.go:228-234 | building the engine from the embedded base policies and the todo slice succeeds, and every walk of the merged set meets exactly the two shipped policies |
| `TodoAuthz.ShippedDecision` | internal/todo/authz/policy.cedar:12-21 | with both shipped policies, in any order, an action is allowed iff the claims list admin, or list user and the action is one of the four on todos |
| `TodoAuthz.ShippedAuthorize` | internal/authz/base.cedar:10-14 | the decision on any required action is by role alone and loads nothing |
| `TodoAuthz.ShippedEndToEnd` | internal/authz/middleware.go:102-156 | for every header, key table, role list and todo store, on every required action: the handler runs iff the presented key resolves to admin, or to user on a todo action; no, unknown or unverifiable keys are 401, any other resolved key 403; no todo is loaded |
| `Router.Api.Register` | internal/adapter/http/router.go:121-127 | registration snapshots the middleware stack of that moment |
| `Router.NewRouter` | internal/adapter/http/router.go:120-146 | every operation is registered in order under a chain that holds each layer iff its own switch is on, once, limit before authenticate before authorize |
| `Router.GuardedOperations` | internal/adapter/http/router.go:57-70 | with both features on a request is answered 429 iff the limiter denies it, with the wait rounded up and only the limiter touched; any other ends where authentication and authorization put it, and an undeclared operation never runs |
| `Router.LimiterFirst` | internal/adapter/http/router.go:121-136 | whatever else is installed, the limiter decides first and is consulted once |
| `Router.WithoutLimiter` | internal/adapter/http/router.go:134-136 | with the limiter off requests end where authentication and authorization put them, undeclared operations still never run, and the limiter's map is untouched |
| `Router.HandlerRateBound` | internal/ratelimit/middleware.go:74-111 | in every run of requests, with any credentials, policies and operations, the handlers run for one rate-limit key in a window of length T are at most burst + T * max(rps, burst / ttl) |
| `Todos.NewTodoMeaning` | internal/todo/todo.go:57-75 | a title is refused iff its trimmed form is empty or longer than 200, with the error that says which; a new todo is open and carries the trimmed title |
| `Text.TrimSpaceTrims` | internal/todo/todo.go:60 | trimming takes off all white space at both ends and nothing else |
| `Text.SpaceMeaning` | internal/todo/todo.go:60 | what counts as white space, character by character |
| `Todos.CompleteMeaning` | internal/todo/todo.go:77-89 | completing an open todo stamps it with the instant given, keeps everything else and is idempotent |
| `Uuids.ParsePrinted` | internal/todo/postgres/mapping.go:25-55 | parsing a printed uuid gives it back |
| `Uuids.ParseSpellings` | internal/todo/postgres/mapping.go:12-21 | the urn, braced and undashed spellings of a uuid parse to it too |
| `Uuids.ParseExamples` | internal/todo/postgres/mapping.go:12-21 | the urn prefix in either case, braces, and no dashes at all |
| `Uuids.ParseMeaning` | internal/todo/postgres/mapping.go:12-38 | a text parses to a uuid iff it is one of the four spellings of it, in either case |
| `Text.LowerMeaning` | internal/todo/postgres/mapping.go:12-21 | case is that of the 26 ASCII letters |
| `Uuids.TextMeaning` | internal/todo/postgres/mapping.go:40-55 | canonical text is lower-case hex, byte by byte, with dashes after the 8th, 12th, 16th and 20th digit |
| `Uuids.OrderIsomorphism` | internal/todo/todotest/repository.go:86-102 | canonical text sorts exactly as the 16 bytes do |
| `Paging.PageMeaning` | internal/todo/ports.go:13-17 | a page holds, in order, exactly the todos past the position up to its last one, Next is nil iff none follows, and a page that is followed is full |
| `Paging.NextPageResumes` | internal/todo/page.go:25-31 | what a page leaves is exactly what its cursor resumes with |
| `Paging.SamePageExactly` | internal/todo/page.go:25-31 | two positions give the same page iff no stored todo lies between them |
| `Paging.FullWalk` | internal/todo/service.go:94-111 | for every store and every sequence of limits, the pages concatenate to the sorted collection, each todo once |
| `MemoryRepository.Repository.Save` | internal/todo/todotest/repository.go:32-39 | insert or replace |
| `MemoryRepository.Repository.FindByID` | internal/todo/todotest/repository.go:42-52 | the stored todo or not found |
| `MemoryRepository.Repository.List` | internal/todo/todotest/repository.go:57-84 | collect in any order, sort, skip and window give the page of the shared contract, for every limit |
| `MemoryRepository.Skip` | internal/todo/todotest/repository.go:67-74 | the skip loop stops at the first todo past the cursor |
| `PostgresRepository.Repository.Save` | internal/todo/postgres/repository.go:33-43 | refused iff the id is no uuid, the status is unknown, the title holds U+0000 or the database is down; otherwise exactly that todo is inserted or replaced, its times kept to the microsecond they fall in |
| `PostgresRepository.Repository.FindByID` | internal/todo/postgres/repository.go:46-62 | a malformed id is not found, an outage a failure, otherwise the row under that uuid |
| `PostgresRepository.Repository.ListTodos` | internal/todo/postgres/queries/todos.sql:14-27 | seek, order and limit: the first rows past the bound in (created_at, id) order |
| `PostgresRepository.SelectedIsBeyond` | internal/todo/postgres/queries/todos.sql:21-27 | the query's rows, converted, are what the shared contract leaves beyond the cursor |
| `PostgresRepository.Repository.List` | internal/todo/postgres/repository.go:68-108 | for every limit the window of the rows a 32-bit limit + 1 fetches, and for 1 to 2^31 - 2 the page of the shared contract; a cursor id that is no uuid is the caller's fault |
| `PostgresRepository.BoundMeaning` | internal/todo/postgres/repository.go:74-84 | the position sought from is the canonical id at the microsecond the cursor falls in |
| `TodoService.Service.Create` | internal/todo/service.go:70-82 | each refusal with its cause: empty or too long title, or a title, id or database that cannot store it; otherwise the todo returned and the one stored carry the trimmed title, open, now |
| `TodoService.Service.CompleteTodo` | internal/todo/service.go:115-129 | the outcome for every id and every outage: not found, failure with nothing changed, or the open todo completed now; one that already was is left as stored |
| `TodoService.Service.List` | internal/todo/service.go:97-111 | a limit from 1 to 100 is served as asked, a lower one as 20, a higher one as 100; the page is in order of creation time and id, and full when a cursor follows |
| `TodoService.NulTitleCannotBeStored` | internal/todo/todo.go:57-75 | a title NewTodo accepts and the text column refuses |
| `TodoService.RoundedPositionRepeats` | internal/todo/postgres/repository.go:81-83 | a position a nanosecond past a todo, after which the adapter returns that todo again and the fake does not |
| `TodoService.ListBoth` | internal/todo/todotest/repository.go:54-84 | on the same todos the fake and the adapter return identical pages for every position the adapter can hold and every limit from 1 to 2^31 - 2; for all other positions and limits, exactly when they do |
| `TodoHistory.LifecycleSafety` | internal/todo/service.go:69-129 | through every interleaving of Create, two-step Complete, failed or not, and List every todo stays well formed, keeps id, title and creation time, is never deleted and never reopened |
| `TodoHistory.FirstCompletionWins` | internal/todo/service.go:113-129 | when Complete calls on a todo do not overlap, a failed call being over, no step of the run changes a completed todo |
| `TodoHistory.SaveOverwritesExactly` | internal/todo/service.go:115-124 | a save leaves an already completed todo alone iff it writes the instant that is stored: the clock's from an open copy, its own from a completed one, however old |
| `TodoHistory.CompletionsKeptExactly` | internal/todo/todo.go:77-89 | a run keeps every completed todo as it was at every step iff none of its saves writes a stale copy with another instant |
| `TodoHistory.OverlappingCompletesOverwrite` | internal/todo/service.go:115-124 | the run, from an open todo, in which a second overlapping call replaces the first completion time |
| `TodoHistory.StaleCompletedCopyOverwrites` | internal/todo/service.go:115-124 | its continuation in which a third call, which had found the todo completed, puts the older time back |
| `TodoHistory.WalkUnderConcurrency` | internal/todo/postgres/repository.go:64-108 | under every interleaving the positions returned strictly increase, nothing is returned twice, a finished walk has every todo stored when it began, and of those created since it lacks exactly the ones created behind it |
| `TodoDeployment.Deployment.Create` | internal/todo/service.go:70-82 | over PostgreSQL a successful Create is a Create step of the history, under the canonical id and at the microsecond; a failed one changes nothing |
| `TodoDeployment.Deployment.Find` | internal/todo/service.go:115-119 | the first call of Complete is a Find step |
| `TodoDeployment.Deployment.Save` | internal/todo/service.go:121-124 | the second call of Complete is a Save step of the copy found, at the microsecond; it fails only in an outage, writes nothing then, and the call is over |
| `TodoDeployment.Deployment.List` | internal/todo/service.go:97-111 | one page is a List step of the walk |
| `TodoDeployment.Deployment.Promises` | internal/todo/service.go:69-129 | after any calls in any order: no row was deleted, reopened or retitled, completed todos are unchanged if no two calls of Complete on one todo overlapped, and the walk is in order and complete up to what was created behind it |
| `Base64Url.RoundTrip` | internal/todo/httpapi/cursor.go:34-49 | decoding what was encoded gives the bytes back for every length, and only no bytes encode to the empty text |
| `Base64Url.DigitMeaning` | internal/todo/httpapi/cursor.go:34 | the URL-safe alphabet, character by character |
| `Base64Url.GroupValue` | internal/todo/httpapi/cursor.go:34 | four characters carry the 24 bits of three bytes, most significant first |
| `Base64Url.TestVectors` | internal/todo/httpapi/cursor.go:34 | vectors of RFC 4648 |
| `Timestamps.CivilRoundTrip` | internal/todo/httpapi/cursor.go:19-22 | the calendar reading of an instant names that instant |
| `Timestamps.DaysBeforeYearMeaning` | internal/todo/httpapi/cursor.go:19-22 | the Gregorian leap rule, in closed form |
| `Timestamps.DaysInMonthMeaning` | internal/todo/httpapi/cursor.go:19-22 | the length of every month |
| `Timestamps.MarshalsMeaning` | internal/todo/httpapi/cursor.go:30-32 | an instant marshals iff its zone offset is under a day and its local reading lies in the years 0 to 9999 |
| `Timestamps.LayoutExamples` | internal/todo/httpapi/cursor.go:19-32 | the layout of date, time, fraction and offset |
| `Timestamps.ReadClockIsValid` | internal/todo/httpapi/cursor.go:51-54 | only real dates and times are read |
| `Timestamps.ReadPrinted` | internal/todo/httpapi/cursor.go:19-32 | the RFC 3339 text of an instant reads back to the nanosecond in any zone of whole minutes, and moved by exactly the seconds of any other |
| `CursorCodec.DecodeCursor` | internal/todo/httpapi/cursor.go:41-60 | only the empty token is the first page, and a decoded position never has an empty id or the zero time |
| `CursorCodec.TamperedRefused` | internal/todo/httpapi/cursor.go:46-54 | a token with a foreign character, or whose text is no JSON object, is refused |
| `CursorCodec.TokenFormat` | internal/todo/httpapi/cursor.go:16-34 | a minted token is the base64url text of the JSON object of time and id |
| `CursorCodec.CursorRoundTrip` | internal/todo/httpapi/cursor.go:25-60 | in every zone: a time that does not marshal gives the empty token (first page), an empty id or the zero time is refused, and any other position comes back, moved by the seconds of the zone offset |
| `TodoHttp.List` | internal/todo/httpapi/handler.go:98-114 | a token that is no position is 422, an outage 500, otherwise the page after the position with the token of its last todo |
| `TodoHttp.FollowTokens` | internal/todo/httpapi/handler.go:98-114 | a client following nextCursor through the handler sees exactly the token walk of the stored todos, page by page, up to where it stops |
| `TodoHttp.TokenWalkExactly` | internal/todo/httpapi/handler.go:98-114 | in every zone and for all limits following tokens stops with the whole sorted collection iff every todo but the last has a token that comes back as a position with the same todos after it |
| `TodoHttp.WholeMinutesResume` | internal/todo/httpapi/cursor.go:24-35 | in a zone of whole minutes a token comes back as such a position iff it comes back at all |
| `TodoHttp.EarlierTokenNeverStops` | internal/todo/httpapi/handler.go:98-114 | a first token that comes back as an earlier position keeps a client asking for single todos on the first page for ever |
| `TodoHttp.LateYearsHaveNoToken` | internal/todo/httpapi/cursor.go:30-34 | a year past 9999 has the empty token, which reads as the first page |

## Left out

- Configuration, command line, process wiring, logging, tracing, metrics, health, CORS, timeout and problem bodies: single-branch plumbing.
- SHA-256 key storage and the database driver: the key store is an arbitrary function from key to identity, no row or failure.
- Cedar's parser, conditions and attribute expressions: the middleware theorems quantify over arbitrary query trees instead.
- Cedar.Search: the ancestor search takes a bound on the number of loads; it is exact for bounds that cover the reachable entities (`Ancestry.ScopeIsAncestry`), and the shipped decision is proved for every bound of at least one.
- RateLimiter.InMemory.Allow: takes the lookup's and the reservation's clock readings at one instant; the interleaved modules prove transparency, the rate bound and Retry-After with the two apart.
- InterleavedBounds.InterleavedRateBound: covers a slack below the TTL; with a longer one, reservations on evicted buckets can bunch.
- Router.HandlerRateBound: requests let through because the key cannot be derived or the limiter does not answer are not counted.
- TokenBucket.Reserve: floating point and nanosecond rounding of x/time/rate, and two requests reserving on one bucket at the same instant, are outside the ideal bucket.
- CursorCodec.EncodeCursor: requires an id of printable ASCII that JSON does not escape, which every uuid is.
- CursorCodec.DecodeCursor: its contract does not list the tokens that decode (a token is any base64url spelling of any JSON object naming both members); JSON string escapes, non-string members and non-ASCII text in a tampered token are rejected here although the JSON decoder may accept some of them; every minted token is covered by `CursorCodec.CursorRoundTrip`.
- Authorization.PascalCase: upper-cases ASCII letters only.
- Todos.NewTodo: titles are code points; invalid UTF-8 is not modelled.
- TodoService.Service: the database failing after it has applied a write is not modelled; a failed call leaves the rows as they were.
- TodoDeployment.Deployment.Create: takes an id not in use, which the random id generator gives with overwhelming probability only.
- PostgresRepository.Repository.Save: times outside the range of timestamptz, which the database refuses, are not modelled.
- TodoHttp: the create, get and complete handlers, which only map errors to statuses, and the framework's own validation of the limit parameter before the list handler runs.
- OpenAPI security stamping and the 405 Allow header: document metadata only.
