# Stellara: verified models of its stateful cores

Stellara is a gateway that gives language-model clients authenticated web and browser tools. This project
models, in Dafny, the parts of it that keep state over many interleaved steps, and proves what they promise
for every input, every run and every interleaving.

Two parts are the heart of it.

* **The OAuth client resolver.** Between two awaits its code runs without interruption, so `ResolverSteps`
  makes each such stretch a step: a lookup, a timeout, the arrival of a fetch result, its error handler, its
  final handler, and the two ends of a shutdown. A run is any sequence of steps. `ClientResolver` is the
  object with its fields updated in place, each method proved to do exactly its step. `ResolverSafety` proves
  what all runs keep: the flight table, counters and log agree, the cache shows only in speed, recent entries
  survive, a shutdown is final and can always complete. `ResolverAnswers` proves what runs achieve: how every
  lookup is answered and what it costs, and that each settlement is cached and then served.
* **The OAuth grant store over its whole life.** `OAuthTables` gives each transaction as a function on the
  tables and `OAuthStorage` the object that is updated in place; `GrantSteps` lets boots with changing tokens,
  logins, authorizations, code exchanges, rotations and sweeps happen in any order, with a record of the past
  beside the tables. Four modules prove properties of whole histories: `GrantLineage` (refresh tokens form one
  chain for each exchanged code), `GrantUse` (codes and refresh tokens succeed at most once, a replay ends the
  grant), `GrantClosure` (what is stored of a chain is a tail of it) and `GrantEpochs` (only users who have
  lost no token keep anything). `StaticTokens` and `Json` prove the stored token snapshot canonical and
  readable again, `StaticLogin` that logins and snapshot agree, and `Sessions` treats sliding renewal from the
  creation of a session on. `GrantFlow` proves that a grant succeeds, from login to rotation, in every world.

The smaller parts: one fixed-window specification behind three rate limiters (`FixedWindow`, `RateLimiters`),
the metadata-document fetch (`ClientDocument`), the redirect chain of the generic fetch (`HttpRedirects`), the
capped body drain (`BodyDrain`), the embedding migration (`Migration`), the private-address guard (`Bits`,
`Addresses`), and the browser pool with its tabs (`BrowserSteps`, `BrowserSafety`, `BrowserOverlap`,
`BrowserLifetimes`, `BrowserPool`).
`OrderedMaps`, `Text`, `SortedText` and `Prelude` hold what several of them share.

Conventions. A JavaScript `Map` whose order matters is a sequence of entries; one whose order does not is a
map. Errors that the code throws are results. Clocks, random values, digests, URL parsing and answers from
outside are parameters; a digest is an arbitrary function, not assumed injective. Random values are names never
drawn before in the run.

`dafny verify dfyconfig.toml` checks the whole project.

## What the code does that one might not expect

Where code and description differ the model follows the code, and a lemma says exactly when they agree.

* A limit of zero acts as a limit of one in all three limiters: the request that opens a window is always let
  in (`FixedWindow.ZeroLimitActsAsOne`). In any stretch of one window length at most `2 * max - 1` requests of
  one source are admitted, one fewer than twice the limit, and that is reached.
* The source limiter keeps one bucket even if its capacity is zero (`RateLimiters.SourceLimiterIsBounded`).
* The comment at src/oauth/tokens.ts:163-166 speaks of the token chain; the deletion takes every chain of that
  user and client. `GrantUse.ReplayEndsTheGrant` states the wider fact.
* A sweep can leave a stored `rotated_to` that names nothing exactly if some rotation gave its successor an
  earlier expiry than the row it replaced (`GrantClosure.SweepsRespectLinksExactlyWhen`), which takes a
  lifetime made shorter at a boot or a clock set back (`GrantClosure.SteadyRunsLast`).
* The comment at src/oauth/codes.ts:139-144 promises a comparison that answers false for strings of different
  length. It compares UTF-16 lengths, and throws if the UTF-8 buffers then differ in length; the transaction
  rolls back and nothing changes. `OAuthTables.ExchangeThrowsExactlyWhen` has the exact condition for an ASCII
  digest: the recorded challenge has its length and is not ASCII. `OAuthTables.AccentedChallengeThrows` is an
  input that the schema admits (src/schemas/oauth.ts:89), and `GrantUse.AsciiRunsNeverThrow` shows that
  admitting only ASCII challenges rules it out in every run.
* A snapshot with an empty user id would never read back, so every boot would reset all authorizations; the
  configuration loader drops such ids (src/config.ts:464-465). `StaticTokens.SnapshotRoundTrip` has the exact
  condition.
* A session looked up at gaps of exactly `T - h` can expire (`Sessions.GapOfTheBoundCanExpire`). The configuration
  admits lifetimes of at most the threshold of one hour (src/config.ts:130, src/oauth/session.ts:23); then no
  lookup ever renews (`Sessions.ShortLifetimesAreNeverRenewed`). The other theorems about renewal are for `h < T`.
* A third empty scroll page in a row fails the migration even if it is the last page
  (`Migration.IterateAndMigrate`), and a cursor that never ends always does (`Migration.RunMigration`).
* The first-hextet prefixes also match shorter hextets such as `fc` or `fe8`; `Addresses.Ipv6Verdict` lists
  exactly which.
* Starts of browser sessions that overlap can exceed the caps by the overlap less one
  (`BrowserOverlap.OverlapReachesTheBound`), and every start still pending when the pool is closed can register
  its session in the closed pool (`BrowserSafety.PendingStartsFillAClosedPool`).
* A body over the cap is returned truncated only if cancelling its reader succeeds (`BodyDrain.DrainReader`), and
  a redirect is followed only if its body can be discarded (`HttpRedirects.PerformWithRedirects`).

## Model

| member | source | states |
|---|---|---|
| ResolverSafety.EveryRunKeepsFlights | src/oauth/client-metadata.ts:129-201 | in every interleaving flights and controllers have the same keys, the in-flight counter is their number and within its limit, admissions equal starts equal finalizations plus open flights, no identifier has two flights at once, and none with an unsettled flight is cached |
| ResolverSafety.CapacityRejectionIsFree | src/oauth/client-metadata.ts:129-163 | in every run a lookup that misses cache and flights is refused for capacity exactly when the flight table is full, and then leaves limiter, flights and log as they were; below capacity it starts exactly its own flight for exactly one admission, or is rate limited and starts none |
| ResolverSafety.CacheIsTransparent | src/oauth/client-metadata.ts:203-287 | in every run a cache hit answers exactly what the last settled flight of that identifier did, never the self-binding error of the cache, and lies within a lifetime of more than 0 and at most an hour; the cache stays within its size |
| ResolverSafety.OneSettlementForAll | src/oauth/client-metadata.ts:137-140 | from a lookup told to wait until the final handler, in every run: the flight stays, no second one of the identifier starts, and once settled its outcome and settlement never change, so all who joined get one answer |
| ResolverSafety.FinalizedWithTheSettlement | src/oauth/client-metadata.ts:177-201 | in every run a flight ends only settled, with the outcome the cache serves if it serves one, and all starts of its identifier are then ended |
| ResolverSafety.RecentEntrySurvives | src/oauth/client-metadata.ts:260-287 | an unexpired entry outlives every run that touches fewer distinct other identifiers than the cache holds |
| ResolverSafety.ClosedForGood | src/oauth/client-metadata.ts:289-301 | after the close step, whatever still settles, the cache stays empty, no flight starts, flights only go, and when the close completes none is left and the counter is 0 |
| ResolverSafety.CloseCanComplete | src/oauth/client-metadata.ts:296-300 | from every closed state some run lets the close complete: no deadlock |
| ResolverSafety.EveryRunCompletesTheClose | src/oauth/client-metadata.ts:296-300 | after a close, in every run: at most three steps for each open flight ever happen, and the close can complete exactly when none is pending |
| ResolverAnswers.EveryLookupIsAnswered | src/oauth/client-metadata.ts:110-163 | in every run a lookup of a document URL is answered by the last settlement if its entry is fresh, else joins the flight, else is refused by a full table, else by the limiter, else starts a flight now; in each case the whole new state is stated |
| ResolverAnswers.LookupsWithoutTheCache | src/oauth/client-metadata.ts:110-128 | a closed resolver, an identifier empty or over 4096 units or 8192 bytes, a registered client and a bad URL each get their own answer and change nothing |
| ResolverAnswers.AnswerSettles | src/oauth/client-metadata.ts:183-222 | a valid document settles its flight with that client, a dismissed one with the shutdown error, an invalid one with its complaint |
| ResolverAnswers.FailureSettles | src/oauth/client-metadata.ts:224-243 | a failed fetch settles with the resolver's own error, any other as an invalid client, and after a close with the shutdown error |
| ResolverAnswers.DismissedExactlyWhen | src/oauth/client-metadata.ts:165-201 | in every continuation a flight counts as dismissed exactly if its timeout or a close has come |
| ResolverAnswers.SettlementIsCached | src/oauth/client-metadata.ts:203-243 | in every run a settlement of a flight not dismissed becomes the newest entry, good until its time plus the granted lifetime, or plus 30 000 ms for a failure; a dismissed one leaves the cache alone |
| ResolverAnswers.SettlementIsServed | src/oauth/client-metadata.ts:110-141 | from then on, in every run without a close and with fewer other identifiers than the cache holds, every lookup in that time is answered with it and starts, admits and logs nothing |
| ResolverAnswers.CloseAborts | src/oauth/client-metadata.ts:289-296 | in every run the first close empties cache and limiter and aborts every flight, ending none, and a second one does nothing |
| ResolverAnswers.EmptyForGood | src/oauth/client-metadata.ts:203-243 | after a close no step writes to the cache or consults the limiter |
| ClientResolver.Resolver.ResolveClient | src/oauth/client-metadata.ts:110-141 | the object's lookup is the lookup step, reply included |
| ClientResolver.Resolver.ReadFromCache | src/oauth/client-metadata.ts:260-271 | reads, drops if expired and moves to the front exactly as the step does |
| ClientResolver.Resolver.WriteToCache | src/oauth/client-metadata.ts:273-287 | the eviction loop leaves the newest entries up to the bound |
| ClientResolver.Resolver.EnforceMissLimits | src/oauth/client-metadata.ts:151-163 | capacity before rate, and only the second spends anything |
| ClientResolver.Resolver.OnResponse | src/oauth/client-metadata.ts:183-222 | the object takes the answering step of which ResolverAnswers proves that a validated answer settles and is cached unless closed or aborted |
| ClientResolver.Resolver.OnFailure | src/oauth/client-metadata.ts:224-243 | the object takes the failing step, by which an error settles the flight and is cached for 30 seconds unless closed or aborted |
| ClientResolver.Resolver.OnFinally | src/oauth/client-metadata.ts:193-198 | the counter, the controller and the flight go together |
| ClientResolver.Resolver.BeginClose | src/oauth/client-metadata.ts:289-296 | closing empties the cache and the limiter and aborts every flight |
| ClientDocument.FetchFinalResponse | src/oauth/client-metadata-document.ts:42-57 | whatever is answered, at most four requests go out, each to a valid document URL of the original origin and each where the 301, 302, 303, 307 or 308 before it pointed; the result is the last answer or exactly the complaint it deserves |
| ClientDocument.DocumentUrlErrors | src/oauth/client-metadata-document.ts:104-113 | a URL is rejected exactly if it fails one of four conditions, with the complaint of the first it fails |
| ClientDocument.ValidatedExactly | src/oauth/client-metadata-document.ts:59-89 | an answer is accepted exactly if it passes six checks and may be kept for a while, and then taken over as it is; otherwise the complaint is that of the first check that fails |
| ClientDocument.JsonMedia | src/oauth/client-metadata-document.ts:132-135 | the media type decides, in any case, with space around it, whatever parameters follow |
| ClientDocument.DirectivesOfList | src/oauth/client-metadata-document.ts:154-162 | the directives of a header list are those of its pieces, wherever it is cut at a comma |
| ClientDocument.DirectivesOfPiece | src/oauth/client-metadata-document.ts:154-162 | a piece is one directive in lower case without the space around it, or none |
| ClientDocument.StorageAllowedExactly | src/oauth/client-metadata-document.ts:164-172 | storing is forbidden exactly by no-store or no-cache, alone or with a value |
| ClientDocument.MaxAgeExactly | src/oauth/client-metadata-document.ts:174-183 | a max-age directive grants a lifetime exactly if it has digits, quoted or not, of a positive finite value, and then that many seconds up to an hour |
| ClientDocument.PositiveTtlExactly | src/oauth/client-metadata-document.ts:141-183 | the lifetime of an answer: none if any directive forbids storing, else by the first that begins with max-age, and only without one by Expires |
| ClientDocument.PositiveTtlBounds | src/oauth/client-metadata-document.ts:141-152 | a lifetime is granted only if storing is allowed, is more than 0 and at most an hour, and without max-age does not reach past Expires |
| ClientDocument.MaxAgeOfSeconds | src/oauth/client-metadata-document.ts:174-183 | the directive of a number, quoted or not, means that many seconds up to an hour, and zero means none |
| ClientDocument.MaxAgeHeader | src/oauth/client-metadata-document.ts:141-183 | a header of one max-age directive gives exactly that lifetime, whatever Expires says |
| FixedWindow.AnySpanAdmitsUnderTwiceTheLimit | src/rate-limit.ts:77-92 | any half-open span of one window length admits at most 2 * max - 1 requests of one key |
| FixedWindow.TwiceTheLimitIsReached | src/rate-limit.ts:77-92 | for every limit and every window of at least 2 ms some monotone run attains that bound |
| FixedWindow.OneWindowAdmitsTheLimit | src/oauth/clients.ts:88-100 | a window admits at most the limit |
| FixedWindow.ZeroLimitActsAsOne | src/oauth/clients.ts:90-97 | a limit of zero decides every sequence like a limit of one |
| FixedWindow.RetryAfterIsLeast | src/oauth/client-metadata-rate-limit.ts:56-61 | the reported delay is the least whole number of seconds after which the key is admitted |
| RateLimiters.UnauthLimiterIsFixedWindow | src/rate-limit.ts:77-92 | counting rejected requests too changes no decision |
| RateLimiters.RegistrationLimiterIsFixedWindow | src/oauth/clients.ts:88-100 | the registration limiter decides every sequence like the fixed window |
| RateLimiters.SourceLimiterIsFixedWindow | src/oauth/client-metadata-rate-limit.ts:19-78 | with at most maxEntries sources and a monotone clock, the bounded pruning limiter decides every sequence like one that is unbounded and never prunes |
| RateLimiters.ThreeLimitersOneDecision | src/oauth/client-metadata-rate-limit.ts:46-64 | with equal limit and window the three limiters answer every sequence alike |
| RateLimiters.SourceLimiterIsBounded | src/oauth/client-metadata-rate-limit.ts:19-78 | after any requests there are at most maxEntries buckets and never two of one source; the last source always has one, so a capacity of zero means exactly one |
| RateLimiters.LiveSourceSurvives | src/oauth/client-metadata-rate-limit.ts:23-38 | a source with an open window is evicted only after maxEntries distinct other sources were touched since |
| RateLimiters.ExpiredBucketsGo | src/oauth/client-metadata-rate-limit.ts:23-38 | an expired bucket is gone after 64 requests of other sources, and after the first of them if the table is full |
| RateLimiters.PruneDropsExpired | src/oauth/client-metadata-rate-limit.ts:74-78 | pruning drops the expired buckets and no others |
| RateLimiters.UnauthLimiter.Record | src/rate-limit.ts:77-92 | the counter map updated in place takes the step of the specification |
| RateLimiters.RegistrationLimiter.Consume | src/oauth/clients.ts:88-100 | the bucket map updated in place takes the step of the specification |
| RateLimiters.SourceLimiter.Consume | src/oauth/client-metadata-rate-limit.ts:23-38 | buckets and miss counter after a request are those of the specification, as is the decision |
| RateLimiters.SourceLimiter.PruneExpired | src/oauth/client-metadata-rate-limit.ts:74-78 | deleting while iterating removes exactly the expired buckets and keeps the order |
| RateLimiters.SourceLimiter.EvictOldest | src/oauth/client-metadata-rate-limit.ts:66-72 | the loop keeps the newest buckets and leaves room for one |
| StaticTokens.BuildStaticTokenSnapshot | src/oauth/static-token-state.ts:24-40 | grouping token by token and sorting gives the snapshot of the configuration |
| StaticTokens.BuildFacts | src/oauth/static-token-state.ts:24-40 | the snapshot lists, in ascending order and without repeats, exactly the users with an effective token and exactly their effective fingerprints |
| StaticTokens.SnapshotRoundTrip | src/oauth/static-token-state.ts:64-108 | what is written reads back as itself exactly when no effective token has an empty user id |
| StaticTokens.SnapshotTextIsCanonical | src/oauth/static-token-state.ts:101-108 | two configurations give equal text exactly when every user has the same effective fingerprints, in whatever order they were configured |
| StaticTokens.ParseOfText | src/oauth/static-token-state.ts:42-78 | reading back succeeds exactly if every user passes the checks on id and fingerprints |
| StaticTokens.ParsedExactly | src/oauth/static-token-state.ts:42-78 | a stored text is trusted exactly if it is JSON for version 1 and users, both and nothing else, each user id lower-case and not empty, each list of distinct fingerprints of 64 lower-case hexadecimal digits and not empty |
| StaticTokens.TwoMembers | src/oauth/static-token-state.ts:74 | joining the sorted member names with commas recognizes exactly these two |
| StaticTokens.RemovedUsersFacts | src/oauth/static-token-state.ts:85-99 | a user is reported, once, exactly if some previous fingerprint of theirs is missing |
| StaticTokens.CollectRemovedUsers | src/oauth/static-token-state.ts:91-98 | the loop collects exactly those users |
| Json.ReadSnapshotOfText | src/oauth/static-token-state.ts:102-108 | the snapshot text, with its escapes, determines the snapshot |
| Json.SnapshotExample | src/oauth/static-token-state.ts:101-108 | the text of a snapshot with two users, literally |
| Json.EscapeTable | src/oauth/static-token-state.ts:105 | which characters JSON.stringify escapes and how |
| Json.NoControlCharacters | src/oauth/static-token-state.ts:105 | no control character gets into the text of a string |
| StaticLogin.ResolveStaticToken | src/auth.ts:125-145 | comparing all digests without early exit finds the last match and lets a revocation win |
| StaticLogin.LoginExactly | src/auth.ts:125-145 | a token names the user of the last configured token with its digest, and nobody exactly if there is none or a revoked one has that digest |
| StaticLogin.LoginUserIsEffective | src/auth.ts:125-145 | whoever can log in has an effective fingerprint in the snapshot, with no assumption on the digest |
| OAuthTables.ReconcileConserves | src/oauth/storage-reconciliation.ts:15-56 | in each table deleted plus surviving rows are the rows before |
| OAuthTables.ReconcileReports | src/oauth/storage-reconciliation.ts:32-56 | the report says reset exactly if the stored snapshot was not trusted, and counts the users who lost a fingerprint; the new snapshot is that of the tokens now |
| OAuthTables.RepeatBootDeletesNothing | src/oauth/static-token-state.ts:80-120 | a boot with the same effective tokens changes nothing, and a snapshot with an empty user id resets everything |
| OAuthTables.ExchangeIsAllOrNothing | src/oauth/codes.ts:90-128 | a code exchange succeeds exactly for the recorded client, redirect URI and challenge before expiry, then swaps the code for one row of its user, client and scope; otherwise refresh rows stay and the code too, unless it had expired |
| OAuthTables.ExchangeAnswers | src/oauth/codes.ts:90-128 | each answer of an exchange has its exact condition, in the order of the checks |
| OAuthTables.RotationIsAllOrNothing | src/oauth/tokens.ts:172-204 | a rotation succeeds exactly for a stored, unexpired, unrotated token of that client; then one row of the same user, client and scope comes with its full lifetime and the old row changes in naming it only; every other answer has its exact condition, and all but a replay change nothing |
| OAuthTables.IssuanceIsExact | src/oauth/codes.ts:40-54 | a code is stored once, as asked for, with its lifetime, and no other row changes |
| OAuthTables.CreationIsExact | src/oauth/session.ts:65-76 | a new session is stored for the whole lifetime from now on and no other row changes |
| OAuthTables.LookupIsExact | src/oauth/session.ts:78-95 | a lookup answers by the row alone and touches no other |
| OAuthTables.ExchangeThrowsExactlyWhen | src/oauth/codes.ts:103-149 | with an ASCII digest and a fresh token an exchange throws if and only if it comes to compare a recorded challenge of that length that is not ASCII, and then changes nothing; for an ASCII challenge the comparison is equality |
| Prelude.AsciiLengths | src/oauth/codes.ts:145-149 | a string's lengths in UTF-16 units and in UTF-8 bytes agree exactly if it is ASCII |
| Prelude.LengthsAdd | src/oauth/client-metadata.ts:110-128 | both lengths add up over concatenation, so with those of single characters they are fixed |
| OAuthTables.AccentedChallengeThrows | src/oauth/codes.ts:145-149 | it does throw for a recorded challenge of 43 accented letters, whatever the verifier |
| OAuthTables.ReplayLeavesNoRow | src/oauth/tokens.ts:186-189 | showing a rotated token, even expired, removes every row of its user and client and no other |
| OAuthStorage.Storage.RotateRefreshToken | src/oauth/tokens.ts:172-204 | the transaction in place is the rotation of which RotationIsAllOrNothing gives every answer and its effect |
| OAuthStorage.Storage.CreateLoginSession | src/oauth/session.ts:65-76 | the row goes in for the whole lifetime unless the id is taken |
| OAuthStorage.Storage.IssueAuthCode | src/oauth/codes.ts:40-54 | the code goes in for ten minutes unless it is taken |
| OAuthStorage.Storage.ExchangeAuthCode | src/oauth/codes.ts:90-128 | the transaction is the exchange step; if the insert fails the deleted code is back |
| OAuthStorage.Storage.DeleteRefreshTokenChain | src/oauth/storage.ts:281-286 | removes the rows of one user and client and counts them |
| OAuthStorage.Storage.SweepExpired | src/oauth/storage.ts:141-145 | removes the rows that expired before now from all three tables; one expiring now stays |
| OAuthStorage.Storage.ResolveLoginSession | src/oauth/session.ts:78-95 | the lookup on the table is the lookup step, renewal included |
| OAuthStorage.Storage.ReconcileStaticTokenSnapshot | src/oauth/storage.ts:177-184 | clears the tables and replaces the snapshot in one step, with the counts |
| OAuthStorage.DeleteAuthorizationRows | src/oauth/storage-reconciliation.ts:15-29 | deleting user by user removes the rows of all of them, and the running count is right even if users repeat |
| GrantLineage.LinksFormChains | src/oauth/tokens.ts:172-204 | in every run rotated_to links form disjoint acyclic chains, one for each exchanged code, with user, client and scope of that code all along and at most one row not rotated |
| GrantLineage.StepKeepsLineage | src/oauth/storage.ts:270-286 | every step keeps each stored row at its place in the chain of its code and linked to the token after it |
| GrantUse.RotatesAtMostOnce | src/oauth/tokens.ts:182-203 | over a whole run each refresh token is rotated with success at most once |
| GrantUse.NoRotationAfterExpiry | src/oauth/tokens.ts:190 | over a whole run no token is rotated at or after the expiry its row was first stored with |
| GrantUse.RowIsFixed | src/oauth/storage.ts:247-274 | in every continuation a stored refresh row keeps user, client, scope and expiry for as long as it is stored |
| GrantUse.ReplayEndsTheGrant | src/oauth/tokens.ts:186-189 | after a replay no refresh token ever issued to that user for that client works again, in any continuation |
| GrantUse.RedeemsAtMostOnce | src/oauth/codes.ts:96-112 | over a whole run each code is exchanged with success at most once |
| GrantUse.RedeemsAsAuthorized | src/oauth/codes.ts:97-126 | whatever happens in between, a code is exchanged only for the client, redirect URI and challenge of its authorization, within ten minutes, in the name of the user who had logged in and with the scope asked for |
| GrantUse.AsciiRunsNeverThrow | src/oauth/codes.ts:109-111 | in every run whose authorizations bring ASCII challenges no exchange throws |
| GrantUse.UsedUpForGood | src/oauth/storage.ts:247-274 | a value used up, swept or deleted never becomes usable again |
| GrantUse.IssuingRecords | src/routes/oauth/authorize.ts:59-71 | a code is issued only on a session that has not expired, in the name of the user of its login |
| GrantFlow.LoginOpensASession | src/routes/oauth/login.ts:46-55 | in every reachable world a token that counts opens a session of its user for the whole lifetime, any other changes nothing |
| GrantFlow.AuthorizationIssuesACode | src/routes/oauth/authorize.ts:59-71 | an active session gets the code asked for, in its user's name, for ten minutes; any other gets none |
| GrantFlow.SweepDropsTheExpired | src/oauth/storage.ts:141-145 | a sweep drops exactly the expired rows of its table |
| GrantFlow.AGrantSucceeds | src/oauth/tokens.ts:172-204 | from every reachable world login, authorization, exchange and rotation, each in time, succeed and end with one unrotated token of that user, client and scope |
| GrantClosure.StoredChainsAreTails | src/oauth/storage.ts:141-145 | in every run whose rotations never shorten the life of their chain, what is stored of a chain is a tail of it, expiries never fall along it, and a stored rotated_to names a stored row |
| GrantClosure.SweepsRespectLinksExactlyWhen | src/oauth/storage.ts:141-145 | for every run: at no point of it can a sweep leave a rotated_to that names nothing, if and only if no rotation of it gave a successor an earlier expiry |
| GrantClosure.SteadyRunsLast | src/oauth/tokens.ts:190-201 | with a clock that does not run backwards and lifetimes that do not shrink no rotation does |
| GrantClosure.LinkOutlivesSweepsExactlyWhen | src/oauth/tokens.ts:192-201 | a link survives every sweep exactly when the successor expires no earlier than the row it replaces |
| GrantEpochs.SurvivorsLostNoToken | src/oauth/storage-reconciliation.ts:32-56 | over any boots every stored session, code or refresh row belongs to a user who had a token at their login and of whom no effective fingerprint has gone missing at any boot since |
| GrantEpochs.BootDeletesExactly | src/oauth/static-token-state.ts:85-120 | a boot after the first deletes exactly the rows of users who lost a fingerprint since the boot before |
| Sessions.ExpiryBounds | src/oauth/session.ts:78-95 | expiry never falls, the user never changes, and expiry is at most T after the last success |
| Sessions.LivesItsLifetime | src/oauth/session.ts:65-95 | a session just created is found at every time before its lifetime is over and not after |
| Sessions.BoundsFromCreation | src/oauth/session.ts:65-95 | its expiry is at least T after the creation and at most T after its last success |
| Sessions.FrequentLookupsKeepItAlive | src/oauth/session.ts:82-94 | a session looked up at gaps strictly below T - h never expires, sweeps or not |
| Sessions.KeptAliveFromCreation | src/oauth/session.ts:65-95 | looked up at gaps strictly below T - h from its creation on, a session never expires |
| Sessions.GapOfTheBoundCanExpire | src/oauth/session.ts:82-94 | for every T and h there are lookups with gaps of at most T - h that find it expired |
| Sessions.ShortLifetimesAreNeverRenewed | src/oauth/session.ts:86-94 | with a lifetime of at most the threshold no lookup ever writes, and the row stays as created |
| Sessions.FewWrites | src/oauth/session.ts:87-92 | renewals are more than h apart, so a span of D milliseconds holds at most D / (h + 1) + 1 writes |
| Sessions.SweepsOnlyForgetTheExpired | src/oauth/storage.ts:141-145 | sweeps change no lookup except from expired to unknown |
| Migration.IterateAndMigrate | scripts/migrate-embeddings.ts:255-288 | the loop ends by the points left and the empty pages in a row; success means the whole source, embedded, not aborted and acknowledged page by page, and the third empty page in a row always fails |
| Migration.MigrateBatch | scripts/migrate-embeddings.ts:291-314 | a page succeeds exactly if all of it has text, none of its embeddings failed, no look saw the abort and its upsert was acknowledged; what is written is what the upsert's own answer says |
| Migration.RunMigration | scripts/migrate-embeddings.ts:160-195 | completion or a count mismatch means that every upsert was acknowledged, every embedding succeeded and no abort was seen, so every point of the source is written once, in order, with its id and payload and a new vector; after every failure the target holds the image of whole pages from the first on, by the answers of the upserts made; a dry run writes nothing; and an undisturbed run gives up exactly if three pages in a row up to the last one are empty or there is no last one, and otherwise succeeds unless the counts differ |
| Migration.TakePage | scripts/migrate-embeddings.ts:262-284 | one turn of the loop, with its abort look, its scroll and the count of empty pages |
| Migration.AcknowledgedLands | scripts/migrate-embeddings.ts:313 | acknowledged upserts land exactly the images of their pages |
| Migration.LandsAsCopies | scripts/migrate-embeddings.ts:309-313 | what an upsert leaves is id, payload and a new vector for the text, point by point, or nothing if it failed and was not applied |
| Migration.EverySourceCanBeMigrated | scripts/migrate-embeddings.ts:255-288 | for every source and page size, a server that lists it page by page meets all of these conditions together |
| Migration.EndlessServersExist | scripts/migrate-embeddings.ts:271-284 | servers without a last page meet the other conditions too |
| HttpRedirects.SanitizeRequestHeaders | src/services/http-fetch.ts:135-152 | exactly the blocked names are dropped, and reported in lower case, ascending, once each |
| HttpRedirects.KeptSplits | src/services/http-fetch.ts:135-152 | what is let through is the list of the headers outside the eight blocked names and `proxy-`, in their order |
| HttpRedirects.FirstRequestIsClean | src/services/http-fetch.ts:374-401 | the first request has method and body as given, the caller's headers in order less the blocked ones, and after them the default content type exactly if the body has one and the caller gave none |
| HttpRedirects.PerformWithRedirects | src/services/http-fetch.ts:186-217 | at most maxRedirects + 1 requests, each after the first where a 301, 302, 303, 307 or 308 pointed; the chain ends with its last answer exactly for the reason its outcome gives, so below the cap a redirect to an allowed URL is always followed |
| HttpRedirects.RequestsOfAChain | src/services/http-fetch.ts:253-309 | if the answers so far were all 307 or 308 the request is the first one again, and if one was 301, 302 or 303 it is that one as a GET without body or content type; every followed URL has passed the check |
| HttpRedirects.RunHttpFetch | src/services/http-fetch.ts:118-127 | no hop of a fetch ever carries one of the blocked names, each follows the redirect before it, and the outcome is what the last answer calls for |
| BodyDrain.DrainReader | src/services/http-fetch-body.ts:101-124 | the bytes are the first of the body up to 10 MiB and truncated says there were more; a failed read counts only before the cap is passed, and past it the drain fails exactly if cancelling the reader does |
| BodyDrain.DrainState.AppendChunkOrTruncate | src/services/http-fetch-body.ts:187-198 | a chunk is taken whole or cut exactly at the cap |
| BodyDrain.ConcatChunks | src/services/http-fetch-body.ts:201-209 | the buffer is filled with no gap and no overlap |
| Addresses.ParseIpv4 | src/schemas/common.ts:92-108 | accepts exactly the canonical dotted quads and is the inverse of printing them |
| Addresses.Packed | src/schemas/common.ts:74-79 | shifting and or-ing four octets is positional notation in base 256 |
| Addresses.BlockIsInterval | src/schemas/common.ts:114-119 | the shift-and-mask test is membership in the aligned interval of the network, for every prefix length |
| Addresses.PrivateExactly | src/schemas/common.ts:56-120 | a dotted quad is blocked exactly if its octets are in one of the fourteen ranges |
| Addresses.PrivateHosts | src/schemas/common.ts:92-120 | of all hosts exactly these dotted quads are blocked as IPv4, in their one spelling |
| Addresses.MappedHexVerdict | src/schemas/common.ts:148-177 | a mapped address in hexadecimal gets the verdict of its IPv4 address |
| Addresses.MappedDottedVerdict | src/schemas/common.ts:165-169 | so does the dotted spelling |
| Addresses.MappedExactly | src/schemas/common.ts:148-177 | a literal is blocked as mapped exactly if it is one of the two spellings of an address in a private range |
| Addresses.Ipv6Verdict | src/schemas/common.ts:165-196 | in upper or lower case: an address that begins with a group of digits is blocked exactly if its value, leading zeros or not, is in fe80::/10, fc00::/7 or ff00::/8 or one of the listed shorter ones; one that begins with a colon exactly if it is `::`, `::1` or one of the two spellings of a mapped private address |
| BrowserSteps.CloseTabFacts | src/services/playwright-extensions.ts:297-315 | closing a tab fails exactly for a bad index or the last tab, removes that page only, keeps the active page active if it is another, and else moves to its left neighbour |
| BrowserSteps.SwitchTabFacts | src/services/playwright-extensions.ts:234-238 | switching fails exactly for a bad index and else activates that tab and moves none |
| BrowserLifetimes.LeavesExactlyWhen | src/services/playwright-pool.ts:180-193 | of all steps only three take a session out of the pool: its owner's stop, the close, and a sweep five minutes after its last action or past its deadline |
| BrowserLifetimes.JoinsExactlyWhen | src/services/playwright-pool.ts:138-153 | only a finishing start puts one in, with one page and thirty minutes to go |
| BrowserLifetimes.StepOnEntry | src/services/playwright-extensions.ts:317-336 | what every step does to the owner, the last action and the deadline of a session; a new tab is last and active and extends a deadline that is near |
| BrowserLifetimes.BeginsExactlyWhen | src/services/playwright-pool.ts:103-124 | starts and tab openings begin exactly below their limits |
| BrowserLifetimes.PendingUntilItEnds | src/services/playwright.ts:174-190 | a pending call stays as it was until it succeeds or fails, and then it is pending no more |
| BrowserLifetimes.AttendedSessionsLive | src/services/playwright-pool.ts:180-193 | in every interleaving a session that is acted on within five minutes before each sweep stays until its deadline, unless stopped or closed |
| BrowserLifetimes.UnattendedSessionsGo | src/services/playwright-pool.ts:180-193 | one left alone is out after any sweep five minutes later, and never comes back |
| BrowserLifetimes.ThirtyMinutesWithoutANewTab | src/services/playwright-pool.ts:180-193 | however busy, a session that opens no tab is out after any sweep thirty minutes after its start |
| BrowserSafety.EveryRunKeepsTabs | src/services/playwright-extensions.ts:226-244 | in every interleaving no session is without pages and every active index is in range |
| BrowserSafety.CapsHoldUpToOverlap | src/services/playwright.ts:148-197 | pool, user and tab counts stay within their limits less one plus the largest number of calls pending at once, so within the limits if calls do not overlap |
| BrowserOverlap.OverlapReachesTheBound | src/services/playwright-pool.ts:103-153 | k overlapping starts of one user can end with k - 1 sessions too many, in the pool or for the user, whichever limit is the smaller |
| BrowserOverlap.OverlapOfUsersReachesTheBound | src/services/playwright-pool.ts:103-153 | the pool bound is reached by starts of distinct users too, whatever the limit for one user |
| BrowserOverlap.OverlapReachesTheTabBound | src/services/playwright-extensions.ts:317-330 | k overlapping openings can end with k - 1 tabs too many |
| BrowserSafety.ClosedPoolOnlyGetsLateStarts | src/services/playwright.ts:329-345 | after a close only starts already pending can register |
| BrowserSafety.LateStartFillsAClosedPool | src/services/playwright.ts:174-190 | and any start that is pending, begun whenever before the close, does |
| BrowserSafety.PendingStartsFillAClosedPool | src/services/playwright.ts:174-190 | from every state all pending starts can, so that bound is reached |
| BrowserPool.SessionEntry.Close | src/services/playwright-extensions.ts:297-315 | the entry changed in place is the step, and another tab's closing leaves the active page |
| BrowserPool.SessionEntry.FinishOpenTab | src/services/playwright-extensions.ts:325-336 | the new tab is last and active, and the deadline moves only if it was near |
| BrowserPool.Pool.EnforceCapacity | src/services/playwright-pool.ts:103-124 | counting the entries finds the global limit reached, or else the user's, exactly when it is |
| BrowserPool.Pool.GetOwnedSession | src/services/playwright-pool.ts:160-173 | a foreign session is as unknown as a missing one |
| BrowserPool.Pool.EvictExpiredSessions | src/services/playwright-pool.ts:180-193 | a sweep removes exactly the sessions idle for five minutes or past their deadline |

## Left out

- Routes, hooks, schemas, logging, MCP dispatch: plumbing; the handlers only fix which store steps exist and in which order.
- JWT access tokens, signing keys, resource binding and client registration records: no part of the grant store's invariants; reconciliation deliberately leaves them alone.
- SQLite: each transaction is one atomic step; files, WAL and crashes inside a transaction are not modelled.
- `destroySession`, `deleteSessionsForUser` and `deleteRefreshTokensForUser`: no route calls them.
- Rows left in a database by another version: runs of the grant store start with empty tables, though with any snapshot.
- SHA-256: an arbitrary function from tokens to 64 hexadecimal digits, so claims are about fingerprints.
- JSON.parse of texts the store did not write itself: an arbitrary parameter.
- Case folding and white space beyond ASCII, and the sort order of characters outside the basic plane, where UTF-16 units and code points differ.
- Strings with unpaired surrogates: characters are Unicode scalar values.
- Two readings of the clock inside one step are one reading.
- URL parsing, redirect-URI policy, DNS, TLS and the transport: arbitrary functions; the deadline of a fetch is the abort step.
- The registrar's last-used stamp and its stored clients: a local lookup is an arbitrary answer.
- `safeExternalUrl` as a whole: only its address arithmetic is modelled, and `isIP` accepts as IPv4 the canonical dotted quads.
- Response-header filtering and body decoding of the generic fetch: easy members.
- Page operations, HAR, cookies, storage and browser launch: foreign calls; of the browser only pool and tabs are kept. That a session lives at most thirty minutes is not claimed, since opening a tab can extend its deadline.
- Embedding provider and Qdrant: arbitrary answers.
- Migration.RunMigration: assumes that the pages the server returns are successive pieces of a finite source; a server that keeps returning new points would keep the loop going.
- RateLimiters.SourceLimiterIsFixedWindow: with more sources than buckets an evicted source starts afresh, so equality needs the sources to fit.
