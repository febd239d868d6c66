# Telegram gateway: a Dafny model

This project models the state machines and algorithms of the gateway and proves properties of them. Every table
row is state; every SQL statement, locked transaction or atomic script is one step. Handlers interleave freely and
any of them may stop between two steps. Each component has a value model (a state, events, what each event needs and
does) with theorems over all runs, and, where the source updates rows or fields in place, a class whose methods are
proved against the same functions.

| module | file | what it covers |
|---|---|---|
| `HistoryBackfill` | `history_backfill.dfy` | the history job chain: deduplicated jobs, at-least-once delivery, crashes between store, enqueue, progress and acknowledgement |
| `HistoryChain` | `history_chain.dfy` | one job and a whole chain of them, handled without disturbance |
| `TelegramHistory` | `telegram_history.dfy` | what Telegram's history answers look like, and the session's page filter |
| `OAuthGrants` | `oauth_grants.dfy` | consent, codes, rotating refresh tokens, replay, revocation |
| `OAuthTokens` | `oauth_tokens.dfy` | when a token request mints, when a bearer authenticates and what a cleanup leaves, told over runs from the consent or the mint |
| `RegistrationPool` | `registration_pool.dfy` | pruning of unused client registrations |
| `SessionLease` | `session_lease.dfy` | leases with fencing, the update journal's writer, the login handover |
| `SyncLease` | `sync_lease.dfy` | the same lease on a sync state row, with its fenced progress |
| `LoginIdentities` | `login_identities.dfy` | which account a Telegram identity belongs to |
| `OnDemandPaging`, `MessageListing` | `ondemand_paging.dfy`, `message_listing.dfy` | on-demand history paging and the keyset query |
| `HandlerPaging`, `CursorReading` | `handler_paging.dfy`, `cursor_reading.dfy` | following the message list's cursors when send times need not follow ids and messages may be tombstoned |
| `MessageMirror`, `UpdateJournal` | `message_mirror.dfy`, `update_journal.dfy` | version-guarded upserts, tombstones, draining the journal of updates |
| `MemberSnapshot` | `member_snapshot.dfy` | the paged member snapshot and its timestamp sweep |
| `ChatListPaging` | `chat_list_paging.dfy` | chat-list cursors and pages |
| `SendOnce` | `send_once.dfy` | sending with a reservation |
| `AuditChain` | `audit_chain.dfy` | the audit hash chain, writer against verifier |
| `AuditAcceptance` | `audit_acceptance.dfy` | the row an event leaves, and that chains are accepted whatever times are given |
| `RpcCorrelation` | `rpc_correlation.dfy` | replies and calls over the native client |
| `RateLimit` | `rate_limit.dfy` | token bucket and cooldown |
| `LikeEscape` | `like_escape.dfy` | LIKE escaping |

Assumptions are stated where they are used, in the `Allowed` predicates and the preconditions: time does not run
backwards, random identifiers are new, Telegram's history answers are gap-free descending prefixes that get past the
cursor when there is anything past it (`RawPage`, `Advances`), jobs are not discarded, and logins are handled one at a
time, which the mutex gives within one process. Without the mutex a login that has seen the lease free can come to
swap the session directory under a good lease exactly when the account is online or leased
(`AtRiskIffOnlineOrLeased`), and a run of two processes gets there (`TwoProcessesSwapUnderLease`). With times that may
go back, the rate bound holds for every choice of costs exactly when they do not (`RateBoundIffTimesInOrder`).

Where a promise is false of the code, the model keeps the code, gives the input and says exactly when the promise holds:

- Following the message list's cursors shows every active message once exactly when, at each end of a page up to the
  first fetch that meets a tombstone, the last message by id is also the page's last by send time and the next message
  comes after it, and nothing active lies past that fetch. At every page size it does so exactly when send times of
  active messages follow ids and, past the first two messages, nothing active is older than a tombstoned one. Otherwise
  the cursor passes a message that was not shown, which is lost, or shows one again; or a full fetch with a tombstoned
  message hands out no cursor, and everything older is lost. The keyset query over the mirror shows every row once
  whatever the send times are, in order of id exactly when send times follow ids; following its cursors as texts does
  so exactly when the last of them stands at a message sent after the epoch.
- A member snapshot read to its last page leaves exactly the listed peers active exactly when the active rows on no
  page were last seen before the start and each listed peer's last stamp was not. A sighting in the starting
  microsecond survives, and a database clock behind the worker's deletes a peer it has just seen.
- An audit event comes back from the database as it was hashed exactly when its uuid, address and JSON texts are in the
  database's own spelling; a chain of such rows is accepted, and a row that comes back otherwise is rejected unless the
  hash or the encoding collides. A first write is accepted exactly when its event and the one that comes back have one
  hash; an account id in upper case, which the admin API takes from its request, is committed and then rejected.
- The order of arrival matters to the mirror for a message exactly when its newest edit is dated before the message was
  sent, it was also seen without an edit, and the two bodies differ; a later edit makes early ones harmless. An edit
  notice is harmless, whatever is delivered again, exactly when every sighting with another body is older than the time
  it gives, and a content update exactly when every sighting that does not say what it wrote is older than the
  database's clock was. The unguarded columns do not depend on order exactly when all sightings agree on them.
- A message cursor is read back exactly when its message was sent after the epoch.
- A page of the chat list hands out a cursor that is then refused exactly when it continues in its list and ends
  beyond offset 100000. No reader is ever refused exactly when neither list is longer than 100000; some reader gets to
  the end exactly when both are shorter than 100100; between, it depends on whether the last answer says that the list
  is exhausted.
- Two calls have one number exactly when their places differ by a multiple of 2^64, so open calls' numbers are distinct
  exactly when none stays open until one a whole range later is numbered. A run that does so hands the waiting call's
  entry to the later call.

## Model

| member | source | states |
|---|---|---|
| HistoryBackfill.BackfillCoverage | internal/worker/history.go:40-93 | in every state of every run each message at or below the recorded newest id is stored or strictly inside an unacknowledged job's range, across crashes, redelivery, overlapping chains and suppressed duplicates |
| HistoryBackfill.DrainedQueueHasNoGaps | internal/worker/bootstrap.go:59-80 | with no job left nothing up to the recorded newest id is missing |
| HistoryBackfill.ChainAlwaysAdvances | internal/worker/history.go:49-73 | no run reaches the "invalid message" or "did not advance" failure; each successor's cursor is strictly older |
| HistoryBackfill.PublishKeepsInv | internal/syncjob/publisher.go:60-61 | publishing a job, or having it suppressed as a duplicate, leaves its whole range covered at or below its cursor |
| HistoryBackfill.AcknowledgeKeepsInv | internal/worker/runner.go:164-183 | removing a handled job from the queue loses no coverage |
| HistoryBackfill.RecordedPageCovered | internal/worker/history.go:85-93 | when the newest id moves up, everything below the new mark is covered |
| HistoryBackfill.StepKeepsInv | internal/worker/history.go:40-93 | every single step of handlers, bootstraps, queue and Telegram keeps the coverage invariant |
| HistoryChain.PageAccountsForRange | internal/worker/history.go:66-83 | a page and its successor account for the job's whole range if and only if the page is not empty while the range is not |
| HistoryChain.CursorOnlyPageLosesHistory | internal/worker/history.go:67-69 | an answer with only the cursor's own message ends the chain early and loses history |
| HistoryChain.ChaseStoresRange | internal/worker/history.go:40-93 | a chain handled undisturbed ends, having stored exactly its job's range; a first bootstrap mirrors the whole history |
| HistoryChain.SuccessorShrinks | internal/worker/history.go:69-79 | a successor job has strictly less to fetch, and nothing between is dropped |
| HistoryChain.UndisturbedHandler | internal/worker/history.go:40-93 | the handler method and the step-by-step protocol have the same effect |
| HistoryChain.BootstrapResumes | internal/worker/bootstrap.go:63-80 | whatever became of a page's successor, the job a bootstrap publishes from what the handler left has every message of the successor's range |
| HistoryChain.BootstrapCatchesUp | internal/worker/bootstrap.go:66-72 | after the end of a chain it has exactly the messages above the recorded newest id, or everything if none is recorded |
| HistoryChain.ResumedChainIsComplete | internal/worker/bootstrap.go:59-80 | a chain that breaks off after any number of jobs, its successor lost, and the undisturbed chain of the next bootstrap together store all that the first was to store |
| HistoryChain.HandledRecords | internal/worker/history.go:69-93 | what is stored, and the recorded cursor: that of the successor, which is the page's oldest id, and none exactly when there is no successor |
| HistoryChain.HandledBounds | internal/worker/history.go:49-93 | the recorded oldest and newest ids take in everything stored and what was recorded before, and nothing more |
| HistoryChain.SizesAreClamped | internal/worker/history.go:16-21 | page sizes from 1 to 100 are used and handed on as they are; others become 100 in the handler, and 50 or 100 in the publisher |
| HistoryBackfill.ChatBackfill.EnqueueChatHistory | internal/syncjob/publisher.go:102-121 | the payload is clamped and published, or suppressed when its deduplication id is known |
| HistoryBackfill.ChatBackfill.BootstrapChat | internal/worker/bootstrap.go:63-80 | resumes at the recorded cursor, or starts from the newest with the recorded newest id as stop marker |
| HistoryBackfill.ChatBackfill.HandleChatHistory | internal/worker/history.go:40-93 | exactly when each failure occurs, what is stored then, and the whole effect of a success |
| HistoryBackfill.Unknown | internal/worker/history.go:43-48 | the messages taken from a page are those before the first one at or below the stop marker |
| TelegramHistory.GetChatHistory | internal/tdlib/session.go:285-301 | the filter loop keeps exactly the messages strictly before the cursor, in order |
| TelegramHistory.OnlyBeforeKeeps | internal/tdlib/session.go:291-299 | the filtered page holds exactly the messages before the cursor and stays descending |
| TelegramHistory.FilteredPage | internal/tdlib/session.go:285-301 | filtering a native answer leaves a gap-free page, empty only at the end of history |
| OAuthGrants.GrantLinearity | internal/oauth/server.go:477-547 | in every state of every run a grant has at most one unspent code or unrevoked refresh token in total |
| OAuthGrants.ScopesStayWithinConsent | internal/oauth/server.go:515-538 | every code and token of a consented client carries a subset of the consented scopes |
| OAuthGrants.MintMovesCredential | internal/oauth/server.go:477-552 | a mint spends exactly the presented credential, adds exactly one, narrows its scopes, and the new bearer authenticates |
| OAuthGrants.CredentialsAreSingleUse | internal/oauth/server.go:484-515 | a code presented again is rejected, a rotated refresh token is a replay |
| OAuthGrants.RedeemKeepsLinear | internal/oauth/server.go:477-552 | redeeming, rotating or replaying never leaves a grant with two live credentials |
| OAuthGrants.RedeemEvolves | internal/oauth/server.go:477-574 | every row after a token request is an earlier row, possibly revoked, or the new pair, descending from the presented credential |
| OAuthGrants.RevocationIsFinal | internal/access/repository.go:33-54 | once closed, in every later state nothing of the grant authenticates, no row is added, and no request mints for it, whenever it found the grant |
| OAuthGrants.ClosedIsDead | internal/access/repository.go:117-137 | under a closed grant no bearer authenticates and no request waiting for the lock mints |
| OAuthGrants.RevokeCloses | internal/access/repository.go:42-54 | revoking closes the grant: client disabled, tokens revoked, codes gone |
| OAuthGrants.RevokeLeavesOthers | internal/access/repository.go:43-48 | revoking changes no row and no authentication of any other grant |
| OAuthGrants.ReplayClosesGrant | internal/oauth/server.go:498-515 | presenting a retained consumed refresh token closes its grant |
| OAuthGrants.RevocationEndpointCloses | internal/oauth/server.go:575-607 | the grant found by the revocation endpoint ends up closed, whatever commits in between |
| OAuthGrants.StepKeepsInv | internal/oauth/server.go:444-574 | every step of every handler keeps linearity, owners, scopes and the match of rows to locks |
| OAuthTokens.CodeMintsIff | internal/oauth/server.go:482-552 | in every run a request for a code handed out by a consent mints if and only if it has that consent's app and redirect, a verifier for its challenge, comes less than 300 seconds after it, client and account are active, and no request minted for the code before; it leaves a pair for what was consented to |
| OAuthTokens.MintsHaveTheirConsent | internal/oauth/server.go:483-490 | no code is redeemed that no consent handed out |
| OAuthTokens.RotationMintsIff | internal/oauth/server.go:493-552 | a request for a refresh token mints if and only if it comes from the app of the mint that handed it out, less than 30 days after it, client and account are active, no scope is asked for that is not held, and no request minted for the token before |
| OAuthTokens.RotationsHaveTheirMint | internal/oauth/server.go:493-538 | no refresh token is rotated that no mint handed out |
| OAuthTokens.BearerAuthenticatesIff | internal/access/repository.go:117-137 | in every state after it came into being a bearer authenticates, to its own grant, if and only if client and account are active and its 3600 seconds, or a personal token's own time, are not over |
| OAuthTokens.AuthenticatedWasIssued | internal/access/repository.go:127-137 | nothing authenticates that was not minted or issued |
| OAuthTokens.ConsentHandsOutIff | internal/oauth/server.go:373-405 | a consent hands out its code if and only if the account is that user's and active; its client is then active |
| OAuthTokens.PersonalIssuedIff | internal/access/repository.go:76-115 | a personal token is issued, with its scopes, if and only if client and account are one user's and active, its scopes are known and not empty, and its expiry is to come |
| OAuthTokens.ClientStaysActive | internal/access/repository.go:42-54 | an active client stays so until it is disabled, its grant revoked, or a spent token of it replayed |
| OAuthTokens.EitherTokenFindsGrant | internal/oauth/server.go:593-594 | right after a mint its app finds the grant by either token of the pair |
| OAuthTokens.OthersTokenFindsNothing | internal/oauth/server.go:593-594 | with another app's refresh token the revocation endpoint finds nothing, whenever it is presented |
| OAuthTokens.CleanupForgets | internal/gateway/maintenance.go:11-19 | a cleanup leaves codes for 300 seconds after their consent and refresh tokens for 30 days after their mint, and no bearer or client is touched |
| OAuthGrants.GrantStore.Token | internal/oauth/server.go:477-560 | the locked half of the token endpoint: validation, spending, replay, issuing, roll-back; `CodeMintsIff` and `RotationMintsIff` say when it mints |
| OAuthGrants.GrantStore.Issue | internal/oauth/server.go:562-574 | both tokens are inserted or neither, only for an active client and account of one user |
| OAuthGrants.GrantStore.Consent | internal/oauth/server.go:373-405 | a consent creates the gateway client and its code together, or nothing |
| OAuthGrants.GrantStore.Revoke | internal/oauth/server.go:575-607 | closes the grant of a token the client owns; any other token changes nothing |
| OAuthGrants.GrantStore.RevokeGrant | internal/access/repository.go:42-54 | the four statements of a revocation and nothing else |
| OAuthGrants.GrantStore.AuthenticateBearer | internal/access/repository.go:117-153 | the read query: unrevoked, unexpired, active client and account of the token's user; `BearerAuthenticatesIff` says when that is |
| RegistrationPool.PruneKeepsNewest | internal/oauth/registration.go:24-40 | a prune leaves at most `keep` unused registrations, all created within the last 86400 seconds, and none older than a young one it evicts; it evicts a young one only if it leaves `keep` |
| RegistrationPool.RegisterBoundsPool | internal/oauth/server.go:203-219 | right after a registration at most 1000 are unused, the new one among them, and exactly 1000 if a registration less than a day old had to go |
| RegistrationPool.PoolBoundInRuns | internal/oauth/registration.go:12-40 | the bound holds right after every registration and cleanup of every run, and is met exactly if a young one had to go |
| RegistrationPool.OldOnesGo | internal/oauth/registration.go:27-38 | an unused registration a day old is gone after any registration or cleanup |
| RegistrationPool.AuthorizeIff | internal/oauth/server.go:300-309 | an authorization request is opened if and only if its registration exists and is activated or less than a day old |
| RegistrationPool.ReferencedNeverDeleted | internal/oauth/registration.go:27-38 | an activated or referenced registration is never deleted in any run |
| RegistrationPool.PruneSurvivors | internal/oauth/registration.go:34-38 | skipping rows locked by token requests spares no unused registration |
| RegistrationPool.TopOfRanking | internal/oauth/registration.go:28-36 | exactly the smaller of `keep` and the pool's size have a row number up to `keep` |
| RegistrationPool.StepKeepsInv | internal/oauth/server.go:290-405 | every step keeps references pointing at existing registrations, and tokens at activated ones |
| RegistrationPool.Registrations.Prune | internal/oauth/registration.go:24-40 | deletes exactly the expired or surplus unused registrations that are not locked |
| RegistrationPool.Registrations.Register | internal/oauth/server.go:203-219 | prunes to 999 and inserts, or rolls both back |
| SessionLease.GenerationsIncrease | internal/runtime/repository.go:71-99 | generations never decrease and each acquisition takes a new one |
| SessionLease.AcquireTakesOver | internal/runtime/repository.go:71-99 | in every run, when the account is online and the last span is over, or there is none, an acquisition takes the next generation from now for as long as was asked, for that worker and token; otherwise it changes nothing |
| SessionLease.HandedOutIsHonoured | internal/runtime/repository.go:111-150 | a lease that was handed out can be renewed, and written under, exactly while its generation is the last and its span is not over; giving it back ends its span |
| SessionLease.ForeignLeaseDoesNothing | internal/runtime/repository.go:111-150 | under a generation that was handed out with another worker or token nothing happens |
| SessionLease.SpansNeverOverlap | internal/runtime/repository.go:71-150 | in no run do the validity intervals of two generations overlap |
| SessionLease.SupersededLeaseIsFenced | internal/runtime/repository.go:111-150 | renew, release and journal insert under a superseded lease change nothing |
| SessionLease.JournalInGenerationOrder | internal/gateway/manager.go:171-186 | journal entries stand in nondecreasing generation order, each inside its generation's interval |
| SessionLease.NoLeaseDuringLogin | internal/gateway/public.go:62-112 | between the offline and the online commit no lease is acquired, and one seen free stays free |
| SessionLease.SeesFreeIff | internal/gateway/public.go:81-89 | a login sees the account free once the last span is over and never before; in the instant of its end, only if it was given back |
| SessionLease.DirectoryFixedUnderLease | internal/gateway/public.go:94-112 | the session directory never changes under a lease that is still good |
| SessionLease.LaterLeasesUseNewDirectory | internal/gateway/public.go:100-112 | every generation acquired after a swap, and every session opened under it, uses that directory or a later one |
| SessionLease.SessionMatchesLease | internal/gateway/manager.go:149-166 | a session opened under a good lease uses the directory in force when the lease was taken |
| SessionLease.AtRiskIffOnlineOrLeased | internal/gateway/public.go:26-113 | a login that has seen the lease free can come to swap under a good lease, with no other swap from there on, if and only if the account is online or leased |
| SessionLease.NeverAtRiskOneAtATime | internal/gateway/public.go:30-31 | with logins one at a time no run gets to such a state |
| SessionLease.TwoProcessesSwapUnderLease | internal/gateway/public.go:30-31 | with a mutex for each process, a run swaps the directory under a good lease |
| SyncLease.SupersededSyncIsFenced | internal/syncstate/repository.go:110-204 | in every run, recording progress, completing and failing under a superseded lease change nothing |
| SyncLease.ProgressInGenerationOrder | internal/syncstate/repository.go:86-140 | spans of two generations never overlap, and accepted progress stands in generation order, each record inside its span |
| SyncLease.BoundsOnlyWiden | internal/syncstate/repository.go:110-140 | whoever records, in whatever order, the recorded bounds only widen |
| SyncLease.GenerationsIncrease | internal/syncstate/repository.go:86-108 | generations never decrease in any run |
| SyncLease.AcquireTakesOver | internal/syncstate/repository.go:86-108 | the same for a sync row: when the last span is over, or there is none, the next generation is taken for that owner and token; otherwise nothing changes |
| SyncLease.HandedOutIsHonoured | internal/syncstate/repository.go:110-204 | progress goes in exactly while the lease is good, and widens the bounds to what was recorded; completing and failing end its span and set or count the retries |
| SyncLease.ForeignLeaseDoesNothing | internal/syncstate/repository.go:110-204 | under a generation that was handed out with another owner or token nothing happens |
| SessionLease.SessionRuntime.Acquire | internal/runtime/repository.go:71-99 | succeeds exactly when the account is online and no lease is good, with a new generation; `AcquireTakesOver` says when that is |
| SessionLease.SessionRuntime.Renew | internal/runtime/repository.go:111-130 | extends exactly the presented lease, and only while it is good |
| SessionLease.SessionRuntime.Release | internal/runtime/repository.go:132-150 | clears exactly the presented lease |
| SessionLease.SessionRuntime.Persist | internal/gateway/manager.go:171-186 | inserts a journal row exactly when the lease is held and good |
| SyncLease.SyncState.Acquire | internal/syncstate/repository.go:86-108 | the same lease on a sync state row |
| SyncLease.SyncState.Progress | internal/syncstate/repository.go:110-140 | fenced: moves the cursor and widens the bounds, or changes nothing |
| SyncLease.SyncState.Complete | internal/syncstate/repository.go:142-167 | releases the presented lease and resets the retry count, or changes nothing |
| SyncLease.SyncState.Fail | internal/syncstate/repository.go:169-204 | releases the presented lease and counts the failure, or changes nothing |
| LoginIdentities.IdentityIsForEver | internal/gateway/public.go:37-65 | a Telegram identity maps to one account for ever, and no account serves two |
| LoginIdentities.StepKeepsIdentities | internal/accounts/repository.go:59-86 | no login, activation or block removes or redirects an identity, or takes its account's Telegram user away |
| LoginIdentities.FirstLoginIff | internal/gateway/public.go:26-65 | the first login of an identity gets the first connected account unless that is blocked, and a new one only if none is connected; in every other case nothing changes |
| LoginIdentities.ReturningLoginChangesNothing | internal/gateway/public.go:37-65 | the login of a known identity changes no row, and is let in exactly if its account is not blocked |
| LoginIdentities.ActivationIff | internal/accounts/repository.go:59-86 | an activation connects the account if and only if it is there, not blocked, no other identity's, and no other account of its owner has the user |
| LoginIdentities.AccountDirectory.AttachLogin | internal/gateway/public.go:26-72 | succeeds exactly for a real user whose target account is neither blocked nor pinned to another identity; reuses the identity's account, else the oldest connected one, else a new one; errors write nothing |
| LoginIdentities.AccountDirectory.Activate | internal/accounts/repository.go:59-86 | sets the Telegram user exactly when the account is there, neither blocked nor pinned to another identity, and no other account of its owner has that Telegram user |
| OnDemandPaging.RefreshMessages | internal/worker/ondemand.go:204-244 | the nested loops fetch the newest messages before the cursor with none skipped, never fail to advance, and from an advancing source get one more than the limit or all |
| OnDemandPaging.ListMessages | internal/httpserver/api.go:97-113 | whatever the source's answers, the page lists by send time the active ones of the newest messages by id before the cursor, one more than the limit, and is cut; with any send times and tombstones |
| OnDemandPaging.FullFetchEndsIff | internal/httpserver/api.go:97-106 | with more than a page left, no cursor is handed out if and only if a fetched message is tombstoned |
| HandlerPaging.TombstoneLosesOlder | internal/messages/fresh.go:7-21 | then every older message is lost to the reader |
| HandlerPaging.TombstonedNewestLosesThird | internal/messages/fresh.go:7-21 | three messages in order, the newest tombstoned: with pages of one the reading ends and the oldest is lost |
| HandlerPaging.HandlerShowsEachOnceIff | internal/httpserver/api.go:85-113 | following the handler's cursors shows every active message of the chat exactly once if and only if, at each end of a page up to the first fetch that meets a tombstone, the last message by id is the page's last by send time and the next comes after it, and nothing active lies past that fetch |
| HandlerPaging.EverySizeShowsEachOnceIff | internal/httpserver/api.go:85-113 | it does so at every page size if and only if send times of active messages follow ids and, past the first two messages, nothing active is older than a tombstoned one |
| HandlerPaging.HandlerReadsInOrder | internal/httpserver/api.go:85-113 | when send times follow ids, from any cursor it shows the active messages before it once, newest first, to the end or past the first fetch that meets a tombstone |
| HandlerPaging.OutOfOrderLosesMessage | internal/messages/fresh.go:7-21 | two messages sent out of id order: the first page is the keyset query's, and following its cursor never shows the newer id |
| CursorReading.PassedIsLost | internal/httpserver/api.go:88-89 | a message left out of a page whose cursor has a lower id is never shown |
| CursorReading.BoundaryPasses | internal/httpserver/api.go:97-106 | past a page that ends at such a boundary, the rest decides |
| CursorReading.NoBoundaryFails | internal/httpserver/api.go:97-106 | a page that does not end so loses a message or shows one twice |
| OnDemandPaging.KeysetShowsSamePage | internal/messages/pagination.go:74-111 | on a full mirror the keyset query gives the same page and cursor |
| OnDemandPaging.KeysetIsIdOrderIff | internal/messages/pagination.go:82-87 | over a full mirror first pages of every size are in id order if and only if send times follow ids |
| MessageListing.KeysetReadShowsAll | internal/messages/pagination.go:74-111 | following the keyset query's cursors as rows shows every row after the cursor once, in order, and ends, whatever the send times are |
| MessageListing.KeysetReadTextsIff | internal/messages/pagination.go:24-111 | following them as texts does so if and only if the last cursor to follow stands at a message sent after the epoch; otherwise the reader is refused on the way |
| MessageListing.ListingGoesOn | internal/messages/pagination.go:82-87 | after any row of the listing, the query goes on exactly where that row stands |
| OnDemandPaging.OneIsNotEnough | internal/worker/ondemand.go:210-214 | asking for one message from a cursor can never get past the cursor's own message |
| OnDemandPaging.Collect | internal/worker/ondemand.go:222-238 | for any page, the inner loop takes its usable messages in order up to one past the limit, skipping zero ids and ids not before the cursor, and remembers the lowest id taken |
| OnDemandPaging.Round | internal/worker/ondemand.go:206-242 | one round extends the fetched prefix, or ends with nothing left |
| OnDemandPaging.FetchedIsPage | internal/messages/fresh.go:7-21 | when send times follow ids and nothing fetched is tombstoned, the handler's page is the page in order of id, one row past the limit being enough to know |
| OnDemandPaging.PageIsPrefix | internal/tdlib/session.go:285-301 | a filtered answer is a prefix of what is left, not empty if an advancing source has more |
| OnDemandPaging.NextPageIsSmaller | internal/httpserver/api.go:109-113 | after a next cursor exactly the page's messages are gone |
| MessageListing.OrderedIsListed | internal/messages/pagination.go:86-87 | when send times follow ids, the query's order is id order |
| MessageListing.FirstRow | internal/messages/pagination.go:86 | the first row of the listing precedes all others |
| MessageListing.CursorRoundTrip | internal/messages/pagination.go:24-60 | an encoded cursor is read back exactly when its message was sent after the epoch, and refused otherwise |
| MessageListing.DecodesIff | internal/messages/pagination.go:40-60 | a cursor's text is read exactly if it is of version 1, after the epoch and names a message, and then as it says |
| MessageMirror.NewestVersionIsStored | internal/messages/repository.go:87-99 | after any upserts and deletions in any order the stored version is the greatest seen and the guarded columns are its |
| MessageMirror.VisibleIffStoredAndNotDeleted | migrations/000012_message_tombstones.up.sql:2-9 | a message is visible exactly when it was stored and never deleted, whichever came first |
| MessageMirror.OrderDoesNotMatterIff | internal/messages/repository.go:87-99 | all runs of the same upserts and tombstones, permuted and repeated at will, show the same messages if and only if each message not deleted has one send time and one body among its decisive sightings |
| MessageMirror.OrderDoesNotMatterForIff | internal/messages/repository.go:87-99 | the same for one message that was not deleted: all runs show the same of it if and only if its sightings settle it |
| MessageMirror.EarlyEditMattersIff | internal/messages/repository.go:91-98 | two runs of the same statements show a message differently if and only if its newest edit is dated before the send time, it was also seen unedited, and the two bodies differ |
| MessageMirror.UnguardedOrderIff | internal/messages/repository.go:89-95 | all runs agree on a message's unguarded columns if and only if its sightings do |
| MessageMirror.EditNoticeHarmlessIff | internal/worker/updates.go:90-94 | an edit notice leaves the body safe from every redelivery if and only if each sighting with another body is older than the time it gives |
| MessageMirror.ContentHarmlessIff | internal/worker/updates.go:77-89 | a content update is safe from every redelivery if and only if each sighting that does not say what it wrote is older than the database's clock was |
| MessageMirror.UnguardedColumnsAreTheLast | internal/messages/repository.go:89-95 | sender and reply columns are the last upsert's |
| MessageMirror.StaleUpsertOverwritesSender | internal/messages/repository.go:89-90 | a stale upsert keeps the newer body but overwrites the sender |
| MessageMirror.EarlyEditLosesOrder | internal/messages/repository.go:91-98 | an edit time before the send time makes the stored body depend on order |
| MessageMirror.LateEditNoticeLosesOrder | internal/worker/updates.go:90-94 | a late edit notice lets an older body win |
| MessageMirror.SlowClockUndoesContent | internal/worker/updates.go:86 | a content update under a clock behind a sighting's edit time is undone by that sighting |
| MessageMirror.MessageStore.Upsert | internal/messages/repository.go:49-118 | inserts, or updates with the version guard; refuses without a write |
| MessageMirror.MessageStore.UpdateContent | internal/worker/updates.go:86 | overwrites the text and its entities and dates the edit now, if the message is stored |
| MessageMirror.MessageStore.UpdateEdited | internal/worker/updates.go:91 | overwrites the edit time, if the message is stored |
| MessageMirror.MessageStore.ApplyTombstones | internal/messages/repository.go:333-339 | marks exactly the stored messages that have tombstones |
| MessageMirror.MessageStore.StoreMessage | internal/worker/updates.go:18-27 | a stored message obeys deletions that came before it |
| MessageMirror.MessageStore.DeleteMessages | internal/worker/updates.go:47-53 | tombstones for all ids of a permanent deletion; none of them is visible afterwards |
| UpdateJournal.DrainedJournalIsMirrored | internal/worker/updates.go:106-173 | with the journal empty the mirror shows what each update executed once, in order of arrival, would show, whatever failed, was retried or ran at the same time, if sightings settle each message |
| UpdateJournal.JournalLosesNothing | internal/worker/updates.go:145-165 | an update leaves the journal only when all it has to leave in the mirror is there |
| UpdateJournal.StatementsDoTheUpdate | internal/worker/updates.go:18-75 | the statements a worker executes one by one for an update leave the mirror as processing the whole update does |
| UpdateJournal.DoneRowLeaves | internal/worker/updates.go:161-163 | a row whose statements were executed leaves the journal, and no other does |
| UpdateJournal.Journal.DrainBatch | internal/worker/updates.go:115-165 | the updates that go through leave in order; the first that fails stays at the head |
| UpdateJournal.Journal.ProcessUpdate | internal/worker/updates.go:43-104 | exactly when an update is an error, and its whole effect otherwise |
| UpdateJournal.FailingRowBlocks | internal/worker/updates.go:145-165 | in every run, while a row fails for every worker neither it nor any row that arrived after it leaves the journal |
| UpdateJournal.InvalidMessageBlocks | internal/worker/updates.go:18-27 | an update that fails validation blocks the journal so for good |
| MemberSnapshot.CompleteSnapshotIsExact | internal/worker/ondemand.go:178-203 | so it does when the database clock is not behind the start and nothing was seen at or after it |
| MemberSnapshot.SnapshotIsExactIff | internal/worker/ondemand.go:178-203 | told from the table, the pages and the clock before the call: a snapshot read to its last page leaves exactly its pages' peers active, as the set difference would, if and only if active rows on no page were last seen before the start and each listed peer's last stamp was not |
| MemberSnapshot.IncompleteSnapshotDeletesNobody | internal/worker/ondemand.go:185-202 | a snapshot cut short deletes nobody |
| MemberSnapshot.CompletesIff | internal/worker/ondemand.go:178-203 | a snapshot goes through, sweep and all, if and only if the session's answers are pages of valid members, none with the cursor it was asked with, up to one without a cursor |
| MemberSnapshot.RefusedIff | internal/members/repository.go:42-51 | a member is refused exactly if it has no id, or a kind that is neither empty nor a user's nor a chat's |
| MemberSnapshot.SameMicrosecondSurvives | internal/worker/ondemand.go:179 | a sighting in the starting microsecond survives unseen |
| MemberSnapshot.SlowClockDeletesSeen | internal/members/repository.go:75-77 | a database clock behind the worker's deletes a peer its page listed |
| MemberSnapshot.EmptyKindIsNotRecognised | internal/members/snapshot.go:20-26 | a key with an empty kind is stored as a user but not recognised by the direct form |
| MemberSnapshot.MemberTable.Upsert | internal/members/repository.go:39-93 | a sighting makes the row active and stamps it; invalid members write nothing |
| MemberSnapshot.MemberTable.MarkNotSeenSince | internal/members/reconcile.go:13-28 | deletes and counts exactly the active rows last seen before the start |
| MemberSnapshot.MemberTable.MarkMissingDeleted | internal/members/snapshot.go:16-46 | deletes exactly the active rows whose key is not listed |
| MemberSnapshot.MemberTable.StorePage | internal/worker/ondemand.go:189-194 | stores the page's members in turn, up to the first invalid one |
| MemberSnapshot.MemberTable.Snapshot | internal/worker/ondemand.go:178-203 | the page loop: failures, the last page, a cursor that stands still |
| ChatListPaging.FollowingSeesEachOnce | internal/tdlib/session.go:206-255 | under arbitrary partial loading, failures and retries, a reader of lists of any length has at any time seen exactly the chats before its place, main list then archive, each once, and ends within as many pages as there are entries and lists |
| ChatListPaging.TurnAdvances | internal/tdlib/session.go:230-254 | a page shows the next stretch, nothing between it and the next place is skipped, and fewer pages can follow |
| ChatListPaging.PageAtPlace | internal/worker/ondemand.go:145-174 | a page's cursor reads back as the place that follows and is never the one asked with, so "did not advance" is not reported |
| ChatListPaging.TextsFollowPlaces | internal/tdlib/session.go:246-250 | a reader holding cursor texts does what a reader holding list positions does |
| ChatListPaging.PrintedCursorIsRead | internal/telegram/chat_cursor.go:10-24 | a printed cursor is read back up to offset 100000 and refused beyond |
| ChatListPaging.PrintIsInjective | internal/tdlib/session.go:246-250 | different places print differently |
| ChatListPaging.OtherSpellingsAreRead | internal/telegram/chat_cursor.go:15-21 | signs and leading zeros are read too, so printing is not inverse the other way |
| ChatListPaging.HandsOutRefusedIff | internal/telegram/chat_cursor.go:20-22 | a page hands out a cursor that will be refused if and only if it continues in its list and ends beyond offset 100000 |
| ChatListPaging.NeverRefusedIff | internal/telegram/chat_cursor.go:20-22 | no reader is ever refused if and only if neither list is longer than 100000 |
| ChatListPaging.EndReachableIff | internal/telegram/chat_cursor.go:20-22 | some reader gets to the end if and only if both lists are shorter than 100100 |
| ChatListPaging.ListedIff | internal/tdlib/session.go:230-243 | a list shows its chats that have arrived and are not secret, and no others |
| ChatListPaging.ListChats | internal/tdlib/session.go:206-255 | the session's page: error, still loading, or items and next cursor |
| SendOnce.AtMostOneDispatch | internal/httpserver/send.go:63-120 | each request is handed to Telegram at most once in any run, across handlers, crashes and rate-limit roll-backs |
| SendOnce.DispatchedStaysReserved | internal/httpserver/send.go:88-97 | once handed over, a request keeps that handler's reservation and digest for good |
| SendOnce.AcceptedCarriesItsDispatch | internal/httpserver/send.go:107-120 | a recorded or answered acceptance carries the id of the one dispatch |
| SendOnce.ConflictedNeverDispatches | internal/httpserver/send.go:69-87 | a handler that meets a reservation never hands anything over |
| SendOnce.RetryIsAnswered | internal/httpserver/send.go:69-87 | a retry of an accepted request gets the dispatch's id for the same body and is refused for another |
| SendOnce.RetryIsTold | internal/httpserver/send.go:69-87 | what a later request is told, told from the row: the id of an accepted one, "pending or unknown" for a pending or unknown one, refused for another body |
| SendOnce.OutcomeIsRecorded | internal/httpserver/send.go:106-115 | once an outcome was recorded the row says accepted or unknown, with the message id, in every later state |
| SendOnce.DispatchIsAnswered | internal/httpserver/send.go:105-120 | a handler that handed its message over answers with its id if that went well and was recorded, and else that it cannot tell |
| SendOnce.DeniedNeverDispatches | internal/httpserver/send.go:91-102 | a handler that is over the limit or refused hands nothing over, now or later, and says which it was |
| SendOnce.ReservesIffFree | internal/httpserver/send.go:63-69 | a request is reserved, with its digest, exactly when no reservation is there, and can be again once it was taken back |
| SendOnce.ReservationStays | internal/httpserver/send.go:89-93 | a reservation changes only when its handler takes it back or records the outcome |
| SendOnce.SendRequests.Send | internal/httpserver/send.go:63-120 | one handler from reservation to record, in every outcome |
| AuditChain.ConcurrentWritersLeaveChains | internal/audit/writer.go:57-131 | in every run, with any interleaving over any keys, each key's rows form a linked chain, which the verifier accepts if its rows came back as they were hashed |
| AuditChain.HeadDecidesHistory | internal/audit/verifier.go:90-168 | two accepted chains of equal length and head agree on every payload, or two inputs with the same hash are at hand |
| AuditChain.TamperingIsNoticed | internal/audit/verifier.go:133-160 | rewriting one entry and leaving the rest is rejected, or the hash collides |
| AuditChain.AcceptedRowsAreCanonical | internal/audit/verifier.go:137-160 | an accepted chain has no row that came back differently, unless hash or encoding collide |
| AuditChain.FirstWriteAcceptedIff | internal/audit/writer.go:76-129 | for any storable event a run commits it to an empty log, and its chain is accepted if and only if the event and the one that comes back have one hash; otherwise the row is the first fault |
| AuditChain.UpperCaseAccountIsRejected | internal/httpserver/admin.go:105-136 | an account id in upper case is committed by a run and its chain then rejected at that row |
| AuditChain.VerifyFirstWrite | internal/audit/verifier.go:90-175 | the verifier run on a chain of one linked row answers intact, or names that row and its hash |
| AuditChain.LinkedIsAccepted | internal/audit/verifier.go:90-168 | a written chain is accepted if and only if every row hashes alike when read back |
| AuditAcceptance.KeptTextsAreAccepted | internal/audit/writer.go:48-131 | in every run, if the columns keep the texts of the events that writers began with, every key's chain is accepted, whatever the times given; nothing is assumed of rows |
| AuditAcceptance.CommittedRowIsAnEvents | internal/audit/writer.go:52-122 | every committed row has the texts of an event that a writer began with, each in its column, its time or the clock's in whole microseconds, on its account's chain |
| AuditAcceptance.WhoMayWrite | internal/audit/writer.go:178-191 | an event is valid exactly for one of five kinds of actors, about an action and a resource type that are not blank |
| AuditChain.RestoredIffCanonical | internal/audit/writer.go:100-122 | an event is restored as hashed if and only if every cast column keeps its text and the time is in microseconds |
| AuditChain.ChainOnlyGrows | internal/audit/writer.go:76-129 | what was committed to a chain stays at its start |
| AuditChain.CommitExtendsChain | internal/audit/writer.go:100-129 | a commit appends to its own chain and leaves every other chain alone |
| AuditChain.VerifyChain | internal/audit/verifier.go:90-175 | accepts exactly the chains whose every row checks, with count and head, and otherwise names the first row that does not |
| AuditChain.AuditLog.Write | internal/audit/writer.go:48-131 | a write appends one linked row to its chain, or nothing to any; what the row says is in `CommittedRowIsAnEvents` |
| RpcCorrelation.RepliesAreOwn | internal/tdlib/rpc.go:73-108 | in a run of any length a call returns only a received reply that bears its own id |
| RpcCorrelation.ReceiveLoopNeverBlocks | internal/tdlib/rpc.go:59-67 | in a run of any length each channel is sent to at most once, so the loop's next send has room |
| RpcCorrelation.NothingRegisteredAfterClose | internal/tdlib/rpc.go:86-94 | after close the map only shrinks and a call that comes to register is told so |
| RpcCorrelation.NothingSentAfterDestroy | internal/tdlib/rpc.go:40-48 | nothing is sent through a destroyed transport |
| RpcCorrelation.ReceivedIsDelivered | internal/tdlib/rpc.go:59-67 | a reply received for a registered number goes into the channel of the call registered for it, and into no other |
| RpcCorrelation.DeliveredIsReturned | internal/tdlib/rpc.go:97-107 | a call that takes a reply from its channel returns that reply |
| RpcCorrelation.GivingUpIsReturned | internal/tdlib/rpc.go:96-101 | a call whose context ended or whose loop is gone returns which of the two, and its number is no longer registered |
| RpcCorrelation.RegisteredStays | internal/tdlib/rpc.go:86-96 | a number stays registered for its call until its reply is received, the call returns, or it is registered again |
| RpcCorrelation.RegistersWhileOpen | internal/tdlib/rpc.go:86-95 | a call registers its number exactly while the client is open, and returns at once when it is closed |
| RpcCorrelation.StopEndsTheLoop | internal/tdlib/rpc.go:43-48 | once the client is stopped, the receive loop's next look is its last |
| RpcCorrelation.NumbersCollideIff | internal/tdlib/rpc.go:79-80 | two calls have one number if and only if their places differ by a multiple of 2^64 |
| RpcCorrelation.OpenNumbersDistinctIff | internal/tdlib/rpc.go:79-96 | open calls' numbers are distinct if and only if none stays open until one whole ranges later is numbered |
| RpcCorrelation.WrappedNumberTakesReply | internal/tdlib/rpc.go:79-96 | a run from the start in which a call waits while 2^64 more are numbered: the last takes over its entry and is handed the reply |
| RpcCorrelation.Rpc.Register | internal/tdlib/rpc.go:86-96 | registers exactly when the client is open |
| RpcCorrelation.Rpc.Take | internal/tdlib/rpc.go:60-63 | looks a reply's call up and forgets it in one step |
| RateLimit.RateBound | internal/ratelimit/limiter.go:47-60 | over any stretch of requests the admitted cost is at most the capacity and the refill of its duration |
| RateLimit.TokensStayInRange | internal/ratelimit/limiter.go:47-60 | tokens stay between zero and the capacity |
| RateLimit.ExpiryIsInvisible | internal/ratelimit/limiter.go:62-64 | letting keys expire changes no answer and no bucket |
| RateLimit.RetryAfterIsExact | internal/ratelimit/limiter.go:54-60 | a denied request with nothing admitted since is admitted if and only if it waits as long as it was told |
| RateLimit.RateBoundIffTimesInOrder | internal/ratelimit/limiter.go:47-60 | requests at given times keep to the rate on every stretch, whatever admissible costs they have, if and only if the times never go back |
| RateLimit.ClockSteppingBackBreaksBound | internal/ratelimit/limiter.go:50-51 | two requests whose clock steps back exceed the rate |
| RateLimit.DeadlineIsLatest | internal/ratelimit/limiter.go:69-80 | the cooldown's deadline is the latest one asked for |
| RateLimit.RestingUntilLatest | internal/ratelimit/limiter.go:153-166 | an account rests exactly until the latest deadline asked for |
| RateLimit.LedgerBound | internal/ratelimit/limiter.go:50-60 | what was spent and what is found never exceed what was found before and the refill since |
| RateLimit.LimitedKey.Allow | internal/ratelimit/limiter.go:82-131 | the script on one key, and exactly when its limits are refused |
| RateLimit.Cooldown.SetAccountCooldown | internal/ratelimit/limiter.go:133-151 | keeps the longer wait, with at least a millisecond |
| RateLimit.Cooldown.AccountCooldown | internal/ratelimit/limiter.go:153-166 | the wait that is left, or none |
| LikeEscape.PatternMatchesOccurrences | internal/messages/repository.go:197-202 | the search pattern is well formed and matches a text exactly when the query occurs in it, for all strings |
| LikeEscape.InsensitiveSearch | internal/messages/repository.go:197-202 | with lower-casing on both sides it finds the query in any case |
| LikeEscape.SequentialIsEach | internal/messages/repository.go:297-302 | the three replacements in this order are one escape a character |
| LikeEscape.EscapedMatchesLiterally | internal/messages/repository.go:297-302 | an escaped text matches itself and nothing else |
| LikeEscape.OrderOfReplacements | internal/messages/repository.go:298-300 | replacing the backslash last would give another pattern |
| LikeEscape.UnescapedMatchesMore | internal/messages/repository.go:197 | without the escape one percent sign matches every text |

## Left out

- HistoryBackfill.ChatBackfill.HandleChatHistory: does not model a message without a send time (the same failure as a zero id), the sync lease around the handler (losing it is the step that stops a handler) or the audit entry.
- HistoryBackfill.ChatBackfill.EnqueueChatHistory: does not model the refusal of an empty chat id, because one chat is modelled.
- HistoryBackfill.BackfillCoverage: jobs lost to a permanent error, to the age limit or to the stream's limits are outside it; the resume cursor is an integer, not the JSON number it is stored as.
- OAuthGrants.GrantStore.Token: client authentication, the resource parameter and the audit entry are left out; hashes are numbers and the verifier's digest is given.
- OAuthGrants.GrantStore.Consent: the browser's part (cookie, origin, expiry of the authorization request) is left out; the registration's activation is in `RegistrationPool`.
- OAuthGrants.GrantStore.AuthenticateBearer: the token prefix and the scopes of the principal are left out.
- `RevokeToken` (internal/access/repository.go:156) has no caller and is not modelled: a bearer is revoked only with its client.
- AuditAcceptance.KeptTextsAreAccepted: the columns' casts are arbitrary functions, so which texts they keep is not said; `UpperCaseAccountIsRejected` has one they do not.
- SessionLease.SessionRuntime.Acquire: the creation of a missing row under the account-status guard, the observed-state column and the shard key are left out; `SetObservedState` is fenced as `Release` is, without the check of the expiry.
- SyncLease.SyncState.Fail: the next retry time and the error text are left out, and so is the order of sync types.
- MessageMirror.MessageStore.Upsert: blank strings are taken as empty ones, and a zero send time is not represented.
- MessageMirror.OrderDoesNotMatterIff: edit notices and content updates, which write the edit time unconditionally, are outside it; `EditNoticeHarmlessIff` and `ContentHarmlessIff` say when they do no harm.
- MessageMirror.MessageStore.StoreMessage: the media registration between the two statements is left out.
- UpdateJournal.DrainedJournalIsMirrored: content and edit updates are outside it, as in `OrderDoesNotMatterIff`.
- UpdateJournal.Journal.ProcessUpdate: chat upserts, media registration and content or edit updates are not modelled; an undecodable row ends the worker in the code and is not represented.
- MemberSnapshot.MemberTable.Upsert: names and metadata columns are left out; kinds are taken trimmed and in lower case.
- MemberSnapshot.MemberTable.MarkMissingDeleted: the trimming of kinds and the number of rows are left out.
- ChatListPaging.ListChats: the order of a list is fixed while it is read; TDLib may reorder it.
- SendOnce.SendRequests.Send: validation of the request, chat lookup and the cooldown check come before the reservation and are left out; bodies are compared by digest, as in the code.
- AuditChain.AuditLog.Write: SHA-256, JSON and the database's casts are arbitrary functions; trimming removes spaces only. Injectivity of the hash is not assumed, because no function into 32 bytes has it: collisions are exhibited instead. A transaction lost before its commit is a step of the runs, not of the method.
- RateLimit.LimitedKey.Allow: floating-point rounding and the refusal of a blank key are left out.
- RateLimit.RetryAfterIsExact: floating-point rounding and the truncation of the retry time to nanoseconds are left out.
- LikeEscape.InsensitiveSearch: lower-casing maps one character to one; mappings that change the length of a text are left out.
- OnDemandPaging.ListMessages: the set of tombstones does not change while the chat is read, and the chat itself is active; cursors are rows, which the texts give back exactly for messages sent after the epoch (`CursorRoundTrip`); the database ids between the fetch and the listing are the messages' own; a chat that changes while it is read is outside it. JSON and base64 of cursors are not modelled.
- The per-account lock of on-demand refreshes, and the branches for profile, contacts, search and media: they would add easy members.
- `disposition` and the worker slots: only their effect, acknowledge or deliver again, is in the backfill protocol.
- Media download states, previews and links: their bounds follow from single statements.
- HTTP routing, permissions middleware, MCP wiring, configuration, deployment: no deep invariant.
- TDLib, PostgreSQL, Redis, NATS and MinIO themselves: oracles and atomic steps with stated assumptions; a statement's time is the clock's time when it runs.
