# Verified core of the article archive service

This project states in Dafny what the hard parts of the service do and proves properties of it:
the concurrent article writers, the fenced account lease and the credentials behind it, budgeted image
fetching and address filtering, the cookie jar, identity decoding, the scroll planner and the
configuration bundle. Run `dafny verify dfyconfig.toml` in this directory.

Each file is one module, named after its part of the service.

| file | part of the service |
|---|---|
| `ArticleStore.dfy`, `ArticleHandlers.dfy`, `ArticleLaws.dfy`, `ArticleRuns.dfy` | article, link, revision and job tables; the backfill and refresh transactions as code over a unit of work; what one transaction does; all interleavings of any number of workers |
| `UrlRewriter.dfy` | the rewriting of image sources in serialized HTML, on strings |
| `AssetFetch.dfy`, `Addresses.dfy` | the budgeted fetch loops; address classification and DNS filtering |
| `AccountLease.dfy`, `HeartbeatTiming.dfy`, `GuardRuns.dfy`, `SessionTeardown.dfy` | the lease row and its guard; when the heartbeat keeps it alive; the sticky cancel bit; opening and releasing a session |
| `CredentialRuns.dfy`, `AuthService.dfy`, `CredentialCipher.dfy` | versions of one account's credentials over all runs; the refresh and replacement code with others acting at every await; the encrypted record |
| `CookieJar.dfy`, `QrSession.dfy` | the cookie jar, and lookup and append on headers |
| `Identity.dfy`, `Base64.dfy` | decoding of `__biz` values |
| `ScrollPlan.dfy`, `ConfigBundle.dfy` | the scroll planner and the bundle validator |
| `Options.dfy`, `Text.dfy` | result types and string operations |

Code that updates state is a method or a class proved against a specification function; the laws are
then proved about that function. Protocols are step systems: `After` is what one action does, `Enabled`
when it may happen, and the theorems range over every sequence of enabled actions.

Hypotheses are parameters with stated laws: the AEAD is ideal (section 2.8 of RFC 8439: it opens exactly what it
sealed, and a sealed text determines its nonce, account and plaintext; `CredentialCipher.IdealAeadIsLawful` gives an
instance), JSON decoding inverts encoding, UTF-8 agrees with ASCII and inverts, the URL parser is idempotent, the
clock never goes back. Fetched content, answers of the store and random draws are arbitrary.

## What does not hold as documented

Each of these has its exact condition as a lemma, and a failing input or run.

- Links and HTML agree after every commit (the promise at `src/application/sync_service.rs:270-279`): a
  refresh whose page has a nonblank body that sanitizes to nothing replaces the links by none while the
  article keeps its stored HTML. `ArticleLaws.RefreshKeepsLinkedIff` gives the condition,
  `ArticleRuns.EmptyRefreshLosesLinks` a run from the empty service. A backfill is safe on every path as long as
  the sanitized page holds no cached route of its own, which is exactly that none of its texts spells one
  (`ArticleLaws.FreshIffTextsAreFresh`); a text can (`ArticleLaws.TextCanLookCached`).
- Rewriting operates only on serialized `src` attributes (`src/archive/url_rewriter.rs:3-7`): it scans text, and a
  text that reads ` src="` before an image can move the scan off the image. It touches exactly the sources, for every
  replacement, if and only if no text before an image holds the marker and the last text no value
  (`UrlRewriter.RewritesExactlyTheSourcesIffAligned`).
- A succeeded refresh leaves no listed image external (`src/application/asset_refresh_handler.rs:266-290`): that
  holds if and only if every text before an image is synced, that is, holds no marker after its complete stray values
  (`ArticleLaws.CompleteRefreshIsLocalIff`); `ArticleLaws.SucceededRefreshLeavesImageExternal` is the failing refresh,
  for every absolute URL.
- A record decrypts to what was committed: the row keeps microseconds and the payload nanoseconds, so the
  expiry cross-check rejects every record whose expiry is finer (`now + credential_ttl` at
  `src/acquisition/weread_qr.rs:576` is). `CredentialCipher.RowDecryptsIffWholeMicroseconds`.
- Nothing goes through a cancelled guard: the usability check and the store call are two steps, so an
  operation checked earlier still goes through while the store holds the lease live.
  `GuardRuns.GoesThroughIff` and `GuardRuns.CancelledReplacementGoesThrough`. The store's own token check
  still prevents any stale write (`CredentialRuns.StaleHoldersNeverWrite`).
- A heartbeat period below the lease duration, all that the configuration checks, does not keep the lease
  alive: a period one second below it loses the lease on a start-up of one second
  (`HeartbeatTiming.ShortPeriodIsNotEnough`). `HeartbeatTiming.LiveIffSafe` is the condition.

## Model

| member | source | states |
|---|---|---|
| `ArticleHandlers.PersistSuccess` | src/application/article_backfill_handler.rs:415-618 | for every script of storage failures: the backfill commits, and then exactly the specified write over the locked revision, if and only if no operation failed and the write has a result; otherwise the database is as it was |
| `ArticleHandlers.PersistArticle` | src/application/article_backfill_handler.rs:440-588 | every path of the article part: stale, preserved, reconciled, rejected, cleared, without archiving |
| `ArticleHandlers.Finalize` | src/application/asset_refresh_handler.rs:302-468 | the same for the refresh transaction, for a job with or without a resolvable target |
| `ArticleHandlers.StoreRefreshed` | src/application/asset_refresh_handler.rs:377-423 | a stored replacement rewrites and upserts; a rejection turns the outcome inconclusive and writes nothing |
| `ArticleHandlers.PublishChange` | src/application/article_backfill_handler.rs:590-617 | revision compare-and-set, rebuild request and job outcome, in that order, the first two only on a visible change |
| `ArticleHandlers.UnitOfWork.ReplaceForArticle` | src/persistence/repositories/asset_repository.rs:1948-2030 | a replacement installs exactly the stored assets; a rejection rolls back to the links before |
| `ArticleHandlers.UnitOfWork.BumpRevision` | src/persistence/repositories/source_repository.rs:438-477 | compare-and-set on the feed revision |
| `ArticleHandlers.UnitOfWork.Commit` | src/application/article_backfill_handler.rs:617-617 | only the commit publishes the transaction's work |
| `ArticleHandlers.FetchedIsCompleteIff` | src/application/sync_service.rs:239-257 | an unsigned fetch result is complete exactly when it has one image per URL, and then its occurrences are exactly 0..n-1 |
| `ArticleHandlers.CompleteIff` | src/application/sync_service.rs:239-257 | a set in any order is complete if and only if nothing is signed and its images are one for each position, with the URL of that position |
| `ArticleStore.RewrittenRefsAreLinked` | src/application/article_backfill_handler.rs:505-524 | every local route that rewriting puts into fresh HTML, whatever the HTML, has a link row |
| `ArticleStore.EveryStoredIsLinked` | src/persistence/repositories/asset_repository.rs:2799-2830 | attaching assets of distinct occurrences loses none |
| `ArticleStore.OnlyStoredIsLinked` | src/persistence/repositories/asset_repository.rs:2799-2830 | nothing else is attached |
| `ArticleStore.RefersIsMentioned` | src/application/article_backfill_handler.rs:463-465 | the textual test for a cached representation misses no cached reference |
| `ArticleStore.MentionsIffInside` | src/application/article_backfill_handler.rs:463-465 | the test asks whether the text occurs anywhere |
| `ArticleStore.DeletedSourceIsGone` | migrations/0001_jobs.sql:135-136 | deleting a source leaves nothing of its articles and links, and touches nothing else |
| `ArticleStore.UpsertKeepsLinked` | src/domain/article.rs:343-375 | an accepted observation with linked content, or with none over linked content, stays linked through the merge |
| `ArticleLaws.BackfillPublishes` | src/application/article_backfill_handler.rs:590-617 | in every committed backfill the revision advances, and one rebuild is requested, exactly when the upsert was visible; the outcome is in the same commit |
| `ArticleLaws.RefreshPublishes` | src/application/asset_refresh_handler.rs:424-468 | the same for a refresh, which writes nothing but its outcome unless it succeeds |
| `ArticleLaws.ApplyKeepsLinked` | src/application/article_backfill_handler.rs:452-588 | every path of a backfill keeps every cached reference linked |
| `ArticleLaws.RefreshKeepsLinkedIff` | src/application/asset_refresh_handler.rs:376-423 | a successful refresh keeps every cached reference linked if and only if its content is nonempty or the stored content has none |
| `ArticleLaws.ArchiveSurvives` | src/application/article_backfill_handler.rs:478-560 | incomplete or rejected images never cost an archived article its content, digest or links |
| `ArticleLaws.CompleteRefreshIsLocalIff` | src/application/asset_refresh_handler.rs:266-290 | after a complete refresh every image has the route of an asset fetched from its own URL if and only if every text before an image is synced; any other image keeps its URL |
| `ArticleLaws.SucceededRefreshLeavesImageExternal` | src/application/asset_refresh_handler.rs:376-468 | for every absolute URL, a refresh that commits as succeeded and stores the image with that external URL |
| `ArticleLaws.UpsertReportsTheChange` | src/domain/article.rs:418-427 | an upsert reports a change exactly when what the feed shows changed, and touches no other article |
| `ArticleLaws.UpsertIsIdempotent` | src/persistence/repositories/article_repository.rs:254-323 | repeating an upsert changes nothing and reports nothing |
| `ArticleLaws.BackfillWrites` | src/application/article_backfill_handler.rs:440-618 | the tables after any committed backfill, path by path: stale, without archiving, preserved, without content, installed, rejected; every metadata field, content, digest and link |
| `ArticleLaws.RefreshWrites` | src/application/asset_refresh_handler.rs:336-468 | what any committed refresh decided, in which case, and the tables after it |
| `ArticleLaws.AcceptedIsStored` | src/application/article_backfill_handler.rs:452-588 | an observation that is not older is stored under its version on every path |
| `ArticleLaws.CompleteIsInstalled` | src/application/article_backfill_handler.rs:489-533 | a complete observation replaces content and links by its own |
| `ArticleLaws.ApplyKeepsDigests` | src/application/article_backfill_handler.rs:505-533 | every path of a backfill stores the digest of the content it stores |
| `ArticleLaws.FreshIffTextsAreFresh` | src/archive/sanitizer.rs:165-250 | sanitized content with absolute image URLs has no cached reference if and only if none of its texts spells one |
| `ArticleLaws.TextCanLookCached` | src/archive/url_rewriter.rs:126-144 | a text that spells the route of an asset is taken for a cached image |
| `ArticleRuns.RunsStayLinked` | src/application/article_backfill_handler.rs:437-588 | over every interleaving of any number of workers, commits, aborts and administration, every cached reference of every article is linked |
| `ArticleRuns.StepKeepsGood` | src/application/asset_refresh_handler.rs:336-468 | the inductive step of it, for each action |
| `ArticleRuns.EmptyRefreshLosesLinks` | src/application/asset_refresh_handler.rs:253-268 | for every archiving deployment and absolute URL, a run from the empty service after which a cached reference has no row |
| `ArticleRuns.DigestsMatchContent` | src/application/archive_service.rs:59-67 | over every run every stored article carries the digest of its stored content |
| `ArticleRuns.VersionsNeverDecrease` | src/persistence/repositories/article_repository.rs:254-323 | over every run that does not delete its source an article stays, its version never decreases, and neither its content nor a known field is lost |
| `ArticleRuns.StaleWorkersChangeNothing` | src/application/article_backfill_handler.rs:452-458 | once a newer version is stored, an older reservation commits nothing but its job outcome, whatever happens in between |
| `ArticleRuns.RevisionNeverConflicts` | src/application/article_backfill_handler.rs:429-435 | under the source lock the revision compare-and-set cannot fail |
| `ArticleRuns.CommitEffect` | src/application/asset_refresh_handler.rs:424-468 | in every orderly state a commit advances its source's revision, and requests a rebuild, if and only if what the feed shows of the article changed; no other article is touched |
| `ArticleRuns.RevisionsCountRebuilds` | src/application/article_backfill_handler.rs:590-617 | over every run without other bumps, a revision grows by exactly the rebuilds requested for its source |
| `UrlRewriter.RewriteSrcAttributes` | src/archive/url_rewriter.rs:146-174 | the cursor loop computes the rewriting |
| `UrlRewriter.HasSrcMatching` | src/archive/url_rewriter.rs:126-144 | the search loop finds a matching value exactly when scanning lists one |
| `UrlRewriter.ScanOfRewrite` | src/archive/url_rewriter.rs:146-174 | scanning rewritten text lists the replaced values one for one, for every text |
| `UrlRewriter.RewriteComposes` | src/archive/url_rewriter.rs:146-174 | rewriting twice is rewriting once with the composed replacement |
| `UrlRewriter.UnmatchedIsUnchanged` | src/archive/url_rewriter.rs:3-7 | unresolved text is left intact |
| `UrlRewriter.RewrittenValues` | src/archive/url_rewriter.rs:14-24 | after rewriting every value is a target or was there and is covered by no entry |
| `UrlRewriter.RewritesExactlyTheSourcesIffAligned` | src/archive/url_rewriter.rs:3-7 | rewriting touches exactly the image sources, for every replacement, if and only if no text before an image contains the marker and the last text no value |
| `UrlRewriter.DocumentRewrites` | src/archive/url_rewriter.rs:146-174 | what rewriting makes of any document: stray values in texts are replaced, images behind synced texts are, every other image keeps its value |
| `UrlRewriter.DocumentScans` | src/archive/url_rewriter.rs:126-144 | the scan finds exactly the values in texts and the images behind synced texts |
| `UrlRewriter.EscapeInjective` | src/archive/url_rewriter.rs:176-190 | different URLs are escaped differently |
| `UrlRewriter.UnescapeInverts` | src/archive/url_rewriter.rs:176-190 | reading the character references of the escaped text gives the value back |
| `UrlRewriter.EscapedIsSafe` | src/archive/url_rewriter.rs:176-190 | escaped text holds no markup character |
| `UrlRewriter.EscapesAgreeIffAllowed` | src/archive/sanitizer.rs:324-343 | the rewriter's key is the sanitizer's serialization exactly when no character is dropped |
| `UrlRewriter.AllowedIff` | src/archive/sanitizer.rs:337-343 | dropped are the controls but for tab and line ends, and two noncharacters |
| `AssetFetch.ReadBody` | src/application/asset_archive_service.rs:666-713 | the chunk loop with its two time checks and saturating counter computes the specified reading |
| `AssetFetch.FetchAssets` | src/application/asset_archive_service.rs:321-471 | the URL loop computes the specified run |
| `AssetFetch.FetchIsBounded` | src/application/asset_archive_service.rs:332-471 | each request goes out with a counter equal to all bytes received and below the budget; all received but the last chunk fits; assets are in order and within both limits |
| `AssetFetch.BodyAccounting` | src/application/asset_archive_service.rs:666-713 | reading one body keeps the accounts, including chunks of discarded bodies |
| `AssetFetch.AcceptedExactly` | src/application/asset_archive_service.rs:666-713 | a body is accepted exactly when it arrives whole, nonempty, within the limit and in time, and then as it is |
| `AssetFetch.FetchReturnsTheDelivered` | src/application/asset_archive_service.rs:321-471 | with budgets that suffice, up to the last URL, the count limit or a send timeout, exactly the images of the delivering URLs are archived, each at its own position and in order, whatever the other URLs do |
| `AssetFetch.StopsIff` | src/application/asset_archive_service.rs:332-392 | what ends a run before its last URL, exactly, and that nothing is requested or archived after it |
| `AssetFetch.ReadRepairBody` | src/application/asset_archive_service.rs:179-215 | the repair loop computes the specified reading |
| `AssetFetch.RepairExactly` | src/application/asset_archive_service.rs:179-215 | accepted exactly when whole, nonempty, within limit and deadline; otherwise a complete body is a budget failure |
| `AssetFetch.RepairFailsExactly` | src/application/asset_archive_service.rs:179-215 | unreadable if and only if the transfer fails, or ends with nothing, before time and limit are spent; any other failure is a spent budget |
| `Addresses.CidrIsInterval` | src/application/asset_archive_service.rs:826-842 | the mask test is membership in the integer interval of the block, for every width, address and prefix |
| `Addresses.SegmentMaskIsCidr` | src/application/asset_archive_service.rs:809-816 | masking the leading 16-bit segment is the 128-bit mask test |
| `Addresses.PrivateV4IsUnion` | src/application/asset_archive_service.rs:794-809 | the IPv4 classification is the union of its blocks (section 3 of RFC 1918 among them) |
| `Addresses.PrivateV6IsUnion` | src/application/asset_archive_service.rs:810-823 | the IPv6 classification is the union of its blocks (sections 2.5.5.2 and 2.5.6 of RFC 4291, section 3.1 of RFC 4193) |
| `Addresses.MappedIsBlock` | src/application/asset_archive_service.rs:844-854 | the mapped test is the block ::ffff:0:0/96 and yields its low 32 bits |
| `Addresses.OctetsOfV4` | src/application/asset_archive_service.rs:844-854 | an address has the octets it is written with |
| `Addresses.MappedClassifiesAsV4` | src/application/asset_archive_service.rs:812-813 | an IPv4-mapped address is classified as its IPv4 address |
| `Addresses.FilterIsSubsequence` | src/application/asset_archive_service.rs:880-885 | filtering keeps exactly the public positions in order |
| `Addresses.ResolvesIffPublic` | src/application/asset_archive_service.rs:863-878 | a host resolves exactly when one of its addresses is public |
| `AccountLease.DeadTokensStayDead` | src/persistence/repositories/account_lease_repository.rs:73-186 | a token that does not hold the lease never holds it again, whatever calls arrive |
| `AccountLease.SecondReleaseChangesNothing` | src/acquisition/browser_pool.rs:95-101 | a repeated release changes nothing, whatever came between |
| `AccountLease.AccountLeaseGuard.SendHeartbeat` | src/acquisition/browser_pool.rs:224-248 | extends exactly the held lease; any failure cancels the guard for good |
| `AccountLease.AccountLeaseGuard.SendRelease` | src/acquisition/browser_pool.rs:308-326 | the bit is set first; only the held row is deleted |
| `AccountLease.AcquireGuard` | src/acquisition/browser_pool.rs:162-191 | a fresh token over an absent or expired row; a live owner refuses |
| `HeartbeatTiming.LiveIffSafe` | src/acquisition/browser_pool.rs:251-299 | the lease is live at every instant of every possible schedule, whatever other owners call in between, if and only if start-up, period, scheduling and request delay together, and the round trip with its scheduling, stay below its duration |
| `HeartbeatTiming.OthersAreRefused` | src/acquisition/browser_pool.rs:251-299 | with safe timing every acquisition among any calls of other owners is refused, at any tick |
| `HeartbeatTiming.ShortPeriodIsNotEnough` | src/acquisition/browser_pool.rs:263-268 | a period below the duration with which the lease is lost |
| `GuardRuns.LostStaysLost` | src/acquisition/browser_pool.rs:224-326 | over every run of operations, heartbeats, release, time and other owners, a guard whose row is lost never holds it again |
| `GuardRuns.NothingPassesWithoutLease` | src/application/auth_service.rs:718-744 | from a lost row on nothing more goes through, cancel bit or not |
| `GuardRuns.NothingIsCheckedAfterTheBit` | src/acquisition/browser_pool.rs:203-217 | after the bit is set, what was not checked before never gets past its check |
| `GuardRuns.NothingIsCheckedAfterAFailure` | src/acquisition/browser_pool.rs:224-326 | a failed operation, a failed heartbeat and the start of a release each set the bit for good, with that effect |
| `GuardRuns.HealthyIsNotCancelled` | src/acquisition/browser_pool.rs:224-326 | over every run without a failed request or a release the bit stays clear |
| `GuardRuns.FailedRequestIsRefused` | src/acquisition/browser_pool.rs:224-248 | a failed request never passes; a failed capability check sets the bit, a refused replacement does not |
| `GuardRuns.FailedBeatSetsTheBit` | src/acquisition/browser_pool.rs:281-296 | a heartbeat leads to the bit exactly if it fails |
| `GuardRuns.GoesThroughIff` | src/application/auth_service.rs:718-744 | after the bit is set an operation can go through if and only if it was checked before and the row is still held live by the token |
| `GuardRuns.NothingAfterRelease` | src/acquisition/browser_pool.rs:308-326 | after a decided release, or expiry, nothing goes through |
| `GuardRuns.NothingAfterRefusal` | src/acquisition/browser_pool.rs:275-296 | after a heartbeat the store refused, nothing goes through |
| `GuardRuns.CancelledReplacementGoesThrough` | src/application/auth_service.rs:588-616 | a run in which a replacement is accepted after its guard was cancelled |
| `SessionTeardown.AuthenticatedBrowserSession.Release` | src/acquisition/webdriver.rs:959-983 | in every cancellation the exact order of what is sent; the permit is returned once and nothing is left in the session |
| `SessionTeardown.AuthenticatedBrowserSession.Drop` | src/acquisition/webdriver.rs:998-1052 | dropping hands everything to the cleanup once |
| `SessionTeardown.AuthenticatedBrowserSession.StartLeaseHeartbeat` | src/acquisition/webdriver.rs:912-928 | a second heartbeat is refused, as are periods that do not fit |
| `SessionTeardown.AuthenticatedBrowserSession.CloseWebDriver` | src/acquisition/webdriver.rs:1081-1118 | what closing issues, in order; it succeeds exactly if the quit did, in time |
| `SessionTeardown.ClosingAbandonsUnless` | src/acquisition/webdriver.rs:1076-1118 | closing hands the client over once and abandons its handle if and only if the quit did not succeed in time |
| `SessionTeardown.TeardownIsComplete` | src/acquisition/webdriver.rs:959-1052 | at every drop point, with a runtime or without: exactly how often the release is sent, always after the heartbeat ended, once; a client goes to exactly one closer or, only without a runtime, is dropped in place, and is abandoned, once, if and only if its closer failed or was dropped |
| `SessionTeardown.ReleasedAfterClosing` | src/acquisition/webdriver.rs:959-983 | without a drop: heartbeat, browser, lease, in this order |
| `SessionTeardown.WithoutRuntime` | src/acquisition/webdriver.rs:1025-1031 | without a runtime the lease is released if and only if the release itself got to the store, and the client is dropped in place if and only if it was not taken yet |
| `SessionTeardown.TeardownFreesOnlyItsOwnLease` | src/acquisition/browser_pool.rs:95-101 | the first decided release takes the token off the account for good, a second one changes nothing, and neither frees another owner's lease |
| `SessionTeardown.OpenAuthenticated` | src/acquisition/browser_pool.rs:414-437 | capacity first, waiting without a permit, then the lease; a refusal gives the permit back |
| `SessionTeardown.OpenAndRelease` | src/acquisition/browser_pool.rs:408-437 | a whole session, with any runtime, period, client and drop point, returns its permit, keeps nothing and sends only its own release |
| `CredentialRuns.NoUpdateIsLost` | src/persistence/repositories/credential_repository.rs:251-395 | over every run each version of each incarnation is written once, each replacement overwrites the record it read, and tokens never go back |
| `CredentialRuns.StepKeepsGood` | src/application/auth_service.rs:558-748 | the inductive step, for every agent, administration and passing time |
| `CredentialRuns.CommitsIffLeaseIsLive` | src/application/auth_service.rs:588-616 | a loaded agent's commit succeeds exactly when its token holds the live lease |
| `CredentialRuns.StaleHoldersNeverWrite` | src/application/auth_service.rs:551-556 | a holder that lost its lease never writes again |
| `CredentialRuns.DeletionFencesEverybody` | src/persistence/repositories/credential_repository.rs:409-425 | once the account is deleted no token drawn before ever writes again, over every run, even after it is provisioned anew |
| `CredentialRuns.UndisturbedReplacementCommits` | src/application/auth_service.rs:558-748 | lease, load, commit and release, undisturbed, replace or enroll the secret and leave the account free |
| `CredentialRuns.DisabledStays` | src/persistence/repositories/credential_repository.rs:251-395 | over every run only enabling, disabling and deletion change whether the account is disabled |
| `CredentialRuns.DisableSetsTheFlag` | src/persistence/repositories/credential_repository.rs:377-407 | disabling writes the flag of the account and nothing else |
| `CredentialRuns.ProvisionStartsOver` | src/persistence/repositories/credential_repository.rs:224-250 | creating starts a new incarnation at version 1, only if there is no account |
| `CredentialRuns.IdleAgentGetsTheLeaseIff` | src/persistence/repositories/account_lease_repository.rs:73-186 | an idle agent gets the lease under a fresh token exactly when nobody holds it live |
| `CredentialRuns.BeatKeepsTheLease` | src/persistence/repositories/account_lease_repository.rs:73-186 | a heartbeat extends a held lease from the store's clock; a crash leaves it to expire |
| `CredentialRuns.ReplaceOrEnroll` | src/persistence/repositories/credential_repository.rs:251-376 | a live holder replaces credentials or enrolls a placeholder, never the other way round |
| `AuthService.RefreshUnderLease` | src/application/auth_service.rs:701-748 | what every answer says of the records seen, the time of the call and what failed; success is exactly one own write, the direct successor of the record that was due; anything else wrote nothing under its token |
| `AuthService.UndisturbedRefreshes` | src/application/auth_service.rs:701-748 | with everything working and the account active and due, the only answer left is refreshed |
| `AuthService.ReplaceUnderLease` | src/application/auth_service.rs:580-616 | the same for an operator's replacement or the enrolment of a placeholder |
| `AuthService.RefreshIfNeeded` | src/application/auth_service.rs:645-699 | the double-checked refresh from the first look to the release: what every answer says, and that it wrote under its token if and only if the part under the lease succeeded, which only a failing heartbeat or release can hide |
| `AuthService.CommitLoaded` | src/persistence/repositories/credential_repository.rs:251-395 | a working commit succeeds if and only if the token holds the live lease, and then follows the record that was read; any failure changes nothing |
| `AuthService.GrownCoversEveryRun` | src/application/auth_service.rs:640-643 | every run of the others leaves the log with no new entry under this token |
| `AuthService.LogGrowsOverEveryRun` | src/application/auth_service.rs:640-643 | what may happen at an await without a lease covers every run |
| `AuthService.OthersCoverEveryRun` | src/application/auth_service.rs:640-643 | what is allowed to happen at an await covers every run of the other agents |
| `CredentialCipher.DecryptsExactly` | src/application/auth_service.rs:248-284 | exactly the framed, sealed, well-formed payloads of the same account decrypt |
| `CredentialCipher.RefusesCiphertextIff` | src/application/auth_service.rs:248-284 | the ciphertext is refused if and only if it is not a framed sealing for this account |
| `CredentialCipher.MovedBlobIsRefused` | src/application/auth_service.rs:172-173 | a blob moved to another account, or with another nonce, is refused |
| `CredentialCipher.RoundTripIff` | src/application/auth_service.rs:215-284 | every encrypted payload decrypts to itself exactly when it expires after the epoch |
| `CredentialCipher.EncryptedUnderItsNonce` | src/application/auth_service.rs:216-246 | the blob carries the drawn nonce and opens under exactly this nonce and account |
| `CredentialCipher.RowDecryptsIffWholeMicroseconds` | src/application/auth_service.rs:761-780 | after any history of writes the row decrypts to the last committed credentials if and only if their expiry is whole microseconds |
| `CredentialCipher.StoredInstantTruncates` | src/application/auth_service.rs:761-780 | the row's expiry is the nearest whole microsecond toward 2000 |
| `CredentialCipher.WebCookieIff` | src/domain/credentials.rs:96-115 | a web cookie is a nonblank header without controls each of whose pieces names a cookie |
| `CredentialCipher.CookiePartIff` | src/domain/credentials.rs:104-109 | a piece names a cookie if it has an equals sign with more than whitespace before it |
| `CookieJar.HeaderRoundTrip` | src/acquisition/weread_qr.rs:419-458 | parsing a printed jar gives the same ordered jar (section 4.2.1 of RFC 6265) |
| `CookieJar.ParseHeaderKeepsValid` | src/acquisition/weread_qr.rs:419-447 | names stay unique ignoring case, without `=` or `;`, values without `;` |
| `CookieJar.PutAllMerges` | src/acquisition/weread_qr.rs:425-447 | first-seen order, last writer wins per name |
| `CookieJar.AttemptCookieJar.UpdatePair` | src/acquisition/weread_qr.rs:425-447 | the in-place update of one pair |
| `CookieJar.AttemptCookieJar.UpdateFromHeader` | src/acquisition/weread_qr.rs:419-423 | every pair of a header, in order |
| `CookieJar.AttemptCookieJar.UpdateFromResponse` | src/acquisition/weread_qr.rs:411-417 | the first pair of each response cookie |
| `CookieJar.FirstPieceEndsAtSemicolon` | src/acquisition/weread_qr.rs:411-417 | the pair of a response cookie is all before its first semicolon |
| `CookieJar.AttemptCookieJar.Header` | src/acquisition/weread_qr.rs:449-457 | the printed header, none for an empty jar |
| `CookieJar.MergeCookieHeaders` | src/acquisition/weread_qr.rs:665-671 | the merge of two headers parses as their ordered merge |
| `CookieJar.SecondaryWins` | src/acquisition/weread_qr.rs:665-671 | the merge has exactly the names of both headers, and on a shared name the value of the secondary one |
| `CookieJar.FoldsAlikeIff` | src/acquisition/weread_qr.rs:438-443 | names are one cookie exactly when they are equal up to ASCII case |
| `QrSession.LookupAfterAppend` | src/acquisition/weread_qr.rs:673-695 | lookup after append, for every header and name |
| `QrSession.BlankValueIsAppendedButNotFound` | src/acquisition/weread_qr.rs:673-695 | the value for which an appended cookie is not found |
| `QrSession.LookupIgnoresTrim` | src/acquisition/weread_qr.rs:690-695 | trimming a header changes no lookup |
| `Text.WhitespaceIff` | src/acquisition/weread_qr.rs:690-695 | trimmed are exactly the Unicode white space characters |
| `QrSession.EnsureCookie` | src/acquisition/weread_qr.rs:563-573 | a missing cookie is appended and found, others are unchanged |
| `QrSession.CompleteHeader` | src/acquisition/weread_qr.rs:563-573 | completes exactly if every required cookie is there or can be appended; then all three are found and no other lookup changed |
| `QrSession.ParseAuthenticatedSession` | src/acquisition/weread_qr.rs:548-585 | succeeds if and only if the response has what a session needs; then each credential is the first nonblank text under its keys or the value of its cookie, and looking up every required name gives a nonempty value |
| `QrSession.BodyCookiesWin` | src/acquisition/weread_qr.rs:554-557 | the merged header has the names of response and body cookies, and on a shared name the body wins |
| `QrSession.FirstHeaderIsFound` | src/acquisition/weread_qr.rs:631-663 | the body's cookie header is what the first object gives that gives one |
| `QrSession.FieldsAreListed` | src/acquisition/weread_qr.rs:645-659 | cookie fields are listed in order, one after the other |
| `QrSession.OneFieldIsListed` | src/acquisition/weread_qr.rs:645-659 | a text field as one pair, any other field not at all |
| `Base64.DecodeIffEncoded` | src/acquisition/identity.rs:302-305 | a text decodes to some bytes exactly when it is their canonical Base64 text (sections 3.2, 3.5 and 4 of RFC 4648) |
| `Base64.SymbolIsListed` | src/acquisition/identity.rs:302-305 | the symbols are the standard alphabet in its order (section 4 of RFC 4648) |
| `Identity.UndoesEveryEncoding` | src/acquisition/identity.rs:295-314 | every spelling of every identifier decodes: padding removed, characters percent-encoded (section 2.1 of RFC 3986), whitespace around |
| `Identity.DecodesExactly` | src/acquisition/identity.rs:295-314 | exactly which values decode to which digits, and the book identifier they become |
| `Identity.SpellingDecodes` | src/acquisition/identity.rs:296-298 | percent decoding inverts every spelling |
| `Identity.HexValueIff` | src/acquisition/identity.rs:296-298 | a hexadecimal digit is worth its place among the sixteen, in either case (section 2.1 of RFC 3986) |
| `Identity.DigitsIff` | src/acquisition/identity.rs:306-311 | an identifier is written in the ten digits only |
| `ScrollPlan.Plan` | src/acquisition/pacing.rs:108-144 | every draw is from a nonempty range, nothing underflows, and the plan is within all bounds |
| `ScrollPlan.DrawStepCount` | src/acquisition/pacing.rs:108-121 | as many steps as fit their minimum distance |
| `ScrollPlan.DrawDistance` | src/acquisition/pacing.rs:122-136 | the saturating subtraction and the final clamp never act |
| `ScrollPlan.MinimumIsHalf` | src/acquisition/pacing.rs:108-121 | the minimum is the largest distance that is one pixel or at most half the viewport, within the pixel limit |
| `ScrollPlan.ProducibleIffWithinBounds` | src/acquisition/pacing.rs:108-144 | the plans that draws can produce are exactly the plans within bounds |
| `ConfigBundle.TryFrom` | src/application/config_transfer.rs:247-373 | succeeds exactly on importable bundles, writes the article URLs as parsed and keeps every other field, and every error is true of the input |
| `ConfigBundle.CheckSource` | src/application/config_transfer.rs:270-345 | one source against the ids and book ids seen so far |
| `ConfigBundle.SerializeLimited` | src/application/config_transfer.rs:146-174 | serializes exactly within the section and byte limits |
| `ConfigBundle.ParseLimited` | src/application/config_transfer.rs:186-196 | parses exactly what is within the limit, well-formed and importable |
| `ConfigBundle.ValidationIsIdempotent` | src/application/config_transfer.rs:247-373 | a validated bundle validates to itself |
| `ConfigBundle.ExportThenImport` | src/application/config_transfer.rs:146-196 | every validated bundle serializes within the limit and parses back to itself |

## Left out

- ArticleRuns.RunsStayLinked: holds for runs whose refreshes carry content; the exact condition and the failing run are `ArticleLaws.RefreshKeepsLinkedIff` and `ArticleRuns.EmptyRefreshLosesLinks`.
- ArticleRuns.VersionsNeverDecrease: an article deleted with its source and stored again starts over, as in the service.
- ArticleHandlers.UnitOfWork.ResetRefreshLineage: the refresh lineage and generation tables are not modelled, so it changes nothing here but may fail.
- AuthService.CommitLoaded: a commit that reaches the store while its acknowledgment is lost is not modelled; a transaction is atomic with its answer, here and in `ArticleHandlers.UnitOfWork.Commit`.
- AuthService.RefreshIfNeeded: the heartbeat task appears as an arbitrary usability answer at each check and an arbitrary failure at the end; `GuardRuns` and `HeartbeatTiming` model it.
- The source sync transaction (`src/application/source_sync_handler.rs:560-790`) treats each article of a batch as the backfill does, then publishes once; the batch loop, its statistics and schedule are not modelled.
- Deleting asset records, blob storage, eviction, capacity locks and the repair state machine: the store's answer to a replacement is an arbitrary acceptance, policy rejection or fault.
- Parsing of HTML and the traversal of the sanitizer: documents are sequences of texts and image sources, with arbitrary texts.
- URL parsing, the outbound URL check and provider signatures: arbitrary predicates on URLs.
- Article metadata normalization, `fetched_at`, and the payloads and classification of jobs: single-branch checks.
- The shapes of upstream JSON beyond the fields a session is built from, display names and expiries found in them.
- Browser commands, HTTP, TLS, DNS lookups, PostgreSQL and the async runtime: their answers are arbitrary, and a transaction is one atomic step under its row locks.
- Environment configuration, feed rendering, logging and redaction.
