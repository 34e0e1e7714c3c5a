# A model of the subscription service, in Dafny

The service mirrors Stripe's subscriptions into one row per user, and answers from that row what a user
may do. This project models the code that keeps the mirror right: the sync and its row lock, the webhook
ledger, the cached read path, the nightly jobs, and the counters that expire. It proves what that code is
for, over every input, every run or every reachable state.

`dafny verify dfyconfig.toml` checks the whole project.

## How it is laid out

Code that only computes is a function. Code that changes things step by step is a class or a method, and
each such method is proved equal to a function on plain values; the theorems are about those functions, and
those named `...Exactly` say what a function comes to from its raw input, in the input's own terms.

| file | what it models |
|---|---|
| Models, Plans, Billing, StripeAccount | the values; the price catalog; reading from Stripe; writing to Stripe |
| Cache, Sessions | the in-memory cache; a database session, its marks, and commit-then-invalidate |
| Subscriptions, Cancellation, Admin, Writers, AuditTrail | the one sync path; cancel and resume; support's writes and checkout; all writers over whole runs; the audit log against the rows |
| SyncProtocol, ProtocolService | workers, locks, events and a changing Stripe, interleaved; one delivery alone against the service |
| Entitlements, CacheProtocol, Access | the cached read path; readers, writers and the cache, interleaved; from webhooks and comps to what a user may do |
| Webhooks | the event ledger: deliveries that go by what they read, over runs |
| ExpireGrace, DunningCycles | the nightly grace report; one report a cycle, or for each start of it |
| Reconcile, ReconcileChecks, ReconcileRuns, OrphanNights | the nightly walk over Stripe; what one check finds, in Stripe's words; what whole runs come to; the orphan email over many nights |
| Calendar, Quota, UsageMirror | windows; metering; the durable counter's concurrent upsert |
| RedisCounter, RateLimit | the shared counter's commands, interleaved; fixed windows enforced together |

The functions the methods are proved equal to, and where they come from: `Subscriptions.Project`
(app/services/subscriptions.py:354-380), `Written` (383-402), `FingerprintOf` (38-56), `ResolveTier`
(132-152), `BelongsToThisService` (155-180), `Sync` (188-326), `Disputed` (405-421);
`EntitlementReads.Resolve` (app/services/entitlements.py:198-247), `TtlFor` (250-282), `ReadThrough`
(308-336); `Webhooks.Handle` and `Deliver` (app/routers/webhooks.py:79-204); `Reconcile.Check`, `Visit` and
`Notified` (app/jobs/reconcile.py:115-315); `ExpireGrace.Due` (app/jobs/expire_grace.py:52-112);
`Billing.Parse` and `CurrentIndex` (app/stripe_client.py:247-254, 311-381).

## What the proofs found

Where the code does less than it says, a lemma gives the input or the trace, and another says exactly when it
does what it says.

- A customer's first contact asks Stripe before any lock. The row it leaves can be old with nothing left
  to correct it, and not only the loser of the insert race can leave one (`AskingFirstLosesAnUpdate`,
  `IgnoringLosesAnUpdate`). The docstring at app/services/subscriptions.py:207-211 promises more than the
  code does there. A customer made at checkout cannot be hit, and one later locked sync repairs it.
- The lifetime of a cached answer is computed from a later reading of the clock than the answer
  (app/services/entitlements.py:273). A read that straddles the closing of a grace window caches paid
  access past it; the docstring says the entry expires when the answer stops being true.
- `extend_grace` reads the row without its lock. If a payment recovers before it lands, it leaves a start
  of the dunning window on a row that is not past_due, the next cycle inherits it, and the audit log's
  last entry denies what the row says. A dispute can misquote the row in the same way.
- A first contact that finds its user's row reads it without a lock too. If a locked sync gets in between,
  the columns it writes mix with those it leaves alone, its audit entry starts from what is no longer so,
  and it can start a dunning window again (`AMixedRowIsNotOk`, `AnOvertakenContactMisquotesTheRow`,
  `AnOvertakenContactRestartsTheWindow`).
- `processing` can be claimed again. Two deliveries of one event that overlap can commit its effects
  twice, and the failure of the later one overwrites `processed`. So does a claim that had read `failed`
  and lands after the event was processed: the look and the claim are two statements with no lock.
- Two nightly runs that overlap report the same cycle twice, and an extension can have a cycle reported
  again, just when it moves the start to or past the earlier report.
- A refused client is told the whole seconds left, rounded down. One that waits exactly that long and had
  a fraction more than a second left is refused again.
- The query for an earlier report compares strictly. A cycle reported on the very instant it began, which
  takes a grace period of zero or less, is reported once more, and then no more.
- A quota key's lifetime is cut to whole seconds, so it can die in the window's last second and let up to
  one more limit through, for any limit.
- A billing period that begins within a month overlaps the calendar month: instants before and after its
  start do not share a window (`WindowsTile` says exactly when they do).
- Reconcile compares the row with every listed subscription, while the sync writes the current one. The
  row comes out right, but a customer with a stray subscription is reported as drift every night.
- CONTEXT.md:10 and README.md:592 name `_apply_remote` as the mirror's only writer. The code has `_write`
  (app/services/subscriptions.py:383), and the first contact and checkout write the customer id as well.

## Model

| member | source | states |
|---|---|---|
| Plans.PriceCatalog | app/plans.py:172-188 | the nested loops build `CatalogOf`, and every price in it is the one configured for the slot it names |
| Plans.FilledByLast | app/plans.py:183-187 | a price stands for a slot if and only if that slot is the last one configured with it |
| Plans.SoldExactly | app/plans.py:183-187 | what is sold at all: a price is in the catalog if and only if some slot is configured with it and it is not empty |
| Plans.PriceIdRoundTrip | app/plans.py:172-200 | looking a configured slot up gives its own price back, exactly unless a later slot reuses the price, and then nothing |
| Plans.AtMostOnePrice | app/plans.py:196-200 | no slot is sold under two prices, so the order the lookup scans in cannot matter |
| Models.TiersAscend | app/plans.py:44-46 | free, plus, pro and enterprise ascend, and of two tiers the higher counts |
| Billing.WordsMean | app/stripe_client.py:202-218 | what each of Stripe's words means: four of them pay, past_due and unpaid are one status, two have ended, and any other word is no subscription |
| Billing.FirstWithIsFirst | app/stripe_client.py:248-251 | the inner loop returns the first subscription with the wanted status, or there is none |
| Billing.ByPriorityIsBest | app/stripe_client.py:248-251 | the two loops return the first subscription of the best priority present, or none has a listed status |
| Billing.NewestIsMax | app/stripe_client.py:252-254 | the fallback is the first of the most recently created |
| Billing.CurrentByWords | app/stripe_client.py:220-254 | which subscription is current: the first that is active, or else trialing, past_due, unpaid, paused, incomplete, in this order, and of nothing but others the first of the newest |
| Billing.CurrentPaysIfAnyPays | app/stripe_client.py:203-254 | the mirrored subscription has one of the four paying words if and only if any of the customer's listed ones has |
| Billing.CurrentIsLiveIfAnyIsLive | app/stripe_client.py:203-254 | what is mirrored is no subscription if and only if nothing listed is one |
| StripeAccount.Account.SetSubscriptionMetadata | app/stripe_client.py:164-171 | afterwards every key that was named reads as it was set, and every other key of this and of every other subscription reads as before; a call that fails changes nothing |
| StripeAccount.SettingMeans | app/stripe_client.py:164-171 | after setting metadata every key that was named reads as it was set, and is gone when that is empty; every other key of this and every other subscription reads as before |
| StripeAccount.Account.ScheduleCancel | app/stripe_client.py:152-161 | afterwards the named subscription's flag is what was asked for, and no other field, subscription, list or metadata differs; a call that fails changes nothing |
| StripeAccount.EmptyingTakesBack | app/stripe_client.py:164-171 | setting keys and emptying them again takes back whatever they held, and nothing of any other key |
| Cache.InMemoryBackend.LiveValue | app/cache.py:34-45 | a read returns the value until its expiry instant, and drops a dead entry |
| Cache.InMemoryBackend.Set | app/cache.py:47-48 | the entry is replaced and lives `ttl` seconds from now |
| Cache.InMemoryBackend.Delete | app/cache.py:50-51 | the entry is gone, the others stay |
| Cache.InMemoryBackend.Incr | app/cache.py:53-60 | a live counter goes up by one and keeps its expiry; a dead or missing one starts over at one with a new lifetime |
| Cache.StoredIsReadExactly | app/cache.py:34-51 | what is stored is read until its lifetime is over and not once it is deleted, and no other key notices a store, a delete or an increment |
| Cache.EvictionIsInvisible | app/cache.py:39-41 | dropping a dead entry changes no later read of any key |
| Sessions.Session.Commit | app/services/entitlements.py:157-177 | a plain commit publishes the work and drops whatever was still marked |
| Sessions.Session.Rollback | app/services/entitlements.py:145-154 | a rollback undoes the work and the marks with it |
| Sessions.MarkEntitlementsStale | app/services/entitlements.py:97-108 | one user is added to the marks; nothing is deleted yet |
| Sessions.CommitAndInvalidate | app/services/entitlements.py:111-142 | the work is committed, every marked user whose delete does not fail loses the cached answer and nobody else does, and no mark is left |
| Subscriptions.Find | app/services/subscriptions.py:64-66 | a lookup returns a row that matches, or there is none |
| Subscriptions.FindIs | app/services/subscriptions.py:101-106 | under the unique constraints a lookup returns the one row that matches |
| Subscriptions.PaidTierExactly | app/services/subscriptions.py:132-152 | from payload to mirror, a paid tier is shown if and only if the status is active, trialing, past_due or unpaid and the first item's price buys that tier, by the catalog or else by the tier stamped on the price |
| Subscriptions.StatusExactly | app/services/subscriptions.py:354-368 | from payload to mirror, the status of each of Stripe's words, and that nothing at all is mirrored of a subscription that has ended or is none |
| Subscriptions.MirrorsThePayload | app/stripe_client.py:311-381 | from payload to mirror, the other columns: id, flag, discount, trial, price id, the interval by the catalog or else by the price, and the period from the subscription or else from its first item, each instant from its Unix time |
| Subscriptions.BelongsExactly | app/services/subscriptions.py:155-180 | a subscription is this service's if and only if its first item's price buys a tier, whatever its status |
| Subscriptions.SubscriptionRow.Write | app/services/subscriptions.py:383-402 | assigning the columns one by one gives `Written`: the mirrored columns replaced, and the start of the dunning window set on entry, kept inside, cleared on the way out |
| Subscriptions.WriteRow | app/services/subscriptions.py:276-326 | the second half of a sync on the session: the row, the audit entry if tier or status moved or the sync had a reason, the mark if the fingerprint moved; or the unique constraints refuse it |
| Subscriptions.SyncSubscriptionFromStripe | app/services/subscriptions.py:188-326 | the sync on a session equals `Sync` on its tables, with its three results: ignored and nothing changed, raised, or written with these marks |
| Subscriptions.ClaimedKeepsTable | app/services/subscriptions.py:260-274 | claiming a row for a customer keeps the unique constraints and every row's invariant |
| Subscriptions.ClaimedIsInHand | app/services/subscriptions.py:260-274 | which row a customer is claimed on: the one that carries it, and then nothing is written; else its user's, a new one only if the user has none; one row changes, and only its customer id |
| Subscriptions.ContactInStep | app/services/subscriptions.py:260-292 | a first contact that reads its user's row without a lock and is not overtaken is the same as the second half of the sync on the row it claims |
| Subscriptions.ContactMirrorsIff | app/services/subscriptions.py:265-292 | one that is overtaken, whose flush writes only the columns it changed, leaves the row saying what Stripe answered if and only if every column it left alone still says what it read; otherwise the row mixes two answers |
| Subscriptions.AMixedRowIsNotOk | app/services/subscriptions.py:383-402 | the input: read on free, overtaken by a sync that saw an active Pro, and told of an incomplete subscription, it leaves a paid tier on a status that pays for nothing |
| Subscriptions.WrittenKeepsRow | app/services/subscriptions.py:354-402 | a written row satisfies the row invariant, whatever Stripe answered, and mirrors exactly that answer |
| Subscriptions.WriteBackExactly | app/services/subscriptions.py:276-326 | the second half of a sync is refused if and only if another row is on the same subscription; else the row says what Stripe says and keeps its user, customer and dispute, no other row moves, one entry tells the move if there is one or the sync had a reason, and its user is marked exactly when something they see moved |
| Subscriptions.SyncWritesBack | app/services/subscriptions.py:217-292 | every sync that is not ignored is one write of Stripe's answer into one row, this customer's, and a row newly claimed belongs to the user stamped on the customer |
| Subscriptions.SyncKeepsTable | app/services/subscriptions.py:188-326 | every sync leaves unique constraints in force, and the row invariant where it held, on a table in which the customer's row says what Stripe says, and touches neither grants nor events |
| Subscriptions.WriteBackFrame | app/services/subscriptions.py:276-326 | writing one row leaves every other customer's row as it was |
| Subscriptions.SyncFrame | app/services/subscriptions.py:188-326 | a sync of one customer leaves another customer's row alone, provided the user it would claim for is not that other row's |
| Subscriptions.SyncExactly | app/services/subscriptions.py:188-326 | so does a sync of a customer with a row, which is never ignored |
| Subscriptions.FirstContactExactly | app/services/subscriptions.py:219-274 | a sync of a customer without a row is ignored if and only if nothing is listed, the current price buys no tier, no user is stamped or the orphan mark is set; else it lands on the stamped user's row or on a new one, unless another user is on the subscription |
| Subscriptions.MarkDisputed | app/services/subscriptions.py:405-421 | the dispute is stamped on the customer's row and audited, and nothing else of the row moves; no row, nothing written |
| Subscriptions.DisputedExactly | app/services/subscriptions.py:405-421 | a dispute dates the customer's row and leaves one entry in which nothing moves; every other column and row stays, and without a row nothing happens |
| Subscriptions.DisputedAsRead | app/services/subscriptions.py:408-420 | stamping a dispute on the row as it was read, which is not locked, is the same as stamping the customer's row when nothing came between |
| Cancellation.Request | app/services/subscriptions.py:526-583 | cancelling or resuming through a session equals `Cancel` or `Resume`, with what is left when Stripe refuses, when the sync raises and when a constraint refuses the row |
| Cancellation.RequestsExactly | app/services/subscriptions.py:526-583 | when each request asks Stripe, for what and with what reason: leaving needs a row on a subscription that pays and is not ending, coming back one that is ending; and which refusal it is otherwise |
| Cancellation.FetchAfterSchedule | app/stripe_client.py:223-254 | scheduling an end never changes which subscription is current; Stripe answers with the same one, flag apart |
| Cancellation.RequestShowsExactly | app/services/subscriptions.py:543-556 | a request costs or gives no access, the row says what Stripe says, and it shows the schedule asked for if and only if the subscription the row named is the current one and live, or the current one was scheduled so already |
| Cancellation.AskFlipsTheFlag | app/services/subscriptions.py:547-556 | for a row in step with Stripe a request changes that one flag of that one row, a dunning window left over on it apart, and cannot fail on a constraint |
| Cancellation.ScheduleRoundTrip | app/stripe_client.py:152-161 | scheduling and unscheduling puts all of Stripe back |
| Cancellation.ResumeUndoesCancel | app/services/subscriptions.py:526-583 | cancelling moves the one flag and no access; resuming then puts all of Stripe back, and every row too, if and only if the row had no dunning window left over on it |
| Admin.ExtendGraceFor | app/routers/admin.py:113-135 | the handler from its unlocked read on: the cut-off it read, moved by the days given, lands on whatever the user's row says by then, the entry says what was read, and the cached answer is dropped; otherwise refused with nothing changed |
| Admin.ExtensionMovesTheWindowIff | app/routers/admin.py:120-127 | an extension moves the row's own window if and only if the row still has the window that was read, and touches no other column and no other row |
| Admin.CreateGrantFor | app/routers/admin.py:138-179 | the handler equals `CreateGrant`: one more grant, audited, and the cached answer dropped; granting free is refused |
| Admin.RevokeGrantById | app/routers/admin.py:182-199 | the handler equals `RevokeGrant`; revoking twice writes nothing the second time and drops no cached answer |
| Admin.SupportIsAudited | app/routers/admin.py:113-199 | in the log a comp tells what it gave, its revocation what it took, once more if it was overtaken, and an extension that neither tier nor status moved |
| Admin.GetOrCreate | app/services/subscriptions.py:69-82 | the row returned is the user's; every row that was there stays as it was, and one on free is added only for a user without one |
| Admin.StartCheckoutFor | app/services/subscriptions.py:429-481 | the checkout guard equals `StartCheckout`: refused with nothing written, or the row carries the customer |
| Admin.CheckoutExactly | app/services/subscriptions.py:452-481 | a checkout of somebody with a row starts if and only if the price is sold, neither mirror nor Stripe shows them paying and nobody else carries the customer; then their row carries the customer the checkout is for and nothing else has moved |
| Admin.FirstCheckoutExactly | app/services/subscriptions.py:452-481 | and one of somebody new leaves a row on free that carries the new customer |
| Admin.LateCheckoutExactly | app/services/subscriptions.py:476-481 | a checkout that read its row before somebody changed it leaves the row carrying the new customer and otherwise as it is by then, unless another row carries that customer |
| Admin.CheckoutStartsOnlyForTheUnpaid | app/services/subscriptions.py:452-481 | when nothing overtakes it, a checkout starts only for someone who pays neither by the mirror nor through any subscription Stripe lists for the customer, and a stored customer id is kept; two sessions opened before either is paid are not excluded |
| Writers.GetOrCreateKeepsTable | app/services/subscriptions.py:69-82 | giving an account its row keeps the table valid |
| Writers.EverybodyGetsARow | app/services/subscriptions.py:69-82 | signing up leaves every row as it was and the user with one, on free if they had none; a checkout that starts leaves one that carries the customer it is for |
| Writers.EveryWriteKeepsUnique | app/models.py:62-112 | every writer of the table, whatever it read and however late it lands, keeps the unique constraints |
| Writers.ContactLandsWholeIff | app/services/subscriptions.py:260-292 | a first contact leaves the mirror, window and customer id it decided, if and only if what it left alone still says what it read |
| Writers.EveryWriteKeepsTable | app/services/subscriptions.py:354-402 | every writer keeps the row invariant as well, a first contact that is overtaken in what it left alone apart |
| Writers.TableAlwaysOk | app/models.py:62-112 | in every reachable state, whatever was read when, user, customer and subscription ids are unique; and as long as every first contact landed whole, a past_due row has a start of its window, a paid tier has a paying status, a row on free holds nothing of Stripe's, and a row on a subscription carries its customer |
| Writers.WriteKeepsWindowsIff | app/routers/admin.py:119-127 | a write keeps "a window means past_due", if and only if it is neither an extension landing on a row that is past_due no more, nor a first contact that had read no window and lands another status on a row with one, or past_due as read on a row that has left it |
| Writers.WindowsAlwaysOkIff | app/routers/admin.py:119-127 | along any run a window means past_due in every state, if and only if every extension and first contact of the run landed under that condition |
| Writers.AnOvertakenExtensionLeavesAWindow | app/routers/admin.py:119-127 | the trace: an extension reads a past_due row, a sync sees the payment recover, the extension lands and leaves a window on a row that is not past_due |
| Writers.LateExtendShortensTheNextWindow | app/services/subscriptions.py:387-389 | what that costs: the next dunning cycle is not stamped afresh and its paid access ends when the old window does, while without the late write it is open |
| Writers.AnOvertakenContactRestartsTheWindow | app/services/subscriptions.py:276-292 | the trace: a first contact reads a row that is not past_due, a locked sync sees it go past_due and stamps the window, the contact was told so too and stamps it again |
| Writers.WindowNeverRestarts | app/services/subscriptions.py:383-391 | through any history of syncs, first contacts and extensions a window counts from the write that started it, a sync that found past_due, a first contact that had read none, or an overtaken extension, plus the extensions since, however many retries failed |
| Writers.EveryWindowStarted | app/services/subscriptions.py:387-389 | where a row without a window has got one, which write of its history started it is found |
| Writers.StatusFollows | app/services/subscriptions.py:383-402 | through any history the status is the last one observed, past_due has a window as long as no first contact came late, and a window means past_due as long as no overtaken extension wrote one either |
| Writers.RowFollowsItsHistory | app/services/subscriptions.py:188-402 | after any run of any writers, with first contacts and extensions going by what they read, every user's row has the status and window that its own history gives |
| Writers.WindowsCountFromTheirStart | app/services/subscriptions.py:383-391 | so in every reachable state a user's window counts from the write that started it plus the extensions since |
| AuditTrail.OneMoreEntry | app/services/audit.py:12-36 | one more entry, starting where its user is, keeps the chain and moves what the log says of that user alone |
| AuditTrail.ReportsTellNothing | app/jobs/expire_grace.py:101-112 | the nightly reports do not move what the log says of anybody's row |
| AuditTrail.LoggedWriteKeepsTrail | app/services/subscriptions.py:294-317 | a write to one row keeps the log in step if it is logged, or moves neither tier nor status |
| AuditTrail.QuotingWriteKeepsTrailIff | app/services/subscriptions.py:408-420 | an extension or a dispute, which audit the row as they read it without a lock, keep the log in step if and only if that is still so when they land; if not, the chain is broken for good |
| AuditTrail.ContactKeepsTrailIff | app/services/subscriptions.py:265-317 | and so does a first contact, whose entry starts from the row it read without a lock, unless it makes no entry |
| AuditTrail.EveryWriteKeepsTrailIff | app/services/audit.py:12-36 | and every other writer keeps it in step |
| AuditTrail.AuditReplaysTheRowIff | app/services/audit.py:12-36 | over any interleaving of the writers and the nightly report, each user's last entry says the tier and status the row has, each entry starts where the one before it ended, and no entry means free, if and only if every extension, dispute and first contact so far audited what was so when it landed |
| AuditTrail.AnOvertakenExtensionMisquotesTheRow | app/routers/admin.py:120-132 | the trace: an extension reads a row, a sync moves its tier or status, the extension lands, and the last entry denies what the row says |
| AuditTrail.AnOvertakenContactMisquotesTheRow | app/services/subscriptions.py:265-317 | the trace: a first contact reads the row made for its customer, a locked sync moves its tier or status, and the contact's entry starts from what is no longer so |
| SyncProtocol.StepKeepsInv | app/services/subscriptions.py:188-326 | every step of look-up, claim, lock, fetch, read, write, commit, failure and crash keeps the invariant the three results below rest on |
| ProtocolService.OneDeliveryIsTheProtocols | app/routers/webhooks.py:82-103 | one delivery on its own, handled, failed or a duplicate, is a run of the protocol's steps that ends with the very row and ledger the service leaves |
| SyncProtocol.RunKeepsInv | app/routers/webhooks.py:82-103 | the invariant holds in every reachable state of any number of customers, workers and deliveries |
| SyncProtocol.WebhooksConverge | app/routers/webhooks.py:82-159 | in every reachable state a customer's row is exactly what Stripe holds now, or an event raised since the version it shows is not processed; the one exception, a first contact that wrote an old answer or over a mirror that had moved since it read it, cannot happen to a customer made at checkout nor to a row whose last write was made under the lock |
| SyncProtocol.InvConverges | app/services/subscriptions.py:207-217 | the same for any state with the invariant, Stripe's mirror taken as an arbitrary function |
| SyncProtocol.LockedWritesNeverGoBack | app/services/subscriptions.py:207-217 | over any interleaving each write under the lock carries an answer no older than the version current when the lock was taken, and that is no older than any write committed before |
| SyncProtocol.WritesWhatWasAnswered | app/services/subscriptions.py:276-292 | what a worker commits under its lock is what Stripe held at the step it asked, whatever others did and whatever Stripe moved on to in between |
| SyncProtocol.LockedWriteHeals | app/services/subscriptions.py:278-292 | one locked write repairs a row a first contact left behind |
| SyncProtocol.InsertMirrorsIff | app/services/subscriptions.py:260-292 | a first contact leaves the row saying what Stripe answered it, whatever overtook it, if and only if the columns it had no change for still say what it read |
| SyncProtocol.AskingFirstLosesAnUpdate | app/services/subscriptions.py:220-274 | the trace that shows the first-contact race: two first deliveries, the one that asked Stripe first inserts last, every event is processed and the row is old |
| SyncProtocol.IgnoringLosesAnUpdate | app/services/subscriptions.py:220-252 | a second one: even the first insert can be old, when in between the customer stopped being ours to record, by its price, its user or the orphan mark, and the other delivery ignored it |
| SyncProtocol.ConvergesIffBought | app/services/subscriptions.py:220-274 | every run of a customer goes on converging if and only if its row came with it at checkout, for any two lists of ours that mirror differently |
| SyncProtocol.UnprocessedOnlyByLateSteps | app/routers/webhooks.py:95-141 | a processed event stops being so at a step if and only if another delivery of it records its failure there, or one that had read it as failed commits its claim there |
| SyncProtocol.SettledForGood | app/routers/webhooks.py:134-141 | once processed with no delivery of it in hand, from its look at the ledger on, nothing is ever committed for an event again |
| SyncProtocol.StaysProcessedIff | app/routers/webhooks.py:128-159 | a processed event stays processed, whatever happens, if and only if no other delivery of it is in hand, one that has looked it up and not yet claimed it included |
| SyncProtocol.ALateClaimUnprocesses | app/routers/webhooks.py:134-141 | the trace: two deliveries read an event as failed, one is claimed, committed and processed, and then the other's claim lands over `processed`; it commits the effects again, or dies and leaves the event unprocessed, with no failure recorded anywhere |
| SyncProtocol.TwoClaimsCommitTwice | app/routers/webhooks.py:135-141 | the other trace, from an event nobody has seen: two deliveries claimed before either is done commit its effects twice |
| EntitlementReads.ResolveEntitlements | app/services/entitlements.py:308-336 | a read with cache and database up equals `ReadThrough`; with the cache down it is the direct answer and nothing is written; with the database down it is the cached or the stale copy, or nothing, and the cache loses only what was dead |
| EntitlementReads.AnswerShowsTheRow | app/services/entitlements.py:198-247 | status, period, cancel flag and the end of the grace period in the answer are the row's, and empty without a row |
| EntitlementReads.RowPaysExactly | app/services/entitlements.py:217-223 | a row pays for its tier while trialing or active, and while past_due until the grace period is over, the instant itself excluded; otherwise for nothing |
| EntitlementReads.AnswerIsTheHigher | app/services/entitlements.py:225-247 | the tier is the higher of what the row pays for and what a grant gives, and the source is a grant exactly when that is strictly more, a subscription when the row pays for it, and default on free |
| EntitlementReads.TtlExactly | app/services/entitlements.py:250-282 | an answer is cached for the configured time, inside a grace window never past its end and for as many whole seconds as that allows |
| EntitlementReads.GrantGivesItsTier | app/services/entitlements.py:180-195 | one more grant raises its user to its tier until it expires, and nobody else ever |
| EntitlementReads.RevokedGivesNothing | app/services/entitlements.py:180-195 | a revoked grant counts as if it were not there, at every instant |
| EntitlementReads.OutageServesTheLastAnswer | app/services/entitlements.py:308-336 | through an outage of the database a user gets what the last read answered, whatever was written or dropped since, for exactly a day from when that was resolved |
| EntitlementReads.GrantsOnlyExpire | app/services/entitlements.py:180-195 | as time passes the best grant only ever gets lower |
| EntitlementReads.LastingGrantsLast | app/services/entitlements.py:180-195 | with no grant that expires, the best grant is the same at every instant |
| EntitlementReads.ResolveAgreesIff | app/services/entitlements.py:198-247 | two resolutions of one row agree if and only if the deciding grant is the same, or the subscription decides and pays the same |
| EntitlementReads.TierMovesIff | app/policy.py:17-32 | a row's tier moves with the clock if and only if its grace window closes in between |
| EntitlementReads.CapStopsAtTheBoundary | app/services/entitlements.py:250-282 | an answer cached at the instant it was computed never outlives the grace window |
| EntitlementReads.CachedHitExactly | app/services/entitlements.py:250-282 | a hit with nothing written since is what the database would answer then, if and only if the grant that decided it, if one did, still gives the same; the cap does not look at a grant's expiry |
| EntitlementReads.AnEntryOutlivesItsGrant | app/services/entitlements.py:250-282 | the input: a grant that expires within the entry's life is still served at its expiry, when the database says free |
| EntitlementReads.ReadKeepsCacheTruthful | app/services/entitlements.py:308-336 | one read returns the direct answer and leaves a cache that goes on doing so |
| EntitlementReads.CachedReadRefinesDirectRead | app/services/entitlements.py:308-336 | over any run of reads with no write between, across the closing of the grace window, every answer through the cache is the direct one |
| EntitlementReads.LateClockReadsExactly | app/services/entitlements.py:273-275 | with the clock read again for the lifetime and again for storing, an entry is right for its whole life if and only if it is not stored, a grant decides it, or it is gone before the window closes |
| EntitlementReads.LateClockReadOutlivesTheWindow | app/services/entitlements.py:273-275 | the input that shows it: resolved a microsecond before the window closes, given its lifetime at the closing instant, paid access is served a minute longer |
| EntitlementReads.EqualFingerprintsResolveAlike | app/services/subscriptions.py:38-56 | rows with equal fingerprints resolve alike at every instant and for all grants, and a row like a new one resolves like no row |
| EntitlementReads.RewriteIsHarmless | app/services/subscriptions.py:320-325 | rewriting one row moves nobody's answer but its user's, nor theirs when the fingerprint stays |
| EntitlementReads.UnmarkedSyncIsHarmless | app/services/subscriptions.py:320-325 | a sync that does not mark a user leaves that user's answer as it was at every instant, new rows included |
| Access.AWebhookGrantsWhatIsPaid | app/routers/webhooks.py:82-103 | from webhook to answer: after a handled delivery a user without more by a grant has, at every instant, the paid tier the customer's current subscription buys, if and only if it is active or trialing, or a payment has failed and the grace period counted from the start of the dunning window is not over |
| Access.ACompGivesItsTier | app/routers/admin.py:138-179 | after a comp its user has its tier, or more if they had that, until it expires; nobody else's answer moves, and a comp to free is refused |
| Access.RevokingUndoesAComp | app/routers/admin.py:182-199 | taking a comp back leaves everybody the answer they had before it, at every instant, and so does taking it back twice at once |
| CacheProtocol.AnothersGrant | app/services/entitlements.py:180-195 | changing somebody else's grant does not move a user's best grant |
| CacheProtocol.UnmarkedWriteIsHarmless | app/services/entitlements.py:97-108 | no writer of the service changes the answer of a user it does not mark |
| CacheProtocol.StepKeepsInv | app/services/entitlements.py:111-142 | every step of readers, writers, deletes and the clock keeps what the next result rests on |
| CacheProtocol.OneReadIsTheReadPath | app/services/entitlements.py:308-336 | one read on its own is a run of the protocol's steps, none on a hit and a miss, a read and a store otherwise, that leaves the key as the read path leaves it |
| CacheProtocol.StaleEntryHasAnExcuse | app/services/entitlements.py:97-177 | in every reachable state a live entry that is not what the committed tables answer now has one of four excuses, a writer between commit and delete, a failed delete, a plain commit, or a reader that straddled a commit, and is gone within one lifetime of being stored |
| CacheProtocol.AStraddlingReaderLeavesAStaleEntry | app/services/entitlements.py:315-331 | the trace that shows the last excuse, for any write that marks the user and changes the answer |
| Webhooks.Claim | app/routers/webhooks.py:128-150 | the claim commits on its own, going by what it read of the ledger before: refused for an event read as processed, a duplicate when its insert finds the event there, written over whatever is there by then otherwise, and a failing commit leaves nothing |
| Webhooks.Mark | app/routers/webhooks.py:153-159 | the mark joins the open transaction, and only for an event with a row |
| Webhooks.HandleEvent | app/routers/webhooks.py:168-204 | the handler on a session equals `Handle`: which events sync, which stamp a dispute first, which are not ours |
| Webhooks.DeliverySyncs | app/routers/webhooks.py:168-204 | a delivery about a customer with a row is handled exactly unless it is not its to claim, something fails or another row is on the subscription; handled, the row says what Stripe says, dated first if it was a dispute, no other row moves, and the entries tell of it |
| Webhooks.DeliveryRecords | app/routers/webhooks.py:168-204 | one about a customer without a row is answered as handled whether it records the customer or not, and records it exactly when it is to be recorded |
| Webhooks.DeliveryIgnores | app/routers/webhooks.py:168-204 | an event of another kind, or that names no customer, is marked processed, answered as ignored, and touches nothing else |
| Webhooks.StripeWebhook | app/routers/webhooks.py:79-125 | one delivery equals `Deliver` whatever it had read of the ledger and for every fault on the way: the tables it leaves, its answer, and whose cached answers it drops |
| Webhooks.DeliveryIsAtomic | app/routers/webhooks.py:82-103 | a delivery that answers 200 with effects commits all of them with the processed mark; one that fails leaves rows, grants and audit exactly as before, and the event retryable unless it was overtaken and left its mark alone; no other event moves |
| Webhooks.EffectsExactlyOnce | app/routers/webhooks.py:128-159 | over any run of deliveries, whatever each had read of the ledger before its claim landed, an event is processed just when exactly one attempt had its effects committed, except for one more at most for each delivery whose claim landed on an event processed since it read it |
| Webhooks.OnceProcessedNothingChanges | app/routers/webhooks.py:134-137 | once processed, any number of further deliveries that look the event up by then, or found nothing before, change nothing |
| Webhooks.AnOvertakenDeliveryCommitsAgain | app/routers/webhooks.py:134-141 | and that one more does happen: read as failed, claimed after the retry that processed it |
| ExpireGrace.Scan | app/jobs/expire_grace.py:85-112 | the loop finds exactly the rows that are past_due, paying, out of their window and not reported since it opened, in table order |
| ExpireGrace.ReportsTheLoss | app/jobs/expire_grace.py:78-112 | a row is due if and only if it is past_due, the mirror shows a tier the row no longer pays for, and that was not reported since the cut-off started; and the report tells from which tier to which |
| ExpireGrace.MarkAllStale | app/jobs/expire_grace.py:78-123 | everyone reported is marked |
| ExpireGrace.ExpireGraceWindows | app/jobs/expire_grace.py:78-123 | one run appends one report for each due row, drops those users' cached answers, and writes no row |
| DunningCycles.ReportedIffCounted | app/jobs/expire_grace.py:52-75 | the query for an earlier report is true just when the count since the cycle began is positive |
| DunningCycles.RunReportsOnce | app/jobs/expire_grace.py:85-112 | a run reports a due row once, and no other row on its behalf |
| DunningCycles.OrdinaryWriteReportsNothing | app/services/subscriptions.py:308-317 | no other writer adds a report, and a row's cycle after a write is one already running or starts now |
| DunningCycles.OneReportPerCycle | app/jobs/expire_grace.py:52-123 | in every reachable state, for any grace period and any interleaving of nightly runs that do not overlap, syncs and the other writers except extensions, the cycle each row is in has been reported at most once since it began |
| DunningCycles.EveryExpiredCycleIsReported | app/jobs/expire_grace.py:78-123 | and right after a run every paying row out of its window, whose cycle began earlier, which a grace period ensures, has been reported exactly once since, with no row written |
| DunningCycles.ReportSettlesIff | app/jobs/expire_grace.py:64-75 | the report of a due row settles its cycle if and only if the cycle began before the report |
| DunningCycles.ReportsInACycle | app/jobs/expire_grace.py:52-123 | all the reports of a cycle, for any grace period: one at most dated after it began, and at most one for each run on the very instant it began |
| DunningCycles.AtMostTwoReports | app/jobs/expire_grace.py:52-123 | so two at most when no two runs share an instant, and one at most when no run fell on the cycle's own start |
| DunningCycles.NoGraceReportsTwice | app/jobs/expire_grace.py:64-75 | two do happen: with no grace period a run on the start of a cycle reports it, a later one reports it again, and any after that is silent |
| DunningCycles.ExtendedRowIsReportedIff | app/jobs/expire_grace.py:64-75 | a row that was extended is reported by a later run if and only if its moved window is over by then and every earlier report of its user is dated at or before the moved start |
| DunningCycles.OneReportPerStart | app/jobs/expire_grace.py:52-123 | over any interleaving of runs, extensions and every other writer, overtaken ones included, a user is reported at most once for each time the cut-off was started or moved, apart from reports dated no later than the start they report |
| DunningCycles.NoEarlyReports | app/policy.py:17-32 | with a grace period there are no such reports |
| DunningCycles.OverlappingRunsReportTwice | app/jobs/expire_grace.py:78-123 | the trace: of two runs that scan before either commits, both report every cycle due at the first |
| Reconcile.ReconcileReport.RecordOrphan | app/jobs/reconcile.py:252-280 | an orphan is only counted if it has ended; otherwise it is listed with its marks, after a new one was marked in Stripe, and a failing mark lists nothing |
| Reconcile.ReconcileReport.MarkPending | app/jobs/reconcile.py:305-315 | every pending orphan is marked in Stripe unless its mark fails, and listed as notified either way |
| Reconcile.ReconcileReport.Notify | app/jobs/reconcile.py:283-315 | the email equals `Notified`: nothing pending, nobody to send to, refused, or accepted and then marked |
| ReconcileChecks.NotifiesExactly | app/jobs/reconcile.py:283-315 | how the email ends: nothing with nobody pending; not accepted, the pending orphans are listed as still to be told; accepted, one email lists them, each is listed as told then and marked in Stripe but where a mark fails, and whoever was told before keeps that |
| ReconcileChecks.PendingExactly | app/jobs/reconcile.py:289-292 | pending is whoever is listed without having been told |
| Reconcile.Resync | app/jobs/reconcile.py:193-221 | the repair is one sync of that customer, or raises |
| Reconcile.Compare | app/jobs/reconcile.py:187-222 | no row, an agreeing row or a disagreeing one, on tier and status alone, counted and repaired accordingly |
| Reconcile.ReconcileOne | app/jobs/reconcile.py:152-222 | one check equals `Check` and the repair it calls for, with what is left when a lookup, a metadata write or the sync raises |
| ReconcileChecks.OwnerExactly | app/jobs/reconcile.py:173-236 | whose a subscription is: its row's user, without a row the user stamped on it, and only without a stamp the user of the customer |
| ReconcileChecks.ChecksAStrangers | app/jobs/reconcile.py:162-171 | a subscription without a row whose price buys no tier is counted as another application's and nothing else happens; and only such a one |
| ReconcileChecks.ChecksAnOrphan | app/jobs/reconcile.py:173-280 | with the account gone, a canceled or expired subscription is counted and any other is listed under its owner with its status, flag and marks, marked in Stripe if it was not and the run is not dry; a failing mark fails the check; nothing else in Stripe moves |
| ReconcileChecks.ChecksOneOfOurs | app/jobs/reconcile.py:187-222 | otherwise a customer without a row is listed as unknown, and a row agrees or is listed as drift with both sides, on tier and status alone |
| ReconcileChecks.ChecksTheMarks | app/jobs/reconcile.py:180-185 | marks come off in Stripe exactly when the account of one of ours is known to be there and the run is not dry; a directory that cannot tell takes nothing off |
| Reconcile.Conclude | app/jobs/reconcile.py:125-141 | everything of one check lands, or the tables are as before and only this customer is listed as failed; repaired is counted only once it landed |
| ReconcileChecks.VisitEnds | app/jobs/reconcile.py:115-145 | a check lands exactly unless it could not classify, its repair is refused or raises, or its commit fails; landed, drift is one sync under its reason, counted and drained, and otherwise the tables are as before and the customer is listed as failed |
| ReconcileChecks.VisitsNobody | app/jobs/reconcile.py:115-119 | a subscription that names no customer is only counted |
| Reconcile.CheckOne | app/jobs/reconcile.py:115-141 | one round of the inner loop equals `Visit`, the cached answers of whoever it marked included |
| Reconcile.CursorIsWhereItWas | app/stripe_client.py:268-273 | with unique ids the page after an item starts right behind it |
| Reconcile.NextPage | app/jobs/reconcile.py:110-113 | a page is the next stretch of the listing, empty only at the end, and more follow just when some are left |
| Reconcile.CheckAll | app/jobs/reconcile.py:110-145 | for every page size of at least one the cursor loop ends and visits each subscription exactly once, in order |
| Reconcile.Reconcile | app/jobs/reconcile.py:84-149 | a whole run equals `VisitAll` over the listing and then `Notified`, in tables, Stripe, cache, report and emails; a dry run sends none |
| ReconcileRuns.VisitSyncs | app/jobs/reconcile.py:152-222 | a visit writes the tables by one sync of its own customer or not at all |
| ReconcileRuns.VisitFrame | app/jobs/reconcile.py:152-222 | with one customer a user, a visit moves nobody else's row |
| ReconcileRuns.VisitRights | app/jobs/reconcile.py:202-222 | a visit keeps a right row right, and makes it right when it visits a subscription that gives what the current one gives |
| ReconcileRuns.ReconcileMakesRight | app/jobs/reconcile.py:110-222 | after one full run, whatever the tables said and whoever else failed, every listed customer that did not fail has, if it has a row, the tier and status its current subscription gives, for any number of subscriptions in any order |
| ReconcileRuns.SecondRunDriftsExactly | app/jobs/reconcile.py:200-222 | on a row the first run left right, a further run reports drift exactly as often as the customer has a subscription projecting otherwise than the current one; with none it does not touch the row |
| ReconcileRuns.EveryCounterCounts | app/jobs/reconcile.py:55-81 | each counter of the report is the number of subscriptions with that outcome, and checked is all of them |
| ReconcileRuns.EveryCheckIsAccountedFor | app/jobs/reconcile.py:115-145 | a run accounts for everything it checked: its five counters, what named no customer, what could not be classified and what agreed add up to all of it |
| ReconcileRuns.RepairsAndFailures | app/jobs/reconcile.py:121-141 | a run repairs no more than it found mismatched or unknown, and lists as failed at least everything it could not classify and at most everything with a customer |
| ReconcileRuns.DryRunOnlyLooks | app/jobs/reconcile.py:125-128 | a dry run changes neither tables nor Stripe nor cache, and judges each subscription by the tables as they stood before it |
| ReconcileRuns.NothingToRepairNothingWritten | app/jobs/reconcile.py:187-222 | a run that reports no drift and no unknown customer wrote nothing to the tables |
| OrphanNights.NightIs | app/jobs/reconcile.py:283-315 | one night, for one subscription: emailed only if it carried no notified mark and its marks stay on, and marked afterwards if the mark was kept or was just set |
| OrphanNights.MarkedMeansTold | app/jobs/reconcile.py:283-315 | over any nights a subscription carries the notified mark only if an accepted email listed it since its marks were last taken off |
| OrphanNights.ToldAtMostOnce | app/jobs/reconcile.py:305-315 | if the mark can always be written, at most one accepted email lists a subscription until its marks are taken off, and exactly when one has, it is marked |
| OrphanNights.NobodyForgotten | app/jobs/reconcile.py:252-315 | whoever is found an orphan and was not told since is in tonight's accepted email or listed as needing one, and those two lists are exactly the pending orphans |
| OrphanNights.EmailSettles | app/jobs/reconcile.py:289-315 | notified and unnotified split the pending orphans by whether the email was accepted |
| Calendar.NextDayIsOneLater | app/services/quota.py:46-50 | a day later is the next number on the line of days, month and year ends included |
| Calendar.DayNumberExactly | app/services/quota.py:40-50 | the number of any date on the line of days by the Gregorian rule in closed form, and of the Unix epoch |
| Calendar.ThirtyTwoDaysReachesNextMonth | app/services/quota.py:40-43 | thirty-two days on from the first and back to the first is the next month, for every month and year |
| Calendar.DailyWindow | app/services/quota.py:48-50 | the daily window runs from midnight to the next midnight |
| Calendar.CalendarWindow | app/services/quota.py:40-58 | the fallback window is the calendar month |
| Calendar.PeriodWindow | app/services/quota.py:51-58 | inside a billing period, its first instant included and its last not, the window is the period |
| Calendar.NowIsInItsWindow | app/services/quota.py:46-58 | the current instant lies inside its own window, for both kinds |
| Calendar.WindowsTile | app/services/quota.py:46-58 | two instants in one window have that window, if and only if it is daily, or the first was inside the billing period, or the second is outside it |
| Calendar.APeriodStartSplitsItsMonth | app/services/quota.py:46-58 | the input: a call before the start of a billing period and a later one in the same month are in windows that overlap and differ |
| Quota.UsageTable.Mirror | app/services/quota.py:177-224 | the durable count goes up by one, or the failure is swallowed and nothing changes |
| Quota.Consume | app/services/quota.py:123-174 | one call, with the clock read anew for the window, the lifetime and the count: unmetered, accepted, rejected or let through uncounted, what it does to the counter and its lifetime, and when the durable row is written |
| Quota.OneLife | app/services/quota.py:143-167 | while one life of the key lasts it counts every call and accepts exactly the first `limit` |
| Quota.KeyEndsInTheLastSecond | app/services/quota.py:145-145 | a key lives to the window's last second, and to its end when made in that second or when its lifetime was computed a whole number of seconds before it |
| Quota.AcceptedExactly | app/services/quota.py:143-174 | exactly how many calls of a window are accepted: up to the cap in the first life of the key, and up to the cap once more among the calls after it, all in the last second |
| Quota.QuotaIsExactIff | app/services/quota.py:143-174 | the cap holds over the whole window if and only if no call comes after the first life, or there is no cap, or all calls together are within it, or the cap is zero |
| Quota.QuotaIsExactUpToTheLastSecond | app/services/quota.py:143-174 | so of any calls counted up to one second before the window ends exactly min(n, limit) are accepted |
| Quota.QuotaIsExactOnWholeSeconds | app/services/quota.py:143-174 | and of all calls, when the first lifetime was a whole number of seconds |
| Quota.QuotaAtMostDoubles | app/services/quota.py:143-174 | over the whole window at most twice the limit is accepted, whatever the instants |
| Quota.EveryCapCanDouble | app/services/quota.py:145-145 | the trace: for every cap, as many calls early and as many again in the last half second, all accepted |
| Quota.UsageIsConserved | app/services/quota.py:145-167 | while the key lives the counter is accepted plus rejected and the durable row accepted plus uncounted, and every call is one of the three |
| UsageMirror.StepKeepsInv | app/services/quota.py:195-224 | every step of update, insert, collision, retry, commit and failure keeps one row that counts the finished workers |
| UsageMirror.UpsertLosesNothing | app/services/quota.py:195-224 | in every state reachable from the empty table, under any interleaving, there is at most one row and it counts exactly the workers that finished |
| RedisCounter.StepKeepsInv | app/cache.py:94-100 | every command and every crash keeps what the next result rests on |
| RedisCounter.EachLifeIsExact | app/cache.py:94-100 | from no key on, however INCR, TTL and EXPIRE of many workers interleave and workers die, each life of a key accepts exactly the first `limit` increments |
| RedisCounter.BucketIsExact | app/ratelimit.py:77-86 | the bucket bound on the shared cache: the requests that reach a bucket's key before the bucket ends fall in one life of it, and exactly the first `limit` are let through, whatever workers die |
| RedisCounter.SharedQuotaIsExactIff | app/services/quota.py:143-174 | the quota on the shared cache, its lifetimes cut to whole seconds: up to the window's last second one life of the key, to its end at most twice the cap accepted, and the cap exactly if and only if no call came after the first life, or all calls are within the cap, or it is zero |
| RedisCounter.EverySharedCapCanDouble | app/services/quota.py:145-145 | the trace: for every cap, as many calls early and as many again in the last half second, all accepted |
| RedisCounter.CompletedIncrementLeavesALifetime | app/cache.py:96-99 | an increment that completes leaves a lifetime on the key, and a key that has one keeps one |
| RateLimit.Enforce | app/ratelimit.py:69-94 | the loop equals `EnforceWhile` wherever the cache stops answering: disabled windows skipped, each counter bumped in turn, the first over its limit refuses with its retry time, and the first that cannot be asked lets the request through |
| RateLimit.OutageOnlyAdmits | app/ratelimit.py:79-94 | an outage part way only ever lets more through: a refusal is the one there would have been without it, with the same counters |
| RateLimit.NeverExpiresInItsBucket | app/ratelimit.py:77-80 | a counter never expires inside its own bucket |
| RateLimit.BumpCounts | app/ratelimit.py:80-80 | one increment counts once, for its own bucket alone |
| RateLimit.OthersDoNotCount | app/ratelimit.py:77-80 | a request moves no counter of another caller or another endpoint |
| RateLimit.EnforceCounts | app/ratelimit.py:74-94 | an admitted request is counted once in every enabled window, within its limit; a refusal names a window already at its limit |
| RateLimit.BucketBound | app/ratelimit.py:74-94 | over any run of requests, each bucket of each enabled window admits at most its limit |
| RateLimit.AnyIntervalIsBounded | app/ratelimit.py:69-94 | any interval as long as k windows admits at most (k+1) limits, for every enabled window at once |
| RateLimit.RefusedOnlyAtTheLimit | app/ratelimit.py:86-94 | and a refusal means some enabled window had counted its limit already |
| RateLimit.RetryLandsExactly | app/ratelimit.py:86-94 | a client that waits exactly as told comes back within a second of the end of its bucket, and finds the next bucket if and only if a whole number of seconds was left, or less than one |
| RateLimit.TheRetryIsRefusedAgain | app/ratelimit.py:74-94 | otherwise it finds its bucket still full and is refused again, with nobody else about |

## Left out

- SyncProtocol.WebhooksConverge: Stripe raises an event for every change, and one user has one customer,
  so a customer's row, lock, events and answers are one independent state; two customers that share a user
  are not interleaved.
- SyncProtocol.WebhooksConverge: the user named on a customer is read together with the answer, while the
  service asks for it a call later; a claim that cannot be committed is a delivery that dies there.
- Webhooks.StripeWebhook: between its claim and its commit a delivery runs alone here; deliveries that
  overlap there are `SyncProtocol`'s.
- DunningCycles.OneReportPerCycle: a nightly run is one step, and no extension is among the writers;
  `OneReportPerStart` has the extensions and `OverlappingRunsReportTwice` the runs that overlap.
- Subscriptions.SyncSubscriptionFromStripe: raising leaves the session to be rolled back, so nothing is
  said of its working tables.
- CacheProtocol.StaleEntryHasAnExcuse: for a user without an expiring grant and with no window closing
  between read and now, since time alone changes the answer otherwise; `CachedHitExactly` has that part.
- Quota.QuotaIsExactIff: a fixed limit, and calls that reach the counter before their window ends; one that
  was given a window just before it closed and is counted after is left out.
- OrphanNights.ToldAtMostOnce: nothing but this job writes the two marks.
- Reconcile.Reconcile: Stripe's subscriptions stand still during a run; a dry run's rollback does not fail;
  the account directory answers for a user the same way all run long.
- One clock: the database's, the cache's and the application's are the same here, and every transaction
  is dated at one instant.
- SQLAlchemy's identity map and refresh, connection pools, and SQLite's missing row locks: Postgres row
  locks and unique constraints are modelled directly.
- The Stripe SDK, signature verification, and the shape of Checkout and portal sessions: foreign calls.
- The idempotency key and the flattening of discounts: hashing and field copying.
- Cache keys as formatted text, and JSON: keys and payloads are values, so no two can collide.
- `upgrade_tier_for`, `peek`, `states`, `minimum_tier_for_feature`, `next_tier_up`, tier limits and features:
  single look-ups in the catalog, with nothing between them to go wrong.
- The end of the calendar (year 9999), where Python's dates overflow.
- Sign-in, the admin key, migrations, roles, the sales inbox, email delivery, flags, metrics, logging,
  health checks and all of `web/`.
