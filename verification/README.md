# Electronic service of process: delivery, metering and notices

A Dafny model of the parts of the application in which state is shared, retried or raced: the
crash-resumable delivery worker, the quota meter and its audit trail, the Stripe and comp-grant
transactions, first views of public notices, the two rate limiters, the line breaking of the certificate
and calendar-month arithmetic.

`dafny verify dfyconfig.toml` checks everything.

## How it is modelled

- **Store.** `Store.Database` is the live store, a class whose tables the transactions reassign;
  `Store.Tables` is its value. Each transaction is a method on the store (`Intake.CreateServiceRequest`,
  `Failure.FailServiceRequest`, `Quota.CheckAndDecrementQuota`, `Quota.RestoreQuota`,
  `CompGrant.GrantComp`, `Webhook.HandleWebhook`) proved against a function on tables.
- **Machine.** `Machine.Step` is the whole system: the store, the Solana ledger, one live worker with its
  volatile program counter, and web transactions that have read and not yet committed. The worker may
  stop at every `await` (`Crash`, which also stands for an error that escapes `runOnce`), each chain call
  may throw before or after it took effect, and a failed store operation has no effect. Transactions do
  their look-ups and their writes in separate steps, so any number of stale readers may interleave.
  `Machine.Run(ls)` is the state after the labels `ls`, and a label that is not possible changes nothing,
  so "for every list of labels" means "in every run".
- **Worker.** `Worker.DeliveryWorker` is the running worker. Its methods act on the live store and ledger
  and extend a ghost trace of machine steps; `Valid()` says that store and ledger are the machine's after
  that trace. So every theorem about runs holds of the live state (`Worker.LiveStateIsSafe`,
  `Worker.LiveNeverResends`), and independently each method is tied to a function of the old state and of
  the answers of the outside world (`Worker.Attempt`, `Worker.Escapes`).
- **Conventions.** A row is addressed by its position, and positions follow `createdAt`; a signature is the
  position of its transaction in the ledger; an organization's Clerk id and internal id are one identity;
  times are integers in milliseconds; the server's local zone is UTC.

| file | models |
|---|---|
| `Machine.dfy`, `Delivery.dfy`, `Accounting.dfy`, `Checkout.dfy`, `Limits.dfy` | the system, what every step keeps, and where promises stop |
| `Worker.dfy` | worker/index.ts, worker/process.ts |
| `Store.dfy`, `Quota.dfy`, `Intake.dfy`, `Failure.dfy`, `CompGrant.dfy`, `Webhook.dfy` | the store and its transactions |
| `Memo.dfy`, `Text.dfy` | lib/chain/tx-builder.ts, lib/chain/solana.ts |
| `NoticeAccess.dfy` | lib/noticeAccess.ts, lib/certificate.ts |
| `RateLimit.dfy` | lib/rateLimit.ts, lib/rate-limit.ts |
| `LineWrap.dfy` | `wrap` in lib/certificate-pdf.ts |
| `Calendar.dfy` | `nextPeriodEnd`, `addMonths` |

## Where code and documentation disagree

The model follows the code. For each of these promises a failing run, or a family of them, is exhibited
and the exact condition under which the promise holds is proved for every run.

- worker/process.ts:38-39 says a request is broadcast at most once even across a crash. A crash between
  `send` and the signature update repeats the broadcast, any number of times (`Limits.BroadcastManyTimes`).
  For every row of every run the broadcasts are the attempts that lost their signature, plus one if a
  signature is stored, plus one if a broadcast is in flight (`Delivery.BroadcastCount`), so there is at most
  one exactly when that sum is at most one (`Delivery.AtMostOnceIff`), and the next broadcast repeats an
  earlier one exactly when an earlier attempt lost its signature (`Delivery.ResendIff`). An attempt that
  ends by itself loses it exactly when `send` threw after the broadcast or the update failed
  (`Worker.SignatureLostIff`).
- worker/index.ts:20-22 says two pollers can never both win a row. The claim guard accepts IN_PROGRESS, so
  both win exactly when the row is still claimable (`Limits.BothPollersWin`). All else assumes the one
  live worker of worker/index.ts:22-25.
- lib/quota.ts:67-70 says concurrent callers never push usage past the tier limit. The stored meter indeed
  never exceeds it (`Accounting.MetersInBounds`), but the rollover write has no guard: for every n some run
  admits n requests to a tier of one unit in one period, all but the first on reads of the elapsed period
  before it (`Limits.StaleReadersOverrun`). Over any stretch of any run in which the stored period is open,
  the admissions stay within the limits and the credits exactly if what the meters showed whenever the
  rollover branch was taken on a stale read adds up to no more than the meters have left
  (`Accounting.PeriodBoundIff`). They do when every charge decides as a fresh one would
  (`Accounting.PeriodBoundOnTime`), and which do is `Accounting.StaleChargeIsFresh`.
- lib/failure.ts:14-15 says a failed delivery never costs a fulfilment. When the organization checks out
  again between intake and failure it does (`Limits.RenewalCosts`), and likewise when the subscription is
  canceled (`Limits.CancellationCosts`; CANCELED is a status of prisma/schema.prisma that no route here
  writes). The unit is given back exactly when the organization had an ACTIVE subscription when one was
  chosen and the meter of that one is not at zero when the failure commits (`Accounting.CreditIff`); giving
  it back undoes the charge exactly when that one did not roll the period over
  (`Quota.RestoreUndoesConsume`). The books balance in every case (`Accounting.Conservation`).
- lib/noticeAccess.ts:11-12 says later views return `isFirstAccess: false`. Of two views that both looked
  before either had inserted, the second throws (`NoticeAccess.RacingViewThrows`). In every run a call that
  found no access row throws exactly when the notice has one by then or does not exist
  (`NoticeAccess.CommitThrowsIff`).
- app/api/webhooks/stripe/route.ts:64-66 takes every unique-constraint error for a replay. Of two first
  checkouts of one organization that both looked before either had inserted, the second is answered as
  deduped without being recorded or applied (`Limits.RacingCheckouts`). In every run that happens exactly
  when the event is new and its organization or subscription was absent at the transaction's own look-up and
  is there at its commit (`Checkout.DedupedUnrecordedIff`). This takes an upsert for a look-up followed by
  an insert; one that the database runs as a single statement raises no such error. Events that are
  recorded are answered as received exactly once, however deliveries race (`Checkout.ReceivedOnce`).
- lib/rateLimit.ts:18-19 and 57 call the map an LRU. Restarting an elapsed window does not move the key to
  the newest end, so a run can evict the key that was requested last (`RateLimit.EvictsMostRecent`). The map
  is ordered by last insertion or same-window hit (`RateLimit.OrderedByPlacement`). A call keeps the order
  of an LRU exactly when it does not restart the window of a key that is not the newest
  (`RateLimit.LruStepIff`), and a run keeps it throughout exactly when it makes no such call
  (`RateLimit.LruRunIff`); then it evicts only least recently requested keys (`RateLimit.LruWithoutStrays`).
  A key whose window was not restarted since it was placed is in any case evicted in that order
  (`RateLimit.UnrestartedIsLeastRecent`).
- The two limiters answer a fresh window alike exactly when the limit is at least 1
  (`RateLimit.FreshAnswersAgree`): the unbounded one always admits the first request.

## Model

| member | source | states |
|---|---|---|
| `Delivery.StepKeeps` | worker/index.ts:146-197 | every step of worker, ledger and web application, including crashes and failed calls, keeps the delivery invariant: nothing claimable precedes a request in progress, the worker's row is as it was read but for a signature stored since, stored signatures belong to their row, broadcasts are accounted for, CONFIRMED is proven |
| `Delivery.Reachable` | worker/index.ts:146-210 | that invariant holds in every reachable state |
| `Delivery.BroadcastCount` | worker/process.ts:68-84 | for every row of every run: the broadcasts are the attempts that lost their signature, plus one if a signature is stored, plus one if a broadcast is in flight |
| `Delivery.BroadcastBound` | worker/process.ts:68-84 | in every run a request is broadcast at most once more than it had attempts that broadcast and ended with neither the signature stored nor the row parked |
| `Delivery.AtMostOnceIff` | worker/process.ts:34-39 | any request of any run was broadcast at most once if and only if its lost, stored and in-flight signatures are at most one together |
| `Delivery.ResendIff` | worker/process.ts:70-78 | about to send, the worker repeats an earlier broadcast if and only if an earlier attempt lost its signature |
| `Delivery.NeverResent` | worker/process.ts:68-84 | once stored, a signature is never replaced and its request is never broadcast again, however the run goes on |
| `Delivery.OneInProgress` | worker/index.ts:36-40 | in every reachable state at most one request is IN_PROGRESS, and it is the oldest claimable one |
| `Delivery.CrashResumesOrphan` | worker/index.ts:146-171 | after a crash at any point, and any steps of ledger and web application before the poll and before the claim, the next claim takes up exactly the request in progress, at the send if no signature is stored and at the confirmation if one is; ledger and store are those of a run without the worker |
| `Delivery.ConfirmedIsProven` | worker/process.ts:86-111 | every CONFIRMED request has a stored signature of its own whose finalized on-chain memo is the one rebuilt from the row |
| `Delivery.NoMismatch` | worker/process.ts:95-102 | on a chain that lands what was sent, confirms only what is finalized and finds what is finalized, no run, resumed in however many processes, raises MemoMismatchError |
| `Delivery.RowHistory` | worker/index.ts:164-194 | the statuses a request has had are a prefix of STAGED, IN_PROGRESS and then CONFIRMED or FAILED, ending in its present status |
| `Delivery.AuditsMatchRows` | lib/failure.ts:57-86 | every request has one SERVICE_REQUEST_STAGED audit; it is FAILED iff it has exactly one SERVICE_FAILED audit; at most one unit is credited for it and none unless it FAILED |
| `Delivery.MemosIdentifyRows` | lib/chain/tx-builder.ts:38-51 | in every run two different requests have different memos, so a memo on the ledger names one request |
| `Delivery.MemoNamesRequest` | worker/process.ts:60-66 | in every run the memo rebuilt from a row parses to its digest, its notice token and its id |
| `Delivery.StagedMemo` | worker/process.ts:60-66 | a request staged with a digest, a notice token and an id has the memo made of these three, in this order, in every later state |
| `Accounting.Conservation` | lib/quota.ts:102-120 | in every run an organization's meters plus the units overwritten by rollovers and grants equal its staged requests less its failed requests that were credited |
| `Accounting.StepBalances` | lib/intake.ts:66-122 | one step, with any number of pending transactions holding stale reads, keeps the balance, the bounds of every meter and the validity of what was read |
| `Accounting.ChargeStaysInBounds` | lib/quota.ts:93-122 | a charge decided on a stale read leaves the meter within the limit and adds one unit net of what it overwrites |
| `Accounting.MetersInBounds` | lib/quota.ts:110-120 | in every run every meter lies between zero and the limit of its tier |
| `Accounting.MetersWithinTiers` | lib/quota.ts:18-22 | in every run no meter is above 1, 9 or 999 units for the three tiers, and no other tier has any |
| `Accounting.TiersOnlyRise` | app/api/admin/comp-grant/route.ts:80-99 | no subscription is ever removed or given to another organization, and its tier changes only to the granted one, so its limit only rises |
| `Accounting.StaleChargeIsFresh` | lib/quota.ts:93-122 | a charge on any read, of whatever tier and period, has the effect on the meter of a fresh one iff both refuse, or both charge and the period had elapsed for both or for neither or the very period it opens was already open and unused |
| `Accounting.AsIfFreshSameTier` | lib/quota.ts:100-122 | with the tier that was read still in place, that is decided by the ends of the period alone |
| `Accounting.StretchBalance` | lib/quota.ts:102-120 | over any stretch of any run admissions are the growth of the meters plus credits plus units written over |
| `Accounting.PeriodBoundIff` | lib/quota.ts:102-108 | over any stretch of any run within an open period, admissions stay within limits and credits iff what the meters showed at each rollover branch taken on a stale read adds up to no more than the meters have left |
| `Accounting.PeriodBoundOnTime` | lib/quota.ts:98-122 | over a stretch within an open period in which every charge decides as a fresh one would, admissions stay within limits and credits, whatever interleaves |
| `Accounting.ParkGivesBack` | lib/failure.ts:57-86 | parking writes one audit whose `quotaRestored` says whether the meters went down by one |
| `Accounting.CreditIff` | lib/failure.ts:64-67 | in every run a failed delivery gives its unit back iff its organization had an ACTIVE subscription when one was chosen and that meter is above zero at the commit, whatever the web application does in between |
| `Limits.StaleReadersOverrun` | lib/quota.ts:102-108 | for every n, after a run that used the one unit of a period, some steps admit n - 1 more requests in that period at one instant, each on a read of the elapsed period before; the limit is kept iff n is 1 |
| `Limits.RenewalCosts` | lib/failure.ts:14-15 | a second checkout more than three days after the intake, then a failed delivery: the request is FAILED, the credit was skipped and the unit stays spent on the first subscription |
| `Limits.CancellationCosts` | lib/quota.ts:141-143 | the subscription is canceled after the intake, then the delivery fails: the request is FAILED and the unit stays spent |
| `Limits.RacingCheckouts` | app/api/webhooks/stripe/route.ts:53-68 | for any two first checkouts of one organization some run answers the second as deduped with neither its record nor its effect stored |
| `Limits.BroadcastManyTimes` | worker/process.ts:74-83 | for every n some run broadcasts one request n times by dying between send and persist |
| `Limits.BothPollersWin` | worker/index.ts:164-170 | of two pollers that chose the same row both win it iff it is still claimable |
| `Machine.Oldest` | worker/index.ts:147-150 | the first claimable row from a position on: nothing claimable before it, none only if nothing is claimable |
| `Machine.RunAppend` | worker/index.ts:184-210 | a run continued is the run of the joined steps, so what holds of runs holds across restarts |
| `Machine.IntakeAlone` | lib/intake.ts:63-123 | reading and then committing with nothing in between is the intake transaction run alone |
| `Machine.GrantAlone` | app/api/admin/comp-grant/route.ts:66-117 | reading and then committing with nothing in between is the grant transaction run alone |
| `Machine.StripeAlone` | app/api/webhooks/stripe/route.ts:53-71 | a Stripe delivery with nothing in between records and applies its event and answers received, or answers deduped iff it was recorded before |
| `Worker.DeliveryWorker.ClaimNext` | worker/index.ts:146-171 | throws iff a store call it makes fails; otherwise flips exactly the oldest claimable row and returns it as read, or nothing iff the queue is empty; the steps are the machine's |
| `Worker.DeliveryWorker.SendAndPersist` | worker/process.ts:68-84 | the new ledger, row and outcome for every way rent, send and the signature update can end |
| `Worker.DeliveryWorker.ConfirmAndStamp` | worker/process.ts:86-111 | the new ledger, row and outcome for every way confirm, re-read and the CONFIRMED update can end, a memo mismatch included |
| `Worker.DeliveryWorker.ProcessServiceRequest` | worker/process.ts:54-111 | ledger, row and error are those of `Attempt`, reached by machine steps only |
| `Worker.DeliveryWorker.Fail` | worker/index.ts:124-130 | parks, credits and audits as the failure transaction does, with the signature of claim time, or leaves the whole store as it was iff that transaction failed |
| `Worker.DeliveryWorker.DeliverOrPark` | worker/index.ts:188-195 | a delivered row is stamped, a failed one parked with its error; an error escapes iff the delivery threw and the failure transaction failed too, and then the row keeps what it had |
| `Worker.DeliveryWorker.RunOnce` | worker/index.ts:184-197 | false iff no row is claimable, else the oldest claimable row is terminal and leaves the front of the backlog; throws iff the claim or the failure transaction failed, and then every row is as claimable as before |
| `Worker.DeliveryWorker.Drain` | worker/index.ts:204-210 | ends; unless an error escapes, it claims exactly the initial backlog in createdAt order, leaves every row terminal, touches no terminal row and returns the size of the backlog |
| `Worker.DeliveryWorker.PollForever` | worker/index.ts:219-231 | over any number of ticks the oldest claimable rows are settled in order, at most one a tick, exactly one a tick while there is one if no error escapes, and an escaped error loses nothing |
| `Worker.ResumeNeverSends` | worker/process.ts:34-39 | an attempt on a row with a stored signature adds nothing to the ledger, keeps the signature, and its outcome does not depend on what sending would have done |
| `Worker.SignatureLostIff` | worker/process.ts:72-83 | an attempt broadcasts without a stored signature iff send threw after landing or the signature update failed; it never broadcasts twice |
| `Worker.ConfirmedOrFaulty` | worker/process.ts:86-111 | an attempt ends without an error iff its row is CONFIRMED, which is then proven on the ledger; with an error only the signature may differ |
| `Worker.FirstErrorWins` | worker/process.ts:58-102 | the first call of an attempt that throws ends it with its own error, and a re-read that finds nothing with a mismatch |
| `Worker.FaultIsRecorded` | worker/index.ts:191-194 | a failed row is FAILED with up to 500 characters of the error as its reason and otherwise as the attempt left it |
| `Worker.CleanAttemptConfirms` | worker/process.ts:54-111 | if no call fails and the chain keeps its word, the attempt, fresh or resumed, confirms the row with the reported slot, and the reported block time in milliseconds |
| `Worker.BacklogSettles` | worker/index.ts:199-210 | settling the oldest claimable row takes exactly that row off the front of the backlog |
| `Worker.LiveStateIsSafe` | worker/process.ts:86-111 | whenever a method of the worker returns, every CONFIRMED row of the live store is proven on the live ledger and every meter is within its bounds |
| `Worker.LiveNeverResends` | worker/process.ts:34-39 | between two returns of the worker a row with a stored signature keeps it and is not broadcast again |
| `Failure.FailServiceRequest` | lib/failure.ts:52-87 | status, capped reason, credit and audit change together as one transaction, or on an error nothing does |
| `Failure.FailExact` | lib/failure.ts:55-83 | the row changes in status and reason only, the reason stored unchanged up to 500 characters and cut there beyond, the audit says the same and whether a unit came off the chosen meter, and nothing else changes |
| `Intake.CreateServiceRequest` | lib/intake.ts:63-123 | charge, row and audit commit together; on a metering, storage, missing-organization or uniqueness error the whole store is as before |
| `Intake.IntakeExact` | lib/intake.ts:66-113 | succeeds iff a unit can be consumed, the document is stored, the organization exists and both keys are free; the new row is STAGED with the input, the token and the digest of the storage and nothing else set |
| `Quota.CheckAndDecrementQuota` | lib/quota.ts:80-123 | result and meters for a missing subscription, an unknown tier, an elapsed period, room and no room |
| `Quota.ConsumeExact` | lib/quota.ts:18-122 | of the latest ACTIVE subscription: below 1, 9 or 999 units in an open period adds one, at the limit throws with it, in an elapsed period starts 28 to 31 days with one unit, on an unknown tier throws |
| `Quota.NoActiveExact` | lib/quota.ts:84-91 | without an ACTIVE subscription of the organization consuming throws and restoring changes nothing |
| `Quota.AdmitsExactly` | lib/quota.ts:110-122 | calls in an open period are admitted as long as units are left, and no longer |
| `Quota.TierAdmits` | lib/quota.ts:18-22 | from an unused meter the three tiers admit exactly 1, 9 and 999 requests in an open period |
| `Quota.RestoreQuota` | lib/quota.ts:150-171 | credits one unit to the latest ACTIVE subscription of the organization and says so, or changes nothing |
| `Quota.RestoreExact` | lib/quota.ts:163-170 | one unit comes off the meter exactly if it is above zero |
| `Quota.RestoreUndoesConsume` | lib/quota.ts:125-141 | restoring puts every meter back as before the charge iff the charge did not roll the period over |
| `Quota.MeterIsTheCode` | lib/quota.ts:98-122 | on one subscription the serial meter steps are those of the two functions |
| `Quota.AdmissionsBound` | lib/quota.ts:98-122 | for every sequence of serial calls, admissions are at most the limit times the periods touched plus the credits, and without a rollover the meter is exactly admissions less credits |
| `Quota.PeriodBound` | lib/quota.ts:59-70 | admissions within one period are at most the tier limit plus the credits in it |
| `Quota.RolloversApart` | lib/quota.ts:102-107 | two rollovers are more than 28 days apart, whatever the clock does in between |
| `Quota.SpanBound` | lib/quota.ts:98-122 | admissions over a span T are at most limit * (T / 28 days + 2) plus the credits |
| `Store.FindLatest` | lib/quota.ts:84-87 | a subscription of the organization with the latest period end, ACTIVE if asked, and none iff there is no candidate |
| `CompGrant.GrantComp` | app/api/admin/comp-grant/route.ts:66-117 | organization, subscription and audit change together, or nothing does |
| `CompGrant.GrantReconciles` | app/api/admin/comp-grant/route.ts:73-99 | run alone, a grant opens a subscription iff the organization has none of any status; else it takes over the one with the latest period end |
| `CompGrant.GrantGives` | app/api/admin/comp-grant/route.ts:80-114 | the audit names a subscription of the organization that is ACTIVE on tier3 with an unused meter for 730 or 731 days; no other subscription changes |
| `Webhook.HandleWebhook` | app/api/webhooks/stripe/route.ts:53-71 | an event is recorded and applied together or not at all; the answer is deduped iff the event was recorded before or a record that an upsert did not find is there by now, and in the latter case alone it is not recorded; failed iff another error stopped it |
| `Webhook.ApplyCheckoutCompleted` | app/api/webhooks/stripe/route.ts:79-122 | throws iff an upsert lost a race; otherwise organizations and subscriptions after a session that can be attributed, and no change after one that cannot |
| `Webhook.CheckoutActivates` | app/api/webhooks/stripe/route.ts:98-121 | the organization is known and the subscription ACTIVE, no other subscription changes, and an opened one has an unused meter and a period of one month |
| `Webhook.CheckoutExact` | app/api/webhooks/stripe/route.ts:85-121 | on the fields of the session: with a client reference, or else a metadata organization, a tier and a subscription, none empty, that organization is known and that subscription ACTIVE, a new one on that tier |
| `Webhook.IncompleteSession` | app/api/webhooks/stripe/route.ts:85-96 | if the organization, the tier or the subscription is missing or empty, an empty client reference included, nothing changes |
| `Webhook.OtherEvent` | app/api/webhooks/stripe/route.ts:57-61 | any other event changes the record of events only |
| `Webhook.LookupsExact` | app/api/webhooks/stripe/route.ts:98-111 | the two look-ups find the named organization and subscription iff they are there |
| `Webhook.CheckoutIdempotent` | app/api/webhooks/stripe/route.ts:74-78 | applying a completed checkout again, at any later time, changes nothing |
| `Webhook.ExactlyOnce` | app/api/webhooks/stripe/route.ts:12-24 | for every sequence of duplicates, replays, failures and retries, organizations and subscriptions are those of applying each event once, at its first successful delivery |
| `Webhook.FirstSuccessesDistinct` | app/api/webhooks/stripe/route.ts:55-57 | no event is among those applied twice, and only committed deliveries of unrecorded events are |
| `Webhook.FirstSuccessesCover` | app/api/webhooks/stripe/route.ts:53-62 | every unrecorded event with a committed delivery is among those applied |
| `Webhook.DeliveriesKeepMeters` | app/api/webhooks/stripe/route.ts:110-121 | no sequence of deliveries changes owner, tier, period or usage of an existing subscription, or any request or audit |
| `Checkout.DedupedUnrecordedIff` | app/api/webhooks/stripe/route.ts:63-66 | in every run a commit is answered as deduped without its event being recorded iff the event is new and its organization or subscription was absent in the state of its own look-up step and is there at the commit |
| `Checkout.LookedBefore` | app/api/webhooks/stripe/route.ts:98-121 | every pending transaction has a look-up step in the run, and remembers what the state at that step held |
| `Checkout.FoundStays` | app/api/webhooks/stripe/route.ts:98-121 | an organization or subscription once found is found in every later state, so an upsert that found its record updates it |
| `Checkout.ReceivedIsRecorded` | app/api/webhooks/stripe/route.ts:54-71 | in every run an event answered as received is recorded, then and ever after |
| `Checkout.ReceivedOnce` | app/api/webhooks/stripe/route.ts:53-71 | exactly once under racing deliveries: in every run a recorded event was answered as received exactly once, an unrecorded one never |
| `Memo.MemoRoundTrip` | lib/chain/tx-builder.ts:45-51 | splitting a memo at its first two bars recovers the three fields iff neither of the first two contains a bar |
| `Memo.MemosDiffer` | lib/chain/tx-builder.ts:45-51 | different fields without bars in the first two give different memos |
| `Memo.DecodeMemo` | lib/chain/solana.ts:42-76 | the two searches return the data of the first Memo instruction, legacy list first, or null |
| `Memo.DeliveryDecodes` | lib/chain/solana.ts:42-76 | on any legacy or v0 message with one transfer and one memo, in any account and instruction order, decoding returns that memo |
| `Memo.NullWithoutMemo` | lib/chain/solana.ts:55-75 | decoding returns null iff the message has no account keys or no Memo instruction |
| `Memo.FirstMemoWins` | lib/chain/solana.ts:55-74 | the memo is the data of the first instruction for the Memo program, legacy instructions and legacy keys first |
| `Memo.DeliveriesExist` | lib/chain/solana.ts:123-130 | deliveries exist in both message shapes, with the two instructions in either order |
| `NoticeAccess.MaskIdempotent` | lib/noticeAccess.ts:34-46 | masking a masked address changes nothing, for every text |
| `NoticeAccess.MaskHidesOctet` | lib/noticeAccess.ts:35-39 | the mask of an IPv4 address does not depend on its last octet |
| `NoticeAccess.MaskHidesGroup` | lib/noticeAccess.ts:40-44 | the mask of an address with colons does not depend on its last group |
| `NoticeAccess.MaskOfV4` | lib/noticeAccess.ts:35-39 | four decimal octets become the first three and an x |
| `NoticeAccess.MaskOfGroups` | lib/noticeAccess.ts:40-44 | an address with colons becomes all groups but the last and an x |
| `NoticeAccess.NothingToMask` | lib/noticeAccess.ts:45-45 | any other text is returned as it is |
| `NoticeAccess.NoticeDb.RecordFirstAccess` | lib/noticeAccess.ts:57-121 | the three records are written together with one time iff the call reports the first access; later calls report that time; a violated constraint throws and leaves the store as it was |
| `NoticeAccess.NoticeDb.WriteFirstViewedAddendum` | lib/certificate.ts:31-42 | inserts the addendum unless the notice has one |
| `NoticeAccess.FirstAccessOnce` | lib/noticeAccess.ts:48-121 | under every interleaving of first-view transactions access row, addendum and audit exist together and at most once with one time, exactly one committed call reports the first access, and all returned calls report its time |
| `NoticeAccess.CommitThrowsIff` | lib/noticeAccess.ts:88-97 | in every run a call that found no access row throws, changing nothing, iff the notice has one by then or does not exist; else it returns the first access |
| `NoticeAccess.CommitStores` | lib/noticeAccess.ts:88-119 | a committed first view stores address and user agent as they are in the access row, the mask everywhere else, and returns what was stored |
| `NoticeAccess.LookReturns` | lib/noticeAccess.ts:65-86 | a view that finds an access row returns its time and the notice's own caption and owner, and one that does not remembers them |
| `NoticeAccess.RacingViewThrows` | lib/noticeAccess.ts:11-12 | two views of any notice that both looked before either inserted end with one first access and one call that throws |
| `NoticeAccess.FirstAccessStays` | lib/noticeAccess.ts:77-97 | a recorded first view is never changed later |
| `NoticeAccess.AddressesAreMasked` | lib/noticeAccess.ts:93-108 | in every run addenda and audits hold the mask of the address in the access row |
| `RateLimit.BoundedLimiter.RateLimit` | lib/rateLimit.ts:36-69 | map and answer after one call; the map stays free of duplicates and within MAX_KEYS, the key just served is in it, and at most its oldest entry was evicted |
| `RateLimit.BoundedLimiter.EvictOldest` | lib/rateLimit.ts:57-62 | the evicting loop runs at most once and drops the oldest entry only if there is one too many |
| `RateLimit.SurvivesEviction` | lib/rateLimit.ts:54-62 | the key just served is never the one evicted, and eviction drops exactly one entry, from a full map |
| `RateLimit.RunIsValid` | lib/rateLimit.ts:18-21 | after every sequence of calls keys are distinct and at most MAX_KEYS |
| `RateLimit.NewerWereRequested` | lib/rateLimit.ts:44-55 | every key behind k in the map was requested since k was last inserted or moved to the newest end |
| `RateLimit.EvictionNeedsPressure` | lib/rateLimit.ts:44-62 | a key is evicted only after MAX_KEYS distinct other keys were requested since it was last inserted or moved to the newest end |
| `RateLimit.EverEvictedIff` | lib/rateLimit.ts:57-62 | the keys that the agreement excepts are those that some call of the run evicted |
| `RateLimit.NewerSet` | lib/rateLimit.ts:45-55 | restarting an elapsed window leaves the order of the keys as it was |
| `RateLimit.OrderedByPlacement` | lib/rateLimit.ts:44-55 | after every sequence of calls the map is in strictly increasing order of when each key was last inserted or moved to the newest end |
| `RateLimit.EvictedIsLeastPlaced` | lib/rateLimit.ts:57-62 | the evicted key was placed before every key that stays |
| `RateLimit.UnrestartedIsLeastRecent` | lib/rateLimit.ts:57-62 | a key evicted without a restart of its window since it was placed is the least recently requested one |
| `RateLimit.LruStepIff` | lib/rateLimit.ts:45-55 | one call keeps the order by last request iff it does not restart the window of a key that is not the newest |
| `RateLimit.LruRunIff` | lib/rateLimit.ts:44-62 | a run keeps the order by last request throughout iff it makes no such call |
| `RateLimit.LruWithoutStrays` | lib/rateLimit.ts:18-21 | on a run without such a call the map is in order of last request and evicts only the least recently requested key |
| `RateLimit.EvictsMostRecent` | lib/rateLimit.ts:45-62 | the run that fills the map, restarts the window of the oldest key and inserts a new one evicts the key requested last |
| `RateLimit.UnboundedLimiter.RateLimit` | lib/rate-limit.ts:53-74 | counters and the five-part answer after one call |
| `RateLimit.RetryAfterIsLeast` | lib/rate-limit.ts:57-73 | the announced wait is the least number of seconds after which the window is over, and a caller that comes next after it is admitted |
| `RateLimit.FreshAnswersAgree` | lib/rate-limit.ts:57-62 | a fresh window gets the same answer from both limiters iff the limit is at least 1 |
| `RateLimit.NoLimitNoAdmission` | lib/rateLimit.ts:64-68 | in every run, with a limit below 1 the bounded limiter admits nothing |
| `RateLimit.BucketsAgree` | lib/rateLimit.ts:36-69 | after every sequence of calls a key never evicted has the same counter in both limiters |
| `RateLimit.AnswersAgree` | lib/rateLimit.ts:64-68 | refinement: a key never evicted gets the ok, remaining and resetAt of the unbounded limiter |
| `RateLimit.FewKeysNoEviction` | lib/rateLimit.ts:57-62 | a run with at most MAX_KEYS distinct keys evicts nothing |
| `RateLimit.TotalAgreement` | lib/rateLimit.ts:36-69 | on a run with at most MAX_KEYS distinct keys the limiters agree on every answer |
| `RateLimit.AdmissionsPerWindow` | lib/rate-limit.ts:57-66 | admissions of a key are at most the room left in its window plus the limit for each new window |
| `RateLimit.WindowBound` | lib/rate-limit.ts:57-66 | from the call that starts a window to its end at most limit requests of its key are admitted, even if the clock runs back |
| `RateLimit.WindowAdmitsLimit` | lib/rate-limit.ts:57-66 | from the call that starts a window to its end the first limit requests of its key are admitted and no other, whatever other keys do |
| `RateLimit.AdmitsUntilFull` | lib/rate-limit.ts:64-66 | in a window that has begun requests are admitted until limit of them are counted, and no longer |
| `RateLimit.WindowStarts` | lib/rate-limit.ts:57-62 | the first call at or after the end of a window is admitted and starts one that lasts windowMs |
| `RateLimit.RemainingIsAdmitted` | lib/rate-limit.ts:65-65 | `remaining` is the number of further requests that the window admits |
| `RateLimit.OneRestart` | lib/rate-limit.ts:57-60 | with a clock that never runs back at most one window starts in a stretch of one window length |
| `RateLimit.BurstBound` | lib/rate-limit.ts:57-66 | at most 2 * limit requests of a key are admitted in any half-open stretch of one window length, whatever came before |
| `LineWrap.Wrap` | lib/certificate-pdf.ts:302-317 | the loop computes the wrapping; for trimmed text and a width under which part of a line is never wider, the lines join back to the words in order, each fits or is one word, and no such division has fewer lines |
| `LineWrap.WrapIsGreedy` | lib/certificate-pdf.ts:306-315 | wrapping joined texts is greedily dividing the list of words |
| `LineWrap.GreedyDivides` | lib/certificate-pdf.ts:306-315 | for every width the greedy lines divide the words in order, each fitting or a single word |
| `LineWrap.StaysAhead` | lib/certificate-pdf.ts:306-315 | greedy is never behind another division: level with part of its open line it needs no more lines, a line ahead at most one more |
| `LineWrap.GreedyIsShortest` | lib/certificate-pdf.ts:301-317 | no division into lines that fit has fewer lines than the greedy one |
| `LineWrap.WrapIsShortest` | lib/certificate-pdf.ts:301-317 | the optimality of the wrapping for every list of real words |
| `LineWrap.OneLineIff` | lib/certificate-pdf.ts:306-315 | a text of two or more words stays on one line iff it is no wider than the line |
| `LineWrap.LengthIsMonotone` | lib/certificate-pdf.ts:308-308 | the hypothesis on widths can be met: the number of characters meets it |
| `LineWrap.SplitsIntoWords` | lib/certificate-pdf.ts:303-303 | splitting at white space yields only real words iff the text is trimmed and not empty |
| `LineWrap.SplitJoinedWords` | lib/certificate-pdf.ts:303-303 | words joined by single blanks split into these words |
| `LineWrap.SplitAtGap` | lib/certificate-pdf.ts:303-303 | any run of white space, blanks, tabs and line breaks among it, separates a word from the rest and is dropped |
| `LineWrap.SplitAtLineBreak` | lib/certificate-pdf.ts:303-303 | a blank, a tab, either line break and a no-break space all separate words alike |
| `LineWrap.IsWhiteSpace` | lib/certificate-pdf.ts:303-303 | white space is the 25 characters of section 22.2.2.9 of ECMA-262, listed one by one |
| `LineWrap.OuterSpaceDropped` | lib/certificate-pdf.ts:303-316 | white space around the text changes the lines by at most one blank at the end of the last; blank text has no lines |
| `LineWrap.TrailingEmptyWord` | lib/certificate-pdf.ts:306-315 | an empty last word adds at most one blank to the last line |
| `Calendar.DayFromYearFormula` | lib/quota.ts:52-56 | the sum of year lengths is the closed formula of section 21.4.1 of ECMA-262 |
| `Calendar.DecodeMakeDay` | lib/quota.ts:52-56 | reading year, month and date off a day number inverts MakeDay on every valid date |
| `Calendar.JsDate.SetMonth` | lib/quota.ts:54-54 | the date becomes the same day of the given month if it has one, else it spills into the next; the time of day stays |
| `Calendar.AddMonthsTo` | app/api/admin/comp-grant/route.ts:14-19 | returns a fresh date so many months on and leaves its argument alone |
| `Calendar.OverflowDate` | app/api/admin/comp-grant/route.ts:14-19 | the day of the month is kept iff the target month is long enough; otherwise the excess spills into the month after it |
| `Calendar.AddMonthsKeepsTime` | app/api/admin/comp-grant/route.ts:14-19 | the day number moves by months and the time of day stays |
| `Calendar.PeriodIsOneMonth` | lib/quota.ts:51-56 | a period lasts exactly as many days as the month it starts in, 28 to 31, for every date |
| `Calendar.PeriodInMilliseconds` | lib/quota.ts:51-56 | the length of a period in milliseconds, month by month |
| `Calendar.JanuaryOverflow` | lib/quota.ts:52-56 | January 31 and a month is March 3, or March 2 in a leap year |
| `Calendar.Epoch` | lib/quota.ts:52-56 | day 0 is 1 January 1970 |
| `Calendar.LeapDay` | lib/quota.ts:52-56 | day 19782 is 29 February 2024 |
| `Calendar.CompGrantTerm` | app/api/admin/comp-grant/route.ts:63-64 | 24 months last 731 days iff they span the end of a February 29, else 730 |
| `Calendar.GrantInMilliseconds` | app/api/admin/comp-grant/route.ts:63-64 | the length of the grant in milliseconds |

## Left out

- More than one live worker, and store operations that commit but report failure: the worker's design rules the first out and no claim is made for the second.
- The un-awaited Hedera writes after CONFIRMED (worker/process.ts:113-158): they touch Hedera columns only.
- Equality of a CONFIRMED row's slot with the chain's: `confirm` falls back to 0 when its lookup is empty (lib/chain/solana.ts:149-152), so slot and block time are what `confirm` returned.
- The HTTP intake route, which charges and creates outside one transaction (app/api/service-requests/route.ts:164-202), and the demo routes, which write CONFIRMED and IN_PROGRESS directly.
- Rows without an organization: the worker types `orgId` as non-null (worker/index.ts:51).
- Rows whose commit order differs from their `createdAt` order: a claimable row that becomes visible behind the request in progress would be claimed first.
- Ties of `periodEnd`: the methods run alone pick the first of them; the machine allows any.
- Tier names that are properties of every JavaScript object, for which the lookup of a limit is not undefined.
- The signature inside the memo-mismatch message, and captions, names and wallets that nothing here depends on.
- base58 and UTF-8 coding of instruction data, `@solana/web3.js`, signing, the mainnet guard and the check that a recipient is on the curve: refusals of `send` are its thrown errors.
- Worker.DeliveryWorker.PollForever: covers any finite number of ticks, because the endless loop never returns.
- The five-second pause between polls and the time-outs inside calls: a time-out is a call that throws.
- The upserts of a Stripe delivery look up both records in one step and write in another; an upsert that the database runs as one statement would not conflict. A grant whose upsert of the organization conflicts is an aborted grant.
- LineWrap.Wrap: takes the width of a text as an arbitrary function; fonts, sizes and drawing are not modelled.
- Calendar.PeriodIsOneMonth: holds in UTC; daylight-saving shifts of a local zone and the end of the range of JavaScript dates are not modelled.
- Integers stand for JavaScript numbers; counts stay far below the range in which the two differ.
- Signature checks and parsing of Stripe events, Clerk authentication, document storage and encryption (storage returns a digest or fails), e-mail, ENS and the EVM and Bitcoin adapters.
- User interface, certificate caching, upload sniffing and proxy-header parsing: they read none of the tables, maps and ledger modelled here, or only render them.
