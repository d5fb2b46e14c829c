# The mail path of smtprelayd, modelled and proved in Dafny

smtprelayd accepts mail from legacy devices, rewrites the sender, queues the message in a
crash-safe spool and hands it to a smarthost until it is delivered, bounced or expired. These
modules model that path, from the octets of DATA to the final fate, and prove what the relay
promises about it.

| module | file | what it is about |
|---|---|---|
| `SpoolDisk`, `Crash` | `Disk.dfy`, `Crash.dfy` | the spool directories as a map changed by atomic steps that may each fail; a ghost history of every state, so that "stop after any step" is a statement about all of them, and a ghost log of what the disk refused, so that an error has to have a cause |
| `Spool`, `SpoolState` | `Spool.dfy`, `SpoolState.dfy` | the queue: recovery, commit, claim, release, remove, fail, requeue, discard, and what each does to files, index, leases and byte totals |
| `NewestFirstHeap`, `Batch` | `NewestFirst.dfy`, `Batch.dfy` | the bounded max-heap and why it is sort-and-take |
| `FailedMirror`, `Quota`, `QuotaRuns` | `FailedStore.dfy`, `Quota.dfy`, `QuotaRuns.dfy` | the mirror of spool/failed, the ledger, and the ceiling over whole runs |
| `Runs`, `AttemptRuns` | `Runs.dfy`, `AttemptRuns.dfy` | workers, listeners, operators and the retention sweep in any interleaving: leases, removal for good, no second delivery, journal against queue. Each step is the step predicate the spool method is proved to meet, and an attempt's steps are the manager's events |
| `Wakeup` | `Wakeup.dfy` | committers and dispatcher around a one-slot channel |
| `Smarthost`, `Delivery`, `Retries` | `Smarthost.dfy`, `Delivery.dfy`, `Retries.dfy` | the SMTP transaction, an attempt's one fate, the dispatcher's slots and leases, the bound on attempts |
| `RateLimit` | `RateLimit.dfy` | the per-minute bucket |
| `History`, `JournalClass`, `QueueAction` | `Store.dfy`, `JournalClass.dfy`, `QueueAction.dfy` | the attempts table and its summary columns, their repair, and the operator's two actions |
| `Bounce` | `Bounce.dfy` | the failure digests' ledger |
| `Wire`, `HeaderScan`, `Header`, `MailAddr`, `Rewrite` | `Wire.dfy`, `Scan.dfy`, `Header.dfy`, `MailAddr.dfy`, `Rewrite.dfy` | lines, transparency dots, the header scan, parse and print, structural edits, addresses, the rewriting policy |
| `Router`, `Session` | `Router.dfy`, `Session.dfy` | recipients by route, and queueing all copies of a message or none |
| `Types`, `Text`, `Totals` | `Types.dfy`, `Text.dfy`, `Totals.dfy` | values, octet searches, sums over maps |

`dafny verify dfyconfig.toml` checks the project. Outcomes the program does not decide (a file
operation, a database statement, a reply of the smarthost) are arbitrary values chosen inside the
methods and logged where a contract has to name them as a cause; clocks, cancellations and freshly
drawn queue ids are parameters.

## What the code does where its comments say otherwise

- The quota remark "at most one message over" (`internal/spool/quota.go:138-143`) does not hold. What bounds
  the excess is one Received prefix per commit in flight and the worst shortfall of a read
  (`QuotaRuns.CeilingHolds`), and `QuotaRuns.ReadIsShortBy` says what a read can miss. Even when reading the
  totals and reserving are one step, a message that Fail has taken out of the index and not yet charged to
  the mirror (`internal/spool/failed.go:234-275`) is missed whole, and so are as many as fail at once (`QuotaRuns.AtomicCeiling`), and for any
  number of commits in flight a run reaches the bound (`QuotaRuns.EveryWidthReachesItsBound`); with stale
  reads the shortfall itself has no bound (`QuotaRuns.StaleReadsAreNotBounded`).
- A DATA stream whose connection closes before the dot line ends like a complete one: the reader
  reports the same end of file (`internal/listener/wire.go:127-149`), the truncated message is queued and
  acknowledged, and `smuggled` is false. `Wire.CutShort` shows it, `Wire.EndOfFileIff` says exactly
  when it happens, and by `Session.Session.DoData` a message is acknowledged without its dot line only then.
- The 1000-octet limit counts the stuffing dot (`internal/listener/wire.go:47-71`), so a line of 998 octets
  that starts with a dot, which section 4.5.3.1.6 of RFC 5321 allows, is refused
  (`Wire.LongDotLineIsRefused`).
- A rate limiter's wait that was rounded up to a second can be used up by other calls
  (`internal/ratelimit/ratelimit.go:91-95`); `RateLimit.WaitIsEnough` gives the exact condition.
- When reading the body fails in the middle, closing the writer still ends the message at the
  smarthost and its reply is not looked at (`internal/delivery/smarthost/client.go:289-292`). The attempt counts as
  a temporary failure even if that reply was success (`Smarthost.TakenAndRetried`), and the message is sent
  again. A body answered with success means delivered exactly when it was complete
  (`Smarthost.Transact`); "accepted" in these modules means the complete body was accepted.
- The repair of summary columns never lowers `has_bounced`, so a pending row with a wrong flag
  stays wrong (`History.RepairIsExact`).

## Model

| member | source | states |
|---|---|---|
| `Crash.CrashRecovers` | internal/spool/spool.go:249-298 | stop any operation on one message after any file step and restart: every other message is recovered exactly as it was, this one is either gone or in one of the metadata versions the operation could have written |
| `SpoolState.AcknowledgedSurvives` | internal/spool/spool.go:249-298 | at any such crash point every other acknowledged message nobody has begun to delete is recovered with its own envelope and expiry, and the directories can be opened again |
| `Crash.CrashKeepsDiskInv` | internal/spool/spool.go:249-298 | a crash at any recorded step leaves directories recovery can start from |
| `SpoolDisk.RecoveredExcept` | internal/spool/spool.go:310-345 | the queue files of one message decide that message's place in the recovered index and no other's |
| `Spool.Spool.Open` | internal/spool/spool.go:222-246 | opening builds an index that holds exactly the ids with readable metadata and a body, both for the files found and for the files left after cleaning; nothing is leased; the failed mirror matches spool/failed; of temporary files, bodies without an entry and metadata without a body only those are left that the disk refused to unlink |
| `Spool.Spool.Recover` | internal/spool/spool.go:249-298 | the recovery pass removes only temporary files, metadata without a body and bodies without metadata, leaves none of them unless the disk refused the unlink, and every intermediate state recovers to the same index |
| `Spool.Spool.IndexOne` | internal/spool/spool.go:264-284 | one listed message is indexed iff its metadata reads back and its body was listed; metadata without a body is dropped |
| `SpoolState.CleanupIsInvisible` | internal/spool/spool.go:249-298 | removing orphans changes nothing a later recovery would find |
| `Spool.Spool.WriteMeta` | internal/spool/spool.go:535-560 | metadata is replaced atomically: every file state on the way shows the old or the new metadata, and no other message's file is touched |
| `Spool.Spool.Stage` | internal/spool/spool.go:373-393 | staged whole iff it is within the limit and the disk did not fault; nothing in queue or failed changes and no other id's file |
| `Spool.Spool.Commit` | internal/spool/spool.go:426-504 | acknowledged iff the quota admits it, the staged body is there and the disk did not fault; then it is indexed and durable with head plus staged octets as body, the given envelope with that size, due now, no attempt or error so far, and expiring one lifetime from now; a refused commit is not indexed and survives only if the disk refused to unlink both of its files; over-quota is refused iff the ceiling says so; the reservation is given back; only this message's files are touched |
| `Spool.Spool.WriteCopy` | internal/spool/spool.go:440-493 | the copy's file work succeeds iff the staged body is there and the disk did not fault; after a failure the message survives only if both its unlinks were refused; every intermediate state is a crash point of this message alone |
| `SpoolState.CopyArrives` | internal/spool/spool.go:440-475 | a body renamed into queue is inert until its metadata follows |
| `Spool.Spool.PutLocked` | internal/spool/spool.go:204-210 | the running byte total stays the sum over the index through an insert or overwrite |
| `Spool.Spool.DropLocked` | internal/spool/spool.go:214-219 | the running byte total stays the sum over the index through a removal |
| `Totals.TotalPut` | internal/spool/spool.go:204-210 | what an insert or overwrite does to a sum over a map |
| `Totals.TotalDrop` | internal/spool/spool.go:214-219 | what a removal does to a sum over a map |
| `NewestFirstHeap.NewestFirst.Push` | internal/spool/spool.go:641-642 | a push keeps the newest-first heap order and the elements |
| `NewestFirstHeap.NewestFirst.ReplaceRoot` | internal/spool/spool.go:643-645 | overwriting the newest element and sifting it down keeps heap order and exchanges exactly that element |
| `NewestFirstHeap.NewestFirst.Pop` | internal/spool/spool.go:649-656 | the element taken out is a newest one, the rest stays a heap |
| `NewestFirstHeap.RootIsNewest` | internal/spool/spool.go:658-665 | no element of a heap is newer than its root |
| `Batch.OldestGrows` | internal/spool/spool.go:640-642 | below the limit, keeping one more eligible message keeps the oldest ones |
| `Batch.OldestReplaces` | internal/spool/spool.go:643-645 | at the limit, exchanging the newest kept for an older candidate keeps the max oldest |
| `Batch.OldestStays` | internal/spool/spool.go:640-646 | at the limit, a candidate that is not older than the newest kept is rightly left out, ties included |
| `Batch.KeptIsBatch` | internal/spool/spool.go:625-656 | what the heap kept, drained, is the sorted-by-age prefix of the eligible messages |
| `Spool.Spool.ClaimBatch` | internal/spool/spool.go:625-656 | for any index, iteration order, ties and skip predicate: each message returned is due, was unleased and is not skipped; fewer than max means every other message was leased, is not yet due or is skipped, and otherwise none left out is older than one returned; sorted by Received, none twice, and exactly the returned ids become leased |
| `Batch.BatchIsDue` | internal/spool/spool.go:625-656 | the same of any batch that is sort-and-take of the eligible messages, in the fields of the messages themselves |
| `Spool.Spool.Defer` | internal/spool/spool.go:685-692 | only the in-memory next attempt and the lease change; the disk does not |
| `Spool.Spool.Release` | internal/spool/spool.go:700-713 | the new retry state is on disk and indexed iff the disk did not fault, else in memory only with its next attempt floored; the message survives at every step; the total is unchanged |
| `Spool.Spool.Remove` | internal/spool/spool.go:716-738 | the message leaves index and lease at once; while a recorded state has it survive the pair is whole, and once one does not no later one does; it is left surviving only if both unlinks were refused; success iff the disk did not fault, and then both files are gone |
| `Spool.Spool.Fail` | internal/spool/failed.go:226-281 | the message leaves index and lease, its bytes move from the live to the failed total, the mirror charges what the body occupies, success means it is aside; if it survived before, then once a recorded state does not have it survive no later one does, and it is left surviving only if both renames were refused |
| `Spool.Spool.TryLease` | internal/spool/spool.go:1093-1106 | a lease is taken iff nobody has it |
| `Spool.Spool.BeginRequeue` | internal/spool/spool.go:914-948 | busy iff leased and then nothing changes; success iff unleased, indexed or whole in spool/failed, and no fault of the disk; then the message is indexed due now with no attempt and no error, its envelope and expiry as they were, its metadata on disk, its lease still held; on any error the index and leases are as before; no recorded state loses a live message, and none loses the body or the metadata of one coming back from spool/failed; the byte totals are conserved |
| `Spool.Spool.RequeueLive` | internal/spool/spool.go:952-961 | a live message is reset in place iff the disk did not fault, else left as it was, and survives every recorded state |
| `Spool.Spool.RequeueFailed` | internal/spool/spool.go:965-1017 | success iff the message is whole in spool/failed and the disk did not fault: it comes back with its body, leaves the mirror and moves its bytes to the live total; any error leaves index and mirror as they were; at every recorded state the body is whole in failed or in queue, and the metadata in failed as it was or rewritten beside the body |
| `Spool.Spool.Discard` | internal/spool/spool.go:1023-1086 | busy iff leased and then nothing changes; all four files gone means gone from index and mirror, reported missing iff there was none to begin with; any file left is one the disk refused to unlink, and then index, mirror and both totals stay; an I/O error iff the disk faulted; while a recorded state has the message survive its pair is whole, and once one does not no later one does |
| `Spool.Spool.UnlinkAll` | internal/spool/spool.go:1042-1068 | all four unlinks are attempted: what is left was refused, and the deletion never brings the message back |
| `SpoolState.HalfDeleted` | internal/spool/spool.go:1048-1077 | a deletion that failed half way keeps the entry consistent, without the promise of surviving a restart |
| `FailedMirror.FailedStore.Put` | internal/spool/failed.go:67-75 | the mirror's total stays the sum of its entries |
| `FailedMirror.FailedStore.Drop` | internal/spool/failed.go:78-87 | the mirror's total stays the sum of its entries and the dropped entry is returned |
| `FailedMirror.FailedStore.Reindex` | internal/spool/failed.go:117-153 | the mirror holds exactly what lies in spool/failed, with its size and age |
| `FailedMirror.FailedStore.SweepOne` | internal/spool/failed.go:180-203 | an entry leaves the mirror iff both of its files are gone, any file left was refused by the disk, and no other file changes at any recorded state |
| `FailedMirror.FailedStore.Sweep` | internal/spool/failed.go:164-207 | every expired message has left the mirror with both files gone, or is kept with files the disk refused to unlink; nobody else's entry and no other file changes at any recorded state; the bytes and the number reported are exactly what the total and the mirror lost |
| `FailedMirror.OnlyOutstayed` | internal/spool/failed.go:164-207 | what a sweep takes has outstayed the retention, a retention of zero keeps everything, and without a fault nothing older than the retention is left |
| `Spool.Spool.SweepFailed` | internal/spool/failed.go:283-287 | the retention sweep keeps every promise of the spool: index, leases and what a restart recovers are as before, the mirror still charges what is there; an entry leaves only if it is older than the retention, and unless the disk faulted all of those do |
| `SpoolState.SweepIsInvisible` | internal/spool/failed.go:164-207 | a sweep stopped anywhere changes nothing a restart would find and keeps the directories consistent |
| `Quota.QuotaLedger.Reserve` | internal/spool/quota.go:57-65 | a reservation is made iff occupied plus reserved plus the request stays within the ceiling |
| `Quota.QuotaLedger.Release` | internal/spool/quota.go:67-71 | a reservation given back leaves the rest |
| `QuotaRuns.CeilingHolds` | internal/spool/quota.go:104-146 | what the spool holds never exceeds the ceiling by more than one Received prefix per commit in flight and the worst shortfall of a read, that is how far the total a commit was judged against lay below what was held; in every run of admissions, insertions, aborts, removals, failures and requeues, each cut where it leaves one total and enters the other |
| `QuotaRuns.RunStaysBounded` | internal/spool/quota.go:57-71 | the accounting invariant over whole runs of these moves |
| `QuotaRuns.ReadIsShortBy` | internal/spool/quota.go:104-142 | a read of the two totals one after the other falls short by no more than the messages between index and failed at the first read, what left the mirror between the reads, and what was indexed before the judgement |
| `QuotaRuns.AtomicCeiling` | internal/spool/quota.go:104-146 | with reading and reserving in one step only a failing message is missed: the excess is a prefix per commit in flight and what is on its way from index to failed during an admission, nothing of it if no admission falls between |
| `QuotaRuns.EveryWidthReachesItsBound` | internal/spool/quota.go:138-146 | the one-message remark is too strong even then: for every number of commits in flight up to the ceiling's octets and every message failing meanwhile there is a run that ends at exactly that bound |
| `QuotaRuns.StaleReadsAreNotBounded` | internal/spool/quota.go:138-146 | with stale reads any number of messages of the full ceiling is admitted, each read falling short by no more than all of them but one |
| `Runs.StepKeepsInv` | internal/spool/spool.go:625-738 | every step of every actor keeps sole ownership, the leases, what is gone for good, what was accepted and the journal's agreement |
| `Runs.RunKeepsInv` | internal/spool/spool.go:625-1106 | the invariant holds in every state of every run of workers, listeners and operators |
| `Runs.NoTwoHolders` | internal/spool/spool.go:1088-1106 | in no interleaving do two actors hold the same message, and a held message is leased |
| `Runs.HeldIsBusy` | internal/spool/spool.go:914-924 | while somebody holds a message, requeue and discard of it take no lease and change nothing |
| `Runs.RemovedIsNeverClaimed` | internal/spool/spool.go:716-738 | a message successfully removed or discarded is never indexed, claimed or requeued again in that run |
| `Runs.AcceptedIsNeverOfferedAgain` | internal/delivery/delivery.go:323-455 | once the smarthost accepted the body the message is never claimed, sent, given back, released or failed again, and once it left its holder it is out of the index |
| `Runs.JournalAgreesWithQueue` | internal/queueaction/queueaction.go:87-108 | when journal writes succeed, every live unleased message that has a history row reads as queued or deferred, in every reachable state |
| `AttemptRuns.FateIsAPath` | internal/delivery/delivery.go:323-455 | for every fate the attempt's events, in their order and whatever the spool operation did, are a path of these runs from holding a claimed message to holding nothing |
| `Wakeup.NoLostWakeup` | internal/spool/spool.go:494-511 | in every interleaving a message indexed since the last scan began has a pending signal, a committer about to send, or a consumed signal whose scan has not started |
| `Wakeup.QuietMeansSeen` | internal/delivery/delivery.go:177-237 | a dispatcher waiting on an empty channel with no commit in progress has scanned after every message was indexed |
| `Smarthost.OfferRecipients` | internal/delivery/smarthost/client.go:339-361 | one RCPT each in order; success means every recipient was accepted or refused with a 5xx, at least one accepted, and the refused ones are exactly those returned, each with its 5xx; permanent iff every recipient was refused with a 5xx; temporary iff some answer was neither a 25x nor a 5xx, a lost connection included |
| `Smarthost.RefusedExactly` | internal/delivery/smarthost/client.go:339-361 | a recipient is listed as refused, with a reply, exactly if that reply was its RCPT's answer and is a 5xx |
| `Smarthost.Transact` | internal/delivery/smarthost/client.go:277-320 | DATA is sent only after MAIL was answered 250 and every recipient was offered and settled, a body only after 354; permanent only if there was no recipient or the last answer was a 5xx, and always if MAIL, DATA or a whole body was answered with a 5xx; delivered iff a whole body was answered 250, with all refused recipients in the partial error; temporary otherwise; a body answered with success means delivered iff it was complete |
| `Smarthost.Deliver` | internal/delivery/smarthost/client.go:191-242 | the same for a whole delivery; what goes wrong before MAIL has sent nothing, is permanent exactly for a configuration error or a 5xx greeting, an outcome of its own exactly for a rejected credential, and temporary otherwise |
| `Smarthost.Submit` | internal/delivery/smarthost/client.go:285-320 | the DATA phase: permanent iff DATA or a whole body was answered with a 5xx, delivered iff a whole body was answered 250; a body is sent only after 354, and one answered with success means delivered iff it was complete |
| `Smarthost.FailedForGoodOnlyIf` | internal/delivery/smarthost/client.go:104-117 | a message with recipients is failed for good only by a configuration error, a 5xx greeting, or a last answer in the five hundreds; an answer in the four hundreds or none never does it |
| `Smarthost.FailedForGoodIf` | internal/delivery/smarthost/client.go:104-117 | and a 5xx to MAIL, DATA or a whole body, or at the greeting, always does |
| `Smarthost.TakenAndRetried` | internal/delivery/smarthost/client.go:285-293 | a body whose reading failed can be answered with success and is tried again all the same |
| `Delivery.Backoff` | internal/delivery/delivery.go:537-547 | the schedule's entry for this attempt, held at its last one |
| `Delivery.Manager.Hold` | internal/delivery/delivery.go:558-569 | a held message keeps everything but its next attempt, now plus the wait asked for or its expiry if that comes first, and loses its lease |
| `Delivery.Manager.DeferRetry` | internal/delivery/delivery.go:459-474 | the temporary failure is journalled before the spool changes; the message goes back with its attempt counted, due by the schedule clamped to its expiry, or floored when its metadata could not be written |
| `Delivery.Manager.FailMessage` | internal/delivery/delivery.go:581-604 | journal, then set aside, then report, with the report left out for a notification |
| `Delivery.Manager.Record` | internal/delivery/delivery.go:428-455 | delivered means out of the queue and journalled delivered, a permanent failure set aside and journalled permanent; after any other failure the message is still queued iff it had not expired when that was checked; expired it is set aside and journalled so, else its next attempt is now plus the schedule's entry, or its expiry if that comes first, floored a minute ahead iff the disk faulted |
| `Delivery.Manager.Attempt` | internal/delivery/delivery.go:323-423 | each attempt has one fate and its lease ends with it: set aside as permanent iff the body could not be opened, or the outcome was permanent and not cancelled; put back due now iff not delivered and cancelled, uncounted and unjournalled; otherwise, not delivered, still queued iff not past its expiry when checked, one attempt more and due by the schedule or at its expiry, else set aside as expired; delivered iff the body was accepted; with the journal write, its class and next attempt, the spool step and the failure report each fate calls for, in that order |
| `Delivery.Manager.DispatchOne` | internal/delivery/delivery.go:259-317 | a claimed message is failed iff its route is not configured, held iff its route has no slot or no token, for the poll interval or the limiter's wait, else it goes to a worker; it is left, untouched, to the caller iff the context reports a cancellation at one of the two points it is asked; every route marked saturated cannot start anything now |
| `Delivery.ChoiceInFull` | internal/delivery/delivery.go:259-321 | a message goes to a worker iff its route is configured, has a free slot, and its pace is unlimited or grants a token; without a slot it waits five seconds, without a token as long as the limiter says |
| `Delivery.Manager.StartPaced` | internal/delivery/delivery.go:277-304 | with a free slot the attempt starts iff the limiter grants a token; a denial gives the slot back and hands on the limiter's wait |
| `Delivery.StillStopped` | internal/delivery/delivery.go:296-304 | starting or asking for one route frees no other, and a token denied once is denied again at the same time |
| `Delivery.Manager.Work` | internal/delivery/delivery.go:306-316 | a worker's attempt ends with its slot returned and its lease over |
| `Delivery.StartedOnRoute` | internal/delivery/delivery.go:306-316 | occupied slots equal running attempts per route and stay within max_concurrent when one starts |
| `Delivery.EndedOnRoute` | internal/delivery/delivery.go:308-312 | and when one ends |
| `Delivery.Manager.ReleaseFrom` | internal/delivery/delivery.go:250-254 | a cancelled pass puts every pending message back exactly as it was before the claim |
| `Delivery.ReleasedIsUntouched` | internal/delivery/delivery.go:250-254 | deferring a claimed message to its own next attempt leaves no trace of the claim |
| `Delivery.PlacedIsDispatched` | internal/delivery/delivery.go:219-225 | placing the next message of a batch gives it one fate and leaves all others as they were |
| `Delivery.DispatchedTwice` | internal/delivery/delivery.go:214-237 | two batches of one pass never share a message |
| `Delivery.FewerWaiting` | internal/delivery/delivery.go:214-237 | a pass over a non-empty batch leaves strictly fewer due messages on unsaturated routes, even when a hold clamps to a past expiry |
| `Delivery.NoLeaseLeaks` | internal/delivery/delivery.go:214-254 | after a pass the leases are those before it plus those of the attempts it started |
| `Delivery.Manager.Dispatch` | internal/delivery/delivery.go:214-237 | with the clock fixed the pass ends; every message of every batch was due and unleased and has exactly one of worker, hold, fail, or is as before the claim; it is failed iff its route is not configured; no lease leaks; uncancelled, every unleased message left is not yet due or on a saturated route, and on each of those no slot is free or no token to be had; it ends early only once the context, asked at most twice per message placed, reports a cancellation, and places none after that |
| `Retries.HoldKeepsBudget` | internal/delivery/delivery.go:549-569 | hold changes nothing but the next attempt, to now plus the wait or the expiry, whichever is first; a message due by its expiry is not put back earlier than it was |
| `Retries.BoundedRetries` | internal/delivery/delivery.go:425-474 | without requeue a live message has had at most lifetime / step + 2 attempts, so the ending one is at most lifetime / step + 3, whatever metadata writes failed; and it is due by its expiry unless one did |
| `Retries.Accept` | internal/spool/spool.go:426-504 | a committed message begins its life: no attempt, due now, and expiring a lifetime after that |
| `Retries.TryTurn` | internal/delivery/delivery.go:323-474 | an attempted message that is still queued was not past its expiry when checked and stands where one more temporary failure, or a cancellation, puts it |
| `Retries.TakeTurn` | internal/delivery/delivery.go:323-474 | a due message that is held or attempted is still queued afterwards only by a turn the bound allows: not past its expiry when checked, and standing exactly where that turn puts it |
| `Retries.Round` | internal/delivery/delivery.go:214-237 | a scan that claims what is due and holds or tries the message leaves it, if it is still queued, a live message with that turn added to its history |
| `Retries.AliveIsBounded` | internal/delivery/delivery.go:425-474 | so the bound holds of every message in the queue that was committed and has only been held or tried since |
| `Retries.BoundIsReached` | internal/delivery/delivery.go:536-547 | a history that reaches the bound |
| `Retries.StandingClock` | internal/delivery/delivery.go:446-453 | strictly later checks are needed: on a clock that stands still at the expiry any number of attempts is allowed |
| `RateLimit.Limiter.Allow` | internal/ratelimit/ratelimit.go:77-98 | the limiter's buckets follow the per-key call function; other keys are untouched |
| `RateLimit.PerBucket` | internal/ratelimit/ratelimit.go:77-98 | a fresh key gets at most its limit in the first minute |
| `RateLimit.NewKeyIsServed` | internal/ratelimit/ratelimit.go:77-98 | and exactly that many: the calls of the first minute are granted one by one until the limit is reached |
| `RateLimit.TwiceTheLimit` | internal/ratelimit/ratelimit.go:77-98 | at most twice the limit in any half-open minute, for every non-decreasing call sequence |
| `RateLimit.WaitIsEnough` | internal/ratelimit/ratelimit.go:84-97 | a denial's wait lies between a second and a minute; the first call after it succeeds iff the calls between refill and end of the wait did not use the limit up |
| `RateLimit.UnroundedWaitIsEnough` | internal/ratelimit/ratelimit.go:84-97 | a wait that was not rounded up is always enough |
| `RateLimit.RoundedWaitCanBeUsedUp` | internal/ratelimit/ratelimit.go:91-95 | a rounded-up wait after which the call is denied again |
| `History.MinMaxAt` | internal/store/schema.go:216-219 | the aggregates' MIN and MAX bound every row and occur |
| `History.StepKeepsSummary` | internal/store/store.go:275-303 | one write keeps every summary column equal to its aggregate iff the clock has not gone back for this message |
| `History.ReplayColumns` | internal/store/schema.go:214-231 | for any history and any clock all columns but the two times equal their aggregates, and the times are the first counted and the last row's |
| `JournalClass.StatusStandsFor` | internal/store/class.go:33-71 | which latest class each status stands for: delivered, bounced (permanent or expired), removed, queued (none or requeued), and active for what is still in the spool, an unknown class included |
| `History.BouncedOnceRefused` | internal/store/store.go:277-284 | has_bounced means that some attempt was refused permanently or came too late, whatever followed |
| `History.ReplayAgrees` | internal/store/schema.go:214-231 | the times agree too iff the first counted row is the earliest and the last row the latest |
| `History.WriteKeepsNumbers` | internal/store/store.go:241-248 | attempt numbers of every message stay 1..n and every attempt belongs to a message |
| `History.WriteKeepsSummaries` | internal/store/store.go:252-303 | one transaction keeps every message's columns right iff its own message's clock did not go back |
| `History.RunKeepsSummaries` | internal/store/store.go:252-378 | over any run of writes with non-decreasing times, columns equal aggregates and numbers stay 1..n |
| `History.FillRowIsFilled` | internal/store/schema.go:211-231 | the seven statements in their order fill the whole row, because the marker is written last |
| `History.RepairIsExact` | internal/store/schema.go:200-258 | a pending row is repaired to its aggregates iff its bounced flag was not already wrong, and a second run changes nothing |
| `History.RepairLeavesKeptRows` | internal/store/schema.go:205-209 | a row the write path kept is never pending and is left alone |
| `History.Store.RecordMessage` | internal/store/store.go:203-238 | written iff the queue id is new and the database does its part; consistent tables stay so |
| `History.Store.Transaction` | internal/store/store.go:266-303 | row and columns are written together iff the message is known and the database does its part, else neither |
| `History.Store.RecordAttempt` | internal/store/store.go:252-303 | iff known and written, an attempt becomes the latest class and is counted, with its time, its response and its reply code, none if there was no reply |
| `History.Store.RecordRemoval` | internal/store/store.go:344-346 | iff known and written, the message then reads as removed |
| `History.Store.RecordRequeue` | internal/store/store.go:358-378 | iff known and written, the message then reads as active; the count, the first attempt and the last response are kept |
| `History.Store.ReconcileRemoved` | internal/store/store.go:394-411 | cleared iff known, active and the database does its part; an outcome already reached is never rewritten; an error iff the database refused |
| `History.Store.BackfillSummaries` | internal/store/schema.go:200-258 | all rows end as the repair function says, or none changes, iff the database refused |
| `QueueAction.Operator.Requeue` | internal/queueaction/queueaction.go:87-108 | done iff unleased, indexed or whole in spool/failed, and the disk did not fault, missing iff unleased and in neither, busy iff leased; done means back in the queue, due now with no attempt and no error; only a message back in the queue is journalled as queued, exactly when it is known and the database does its part, and then it is listed; every other outcome changes neither index nor history |
| `QueueAction.Operator.Committed` | internal/queueaction/queueaction.go:88-96 | the committed hook runs only while the requeue holds the lease and the message is back in the queue; it is written iff the message is known and the database does its part, and then lists it as active |
| `QueueAction.Operator.Delete` | internal/queueaction/queueaction.go:127-156 | done iff unleased, some file was there and the disk did not fault; cleared or missing iff there was none and neither disk nor database faulted; these three mean gone from the spool; a listed message with no spool copy is cleared; after done with its row written, cleared or missing the message is listed no more |
| `Bounce.OwnListFirst` | internal/bounce/notifier.go:133-140 | a client's own list if it has one, else the global one |
| `Bounce.Compose` | internal/bounce/notifier.go:244-289 | a digest's total is everything it reports, listed or omitted; at most 200 are listed |
| `Bounce.RecordedKeepsBalance` | internal/bounce/notifier.go:75-83 | a failure recorded at the cap is counted instead of kept |
| `Bounce.DrainedKeepsBalance` | internal/bounce/notifier.go:144-153 | taking pending and overflow together loses nothing, because an overflow implies a full list |
| `Bounce.PutBackKeepsBalance` | internal/bounce/notifier.go:209-219 | what is put back past the cap is counted |
| `Bounce.ToldKeepsBalance` | internal/bounce/notifier.go:155-163 | what was mailed or dropped is settled once |
| `Bounce.RecordInKeeps` | internal/bounce/notifier.go:75-83 | every origin's account stays balanced through a recording |
| `Bounce.OneMoreDigest` | internal/bounce/notifier.go:165-170 | a digest within the cap keeps every hour's count within it |
| `Bounce.SentAddsOne` | internal/bounce/notifier.go:165-201 | what counts as sent for an origin is what its digests say |
| `Bounce.OneMoreDealt` | internal/bounce/notifier.go:155-202 | dealing with one origin more changes nothing for the others |
| `Bounce.Notifier.RecordFail` | internal/bounce/notifier.go:75-83 | exactly one failure more, in the list or in the overflow of its origin |
| `Bounce.Notifier.Drain` | internal/bounce/notifier.go:145-153 | a new hour starts when the old one is over, with nothing charged to it yet |
| `Bounce.Notifier.DispatchOne` | internal/bounce/notifier.go:155-201 | one origin's failures go out in full iff it has recipients, the hour's budget is not spent and the mail can be handed over; they are dropped iff it has none; else put back; no failure is forgotten, recordings arriving in between included; no hour exceeds max_per_hour |
| `Bounce.Notifier.Dispatch` | internal/bounce/notifier.go:144-202 | for every origin failures recorded = in digests that went out + dropped + pending + overflow; no failure recorded before or meanwhile is forgotten and nothing told, sent or dropped taken back; failures are dropped only for want of recipients and kept only if the mail could not go or the budget is spent; ids told at most as often as they failed, the cap and the full-list rule kept, each hour's digests within max_per_hour |
| `Bounce.Notifier.RequeuePending` | internal/bounce/notifier.go:209-219 | what is put back is exactly the drained failures |
| `Router.New` | internal/router/router.go:60-95 | the loops build exactly the specified tables, and fail at the first route that claims a taken domain, an unreadable or overlapping network or a second default |
| `Router.EveryClaimIsKept` | internal/router/router.go:57-95 | built tables hold every route's domains, networks and default under its own name, and no two networks in them overlap |
| `Router.OnlyClaimsAreKept` | internal/router/router.go:60-95 | built tables hold no domain, network or default that no route claimed under that name |
| `Router.MatchSource` | internal/router/router.go:141-149 | the loop's best-so-far is the longest matching prefix |
| `Router.LongestIsIn` | internal/router/router.go:141-149 | it is found iff some network holds the address, and no longer one does |
| `Router.OneNetworkAtMost` | internal/router/router.go:76-83 | with tables New accepts, at most one network holds an address |
| `Router.UnroutableIff` | internal/router/router.go:100-116 | a recipient has no route iff no domain rule, network, client route or default applies |
| `Router.ResolveInOrder` | internal/router/router.go:100-116 | a rule for the domain decides first, then the network of the sender if the client has no route or a wider network, then the client's route, then the default |
| `Router.InItsGroup` | internal/router/router.go:122-139 | a recipient is in the group of the route it resolves to and in no other |
| `Router.Split` | internal/router/router.go:122-139 | groups with distinct routes in first-seen order, each the order-preserving subsequence of the recipients resolving there; an error iff some recipient has no route |
| `Router.RoutesAreDistinct` | internal/router/router.go:122-139 | no two groups share a route |
| `Router.NobodyIsLost` | internal/router/router.go:122-139 | the groups together hold every recipient as often as it was given |
| `Session.Session.Mail` | internal/listener/session.go:302-345 | only a matched client gets a transaction, the sender is the address given, and a nested MAIL changes nothing |
| `Session.Session.Rcpt` | internal/listener/session.go:368-408 | a recipient is appended iff inside a transaction, valid and below the client's limit |
| `Session.Copies.CommitCopies` | internal/listener/session.go:500-541 | exactly one copy per group, each to that group's recipients on that group's route, due now and expiring a lifetime later, with the relay's lines and the staged octets as body, iff the disk did not fault and the quota has room for all; otherwise every copy made is erased, claimed by a worker, or kept only in files the disk refused to unlink, the copy whose commit failed is not queued and survives only if both its unlinks were refused, the rest name no file, and no other entry is touched |
| `Session.Copies.Withdraw` | internal/listener/session.go:556-573 | every copy is erased, claimed by a worker, or left only in files the disk refused to unlink; no other entry and no other file changes |
| `Session.Session.StageMessage` | internal/listener/session.go:463-494 | what is staged is the rewritten header block followed by the body as it came; staged iff the stream ended without error, scans, has fewer than the maximum hops, is not refused by the rewriting, is within the size limit, and the disk did not fault |
| `Session.Session.DoData` | internal/listener/session.go:413-457 | acknowledged iff there is a sender, every recipient has a route, the stream holds a message that can be relayed, the quota has room for every copy of that message as relayed, and the disk did not fault; then there is one copy per route with this client's origin, the configured lifetime and the given header lines, the copies together go to the accepted recipients as often as each was given, each recipient standing in the copy of the route it resolves to and in no other, and a new transaction begins, otherwise none but what CommitCopies allows; unless the connection was closed an acknowledged message ended at its dot line; the session stays open iff the command was refused before 354 or an acknowledged message ended properly, and what is left of the stream is what followed the dot line, or nothing |
| `Session.EverybodyIsServed` | internal/listener/session.go:500-541 | one copy per group of the split means nobody accepted as a recipient is left out, named twice or sent by a route not their own |
| `Session.RelayedWithinLimits` | internal/listener/session.go:463-498 | a message can be relayed iff its header block scans, it has fewer hops than allowed, the policy applies and the result fits the size limit |
| `Session.RelayedHeaders` | internal/listener/session.go:463-494 | every rewritten message has a parsable header block with exactly one From in the envelope sender's domain, an X-Original-From only from the relay, no Return-Path, and every other field as the client sent it |
| `Wire.ReadLineLimited` | internal/listener/wire.go:47-71 | reading in any number of buffer-sized pieces gives exactly the first line, its terminator and its error; an error that is not a line's fault leaves nothing of the stream |
| `Wire.LineIsPlain` | internal/listener/wire.go:47-71 | an accepted line has no line feed or NUL and its terminator accounts for every octet consumed |
| `Wire.UnstuffingUndoesStuffing` | internal/listener/wire.go:111-149 | a stuffed body reads back as it was and leaves the following stream untouched iff every stuffed line fits the limit |
| `Wire.LongDotLineIsRefused` | internal/listener/wire.go:47-71 | the limit counts the stuffing dot: a 998-octet line starting with a dot is refused |
| `Wire.SmuggledIffNotProperEnd` | internal/listener/wire.go:96-149 | for arbitrary input smuggled is false iff the octets up to the end are CRLF dot CRLF, or the dot line alone at the start |
| `Wire.CutShort` | internal/listener/wire.go:127-142 | a connection closed before the dot line reads as the same end of file as a proper end of data |
| `Wire.EndOfFileIff` | internal/listener/wire.go:127-142 | end of file is reported before a dot line iff the connection was closed, every full line is readable and none is the dot line, and the unfinished line is within the limit; the body handed on is then every full line |
| `Wire.DotReader.Read` | internal/listener/wire.go:127-149 | each read yields the next octets of the body; the end is reported only after the whole body, with the stream left where it ended, and with nothing left of one that was over before its dot line |
| `Wire.ReadToEnd` | internal/listener/wire.go:127-149 | reads of any sizes together give the whole body |
| `HeaderScan.ScanHeaders` | internal/listener/wire.go:154-205 | the loop computes the scan function, errors included |
| `HeaderScan.ScanIsFilter` | internal/listener/wire.go:154-205 | a scan returns the kept lines in order with the hop count, within the line and byte limits |
| `HeaderScan.KeptByField` | internal/listener/wire.go:178-202 | exactly the lines whose own field is not Return-Path or X-Original-From are kept, folded lines with their field |
| `HeaderScan.BodyIsUntouched` | internal/listener/wire.go:170-173 | what follows the empty line is left in the stream unread |
| `HeaderScan.ScannedIsClean` | internal/listener/wire.go:154-205 | what a scan accepts parses without trailing data and prints back byte for byte; no Return-Path or X-Original-From, no more Received fields than reported, header count within the limit |
| `Header.ParseBlock` | internal/rewrite/header.go:30-69 | the loop computes the parse, failing iff text follows the end of the block |
| `Header.PrintParse` | internal/rewrite/header.go:207-219 | printing a parsed text gives it back with its last line finished, byte for byte iff it was empty or ended in CRLF |
| `Header.ParsePrint` | internal/rewrite/header.go:30-69 | parsing a printed block of well-formed fields gives the same fields |
| `Header.ParsedIsWellFormed` | internal/rewrite/header.go:30-69 | every parse yields well-formed fields |
| `Header.SetIsExact` | internal/rewrite/header.go:174-194 | after a set there is one field of that name saying what was set, and all others are unchanged in bytes and order |
| `Header.SetKeepsPlace` | internal/rewrite/header.go:174-194 | a replaced field keeps the first one's place and later duplicates go |
| `Header.SetKeepsOthers` | internal/rewrite/header.go:174-194 | a set changes nothing that is said under any other name |
| `Header.EditsKeepShape` | internal/rewrite/header.go:171-205 | edited blocks still print and parse back |
| `Header.CountWithout` | internal/rewrite/header.go:196-205 | removal takes every field of the name and none of another |
| `Header.Block.Set` | internal/rewrite/header.go:174-194 | the in-place loop computes the set |
| `Header.Block.Remove` | internal/rewrite/header.go:196-205 | the in-place loop computes the removal |
| `Header.Block.Value` | internal/rewrite/header.go:148-155 | the first field's unfolded value, or nothing |
| `Header.Block.Count` | internal/rewrite/header.go:135-143 | the number of fields of a name |
| `Header.Block.ToText` | internal/rewrite/header.go:207-219 | the loops print the block |
| `Rewrite.Compile` | internal/rewrite/rewrite.go:87-135 | a policy compiles iff it is acceptable, and what it compiles to is sound: a valid envelope sender, an aligned From, a valid fixed Reply-To |
| `Rewrite.HeaderFromIsAligned` | internal/rewrite/rewrite.go:107-117 | a configured From that is printed into a header is a plain mailbox in the envelope sender's domain |
| `Rewrite.Apply` | internal/rewrite/rewrite.go:199-265 | the message is left alone exactly without a policy, with it off, without a sender, or with an authorized sender where only others are rewritten; otherwise it is refused exactly for a block that does not parse, more than one From, or one too long or unsafe to preserve, and else kept or edited as specified |
| `Rewrite.AuthorizedIffListed` | internal/rewrite/rewrite.go:137-178 | a sender is authorized iff the configuration lists, in whatever case, its address or *@ and its domain |
| `Rewrite.FromIsAsConfigured` | internal/rewrite/rewrite.go:281-286 | the From written is the configured mailbox, or the new envelope sender in brackets when none is configured |
| `Rewrite.MailboxIsKept` | internal/rewrite/rewrite.go:270-279 | a mailbox the client put into From is kept iff the policy says keep and it is in the new envelope sender's domain |
| `Rewrite.AnswersReachTheClient` | internal/rewrite/rewrite.go:291-302 | the Reply-To added is a valid address of the client, never the relay's own, its From before its envelope sender |
| `Rewrite.WrittenLine` | internal/rewrite/header.go:157-194 | a line the relay writes reads back as the name and value it was written from |
| `Rewrite.AngleAddr` | internal/rewrite/rewrite.go:318-334 | an address between angle brackets is found again whatever stands before it |
| `Rewrite.FormattedMailbox` | internal/rewrite/rewrite.go:347-355 | a formatted mailbox carries its address and cannot end the line |
| `Rewrite.FromValueIsAligned` | internal/rewrite/rewrite.go:281-286 | the From a sound policy writes carries a valid address in the envelope sender's domain |
| `Rewrite.WithFromIsExact` | internal/rewrite/rewrite.go:229-232 | replacing From says the new value once and nothing else different |
| `Rewrite.WithReplyToIsExact` | internal/rewrite/rewrite.go:234-256 | Reply-To is dropped, fixed, kept or added as the policy and the client's own headers say |
| `Rewrite.RewriteIsExact` | internal/rewrite/rewrite.go:199-265 | the printed result re-parses to the edited block, has one From in the new envelope domain, the old From unfolded in one X-Original-From, Reply-To by policy, all other fields unchanged in bytes and order |
| `Rewrite.KeptFromIsAligned` | internal/rewrite/rewrite.go:220-227 | a kept From is the only one and already in the new envelope domain, and no byte of a finished block changes |
| `MailAddr.AddressIsPlain` | internal/mailaddr/mailaddr.go:26-69 | a valid address is printable, has no angle bracket, is not changed by trimming and has a domain |
| `MailAddr.MailboxIsPlain` | internal/mailaddr/mailaddr.go:86-114 | an accepted mailbox has a valid address and a display name that cannot escape a quoted string |

## Left out

- Sockets, TLS, SASL, deadlines, HTTP handlers, tokens, certificates, logging, metrics, self test: input and output without a meaning these proofs could use.
- Configuration loading: its results are preconditions here (a non-empty positive schedule, positive caps, named routes).
- Drawing and parsing queue ids: an id is a token, fresh ids are parameters, and files in the spool directories whose names are no queue ids are not modelled. The ErrInvalid guards go with it.
- Retention's schedule, and which message a sweep takes first: one pass over the expired entries in any order.
- File system reordering below rename and fsync, and the retries of a rename or unlink: one atomic call that may fail.
- A read error while listing the queue directory at start, and the normalisation of the legacy envelope flags.
- Envelope fields that are only carried along (listener, remote address, HELO name, TLS).
- Spool.Spool.Remove: the multi-actor runs take it, and Fail, as one step, because both drop the lease before their file work; an operator's discard arriving between that and the unlinks is not a step of its own there, and could journal a delivered message as removed.
- Spool.Spool.Fail: it renames the metadata before the body, so a crash between the two can cost the body; the contract says "never live again by accident" and not "body preserved".
- Spool.Spool.BeginRequeue: after a failed flush of a directory or a refused unlink in spool/failed the pair may already lie in queue although the message is not indexed until the next start; nothing of it is lost, but which of the two places a file is in is not promised.
- Runs.JournalAgreesWithQueue: speaks of one process run that starts with an agreeing journal; a crash between the journal entry and Remove is outside it.
- Delivery.Manager.Dispatch: worker attempts do not interleave with the dispatcher inside this method; their interleavings are the subject of the Runs and Wakeup modules.
- Delivery.Manager.Attempt: the refusal text written into the history row and the counters are not modelled.
- Retries.BoundedRetries: a metadata-write failure floors the next attempt a minute ahead, possibly past the expiry, so only the count of attempts is promised then, within one process run; what a restart reads back is the older metadata.
- Retries.Round: follows one message through a scan; what becomes of the rest of the claimed batch is the subject of Delivery.Manager.Dispatch.
- SQLite itself, migrations other than the repair, retention, and the query side with the inverted class table it filters by.
- The sweep of spool/failed running at the same time as a requeue of the same message.
- Session.Copies.CommitCopies: between two of its steps a dispatcher may claim copies but not finish them; a copy already delivered when a later one fails cannot be withdrawn either.
- Session.Session.DoData: no other session commits and nothing is swept between its steps, so the room in the quota is the room there was when DATA began; the ceiling over overlapping commits is the subject of QuotaRuns.
- Deleting the staged body at the end of DATA: the temporary file is what the recovery pass sweeps.
- SMTP replies, HELO and STARTTLS, the SIZE parameter and path syntax: Mail and Rcpt take the parsed result.
- IPv6 zones in source addresses.
- Unicode in trimming and case folding: ASCII white space and letters over octets.
- The configuration's own validator for allowed-sender patterns; the rewriting module repeats its check and that is modelled.
- API cursors, the failed-authentication limiter, the CIDR matcher, the canary schedule, connection counting, queue depth: single comparisons next to what is proved here.
