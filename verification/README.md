# Cloud Account Manager: verified model

The system lets several users manage DigitalOcean accounts. An HTTP API puts slow work into a `jobs` table, any number
of workers claim jobs and call the provider, and local tables mirror what the provider runs. This project models that
core in Dafny: the job queue as a protocol, the pool and the locks, the quota, the mirror with its ownership rules, the
bodies of the jobs, and the smaller stateful parts around them (rate limiter, one-time tokens, migrations, polling,
listing, administrators).

Run `dafny verify dfyconfig.toml` in this directory.

## How it is modelled

| module | file | what it holds |
|---|---|---|
| `Pool` | Pool.dfy | connection pools and advisory locks as a resource machine; exact deadlock bound |
| `Quota` | Quota.dfy | create jobs, syncs, deletes, resizes and crashes interleaved over real and mirrored droplets |
| `Jobs`, `JobProtocol` | Jobs.dfy, JobProtocol.dfy | job rows; claim, execution, outcome, scheduler, crashes, cascades as steps |
| `Inventory`, `Usage` | Inventory.dfy, Usage.dfy | the relational state, its constraints, every statement on it; usage totals |
| `StoreLayer` | Store.dfy | the store as a class whose fields are the tables; loops, rollback, failing statements |
| `DigitalOcean`, `ProviderLayer` | DigitalOcean.dfy, Provider.dfy | paging, mapping, polling; the provider as an environment that may fail any call |
| `SyncJob`, `BatchJobs`, `CreateRequests`, `CreateJob`, `WorkerTurn` | Sync.dfy, BatchJobs.dfy, CreateRequests.dfy, CreateJob.dfy, Worker.dfy | the job bodies and one turn of a worker |
| `SerialRuns` | Serial.dfy | whole requests and turns, one after the other, on one store |
| `Requests` | Requests.dfy | the guards of the handlers and of the workers |
| `RateLimiter`, `Tokens`, `Migrate`, `Admin`, `Listing` | one file each | the smaller parts |
| `Common`, `Strings` | Common.dfy, Strings.dfy | options, finite sums, trimming, ordering, decimal numbers |

A table is a map from its key to a row, a statement or transaction an atomic step. Where interleaving matters (pool,
quota, queue, tokens) there is a state machine with events, an inductive invariant and theorems over all runs. Where one
call is the subject there is a class or a method with the loops of the source. The provider and the database fail
whenever they like; ghost logs keep what was asked and what came back, so that a job's verdict can be compared with what
really happened. `WorkerTurn.TurnFollowsProtocol` joins the two styles: what one turn of a worker does to the jobs table
is what a run of the protocol does.

## What turned out not to hold as one would hope

The code is modelled as it is. These are stated with the exact condition, or with a run that shows the failure.

- `WORKER_CONCURRENCY` is documented and accepted up to 32, but a process deadlocks in some schedule as soon as 20 of its
  workers can run create jobs (`Pool.DeadlockBound`, `Pool.ConfiguredConcurrency`).
- The quota is safe only while closing syncs succeed and syncs outside the lock do not apply outdated listings
  (`Quota.LostClosingSyncBreaksQuota`, `Quota.StaleListingBreaksQuota`), and while owners and quotas stay as they are:
  they are parameters of a run. Resizes and transfers are never checked (`Quota.ResizeIsUnchecked`,
  `Quota.TransferIsUnchecked`); each keeps everybody within the quota exactly if the owner, or the new owner, has room
  for it (`Quota.ResizeIsExact`, `Quota.TransferIsExact`).
- A job runs at most once, not at least once: a worker that loses its last write, or its context after a success, leaves
  the job running for good (`JobProtocol.FinishesOnlyIfHeld`, `JobProtocol.LostWriteOrphans`), a claim that commits
  unseen leaves one that nobody has ever run (`JobProtocol.UnseenClaimOrphans`), and an orphaned sync keeps the
  scheduler away from its account (`JobProtocol.OrphanBlocksScheduler`).
- A scheduler pass can leave a stale account without a sync: the one for which its scan passed the account over may end
  before the pass does (`JobProtocol.PassCoversStale`, `JobProtocol.PassCanMissStale`).
- A sync writes the owner it has read before; ownership survives exactly if no transfer came in between
  (`Inventory.SyncOwnership`).
- A malformed link ends a listing silently (`DigitalOcean.ListingIsComplete`).
- A migration whose version an earlier file already has is skipped silently (`Migrate.PlanIsComplete`).
- Removals that pass their guards on the same table leave an administrator exactly if there are more active
  administrators than they have targets (`Admin.RaceOutcome`); as many requests as administrators lock everybody out
  (`Admin.RaceLosesLastAdmin`).
- Very large page numbers overflow the offset (`Listing.Pagination`, `Listing.LargestPageIsRefused`).
- The limiter admits up to 2 * max - 1 requests, one less than twice the maximum, in an interval as long as the window
  (`RateLimiter.IntervalBound`, `RateLimiter.BoundIsReached`).

## Model

| member | source | states |
|---|---|---|
| Pool.StepKeepsInv | internal/worker/worker.go:538-552 | every step keeps: each advisory lock has exactly one holder, no pool lends more connections than it has, and each step uses up one operation |
| Pool.Progress | internal/worker/worker.go:246-258 | with fewer create workers than connections in every pool, an unfinished state always has an enabled step |
| Pool.EveryRunFinishes | internal/worker/worker.go:246-351 | below the bound every schedule can be continued until all jobs are done, after a number of steps fixed in advance |
| Pool.DoomIsForever | internal/worker/worker.go:250-258 | once every connection of a pool is held for a lock by a job that needs a second one, no step of anybody changes that |
| Pool.DoomedRunsGetStuck | internal/worker/worker.go:250-258 | however such a state is continued, it stays doomed and unfinished, it cannot be continued for ever, and where it cannot be continued it is stuck |
| Pool.StuckIsReached | internal/worker/worker.go:250-258 | from such a state some schedule ends stuck |
| Pool.DeadlockIsReachable | internal/worker/worker.go:538-552 | with as many create workers as connections a schedule from the start leads to a deadlock |
| Pool.NoDeadlockBelow | internal/worker/worker.go:538-552 | below that no schedule does |
| Pool.DeadlockBound | internal/database/database.go:24-25 | a deadlock is reachable if and only if some process runs at least as many create workers as its pool has connections, for any mix of processes, users and single queries |
| Pool.ConfiguredConcurrency | internal/config/config.go:64-66 | with 20 connections, and for whatever create jobs and users the workers of one process have, the accepted settings 1 to 32 are safe exactly below 20 |
| Quota.OneJobPerUser | internal/worker/worker.go:538-552 | two jobs inside the lock never have the same user, also when lock keys collide |
| Quota.StepStaysWithin | internal/worker/worker.go:258-310 | as long as quota checks see at least the user's real droplets, no step puts anybody over the quota, counting what is admitted and not yet created |
| Quota.SoundRunsStayWithin | internal/worker/worker.go:494-536 | the same over whole runs of any number of workers |
| Quota.CleanStep | internal/worker/worker.go:320-322 | in orderly steps the mirror of a user misses only what the job inside the user's lock is still settling |
| Quota.QuotaHolds | internal/worker/worker.go:246-351 | after any orderly run a user's real droplets, vCPUs and memory over all accounts are within the quota |
| Quota.TotalsAreColumns | internal/store/store.go:436-440 | the three totals are the number of the droplets, the sum of their vCPUs and the sum of their memory |
| Quota.AdmissionIsExact | internal/worker/worker.go:503-534 | an admitted request can end over the quota if and only if the real usage plus the request exceeds it, whatever the mirror showed |
| Quota.ResizeIsUnchecked | internal/worker/worker.go:367-375 | one resize can exceed any vCPU quota |
| Quota.ResizeIsExact | internal/worker/worker.go:367-375 | with everybody within the quota a resize keeps it so if and only if the owner has room for the difference of the sizes, in every resource |
| Quota.TransferTotals | internal/store/store.go:302-314 | a transfer moves exactly the account's share from the old owner's total to the new one's |
| Quota.TransferIsExact | internal/httpapi/admin.go:333-364 | with everybody within the quota a transfer keeps it so if and only if the new owner has room for the account |
| Quota.TransferIsUnchecked | internal/httpapi/admin.go:355-358 | a transfer between two users at rest, each within the quota, that ends with one of them over it |
| Quota.LostClosingSyncBreaksQuota | internal/worker/worker.go:320-322 | a run in which only a closing sync fails ends over the quota |
| Quota.StaleListingBreaksQuota | internal/worker/worker.go:200-211 | a run in which only one unlocked sync applies an old listing ends over the quota |
| JobProtocol.RowsMoveForward | internal/store/store.go:504-536 | whatever step happens, a row that remains keeps its identity and stays as it is, goes from queued to running, or from running to a terminal state |
| JobProtocol.EnqueuedIsClaimable | internal/store/store.go:481-522 | whatever happens after, a job keeps the user, account, kind, payload and time it was enqueued with, and while it waits it can be claimed from that moment on, unless an older job waits or another claim is going on |
| JobProtocol.OnlyOldestIsClaimed | internal/store/store.go:504-522 | only a waiting, due and unlocked job can be claimed, and an older one only stays behind if a claim holds it |
| JobProtocol.CommitTakesRow | internal/store/store.go:504-522 | a committed claim leaves one row running, with one attempt more and its first start time, and all others as they are |
| JobProtocol.SaveShowsOutcome | internal/store/store.go:524-536 | the last write leaves the outcome in one row: its state, result, action ids and message, progress 100 and the time; all other rows stay as they are |
| JobProtocol.DeletionTakesJobs | internal/store/store.go:294-300 | a deleted account takes exactly its own jobs along |
| JobProtocol.InvStep | internal/store/store.go:504-536 | every step, crash, rollback and cascade keeps the invariant that ties rows, workers and the history of executions |
| JobProtocol.AtMostOnce | internal/worker/worker.go:103-123 | in every reachable state no job was executed twice or is held by two workers; attempts, times and progress are those of the row's state |
| JobProtocol.TerminalRowsAreFinal | internal/store/store.go:524-536 | terminal rows never change and deleted rows never return, although the update has no guard |
| JobProtocol.FinishesOnlyIfHeld | internal/worker/worker.go:107-122 | a running job can reach a terminal state if and only if a worker still holds it |
| JobProtocol.OrphanForever | internal/worker/worker.go:107-122 | an orphaned running job stays running in every run |
| JobProtocol.LostWriteOrphans | internal/worker/worker.go:122-122 | a crash or a failed last write orphans the job being executed |
| JobProtocol.UnseenClaimOrphans | internal/store/store.go:504-522 | a claim that commits unseen leaves a running job that nobody holds and nobody has executed |
| JobProtocol.AtMostOneOpenSync | internal/store/store.go:574-582 | if syncs come from the scheduler only, an account never has two open sync jobs |
| JobProtocol.ScanAfterSync | internal/store/store.go:574-582 | whatever happens after a sync of an account, a scan selects it if and only if more time than the given age has passed and no sync of it is waiting or running |
| JobProtocol.ScanBeforeSync | internal/store/store.go:574-582 | an account never synced is selected if and only if no sync of it is waiting or running |
| JobProtocol.InsertAddsSyncs | internal/store/store.go:574-582 | the pass gives exactly the selected accounts one queued sync each, in the name of the owner, and changes no other row |
| JobProtocol.FailedPassIsOver | internal/worker/worker.go:88-101 | a pass that fails after its scan changes nothing, and the next can begin |
| JobProtocol.PassCoversStale | internal/worker/worker.go:88-101 | with any steps between scan and insertion: a stale account has an open sync job after the pass if and only if the scan selected it or the sync for which it was passed over has not ended |
| JobProtocol.PassCoversSelected | internal/store/store.go:574-582 | whatever happens meanwhile, every selected account has an open sync job after the pass |
| JobProtocol.PassCanMissStale | internal/store/store.go:574-582 | a reachable pass that leaves a stale account without an open sync |
| JobProtocol.EligibleAgain | internal/store/store.go:574-582 | when a sync job ends, however it ends, the next pass selects its account exactly if it is still stale |
| JobProtocol.OrphanBlocksScheduler | internal/store/store.go:578-579 | an orphaned sync job keeps every later pass from its account |
| Inventory.MirrorIsExact | internal/store/store.go:316-344 | after a sync the account's rows are exactly the listed droplets with the fields of their last occurrence; survivors keep id, project and credential; other accounts are untouched; vanished rows take their credential along |
| Inventory.SyncOwnership | internal/worker/worker.go:155-215 | the mirrored rows belong to the account's owner if and only if the owner read is still the owner, or nothing was listed |
| Inventory.TransferConsistent | internal/store/store.go:302-314 | a transfer keeps all references and hands rows and credentials over together |
| Inventory.TransferIsExact | internal/store/store.go:302-314 | a transfer writes the owner into the account, exactly its droplets and exactly their credentials, and nothing else anywhere |
| Inventory.DeleteAccountConsistent | internal/store/store.go:294-300 | a deletion leaves no droplet, credential or job of the account behind |
| Inventory.DeleteAccountIsExact | internal/database/migrations/001_initial.sql:72-133 | account, droplets, credentials and jobs of other accounts stay as they are; everything of the deleted one goes |
| Inventory.PutCredentialConsistent | internal/store/store.go:420-426 | storing a credential keeps ownership if and only if it is stored for the droplet's owner |
| Inventory.SerialRunsStayConsistent | internal/database/migrations/001_initial.sql:72-133 | after any serial run of syncs, creates, transfers, credential updates, deletions and new jobs every droplet has its account's owner, every credential its droplet's owner, and nothing outlives its parent; references alone are kept from any owners |
| Inventory.CreateKeeps | internal/worker/worker.go:315-343 | the mirrors, projects and credentials of a create job, written for the owner read at its start, keep references and ownership |
| Inventory.CreateIsExact | internal/worker/worker.go:315-343 | what a create job leaves of a droplet: the row as its last sync mirrored it, the project if it was assigned, the last secret stored for it or the credential it had |
| Inventory.LateSyncRestoresOwnership | internal/worker/worker.go:155-215 | from any owners at all, a sync that reads its account after the last transfer makes them right again |
| Usage.GlobalIsSumOfUsers | internal/store/store.go:455-479 | in every integer field the global summary is the sum of the summaries of the users |
| Usage.AccountColumns | internal/store/store.go:461-466 | the account columns of a user's summary are the number of the user's accounts and of those whose credential is not valid |
| Usage.DropletColumns | internal/store/store.go:467-474 | the droplet columns are the number of the user's droplets and of those that are active |
| Usage.SummedColumns | internal/store/store.go:467-474 | vCPUs and memory are the sums of just these columns over the user's droplets |
| Usage.TransferMovesContribution | internal/store/store.go:302-314 | a transfer moves exactly the account's contribution from old to new owner; the global summary and third users stay as they are |
| StoreLayer.Store.TransferCloudAccount | internal/store/store.go:302-314 | the three updates together are the transfer, or nothing happens |
| StoreLayer.Store.DeleteCloudAccount | internal/store/store.go:294-300 | deletes with all cascades, or fails and changes nothing |
| StoreLayer.Store.UpsertDroplets | internal/store/store.go:316-344 | the loop of upserts and the closing delete are the mirror of the listing; any failing statement undoes all of it, and nothing but a fault or a missing account makes one fail |
| StoreLayer.Store.GetDropletByProviderID | internal/store/store.go:403-405 | a returned row is the row of this account and provider id |
| StoreLayer.Store.SetDropletProject | internal/store/store.go:407-413 | sets the project of an existing row, or fails and changes nothing |
| StoreLayer.Store.UpsertRootCredential | internal/store/store.go:420-426 | writes an active credential of an existing row, replacing the old one |
| StoreLayer.Store.MarkRootCredentialStale | internal/store/store.go:415-418 | makes the credential stale if there is one |
| StoreLayer.Store.MarkAccountSynced | internal/store/store.go:279-285 | stores the sync time of an existing account |
| StoreLayer.Store.UpdateAccountValidation | internal/store/store.go:258-268 | stores the valid status of one account; a missing row is no error |
| StoreLayer.Store.MarkAccountValidationError | internal/store/store.go:270-277 | stores another status of one account; a missing row is an error |
| StoreLayer.Store.CreateCloudAccount | internal/store/store.go:209-213 | adds one unverified account, or changes nothing |
| StoreLayer.Store.GetDroplet | internal/store/store.go:399-401 | a returned row is a stored row with this id |
| StoreLayer.Store.UserUsage | internal/store/store.go:436-440 | the number of the user's droplets, the sum of their vCPUs and the sum of their memory |
| StoreLayer.Store.EnqueueJob | internal/store/store.go:481-488 | adds one queued row with the given user, account, kind, payload and time, refused for an account that does not exist |
| StoreLayer.Store.ClaimJob | internal/store/store.go:504-522 | claims a due job that no other due job precedes and writes exactly the claim; finds nothing only if nothing is due |
| StoreLayer.Store.UpdateJob | internal/store/store.go:524-536 | the one row then shows the given state, result, action ids, message, progress and end time, whatever its state was, and remains the same job |
| DigitalOcean.MapDroplet | internal/worker/worker.go:554-580 | every column comes from its remote field; addresses are those of the first network that is public and has one; region, size and VPC are missing exactly if blank |
| DigitalOcean.MappingIsDetermined | internal/worker/worker.go:554-580 | the mapping leaves no choice |
| DigitalOcean.ListDroplets | internal/digitalocean/client.go:215-240 | the result is what following the links yields; one failing page fails the listing |
| DigitalOcean.ListingIsComplete | internal/digitalocean/client.go:403-412 | the listing is the whole remote list if and only if no malformed link hides a failing page or an item |
| DigitalOcean.WaitDropletAction | internal/digitalocean/client.go:356-378 | between one and timeout/3s + 2 polls; every poll before the last found the action under way, in time and not cancelled; success, error and failure are just what the last poll says, a timeout comes only after the deadline |
| SyncJob.ValidateAccount | internal/worker/worker.go:163-196 | valid, insufficient or invalid is stored as the provider's answer calls for, in one account row |
| SyncJob.PrepareSync | internal/worker/worker.go:155-198 | the owner of the account as read, if and only if no statement and no call failed; nothing but the account's status changes; a token that cannot be opened marks the account invalid |
| SyncJob.MirrorAccount | internal/worker/worker.go:200-214 | what was applied is the mapped listing; without it droplets and credentials stay as they were |
| SyncJob.SyncAccount | internal/worker/worker.go:155-215 | succeeds if and only if nothing failed, and then the rows are the mirror of the listing and the sync time is set; other failures than storing that time leave droplets and credentials unchanged; references and ownership are kept |
| SyncJob.FailuresAreTrue | internal/worker/worker.go:383-398 | a job's list of failures is empty if and only if none of its calls failed |
| Requests.UniqueInt64 | internal/httpapi/droplets.go:450-460 | exactly the positive values, each once, in the order of first occurrence |
| Requests.UniqueIsDetermined | internal/httpapi/droplets.go:450-460 | this leaves exactly one result |
| Requests.ValidIdsStay | internal/worker/worker.go:477-492 | lists that the worker accepts are fixed points of the handler's filter |
| Requests.ValidDropletIds | internal/worker/worker.go:477-492 | true if and only if the ids are positive, distinct and neither none nor too many |
| Requests.CheckAction | internal/worker/worker.go:367-375 | the guards accept exactly supported actions on valid ids, single where demanded |
| Requests.EnqueueDropletAction | internal/httpapi/droplets.go:149-162 | what is accepted passes all guards of the worker, and what is rejected would not |
| Requests.EnqueueDropletDelete | internal/httpapi/droplets.go:198-202 | the same for deletions |
| Requests.SameActions | internal/httpapi/droplets.go:348-355 | the handler's action table and the worker's are the same |
| Requests.MatchesPattern | internal/httpapi/droplets.go:19-19 | a name passes if and only if it has 1 to 63 letters, digits, dots and hyphens and starts with a letter or digit |
| Requests.NormalizeNames | internal/httpapi/droplets.go:436-448 | strictly ascending, and exactly the trimmed non-empty names |
| Strings.TrimSpaceCuts | internal/httpapi/droplets.go:436-448 | trimming cuts all spaces off both ends and keeps what is between |
| Strings.SpaceCodes | internal/httpapi/droplets.go:436-448 | which code points are spaces |
| Strings.LessByFirstDifference | internal/database/database.go:51-51 | the order of names is decided by the code points at the first difference |
| Requests.NormalizedIsDetermined | internal/httpapi/droplets.go:436-448 | this leaves exactly one result |
| Requests.NormalizingTwice | internal/httpapi/droplets.go:436-448 | a second normalization changes nothing |
| Requests.EnqueueCreate | internal/httpapi/droplets.go:95-134 | accepted if and only if names, size, image and login meet the handler's demands; then the checks of worker and client are met too |
| BatchJobs.DeletesPartition | internal/worker/worker.go:427-434 | deleted and failed ids, merged in the order of the calls, are the payload |
| BatchJobs.DeleteVerdictIsTrue | internal/worker/worker.go:437-443 | no failed ids means no call failed, no deleted ids means every call failed |
| BatchJobs.DeleteEach | internal/worker/worker.go:427-434 | one call per id, in order, whatever the others come to |
| BatchJobs.DeleteDroplets | internal/worker/worker.go:410-445 | the reported lists are those of the calls, the state follows from which is empty; a refusal has asked for nothing; a valid job of which nothing fails succeeds; ownership is kept |
| BatchJobs.ActionAccounting | internal/worker/worker.go:382-391 | accepted actions plus request errors are the requested ids |
| BatchJobs.ActOn | internal/worker/worker.go:383-399 | one request, one wait if accepted; a password reset or rebuild makes the found credential stale unless a statement fails |
| BatchJobs.RunActions | internal/worker/worker.go:382-400 | this action requested for every id once and in order, every accepted action waited for, every failure recorded, all credentials concerned stale at the end, none otherwise changed |
| BatchJobs.DropletAction | internal/worker/worker.go:359-408 | succeeded if and only if no request, no awaited action and not the closing sync failed, otherwise partial; after a password reset or rebuild the credentials concerned are stale also behind the closing sync, unless a statement failed; ownership is kept |
| BatchJobs.SyncKeepsStale | internal/worker/worker.go:395-401 | the closing sync brings no stale credential back and gives none to a new row |
| CreateRequests.CreateRun.AwaitAll | internal/worker/worker.go:293-300 | every action that names a droplet is waited for, failed waits are recorded |
| CreateRequests.CreateRun.CreateOne | internal/worker/worker.go:271-301 | one request with these names and this password; created ids, actions, failures and passwords are noted as answered |
| CreateRequests.CreateRun.CreateWithPassword | internal/worker/worker.go:303-311 | the name is settled: by a request of its own with the password just generated for it, or by the recorded failure to generate one |
| CreateRequests.RunCreates | internal/worker/worker.go:303-314 | every name settled once and in order; one request with keys, one per name with passwords |
| CreateRequests.EveryCreatedHasPassword | internal/worker/worker.go:286-291 | in password mode every created id has the password of a request that returned it |
| CreateRequests.KeysNeedNoPassword | internal/worker/worker.go:312-314 | in key mode no password is noted |
| CreateRequests.CreateFailuresAreTrue | internal/worker/worker.go:282-299 | the recorded failures are empty if and only if no call of the requests failed |
| CreateJob.CheckQuota | internal/worker/worker.go:494-536 | admits exactly what the quotas allow for the first size with this slug among those the provider has answered, if everything could be read; a slug that is not among them is refused wherever vCPUs or memory are limited |
| CreateJob.CompareWithQuota | internal/worker/worker.go:503-534 | what the user has plus what the request adds is compared with each limited resource; sizes are asked for only if they matter |
| CreateJob.PersistDropletProjects | internal/worker/worker.go:463-475 | every id tried in order, failures are exactly the failed updates, rows change only in their project and only where the update succeeded |
| CreateJob.StoreOne | internal/worker/worker.go:331-343 | the credential opens to exactly this password for this droplet and user, or credentials stay as they were; stored for the account's owner it keeps ownership |
| CreateJob.StoreCredentials | internal/worker/worker.go:330-343 | in any order of the map: each id either holds its password or is reported once, no other credential changes |
| CreateJob.Settle | internal/worker/worker.go:315-343 | no failure recorded if and only if nothing failed, and then every created droplet has its project; every unreported id holds its password |
| CreateJob.Admit | internal/worker/worker.go:246-260 | under the owner's lock, on freshly mirrored tables, for the size the provider has answered for this slug; a refusal without any failure is the quota's, and gives the lock back |
| CreateJob.CreateAdmitted | internal/worker/worker.go:262-343 | requests and settling together: reported ids, actions and failures are those of the calls |
| CreateJob.CreateAndUnlock | internal/worker/worker.go:250-254 | the lock is kept through all of this and given back at the end |
| CreateJob.CreateDroplets | internal/worker/worker.go:234-351 | a refusal has created nothing; what is admitted is the size of the payload as the provider has answered it; succeeded if and only if something was created and no call and no statement failed; then project everywhere; every created id with a password holds it or is reported; the owner's lock is held from the refresh to the last statement; references and ownership are kept |
| WorkerTurn.RunSync | internal/worker/worker.go:127-131 | a sync job succeeds if and only if nothing failed, and reports the number of listed droplets |
| WorkerTurn.RunCreate | internal/worker/worker.go:132-133 | a create job fails exactly if nothing was created and succeeds exactly if something was and nothing failed; its result lists the created ids and at least the failures of the requests |
| WorkerTurn.RunAction | internal/worker/worker.go:134-135 | an action job requests its own action for its own ids, reports the accepted actions and every failure, and retires the passwords it made invalid; a valid one succeeds if nothing fails |
| WorkerTurn.RunDelete | internal/worker/worker.go:136-137 | a delete job deletes its own ids and reports which were deleted and which not; succeeded, failed and partial are all, none and some |
| WorkerTurn.Process | internal/worker/worker.go:125-141 | the body of the kind runs and its outcome is true of its statements and calls; a success leaves the account synced at this time, a delete aside; an error exactly when not succeeded; unknown kinds and missing accounts fail; references and ownership are kept |
| WorkerTurn.ProcessNext | internal/worker/worker.go:103-123 | claims the oldest due job and moves only its row; its row then shows the true outcome of its body, or is still running where that could not be written; the last statement is that write, and is left out exactly for a success after cancellation; references and ownership are kept, so that turns can follow each other |
| WorkerTurn.WorkerLoop | internal/worker/worker.go:73-86 | any number of turns keep references, ownership and the identity of every job |
| SerialRuns.UpdateRootCredential | internal/httpapi/droplets.go:292-321 | a permitted request with a password of valid length leaves the droplet owner's credential with exactly this password; a refusal changes nothing, and without a fault means that length or permission was wrong |
| SerialRuns.Serve | internal/httpapi/admin.go:333-364 | a request that is not a turn and sets no password does to the tables what its statement does, or nothing; all keep references and ownership |
| SerialRuns.ServeAll | internal/worker/worker.go:73-86 | any serial run of real turns, transfers, credential updates, account deletions and new jobs keeps references and ownership |
| WorkerTurn.TurnFollowsProtocol | internal/worker/worker.go:103-123 | what a turn does to the jobs table is what a run of the protocol does |
| RateLimiter.KeysDoNotCollide | internal/httpapi/server.go:349-349 | different buckets or addresses never share a key |
| RateLimiter.Limiter.Admit | internal/httpapi/server.go:347-366 | the decision depends on the requests of this bucket and address alone |
| RateLimiter.WindowAdmitsMax | internal/httpapi/server.go:353-359 | a window admits its first max requests and no more |
| RateLimiter.WindowSpan | internal/httpapi/server.go:354-356 | the requests of a window lie between its opening and its reset |
| RateLimiter.IntervalBound | internal/httpapi/server.go:353-365 | in steady requests of one key no closed interval as long as the window sees more than 2 * max - 1 admitted ones |
| RateLimiter.LimiterBound | internal/httpapi/server.go:347-366 | in the limiter's own log, whatever else it has served, every bucket and address gets at most max requests per window and 2 * max - 1 per interval as long as the window through |
| RateLimiter.BoundIsReached | internal/httpapi/server.go:353-365 | for every window and maximum some requests reach that bound |
| Tokens.InvStep | internal/store/store.go:62-87 | every statement, commit and rollback keeps: each row is the latest token of its user and purpose, locks keep other transactions away from it |
| Tokens.CommitKeepsOthers | internal/store/store.go:62-74 | a commit disturbs no pending transaction |
| Tokens.TokensAreOneTime | internal/store/store.go:76-87 | over all interleavings: one row per user and purpose at most, no token used twice, every use of the latest token, for its own purpose and before it expired |
| Tokens.UseGoesThrough | internal/store/store.go:76-87 | a token looked for is used up if and only if it is there, of the purpose asked for, unused, and not expired when the request began |
| Tokens.IssueGoesThrough | internal/store/store.go:62-74 | issuing leaves the new token as the only one of its user and purpose, and all others as they are |
| Tokens.IssuedCanBeUsed | internal/store/store.go:62-87 | a token just issued can be used at a later time if and only if that is before its expiry and for its purpose |
| Migrate.Migrate | internal/database/database.go:37-87 | from whatever state: records are only added, success means every file is recorded, and nothing but a fault or an unreadable version prevents success; from a state this loop has left, the applied scripts stay a prefix of the plan and success completes it |
| Migrate.Apply | internal/database/database.go:75-83 | script and record together or neither, also if the commit is reported as failed |
| Migrate.RunsAreResumable | internal/database/database.go:53-85 | serial runs failing anywhere: always a prefix of the plan, and after one success exactly the state of one clean run, for good |
| Migrate.PlanIsComplete | internal/database/database.go:57-71 | nothing is left out if and only if all versions are readable and distinct |
| Migrate.VersionIsNumber | internal/database/database.go:57-64 | the version is the decimal number before the first underscore, with or without a sign, within 64 bits |
| Migrate.NoVersion | internal/database/database.go:57-64 | without an underscore, or with anything but digits behind a sign before it, there is no version |
| Migrate.SqlSuffix | internal/database/database.go:54-56 | exactly the names that end in .sql are migrations |
| Migrate.PlanAscends | internal/database/database.go:51-51 | scripts are applied in the order of their names, none twice |
| Migrate.FirstRunIsComplete | internal/database/database.go:37-87 | a successful first run has applied all migrations in order if and only if versions are readable and distinct |
| Admin.WrittenApplies | internal/store/store.go:171-182 | omitted, null and given fields determine the new row |
| Admin.RemovesIsExact | internal/httpapi/admin.go:146-147 | the handler's test is true if and only if the update makes an active administrator something else |
| Admin.Users.AdminUpdate | internal/httpapi/admin.go:105-164 | writes exactly the given fields of one row if the rules allow it and no statement fails, and otherwise changes nothing; only a negative quota is an invalid one; never takes away a sole active administrator |
| Admin.Users.ActivateUser | internal/store/store.go:89-95 | activates exactly one existing row |
| Admin.SerialRunsKeepAnAdmin | internal/httpapi/admin.go:105-164 | serial runs of create, activate and update keep an active administrator |
| Admin.RaceOutcome | internal/httpapi/admin.go:148-157 | of any removals that pass on the same table, in any order of their writes, an administrator is left if and only if there were more of them than targets |
| Admin.PendingDemotions | internal/httpapi/admin.go:146-157 | demotions past their guards, whenever that was, take away exactly their targets; nobody is left if and only if all administrators are among these |
| Admin.RaceLosesLastAdmin | internal/httpapi/admin.go:148-157 | as many demotions as there are administrators, at least two, pass together and leave none |
| Admin.TwoRequestsLoseTwoAdmins | internal/httpapi/admin.go:148-157 | two administrators and two requests are enough |
| Listing.DropletFilter | internal/store/store.go:361-376 | the numbered placeholders on the argument list denote exactly the wanted conjunction, and bind every argument |
| Listing.JobFilter | internal/store/store.go:538-552 | the same for jobs |
| Listing.OneMoreConjunct | internal/store/store.go:364-375 | a conjunct and its argument appended do not change the meaning of what is there |
| Listing.ListDroplets | internal/store/store.go:361-397 | the items are the slice of the wanted rows, the total their number, so count and page filter alike; without a fault only a negative limit or offset is refused |
| Listing.ListJobs | internal/store/store.go:538-572 | the same for jobs |
| Listing.Pagination | internal/httpapi/server.go:296-310 | page and limit clamped; the offset is right if and only if the product fits 64 bits |
| Listing.AtoiReadsNumbers | internal/httpapi/server.go:297-301 | digits are read by place value, with or without a minus, and cut off at the 64-bit bounds |
| Listing.AtoiOfOtherText | internal/httpapi/server.go:297-301 | text that is not a number counts as zero |
| Listing.LargestPageIsRefused | internal/httpapi/server.go:308-308 | an input whose offset comes out negative |
| Listing.PagesConcatenate | internal/store/store.go:382-384 | slices follow one another without gap or overlap and make up the list |
| Listing.WalkPages | internal/httpapi/droplets.go:38-56 | the pages 1, 2, 3 and so on, asked for over a table that stays as it is, are the wanted rows, each once and in order, and all of them if the pages are enough |

## Left out

- SyncJob.SyncAccount: the tables of one turn are changed only by that turn; interleaved syncs, creates and transfers are
  in `Quota`, `JobProtocol` and `Inventory.SyncOwnership`, on states without the remaining columns.
- Quota.QuotaHolds: transfers and changes of a quota do not happen during a run; what one of them comes to between runs
  is in `Quota.TransferIsExact`.
- StoreLayer.Store.ClaimJob: no other claim is going on; skipping locked rows, rollbacks and commits that succeed unseen
  are steps of `JobProtocol`.
- StoreLayer.Store.UpsertDroplets: a transaction whose commit succeeds although an error is reported is modelled for job
  claims and migrations only.
- WorkerTurn.Process: error texts; a job's message is only known to be there or not, and a failure in a result names its
  subject only.
- Requests.EnqueueCreate: region, image, keys, tags and the other settings that are only passed through, and the rule
  which images support cloud-init, which is an input.
- BatchJobs.DropletAction: the request body of an action (parameters, default snapshot name) is its type only.
- Migrate.Migrate: scripts are names; what their SQL does is not modelled.
- RateLimiter.Limiter.Admit: the clock is read before the mutex is taken; the bounds are for times that do not run
  backwards in the order of the mutex. The Retry-After header is left out.
- Tokens.TokensAreOneTime: hashes of fresh random tokens are assumed never to repeat; issuing outside
  `ReplaceOneTimeToken` does not occur in the program.
- Pool.DeadlockBound: single queries give their connection back by themselves; time-outs are not modelled.
- DigitalOcean.WaitDropletAction: the clock is monotone and a pause lasts at least its three seconds.
- DigitalOcean.ListDroplets: links are finite and acyclic; a link whose path is shorter than the API prefix, on which the
  program panics, is not modelled.
- Floating-point columns (balances, prices, monthly cost) and 32-bit column limits: only integer columns are summed, as
  unbounded integers.
- AES-GCM, Argon2id, hashing and randomness: encryption is a pair of operations with the inverse law, opening needs the
  associated data used for sealing.
- HTTP transport, sessions, CSRF, JSON decoding, mail, audit entries, settings pages, heartbeats, status counts, the
  React frontend and deployment files.
