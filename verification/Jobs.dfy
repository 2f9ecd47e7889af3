/** Rows of the jobs table and the statements that write them. */
module Jobs {
  import opened Common

  type UserId = nat
  type AccountId = nat
  type JobId = nat
  type Time = nat

  datatype JobState = Queued | Running | Succeeded | Failed | Partial {
    predicate Terminal() { Succeeded? || Failed? || Partial? }
    predicate Open() { Queued? || Running? }
  }

  /** The JSON payload of a job; `Unreadable` stands for one that does not decode as its kind demands. The create
      settings that only travel through (region, image, keys, tags and the like) are left out. */
  datatype Payload =
    | Unreadable
    | NoPayload
    | CreatePayload(names: seq<string>, size: string, project: string, rootPassword: bool)
    | ActionPayload(ids: seq<int>, action: string)
    | DeletePayload(ids: seq<int>)

  /** The entries of a job's result that report what went wrong. */
  datatype Failure =
    | RequestFailed(names: seq<string>)
    | PasswordFailed(name: string)
    | NotAccepted(id: int)
    | WaitFailed(droplet: int, action: int)
    | ProjectFailed
    | SyncFailed
    | LocalProjectFailed(id: int)
    | CredentialFailed(id: int)

  /** The result document of a job, by its kind; a job that was refused has none. */
  datatype JobResult =
    | NoReport
    | SyncReport(account: AccountId, droplets: nat)
    | CreateReport(createdIds: seq<int>, failures: seq<Failure>)
    | ActionReport(action: string, ids: seq<int>, failures: seq<Failure>)
    | DeleteReport(deletedIds: seq<int>, failedIds: seq<int>)

  /** What a job body comes to and a worker stores. */
  datatype Outcome = Outcome(state: JobState, result: JobResult, actionIds: seq<int>, message: Option<string>)

  datatype JobRow = JobRow(
    user: UserId, account: Option<AccountId>, kind: string, payload: Payload, state: JobState, progress: nat,
    attempts: nat, scheduledAt: Time, createdAt: Time, startedAt: Option<Time>, finishedAt: Option<Time>,
    result: JobResult, actionIds: seq<int>, message: Option<string>)

  const SYNC := "sync_account"

  function NewRow(user: UserId, account: Option<AccountId>, kind: string, payload: Payload, now: Time): JobRow {
    JobRow(user, account, kind, payload, Queued, 0, 0, now, now, None, None, NoReport, [], None)
  }

  /** The UPDATE of a claim. */
  function Claimed(row: JobRow, now: Time): JobRow {
    row.(state := Running, startedAt := if row.startedAt.Some? then row.startedAt else Some(now),
         attempts := row.attempts + 1)
  }

  /** The UPDATE of UpdateJob; it does not look at the state it overwrites. */
  function Updated(row: JobRow, progress: nat, o: Outcome, now: Time): JobRow {
    row.(state := o.state, progress := progress, result := o.result, actionIds := o.actionIds, message := o.message,
         finishedAt := if o.state.Terminal() then Some(now) else row.finishedAt)
  }

  predicate Due(row: JobRow, now: Time) {
    row.state.Queued? && row.scheduledAt <= now
  }

  /** A due job that no due job precedes. */
  ghost predicate OldestDue(jobs: map<JobId, JobRow>, id: JobId, now: Time) {
    && id in jobs && Due(jobs[id], now)
    && forall j | j in jobs && Due(jobs[j], now) :: jobs[id].createdAt <= jobs[j].createdAt
  }

  predicate OpenSync(row: JobRow, a: AccountId) {
    row.kind == SYNC && row.account == Some(a) && row.state.Open()
  }

  /** What the scheduler looks at in an account row. */
  datatype AccountRow = AccountRow(owner: UserId, lastSynced: Option<Time>)

  predicate StaleAt(lastSynced: Option<Time>, now: Time, olderThan: nat) {
    lastSynced.None? || lastSynced.value + olderThan < now
  }

  /** The SELECT of EnqueueStaleSyncs: stale accounts without an open sync job. */
  function NeedSync(accounts: map<AccountId, AccountRow>, jobs: map<JobId, JobRow>, now: Time,
                    olderThan: nat): set<AccountId> {
    set a | a in accounts && StaleAt(accounts[a].lastSynced, now, olderThan)
        && forall j | j in jobs :: !OpenSync(jobs[j], a)
  }

  // ---- what a row looks like in each state ----

  predicate WellFormed(row: JobRow) {
    && (row.attempts == if row.state.Queued? then 0 else 1)
    && (row.startedAt.None? <==> row.state.Queued?)
    && (row.finishedAt.Some? <==> row.state.Terminal())
    && (row.progress == if row.state.Terminal() then 100 else 0)
  }

  /** What no statement ever writes again once a row has been inserted. */
  predicate SameJob(before: JobRow, after: JobRow) {
    && before.user == after.user && before.account == after.account && before.kind == after.kind
    && before.payload == after.payload && before.createdAt == after.createdAt && before.scheduledAt == after.scheduledAt
  }

  /** The row shows this outcome, stored at this time. */
  predicate Shows(row: JobRow, o: Outcome, now: Time) {
    && row.state == o.state && row.result == o.result && row.actionIds == o.actionIds && row.message == o.message
    && row.progress == 100 && row.finishedAt == Some(now)
  }

  /** The row has been taken by a worker at this time, and has no outcome yet. */
  predicate Taken(before: JobRow, after: JobRow, now: Time) {
    && after.state == Running && after.attempts == before.attempts + 1
    && (before.startedAt.None? ==> after.startedAt == Some(now))
    && (before.startedAt.Some? ==> after.startedAt == before.startedAt)
    && after.progress == before.progress && after.finishedAt == before.finishedAt && after.result == before.result
    && after.actionIds == before.actionIds && after.message == before.message
  }

  /** The only ways a row changes: not at all, by one claim, or from running to a terminal state. */
  predicate Moves(before: JobRow, after: JobRow) {
    || before == after
    || (SameJob(before, after)
        && ((before.state.Queued? && after.state.Running?) || (before.state.Running? && after.state.Terminal())))
  }

  /** What these moves come to in the long run. */
  predicate Onward(before: JobRow, after: JobRow) {
    SameJob(before, after) && (after.state.Open() ==> before.state.Open())
  }
}
