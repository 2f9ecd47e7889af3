/** The job queue as a protocol: any number of workers, one scheduler, users who enqueue jobs and delete
    accounts, crashes, rollbacks and lost acknowledgements, interleaved statement by statement. */
module JobProtocol {
  import opened Common
  import opened Jobs

  type WorkerId = nat

  datatype Pc =
    | Idle
    | Selected(job: JobId)              // SELECT ... FOR UPDATE SKIP LOCKED has locked the row
    | Marked(job: JobId)                // the claim's UPDATE is done but not committed
    | Executing(job: JobId)             // ClaimJob has returned this job
    | Saving(job: JobId, outcome: Outcome)
  {
    predicate Claiming() { Selected? || Marked? }
    predicate Working() { Executing? || Saving? }
  }

  datatype Scheduler = Waiting | Scanned(accounts: set<AccountId>)

  datatype Execution = Execution(w: WorkerId, job: JobId)

  /** `used` and `history` are not in the database: all job ids ever drawn, all executions ever begun. */
  datatype State = State(
    jobs: map<JobId, JobRow>, accounts: map<AccountId, AccountRow>, pcs: map<WorkerId, Pc>,
    scheduler: Scheduler, now: Time, used: set<JobId>, history: seq<Execution>)
  {
    function At(w: WorkerId): Pc { if w in pcs then pcs[w] else Idle }
    function Move(w: WorkerId, pc: Pc): State { this.(pcs := pcs[w := pc]) }
    ghost predicate RowLocked(j: JobId) { exists w: WorkerId :: At(w).Claiming() && At(w).job == j }
  }

  datatype Event =
    | Enqueue(id: JobId, user: UserId, account: Option<AccountId>, kind: string, payload: Payload)
    | Select(w: WorkerId, id: JobId)
    | Mark(w: WorkerId)
    | Commit(w: WorkerId)
    | CommitUnseen(w: WorkerId)         // the claim commits, the worker is told it failed
    | Rollback(w: WorkerId)
    | Finish(w: WorkerId, outcome: Outcome)
    | Save(w: WorkerId)
    | SaveFails(w: WorkerId)
    | Crash(w: WorkerId)
    | AddAccount(a: AccountId, owner: UserId)
    | DeleteAccount(a: AccountId)
    | MarkSynced(a: AccountId)
    | Scan(olderThan: nat)
    | Insert(ids: map<JobId, AccountId>)
    | ScanFails
    | Tick(delta: nat)

  ghost predicate Claimable(s: State, j: JobId) {
    j in s.jobs && Due(s.jobs[j], s.now) && !s.RowLocked(j)
  }

  /** ORDER BY created_at ... SKIP LOCKED LIMIT 1. */
  ghost predicate Oldest(s: State, j: JobId) {
    Claimable(s, j) && forall i | Claimable(s, i) :: s.jobs[j].createdAt <= s.jobs[i].createdAt
  }

  ghost predicate Serves(ids: map<JobId, AccountId>, a: AccountId) {
    exists j :: j in ids && ids[j] == a
  }

  /** Each scanned account gets exactly one new row. */
  ghost predicate OneEach(ids: map<JobId, AccountId>, accounts: set<AccountId>) {
    && (forall j | j in ids :: ids[j] in accounts)
    && (forall a | a in accounts :: Serves(ids, a))
    && (forall i, j | i in ids && j in ids && ids[i] == ids[j] :: i == j)
  }

  predicate BelongsTo(row: JobRow, a: AccountId) {
    row.account == Some(a)
  }

  ghost function Next(s: State, e: Event): Option<State> {
    match e
    case Enqueue(id, user, account, kind, payload) =>
      if id !in s.used && (account.Some? ==> account.value in s.accounts)
      then Some(s.(jobs := s.jobs[id := NewRow(user, account, kind, payload, s.now)], used := s.used + {id})) else None
    case Select(w, id) =>
      if s.At(w).Idle? && Oldest(s, id) then Some(s.Move(w, Selected(id))) else None
    case Mark(w) =>
      if s.At(w).Selected? then Some(s.Move(w, Marked(s.At(w).job))) else None
    case Commit(w) =>
      if s.At(w).Marked? && s.At(w).job in s.jobs
      then Some(Claim(s, s.At(w).job).Move(w, Executing(s.At(w).job))
                .(history := s.history + [Execution(w, s.At(w).job)])) else None
    case CommitUnseen(w) =>
      if s.At(w).Marked? && s.At(w).job in s.jobs then Some(Claim(s, s.At(w).job).Move(w, Idle)) else None
    case Rollback(w) =>
      if s.At(w).Claiming() then Some(s.Move(w, Idle)) else None
    case Finish(w, o) =>
      if s.At(w).Executing? && o.state.Terminal() then Some(s.Move(w, Saving(s.At(w).job, o))) else None
    case Save(w) =>
      if s.At(w).Saving? && !s.RowLocked(s.At(w).job) then Some(Store(s, s.At(w)).Move(w, Idle)) else None
    case SaveFails(w) =>
      if s.At(w).Saving? then Some(s.Move(w, Idle)) else None
    case Crash(w) => Some(s.Move(w, Idle))
    case AddAccount(a, owner) =>
      if a !in s.accounts then Some(s.(accounts := s.accounts[a := AccountRow(owner, None)])) else None
    case DeleteAccount(a) =>
      if forall j | j in s.jobs && BelongsTo(s.jobs[j], a) :: !s.RowLocked(j)
      then Some(s.(accounts := s.accounts - {a}, jobs := map j | j in s.jobs && !BelongsTo(s.jobs[j], a) :: s.jobs[j]))
      else None
    case MarkSynced(a) =>
      if a in s.accounts
      then Some(s.(accounts := s.accounts[a := s.accounts[a].(lastSynced := Some(s.now))])) else None
    case Scan(olderThan) =>
      if s.scheduler.Waiting?
      then Some(s.(scheduler := Scanned(NeedSync(s.accounts, s.jobs, s.now, olderThan)))) else None
    case Insert(ids) =>
      if s.scheduler.Scanned? && OneEach(ids, s.scheduler.accounts) && ids.Keys !! s.used
         && s.scheduler.accounts <= s.accounts.Keys
      then Some(s.(jobs := s.jobs + NewSyncs(s.accounts, ids, s.now), used := s.used + ids.Keys, scheduler := Waiting))
      else None
    case ScanFails =>
      if s.scheduler.Scanned? then Some(s.(scheduler := Waiting)) else None
    case Tick(delta) => Some(s.(now := s.now + delta))
  }

  function NewSyncs(accounts: map<AccountId, AccountRow>, ids: map<JobId, AccountId>, now: Time): map<JobId, JobRow>
    requires forall j | j in ids :: ids[j] in accounts
  {
    map j | j in ids :: NewRow(accounts[ids[j]].owner, Some(ids[j]), SYNC, NoPayload, now)
  }

  function Claim(s: State, j: JobId): State
    requires j in s.jobs
  {
    s.(jobs := s.jobs[j := Claimed(s.jobs[j], s.now)])
  }

  /** UpdateJob as the workers call it; a row that has been deleted meanwhile is silently skipped. */
  function Store(s: State, pc: Pc): State
    requires pc.Saving?
  {
    if pc.job in s.jobs
    then s.(jobs := s.jobs[pc.job := Updated(s.jobs[pc.job], 100, pc.outcome, s.now)]) else s
  }

  // ---- the invariant that ties rows, workers and history together ----

  ghost predicate Executed(s: State, j: JobId) {
    exists i :: 0 <= i < |s.history| && s.history[i].job == j
  }

  ghost predicate Rows(s: State) {
    && (forall j | j in s.jobs :: j in s.used && WellFormed(s.jobs[j]))
    && (forall i | 0 <= i < |s.history| :: s.history[i].job in s.used)
  }

  ghost predicate Claims(s: State) {
    && (forall w: WorkerId | s.At(w).Claiming() :: s.At(w).job in s.jobs && s.jobs[s.At(w).job].state.Queued?)
    && (forall v: WorkerId, w: WorkerId | s.At(v).Claiming() && s.At(w).Claiming()
        && s.At(v).job == s.At(w).job :: v == w)
  }

  ghost predicate Works(s: State) {
    && (forall w: WorkerId | s.At(w).Working() ::
          Executed(s, s.At(w).job) && (s.At(w).job in s.jobs ==> s.jobs[s.At(w).job].state.Running?))
    && (forall v: WorkerId, w: WorkerId | s.At(v).Working() && s.At(w).Working()
        && s.At(v).job == s.At(w).job :: v == w)
    && (forall w: WorkerId | s.At(w).Saving? :: s.At(w).outcome.state.Terminal())
  }

  ghost predicate OncePerJob(s: State) {
    && (forall i, k | 0 <= i < k < |s.history| :: s.history[i].job != s.history[k].job)
    && (forall j | j in s.jobs && s.jobs[j].state.Queued? :: !Executed(s, j))
  }

  ghost predicate Inv(s: State) {
    Rows(s) && Claims(s) && Works(s) && OncePerJob(s)
  }

  /** The row a step writes moves only forwards, and all other rows stay as they are. */
  lemma RowsMoveForward(s: State, e: Event)
    requires Inv(s) && Next(s, e).Some?
    ensures forall j | j in s.jobs && j in Next(s, e).value.jobs :: Moves(s.jobs[j], Next(s, e).value.jobs[j])
  {
  }

  predicate Acts(e: Event, w: WorkerId) {
    match e
    case Select(v, _) => v == w
    case Mark(v) => v == w
    case Commit(v) => v == w
    case CommitUnseen(v) => v == w
    case Rollback(v) => v == w
    case Finish(v, _) => v == w
    case Save(v) => v == w
    case SaveFails(v) => v == w
    case Crash(v) => v == w
    case _ => false
  }

  lemma OthersStay(s: State, e: Event, w: WorkerId)
    requires Next(s, e).Some? && !Acts(e, w)
    ensures Next(s, e).value.At(w) == s.At(w)
  {
  }

  lemma RowStep(s: State, e: Event, j: JobId)
    requires Inv(s) && Next(s, e).Some? && j in Next(s, e).value.jobs
    ensures j in Next(s, e).value.used && WellFormed(Next(s, e).value.jobs[j])
    ensures j in s.used ==> j in s.jobs
  {
    if j in s.jobs { assert WellFormed(s.jobs[j]); }
  }

  lemma UsedGrows(s: State, e: Event)
    requires Next(s, e).Some?
    ensures s.used <= Next(s, e).value.used
  {
  }

  lemma RowsStep(s: State, e: Event)
    requires Inv(s) && Next(s, e).Some?
    ensures Rows(Next(s, e).value)
  {
    var t := Next(s, e).value;
    UsedGrows(s, e);
    forall j | j in t.jobs ensures j in t.used && WellFormed(t.jobs[j]) { RowStep(s, e, j); }
    forall i | 0 <= i < |t.history| ensures t.history[i].job in t.used {
      assert i < |s.history| ==> t.history[i] == s.history[i];
    }
  }

  /** A row locked by a claim is neither written nor deleted by anybody else. */
  lemma LockedRowStays(s: State, e: Event, w: WorkerId)
    requires Inv(s) && Next(s, e).Some? && s.At(w).Claiming() && !Acts(e, w)
    ensures s.At(w).job in Next(s, e).value.jobs && Next(s, e).value.jobs[s.At(w).job] == s.jobs[s.At(w).job]
  {
    assert s.RowLocked(s.At(w).job);
  }

  lemma ClaimsStep(s: State, e: Event)
    requires Inv(s) && Next(s, e).Some?
    ensures Claims(Next(s, e).value)
  {
    var t := Next(s, e).value;
    forall w: WorkerId | t.At(w).Claiming() ensures t.At(w).job in t.jobs && t.jobs[t.At(w).job].state.Queued? {
      if !Acts(e, w) {
        OthersStay(s, e, w);
        LockedRowStays(s, e, w);
      }
    }
    forall v: WorkerId, w: WorkerId | t.At(v).Claiming() && t.At(w).Claiming() && t.At(v).job == t.At(w).job
      ensures v == w
    {
      ClaimsStayApart(s, e, v, w);
    }
  }

  lemma ClaimsStayApart(s: State, e: Event, v: WorkerId, w: WorkerId)
    requires Inv(s) && Next(s, e).Some?
    requires var t := Next(s, e).value; t.At(v).Claiming() && t.At(w).Claiming() && t.At(v).job == t.At(w).job
    ensures v == w
  {
    if !Acts(e, v) { OthersStay(s, e, v); assert s.RowLocked(s.At(v).job); }
    if !Acts(e, w) { OthersStay(s, e, w); assert s.RowLocked(s.At(w).job); }
  }

  /** A job being executed is running until its own worker says otherwise, unless its row is deleted. */
  lemma WorkedRowStays(s: State, e: Event, w: WorkerId)
    requires Inv(s) && Next(s, e).Some? && s.At(w).Working() && !Acts(e, w)
    ensures var j, t := s.At(w).job, Next(s, e).value; j in t.jobs ==> j in s.jobs && t.jobs[j] == s.jobs[j]
  {
    assert s.At(w).job in s.used;
  }

  lemma HistoryGrows(s: State, e: Event, j: JobId)
    requires Next(s, e).Some?
    ensures Executed(s, j) ==> Executed(Next(s, e).value, j)
    ensures Executed(Next(s, e).value, j) ==> Executed(s, j) || (e.Commit? && s.At(e.w).job == j)
  {
    var t := Next(s, e).value;
    if Executed(s, j) {
      var i :| 0 <= i < |s.history| && s.history[i].job == j;
      assert t.history[i].job == j;
    }
    if Executed(t, j) {
      var i :| 0 <= i < |t.history| && t.history[i].job == j;
      if i < |s.history| { assert s.history[i].job == j; }
    }
  }

  lemma WorkingStep(s: State, e: Event, w: WorkerId)
    requires Inv(s) && Next(s, e).Some? && Next(s, e).value.At(w).Working()
    ensures var t := Next(s, e).value;
            && Executed(t, t.At(w).job) && (t.At(w).job in t.jobs ==> t.jobs[t.At(w).job].state.Running?)
            && (t.At(w).Saving? ==> t.At(w).outcome.state.Terminal())
  {
    var t := Next(s, e).value;
    HistoryGrows(s, e, t.At(w).job);
    if !Acts(e, w) {
      OthersStay(s, e, w);
      WorkedRowStays(s, e, w);
    } else if e.Commit? {
      assert t.history[|s.history|].job == t.At(w).job;
    }
  }

  lemma WorkersStayApart(s: State, e: Event, v: WorkerId, w: WorkerId)
    requires Inv(s) && Next(s, e).Some?
    requires var t := Next(s, e).value; t.At(v).Working() && t.At(w).Working() && t.At(v).job == t.At(w).job
    ensures v == w
  {
    if !Acts(e, v) { OthersStay(s, e, v); }
    if !Acts(e, w) { OthersStay(s, e, w); }
  }

  lemma WorksStep(s: State, e: Event)
    requires Inv(s) && Next(s, e).Some?
    ensures Works(Next(s, e).value)
  {
    var t := Next(s, e).value;
    forall w: WorkerId | t.At(w).Working()
      ensures Executed(t, t.At(w).job) && (t.At(w).job in t.jobs ==> t.jobs[t.At(w).job].state.Running?)
              && (t.At(w).Saving? ==> t.At(w).outcome.state.Terminal())
    {
      WorkingStep(s, e, w);
    }
    forall v: WorkerId, w: WorkerId | t.At(v).Working() && t.At(w).Working() && t.At(v).job == t.At(w).job
      ensures v == w
    {
      WorkersStayApart(s, e, v, w);
    }
  }

  lemma OncePerJobStep(s: State, e: Event)
    requires Inv(s) && Next(s, e).Some?
    ensures OncePerJob(Next(s, e).value)
  {
    var t := Next(s, e).value;
    forall j | j in t.jobs && t.jobs[j].state.Queued? ensures !Executed(t, j) {
      HistoryGrows(s, e, j);
    }
    if e.Commit? {
      assert !Executed(s, s.At(e.w).job);
    }
  }

  lemma InvStep(s: State, e: Event)
    requires Inv(s) && Next(s, e).Some?
    ensures Inv(Next(s, e).value)
  {
    RowsStep(s, e);
    ClaimsStep(s, e);
    WorksStep(s, e);
    OncePerJobStep(s, e);
  }

  // ---- whole runs ----

  ghost predicate Start(s: State) {
    s.jobs == map[] && s.pcs == map[] && s.scheduler.Waiting? && s.used == {} && s.history == []
  }

  ghost predicate Run(s: State, es: seq<Event>)
    decreases |es|
  {
    es == [] || (Next(s, es[0]).Some? && Run(Next(s, es[0]).value, es[1..]))
  }

  ghost function After(s: State, es: seq<Event>): State
    requires Run(s, es)
    decreases |es|
  {
    if es == [] then s else After(Next(s, es[0]).value, es[1..])
  }

  lemma Then(s: State, e: Event, t: State, rest: seq<Event>)
    requires Next(s, e) == Some(t) && Run(t, rest)
    ensures Run(s, [e] + rest) && After(s, [e] + rest) == After(t, rest)
  {
    assert ([e] + rest)[1..] == rest;
  }

  lemma {:induction false} RunsConcat(s: State, a: seq<Event>, b: seq<Event>)
    requires Run(s, a) && Run(After(s, a), b)
    ensures Run(s, a + b) && After(s, a + b) == After(After(s, a), b)
    decreases |a|
  {
    if a == [] {
      assert a + b == b;
    } else {
      RunsConcat(Next(s, a[0]).value, a[1..], b);
      assert a + b == [a[0]] + (a[1..] + b);
      Then(s, a[0], Next(s, a[0]).value, a[1..] + b);
    }
  }

  // ---- what the statements leave in a row ----

  /** The last write of a job, if its row is still there: the outcome, and when; every other row stays as it is. */
  lemma SaveShowsOutcome(s: State, w: WorkerId)
    requires Inv(s) && Next(s, Save(w)).Some?
    ensures var j, t := s.At(w).job, Next(s, Save(w)).value;
            && t.jobs.Keys == s.jobs.Keys && t.At(w) == Idle
            && (forall i | i in s.jobs && i != j :: t.jobs[i] == s.jobs[i])
            && (j in s.jobs ==> Shows(t.jobs[j], s.At(w).outcome, s.now) && SameJob(s.jobs[j], t.jobs[j]))
  {
  }

  /** A claim that commits, seen or not: the row is taken; every other row stays as it is. */
  lemma CommitTakesRow(s: State, w: WorkerId, e: Event)
    requires (e == Commit(w) || e == CommitUnseen(w)) && Next(s, e).Some?
    ensures var j, t := s.At(w).job, Next(s, e).value;
            && t.jobs.Keys == s.jobs.Keys && (forall i | i in s.jobs && i != j :: t.jobs[i] == s.jobs[i])
            && Taken(s.jobs[j], t.jobs[j], s.now) && SameJob(s.jobs[j], t.jobs[j])
  {
  }

  lemma TimeStepsOn(s: State, e: Event)
    requires Next(s, e).Some?
    ensures Next(s, e).value.now == s.now + if e.Tick? then e.delta else 0
  {
  }

  lemma {:induction false} TimePasses(s: State, es: seq<Event>)
    requires Run(s, es)
    ensures After(s, es).now >= s.now
    decreases |es|
  {
    if es != [] {
      TimeStepsOn(s, es[0]);
      TimePasses(Next(s, es[0]).value, es[1..]);
    }
  }

  /** A job that has been enqueued keeps what it was enqueued with, and can be claimed from that moment on at any time,
      unless it has been claimed already, another claim is going on, or an older job is waiting. */
  lemma EnqueuedIsClaimable(s: State, enqueue: Event, es: seq<Event>, w: WorkerId)
    requires Inv(s) && enqueue.Enqueue? && Next(s, enqueue).Some? && Run(Next(s, enqueue).value, es)
    requires enqueue.id in After(Next(s, enqueue).value, es).jobs
    ensures var t := After(Next(s, enqueue).value, es);
            var row := t.jobs[enqueue.id];
            && row.user == enqueue.user && row.account == enqueue.account && row.kind == enqueue.kind
            && row.payload == enqueue.payload && row.createdAt == row.scheduledAt == s.now
            && (row.state == Queued && t.At(w) == Idle && NoOtherClaims(t, w)
                && (forall j | j in t.jobs && t.jobs[j].state == Queued :: row.createdAt <= t.jobs[j].createdAt)
                ==> Next(t, Select(w, enqueue.id)).Some?)
  {
    InvStep(s, enqueue);
    var s1 := Next(s, enqueue).value;
    var t := After(s1, es);
    TimePasses(s1, es);
    RowsGoOnward(s1, es, enqueue.id);
    if t.jobs[enqueue.id].state == Queued && t.At(w) == Idle && NoOtherClaims(t, w) {
      assert Claimable(t, enqueue.id);
    }
  }

  /** And only a waiting job can be claimed, at a time when nobody else does and no older one is free. */
  lemma OnlyOldestIsClaimed(s: State, w: WorkerId, id: JobId, other: JobId)
    requires Next(s, Select(w, id)).Some?
    ensures id in s.jobs && s.jobs[id].state == Queued && s.jobs[id].scheduledAt <= s.now
    ensures forall v: WorkerId :: s.At(v) != Selected(id) && s.At(v) != Marked(id)
    ensures other in s.jobs && s.jobs[other].state == Queued && s.jobs[other].scheduledAt <= s.now
            && s.jobs[other].createdAt < s.jobs[id].createdAt
            ==> exists v: WorkerId :: s.At(v) == Selected(other) || s.At(v) == Marked(other)
  {
    forall v: WorkerId ensures s.At(v) != Selected(id) && s.At(v) != Marked(id) {
      assert !(s.At(v).Claiming() && s.At(v).job == id);
    }
    if other in s.jobs && s.jobs[other].state == Queued && s.jobs[other].scheduledAt <= s.now
        && s.jobs[other].createdAt < s.jobs[id].createdAt {
      assert !Claimable(s, other);
      var v: WorkerId :| s.At(v).Claiming() && s.At(v).job == other;
      assert s.At(v) == Selected(other) || s.At(v) == Marked(other);
    }
  }

  /** A claim, statement by statement. */
  function ClaimEvents(w: WorkerId, id: JobId): seq<Event> {
    [Select(w, id)] + ([Mark(w)] + ([Commit(w)] + []))
  }

  /** Nobody but perhaps `w` is in the middle of a claim. */
  ghost predicate NoOtherClaims(s: State, w: WorkerId) {
    forall v: WorkerId | v != w :: !s.At(v).Claiming()
  }

  lemma ClaimRuns(s: State, w: WorkerId, id: JobId)
    requires s.At(w).Idle? && NoOtherClaims(s, w) && OldestDue(s.jobs, id, s.now)
    ensures Run(s, ClaimEvents(w, id))
    ensures var t := After(s, ClaimEvents(w, id));
            && t.jobs == s.jobs[id := Claimed(s.jobs[id], s.now)] && t.now == s.now
            && t.At(w) == Executing(id) && NoOtherClaims(t, w)
            && t.accounts == s.accounts && t.scheduler == s.scheduler && t.pcs.Keys == s.pcs.Keys + {w}
  {
    var s1 := s.Move(w, Selected(id));
    var s2 := s1.Move(w, Marked(id));
    var s3 := Claim(s2, id).Move(w, Executing(id)).(history := s.history + [Execution(w, id)]);
    Then(s2, Commit(w), s3, []);
    Then(s1, Mark(w), s2, [Commit(w)] + []);
    Then(s, Select(w, id), s1, [Mark(w)] + ([Commit(w)] + []));
    forall v: WorkerId | v != w ensures !s3.At(v).Claiming() { assert s3.At(v) == s.At(v); }
  }

  lemma {:induction false} InvRun(s: State, es: seq<Event>)
    requires Inv(s) && Run(s, es)
    ensures Inv(After(s, es))
    decreases |es|
  {
    if es != [] {
      InvStep(s, es[0]);
      InvRun(Next(s, es[0]).value, es[1..]);
    }
  }

  /** In every reachable state no job has been executed twice, not by one worker and not by two, every
      execution belongs to a row that is no longer queued, no two workers hold one job, and each row shows the
      attempts, times and progress of its state. */
  lemma AtMostOnce(s: State, es: seq<Event>)
    requires Start(s) && Run(s, es)
    ensures var t := After(s, es);
            && (forall i, k | 0 <= i < k < |t.history| :: t.history[i].job != t.history[k].job)
            && (forall i | 0 <= i < |t.history|
                && t.history[i].job in t.jobs :: !t.jobs[t.history[i].job].state.Queued?)
            && (forall v: WorkerId, w: WorkerId | t.At(v).Working() && t.At(w).Working()
                && t.At(v).job == t.At(w).job :: v == w)
            && (forall j | j in t.jobs :: WellFormed(t.jobs[j]))
  {
    assert Inv(s);
    InvRun(s, es);
  }

  /** Terminal rows never change and deleted rows never come back, although UpdateJob guards neither. */
  lemma {:induction false} TerminalRowsAreFinal(s: State, es: seq<Event>, j: JobId)
    requires Inv(s) && Run(s, es) && j in s.used && (j in s.jobs ==> s.jobs[j].state.Terminal())
    ensures j in After(s, es).jobs ==> j in s.jobs && After(s, es).jobs[j] == s.jobs[j]
    decreases |es|
  {
    if es != [] {
      var t := Next(s, es[0]).value;
      InvStep(s, es[0]);
      RowsMoveForward(s, es[0]);
      UsedGrows(s, es[0]);
      if j in t.jobs { RowStep(s, es[0], j); }
      TerminalRowsAreFinal(t, es[1..], j);
    }
  }

  // ---- jobs that stay running ----

  ghost predicate Held(s: State, j: JobId) {
    exists w: WorkerId :: s.At(w).Working() && s.At(w).job == j
  }

  lemma OrphanStep(s: State, e: Event, j: JobId)
    requires Inv(s) && Next(s, e).Some? && j in s.jobs && s.jobs[j].state.Running? && !Held(s, j)
    ensures var t := Next(s, e).value; j in t.jobs ==> t.jobs[j] == s.jobs[j] && !Held(t, j)
  {
    var t := Next(s, e).value;
    forall w: WorkerId ensures !(t.At(w).Working() && t.At(w).job == j) {
      assert !(s.At(w).Working() && s.At(w).job == j);
      if !Acts(e, w) { OthersStay(s, e, w); }
    }
    if e.Save? { assert !(s.At(e.w).Working() && s.At(e.w).job == j); }
  }

  lemma {:induction false} OrphanForever(s: State, es: seq<Event>, j: JobId)
    requires Inv(s) && Run(s, es) && j in s.jobs && s.jobs[j].state.Running? && !Held(s, j)
    ensures j in After(s, es).jobs ==> After(s, es).jobs[j] == s.jobs[j] && !Held(After(s, es), j)
    decreases |es|
  {
    if es != [] {
      var t := Next(s, es[0]).value;
      OrphanStep(s, es[0], j);
      InvStep(s, es[0]);
      UsedGrows(s, es[0]);
      if j in t.jobs {
        OrphanForever(t, es[1..], j);
      } else {
        TerminalRowsAreFinal(t, es[1..], j);
      }
    }
  }

  /** A running job can still reach a terminal state exactly while some worker holds it. Nothing ever takes an
      orphan up again: the queue promises at most one execution, not at least one. */
  lemma FinishesOnlyIfHeld(s: State, j: JobId)
    requires Inv(s) && j in s.jobs && s.jobs[j].state.Running?
    ensures (exists es :: Run(s, es) && j in After(s, es).jobs && After(s, es).jobs[j].state.Terminal()) <==> Held(s, j)
  {
    if Held(s, j) {
      var w: WorkerId :| s.At(w).Working() && s.At(w).job == j;
      var es := HolderFinishes(s, w);
    } else if es :| Run(s, es) && j in After(s, es).jobs && After(s, es).jobs[j].state.Terminal() {
      OrphanForever(s, es, j);
    }
  }

  lemma SaveTerminates(s: State, w: WorkerId)
    requires Inv(s) && s.At(w).Saving? && s.At(w).job in s.jobs
    ensures Next(s, Save(w)).Some? && Next(s, Save(w)).value.jobs[s.At(w).job].state.Terminal()
  {
    assert !s.RowLocked(s.At(w).job);
  }

  lemma HolderFinishes(s: State, w: WorkerId) returns (es: seq<Event>)
    requires Inv(s) && s.At(w).Working() && s.At(w).job in s.jobs
    ensures Run(s, es) && s.At(w).job in After(s, es).jobs && After(s, es).jobs[s.At(w).job].state.Terminal()
    decreases s.At(w).Executing?
  {
    if s.At(w).Executing? {
      var f := Finish(w, Outcome(Succeeded, NoReport, [], None));
      InvStep(s, f);
      var rest := HolderFinishes(Next(s, f).value, w);
      es := [f] + rest;
      assert es[1..] == rest;
    } else {
      SaveTerminates(s, w);
      es := [Save(w)];
      assert es[1..] == [];
      assert Run(Next(s, Save(w)).value, []);
    }
  }

  /** Every way to lose the worker or its last write turns the job into an orphan. */
  lemma LostWriteOrphans(s: State, w: WorkerId, e: Event)
    requires Inv(s) && s.At(w).Working() && s.At(w).job in s.jobs && (e == Crash(w) || e == SaveFails(w))
        && Next(s, e).Some?
    ensures var t := Next(s, e).value; var j := s.At(w).job;
            j in t.jobs && t.jobs[j].state.Running? && !Held(t, j) && Executed(t, j)
  {
    var t := Next(s, e).value;
    var j := s.At(w).job;
    HistoryGrows(s, e, j);
    forall v: WorkerId ensures !(t.At(v).Working() && t.At(v).job == j) {
      if v != w { OthersStay(s, e, v); }
    }
  }

  /** A claim that commits unseen leaves a running job that nobody holds and nobody has ever executed. */
  lemma UnseenClaimOrphans(s: State, w: WorkerId)
    requires Inv(s) && Next(s, CommitUnseen(w)).Some?
    ensures var t := Next(s, CommitUnseen(w)).value; var j := s.At(w).job;
            j in t.jobs && t.jobs[j].state.Running? && !Held(t, j) && !Executed(t, j)
  {
    var t := Next(s, CommitUnseen(w)).value;
    var j := s.At(w).job;
    assert s.jobs[j].state.Queued?;
    forall v: WorkerId ensures !(t.At(v).Working() && t.At(v).job == j) {
      if v != w { OthersStay(s, CommitUnseen(w), v); }
    }
  }

  // ---- the scheduler ----

  /** Syncs come only from the scheduler. */
  ghost predicate OnlyScheduled(es: seq<Event>) {
    forall i | 0 <= i < |es| :: es[i].Enqueue? ==> es[i].kind != SYNC
  }

  ghost predicate SingleSync(s: State) {
    && (forall i, j, a | i in s.jobs && j in s.jobs && OpenSync(s.jobs[i], a) && OpenSync(s.jobs[j], a) :: i == j)
    && (s.scheduler.Scanned? ==> forall a, j | a in s.scheduler.accounts && j in s.jobs :: !OpenSync(s.jobs[j], a))
  }

  /** An open sync job was open before, or is one of those the scheduler has just inserted. */
  lemma OpenSyncsComeFrom(s: State, e: Event, j: JobId, a: AccountId)
    requires Inv(s) && Next(s, e).Some? && (e.Enqueue? ==> e.kind != SYNC)
    requires j in Next(s, e).value.jobs && OpenSync(Next(s, e).value.jobs[j], a)
    ensures (j in s.jobs && OpenSync(s.jobs[j], a)) || (e.Insert? && j in e.ids && e.ids[j] == a && j !in s.jobs)
  {
    if j in s.jobs {
      assert WellFormed(s.jobs[j]);
    }
  }

  lemma NewSyncIsAlone(s: State, e: Event, i: JobId, j: JobId, a: AccountId)
    requires Inv(s) && SingleSync(s) && Next(s, e).Some? && (e.Enqueue? ==> e.kind != SYNC)
    requires var t := Next(s, e).value;
             i in t.jobs && j in t.jobs && OpenSync(t.jobs[i], a) && OpenSync(t.jobs[j], a)
    ensures i == j
  {
    OpenSyncsComeFrom(s, e, i, a);
    OpenSyncsComeFrom(s, e, j, a);
    if e.Insert? && (i in e.ids || j in e.ids) {
      assert a in s.scheduler.accounts;
    }
  }

  lemma SelectedHasNoSync(s: State, e: Event, j: JobId, a: AccountId)
    requires Inv(s) && SingleSync(s) && Next(s, e).Some? && (e.Enqueue? ==> e.kind != SYNC)
    requires var t := Next(s, e).value; t.scheduler.Scanned? && a in t.scheduler.accounts && j in t.jobs
    ensures !OpenSync(Next(s, e).value.jobs[j], a)
  {
    if OpenSync(Next(s, e).value.jobs[j], a) { OpenSyncsComeFrom(s, e, j, a); }
  }

  lemma SingleSyncStep(s: State, e: Event)
    requires Inv(s) && SingleSync(s) && Next(s, e).Some? && (e.Enqueue? ==> e.kind != SYNC)
    ensures SingleSync(Next(s, e).value)
  {
    var t := Next(s, e).value;
    forall i, j, a | i in t.jobs && j in t.jobs && OpenSync(t.jobs[i], a) && OpenSync(t.jobs[j], a) ensures i == j {
      NewSyncIsAlone(s, e, i, j, a);
    }
    forall a, j | t.scheduler.Scanned? && a in t.scheduler.accounts && j in t.jobs ensures !OpenSync(t.jobs[j], a) {
      SelectedHasNoSync(s, e, j, a);
    }
  }

  /** At most one open sync job per account in every reachable state, whatever else workers and users do. */
  lemma {:induction false} AtMostOneOpenSync(s: State, es: seq<Event>)
    requires Inv(s) && SingleSync(s) && Run(s, es) && OnlyScheduled(es)
    ensures SingleSync(After(s, es))
    decreases |es|
  {
    if es != [] {
      SingleSyncStep(s, es[0]);
      InvStep(s, es[0]);
      AtMostOneOpenSync(Next(s, es[0]).value, es[1..]);
    }
  }

  // ---- which accounts a scan selects ----

  /** No sync of the account is waiting or running. */
  predicate NoSyncUnderWay(s: State, a: AccountId) {
    forall j | j in s.jobs && s.jobs[j].kind == "sync_account" && s.jobs[j].account == Some(a) ::
      s.jobs[j].state == Succeeded || s.jobs[j].state == Failed || s.jobs[j].state == Partial
  }

  /** Neither synced nor deleted in the course of these events. */
  ghost predicate LeftAlone(es: seq<Event>, a: AccountId) {
    forall i | 0 <= i < |es| :: es[i] != MarkSynced(a) && es[i] != DeleteAccount(a)
  }

  function Elapsed(es: seq<Event>): nat {
    if es == [] then 0 else (if es[0].Tick? then es[0].delta else 0) + Elapsed(es[1..])
  }

  lemma {:induction false} AccountStays(s: State, es: seq<Event>, a: AccountId)
    requires Run(s, es) && LeftAlone(es, a) && a in s.accounts
    ensures var t := After(s, es); a in t.accounts && t.accounts[a] == s.accounts[a] && t.now == s.now + Elapsed(es)
    decreases |es|
  {
    if es != [] {
      TimeStepsOn(s, es[0]);
      AccountStays(Next(s, es[0]).value, es[1..], a);
    }
  }

  /** After a sync, whatever else happens, a scan selects the account if and only if more time than the given age has
      passed since, and no sync of it is under way. */
  lemma ScanAfterSync(s: State, a: AccountId, es: seq<Event>, olderThan: nat)
    requires Next(s, MarkSynced(a)).Some? && Run(Next(s, MarkSynced(a)).value, es) && LeftAlone(es, a)
    requires After(Next(s, MarkSynced(a)).value, es).scheduler == Waiting
    ensures var t := After(Next(s, MarkSynced(a)).value, es);
            && Next(t, Scan(olderThan)).Some?
            && var u := Next(t, Scan(olderThan)).value;
               && u.scheduler.Scanned?
               && (a in u.scheduler.accounts <==> Elapsed(es) > olderThan && NoSyncUnderWay(t, a))
  {
    AccountStays(Next(s, MarkSynced(a)).value, es, a);
    var t := After(Next(s, MarkSynced(a)).value, es);
    NoSyncMeans(t, a);
  }

  /** An account that has never been synced is selected whenever no sync of it is under way. */
  lemma ScanBeforeSync(s: State, a: AccountId, owner: UserId, es: seq<Event>, olderThan: nat)
    requires Next(s, AddAccount(a, owner)).Some? && Run(Next(s, AddAccount(a, owner)).value, es) && LeftAlone(es, a)
    requires After(Next(s, AddAccount(a, owner)).value, es).scheduler == Waiting
    ensures var t := After(Next(s, AddAccount(a, owner)).value, es);
            && Next(t, Scan(olderThan)).Some?
            && var u := Next(t, Scan(olderThan)).value;
               u.scheduler.Scanned? && (a in u.scheduler.accounts <==> NoSyncUnderWay(t, a))
  {
    AccountStays(Next(s, AddAccount(a, owner)).value, es, a);
    var t := After(Next(s, AddAccount(a, owner)).value, es);
    NoSyncMeans(t, a);
  }

  lemma NoSyncMeans(s: State, a: AccountId)
    ensures NoSyncUnderWay(s, a) <==> !HasOpenSync(s, a)
  {
    if HasOpenSync(s, a) {
      var j :| j in s.jobs && OpenSync(s.jobs[j], a);
      assert s.jobs[j].state == Queued || s.jobs[j].state == Running;
    } else {
      forall j | j in s.jobs && s.jobs[j].kind == "sync_account" && s.jobs[j].account == Some(a)
        ensures s.jobs[j].state == Succeeded || s.jobs[j].state == Failed || s.jobs[j].state == Partial
      {
        assert !OpenSync(s.jobs[j], a);
      }
    }
  }

  /** A pass that fails after its scan leaves everything as it is, and the next pass can begin. */
  lemma FailedPassIsOver(s: State, olderThan: nat)
    requires s.scheduler.Scanned?
    ensures Next(s, Scan(olderThan)).None? && Next(s, ScanFails) == Some(s.(scheduler := Waiting))
    ensures Next(Next(s, ScanFails).value, Scan(olderThan)).Some?
  {
  }

  /** Every selected account gets one queued sync in its owner's name, and nobody else gets anything. */
  lemma InsertAddsSyncs(s: State, ids: map<JobId, AccountId>, j: JobId)
    requires Inv(s) && Next(s, Insert(ids)).Some?
    ensures var t := Next(s, Insert(ids)).value;
            && (j in t.jobs <==> j in s.jobs || j in ids)
            && (j in s.jobs ==> t.jobs[j] == s.jobs[j])
            && (j in ids ==>
                  && ids[j] in s.scheduler.accounts && ids[j] in s.accounts
                  && t.jobs[j].user == s.accounts[ids[j]].owner && t.jobs[j].account == Some(ids[j])
                  && t.jobs[j].kind == "sync_account" && t.jobs[j].state == Queued && t.jobs[j].createdAt == s.now)
  {
  }

  /** A deleted account takes exactly its jobs along. */
  lemma DeletionTakesJobs(s: State, a: AccountId, j: JobId)
    requires Next(s, DeleteAccount(a)).Some?
    ensures var t := Next(s, DeleteAccount(a)).value;
            && a !in t.accounts && (forall b | b in s.accounts && b != a :: b in t.accounts)
            && (j in t.jobs <==> j in s.jobs && s.jobs[j].account != Some(a))
            && (j in t.jobs ==> t.jobs[j] == s.jobs[j])
  {
  }

  /** What may happen between the two halves of a pass: anything but another move of the scheduler. */
  ghost predicate Between(es: seq<Event>) {
    forall i | 0 <= i < |es| :: !es[i].Insert? && !es[i].ScanFails?
  }

  lemma {:induction false} ScanStays(s: State, es: seq<Event>)
    requires Run(s, es) && s.scheduler.Scanned? && Between(es)
    ensures After(s, es).scheduler == s.scheduler
    decreases |es|
  {
    if es != [] { ScanStays(Next(s, es[0]).value, es[1..]); }
  }

  /** A job that has been drawn keeps its identity, does not open again and does not come back. */
  lemma {:induction false} RowsGoOnward(s: State, es: seq<Event>, j: JobId)
    requires Inv(s) && Run(s, es) && j in s.used && j in After(s, es).jobs
    ensures j in s.jobs && Onward(s.jobs[j], After(s, es).jobs[j])
    decreases |es|
  {
    if es != [] {
      var t := Next(s, es[0]).value;
      InvStep(s, es[0]);
      UsedGrows(s, es[0]);
      RowsGoOnward(t, es[1..], j);
      RowStep(s, es[0], j);
      RowsMoveForward(s, es[0]);
    }
  }

  /** An open sync job stays one until it ends or is deleted; nothing else becomes one. */
  lemma OpenSyncLasts(s: State, es: seq<Event>, j: JobId, a: AccountId)
    requires Inv(s) && Run(s, es) && j in s.used
    ensures var t := After(s, es);
            j in t.jobs && OpenSync(t.jobs[j], a)
            <==> j in s.jobs && OpenSync(s.jobs[j], a) && j in t.jobs && t.jobs[j].state.Open()
  {
    if j in After(s, es).jobs { RowsGoOnward(s, es, j); }
  }

  /** Syncs that were not there before come from an insertion. */
  lemma {:induction false} NewSyncsAreInserted(s: State, es: seq<Event>, j: JobId, a: AccountId)
    requires Inv(s) && Run(s, es) && OnlyScheduled(es) && Between(es)
    requires j in After(s, es).jobs && OpenSync(After(s, es).jobs[j], a)
    ensures j in s.jobs && OpenSync(s.jobs[j], a)
    decreases |es|
  {
    if es != [] {
      InvStep(s, es[0]);
      NewSyncsAreInserted(Next(s, es[0]).value, es[1..], j, a);
      OpenSyncsComeFrom(s, es[0], j, a);
    }
  }

  /** A pass, with whatever other steps between its scan and its insertion. */
  ghost predicate Pass(s: State, olderThan: nat, es: seq<Event>, ids: map<JobId, AccountId>) {
    && Inv(s) && Next(s, Scan(olderThan)).Some?
    && Run(Next(s, Scan(olderThan)).value, es) && Between(es)
    && Next(After(Next(s, Scan(olderThan)).value, es), Insert(ids)).Some?
  }

  ghost function AfterPass(s: State, olderThan: nat, es: seq<Event>, ids: map<JobId, AccountId>): State
    requires Pass(s, olderThan, es, ids)
  {
    Next(After(Next(s, Scan(olderThan)).value, es), Insert(ids)).value
  }

  /** A sync of the account that was open at the scan still is. */
  ghost predicate StillSyncing(s: State, t: State, a: AccountId) {
    exists j :: j in s.jobs && OpenSync(s.jobs[j], a) && j in t.jobs && t.jobs[j].state.Open()
  }

  ghost predicate HasOpenSync(s: State, a: AccountId) {
    exists j :: j in s.jobs && OpenSync(s.jobs[j], a)
  }

  lemma InsertedIsOpen(s: State, ids: map<JobId, AccountId>, a: AccountId)
    requires s.scheduler.Scanned? && a in s.scheduler.accounts && Next(s, Insert(ids)).Some?
    ensures HasOpenSync(Next(s, Insert(ids)).value, a)
  {
    assert Serves(ids, a);
    var j :| j in ids && ids[j] == a;
    assert OpenSync(Next(s, Insert(ids)).value.jobs[j], a);
  }

  /** After a pass every account that the scan selected has an open sync job, whatever happened meanwhile. */
  lemma PassCoversSelected(s: State, olderThan: nat, es: seq<Event>, ids: map<JobId, AccountId>, a: AccountId)
    requires Pass(s, olderThan, es, ids) && a in NeedSync(s.accounts, s.jobs, s.now, olderThan)
    ensures HasOpenSync(AfterPass(s, olderThan, es, ids), a)
  {
    var s1 := Next(s, Scan(olderThan)).value;
    ScanStays(s1, es);
    InsertedIsOpen(After(s1, es), ids, a);
  }

  lemma {:induction false} UsedGrowsOn(s: State, es: seq<Event>)
    requires Run(s, es)
    ensures s.used <= After(s, es).used
    decreases |es|
  {
    if es != [] {
      UsedGrows(s, es[0]);
      UsedGrowsOn(Next(s, es[0]).value, es[1..]);
    }
  }

  /** An open sync of an account that the pass did not select was open at its scan. */
  lemma UnselectedSyncIsOld(s: State, es: seq<Event>, ids: map<JobId, AccountId>, j: JobId, a: AccountId)
    requires Inv(s) && Run(s, es) && OnlyScheduled(es) && Between(es) && s.scheduler.Scanned?
        && a !in s.scheduler.accounts
    requires Next(After(s, es), Insert(ids)).Some?
    requires var t := Next(After(s, es), Insert(ids)).value; j in t.jobs && OpenSync(t.jobs[j], a)
    ensures j in s.jobs && OpenSync(s.jobs[j], a)
  {
    InvRun(s, es);
    ScanStays(s, es);
    OpenSyncsComeFrom(After(s, es), Insert(ids), j, a);
    NewSyncsAreInserted(s, es, j, a);
  }

  lemma OldSyncIsOpen(s: State, es: seq<Event>, ids: map<JobId, AccountId>, j: JobId, a: AccountId)
    requires Inv(s) && Run(s, es) && j in s.jobs && OpenSync(s.jobs[j], a)
    requires Next(After(s, es), Insert(ids)).Some?
    requires var t := Next(After(s, es), Insert(ids)).value; j in t.jobs && t.jobs[j].state.Open()
    ensures OpenSync(Next(After(s, es), Insert(ids)).value.jobs[j], a)
  {
    InvRun(s, es);
    UsedGrowsOn(s, es);
    RowStep(After(s, es), Insert(ids), j);
    RowsMoveForward(After(s, es), Insert(ids));
    OpenSyncLasts(s, es, j, a);
  }

  /** If syncs come from the scheduler only, a stale account has an open sync job after a pass if and only if the scan
      selected it, or the sync for which the scan passed it over has not ended since. */
  lemma PassCoversStale(s: State, olderThan: nat, es: seq<Event>, ids: map<JobId, AccountId>, a: AccountId)
    requires Pass(s, olderThan, es, ids) && OnlyScheduled(es)
    requires a in s.accounts
    requires s.accounts[a].lastSynced.Some? ==> s.now > s.accounts[a].lastSynced.value + olderThan
    ensures var t := AfterPass(s, olderThan, es, ids);
            HasOpenSync(t, a) <==> a in NeedSync(s.accounts, s.jobs, s.now, olderThan) || StillSyncing(s, t, a)
  {
    var s1, t := Next(s, Scan(olderThan)).value, AfterPass(s, olderThan, es, ids);
    InvStep(s, Scan(olderThan));
    if a in NeedSync(s.accounts, s.jobs, s.now, olderThan) {
      PassCoversSelected(s, olderThan, es, ids, a);
    } else if HasOpenSync(t, a) {
      var j :| j in t.jobs && OpenSync(t.jobs[j], a);
      UnselectedSyncIsOld(s1, es, ids, j, a);
    } else if StillSyncing(s, t, a) {
      var j :| j in s.jobs && OpenSync(s.jobs[j], a) && j in t.jobs && t.jobs[j].state.Open();
      OldSyncIsOpen(s1, es, ids, j, a);
    }
  }

  const ENDED := Outcome(Failed, NoReport, [], None)

  /** A new account, for which its user asks for a sync. */
  lemma SyncEnqueued() returns (es: seq<Event>)
    ensures Run(EMPTY, es)
    ensures After(EMPTY, es) == EMPTY.(accounts := map[0 := AccountRow(0, None)],
                                       jobs := map[0 := NewRow(0, Some(0), SYNC, NoPayload, 0)], used := {0})
  {
    var s1 := EMPTY.(accounts := map[0 := AccountRow(0, None)]);
    var ask := Enqueue(0, 0, Some(0), SYNC, NoPayload);
    var s2 := s1.(jobs := map[0 := NewRow(0, Some(0), SYNC, NoPayload, 0)], used := {0});
    assert {} + {0} == s2.used;
    Then(s1, ask, s2, []);
    Then(EMPTY, AddAccount(0, 0), s1, [ask] + []);
    es := [AddAccount(0, 0)] + ([ask] + []);
  }

  /** Worker 1 is about to store the failure of this sync. */
  lemma SyncAboutToFail() returns (es: seq<Event>)
    ensures Run(EMPTY, es)
    ensures var t := After(EMPTY, es);
            && t.jobs.Keys == {0} && OpenSync(t.jobs[0], 0) && t.At(1) == Saving(0, ENDED) && t.pcs.Keys == {1}
            && t.accounts == map[0 := AccountRow(0, None)] && t.scheduler.Waiting?
  {
    var first := SyncEnqueued();
    var s := After(EMPTY, first);
    ClaimRuns(s, 1, 0);
    var t := After(s, ClaimEvents(1, 0));
    var u := t.Move(1, Saving(0, ENDED));
    Then(t, Finish(1, ENDED), u, []);
    RunsConcat(EMPTY, first, ClaimEvents(1, 0));
    RunsConcat(EMPTY, first + ClaimEvents(1, 0), [Finish(1, ENDED)] + []);
    es := first + ClaimEvents(1, 0) + ([Finish(1, ENDED)] + []);
  }

  const EMPTY := State(map[], map[], map[], Waiting, 0, {}, [])

  lemma NothingToInsert(s: State)
    requires s.scheduler == Scanned({})
    ensures Next(s, Insert(map[])).Some? && Next(s, Insert(map[])).value.jobs == s.jobs
  {
    var none: map<JobId, AccountId> := map[];
    assert NewSyncs(s.accounts, none, s.now) == map[] && s.jobs + map[] == s.jobs;
  }

  lemma FailureIsStored(s: State)
    requires Inv(s) && s.jobs.Keys == {0} && s.At(1) == Saving(0, ENDED) && s.pcs.Keys == {1}
    ensures var t := Next(s, Save(1));
            t.Some? && t.value.scheduler == s.scheduler && t.value.jobs.Keys == {0} && t.value.jobs[0].state == Failed
  {
    assert !s.RowLocked(0);
  }

  /** A pass that selects nothing, while the sync for which it does so fails. */
  lemma PassOverFailing(s: State) returns (es: seq<Event>)
    requires Inv(s) && s.jobs.Keys == {0} && OpenSync(s.jobs[0], 0) && s.At(1) == Saving(0, ENDED) && s.pcs.Keys == {1}
    requires s.accounts == map[0 := AccountRow(0, None)] && s.scheduler.Waiting?
    ensures Pass(s, 0, es, map[]) && es == [Save(1)]
    ensures !HasOpenSync(AfterPass(s, 0, es, map[]), 0)
  {
    var s1 := Next(s, Scan(0)).value;
    assert NeedSync(s.accounts, s.jobs, s.now, 0) == {};
    InvStep(s, Scan(0));
    FailureIsStored(s1);
    var s2 := Next(s1, Save(1)).value;
    Then(s1, Save(1), s2, []);
    es := [Save(1)] + [];
    NothingToInsert(s2);
  }

  /** A reachable pass that leaves a stale account without any sync: the scan passes it over for a sync that fails
      before the insertion. */
  lemma PassCanMissStale() returns (before: seq<Event>, meanwhile: seq<Event>)
    ensures Start(EMPTY) && Run(EMPTY, before) && OnlyScheduled(meanwhile)
    ensures var s := After(EMPTY, before);
            && Pass(s, 0, meanwhile, map[])
            && 0 in s.accounts && s.accounts[0].lastSynced.None?
            && !HasOpenSync(AfterPass(s, 0, meanwhile, map[]), 0)
  {
    before := SyncAboutToFail();
    assert Inv(EMPTY);
    InvRun(EMPTY, before);
    meanwhile := PassOverFailing(After(EMPTY, before));
  }

  /** When the sync job of an account ends, however it ends, the next pass takes the account up again exactly
      if it is still stale. */
  lemma EligibleAgain(s: State, w: WorkerId, a: AccountId, olderThan: nat)
    requires Inv(s) && SingleSync(s) && s.At(w).Saving? && s.At(w).job in s.jobs && OpenSync(s.jobs[s.At(w).job], a)
    requires a in s.accounts && Next(s, Save(w)).Some?
    ensures var t := Next(s, Save(w)).value;
            a in NeedSync(t.accounts, t.jobs, t.now, olderThan)
            <==> (t.accounts[a].lastSynced.Some? ==> t.now > t.accounts[a].lastSynced.value + olderThan)
  {
    var t := Next(s, Save(w)).value;
    forall j | j in t.jobs ensures !OpenSync(t.jobs[j], a) {
      if j != s.At(w).job { assert t.jobs[j] == s.jobs[j]; }
    }
  }

  /** But an orphaned sync job blocks its account for good: no later pass selects it while the row exists. */
  lemma OrphanBlocksScheduler(s: State, es: seq<Event>, j: JobId, a: AccountId, olderThan: nat)
    requires Inv(s) && Run(s, es) && j in s.jobs && s.jobs[j].state.Running? && !Held(s, j) && OpenSync(s.jobs[j], a)
    ensures var t := After(s, es); j in t.jobs ==> a !in NeedSync(t.accounts, t.jobs, t.now, olderThan)
  {
    OrphanForever(s, es, j);
  }
}
