/** One turn of a worker: claim a job, run its body, store the outcome. */
module WorkerTurn {
  import opened Common
  import opened Jobs
  import opened Inventory
  import opened StoreLayer
  import opened ProviderLayer
  import opened SyncJob
  import opened Requests
  import B = BatchJobs
  import C = CreateJob
  import CR = CreateRequests
  import P = JobProtocol

  const KINDS: set<string> := {SYNC, "create_droplets", "droplet_action", "delete_droplets"}

  /** What a body did: the requests it made of the provider, or that it refused. */
  datatype Deed = Deed(refused: bool, made: seq<Call>)

  ghost predicate NothingFailed(entries: seq<Entry>, calls: seq<Call>) {
    OkFrom(entries, 0) && GoodFrom(calls, 0)
  }

  /** The payload passes the guards of its body. */
  predicate ValidPayload(job: JobRow) {
    match job.payload
    case ActionPayload(ids, action) => job.kind == "droplet_action" && WorkerAcceptsAction(ids, action)
    case DeletePayload(ids) => job.kind == "delete_droplets" && ValidIds(ids, 100)
    case CreatePayload(names, _, _, _) => job.kind == "create_droplets" && WorkerAcceptsNames(names)
    case _ => false
  }

  /** The outcome of a body is the truth about what it asked and was answered: `entries` and `calls` are all its
      statements and calls, `deed.made` its requests among them. A valid action or delete is refused only after
      a failure; a create may also be refused by the quota. */
  ghost predicate TrueVerdict(job: JobRow, o: Outcome, entries: seq<Entry>, calls: seq<Call>, deed: Deed) {
    if job.kind !in KINDS then Refusal(o) && calls == []
    else if job.account.None? then Refusal(o)
    else if job.kind == SYNC then TrueSync(job.account.value, o, entries, calls)
    else if deed.refused then
      && Refusal(o) && ReadsOnlyFrom(calls, 0)
      && (NothingFailed(entries, calls) ==> !ValidPayload(job) || job.kind == "create_droplets")
    else
      && ValidPayload(job) && (exists at :: Contains(calls, at, deed.made))
      && (job.payload.CreatePayload? ==> TrueCreate(job.payload, o, entries, calls, deed.made))
      && (job.payload.ActionPayload? ==> TrueAction(job.payload, o, entries, calls, deed.made))
      && (job.payload.DeletePayload? ==> TrueDelete(job.payload, o, entries, calls, deed.made))
  }

  predicate Refusal(o: Outcome) {
    o.state == Failed && o.result == NoReport && o.actionIds == []
  }

  /** Succeeded if nothing failed, with the number of listed droplets. */
  ghost predicate TrueSync(a: AccountId, o: Outcome, entries: seq<Entry>, calls: seq<Call>) {
    if NothingFailed(entries, calls) then
      && o.state == Succeeded && o.result.SyncReport? && o.result.account == a && o.actionIds == []
      && exists items :: ListCall(Some(items)) in calls && |items| == o.result.droplets
    else Refusal(o)
  }

  ghost predicate TrueCreate(payload: Payload, o: Outcome, entries: seq<Entry>, calls: seq<Call>, made: seq<Call>)
    requires payload.CreatePayload?
  {
    var s := CR.Summarize(made);
    && s.settled == payload.names && (o.state == Failed <==> s.created == [])
    && (o.state == Succeeded <==> s.created != [] && NothingFailed(entries, calls))
    && o.actionIds == s.started
    && o.result.CreateReport? && o.result.createdIds == s.created && s.failures <= o.result.failures
  }

  ghost predicate TrueAction(payload: Payload, o: Outcome, entries: seq<Entry>, calls: seq<Call>, made: seq<Call>)
    requires payload.ActionPayload?
  {
    && B.OnlyActions(made, payload.action) && Collect(made, B.Requested) == payload.ids
    && o.state in {Succeeded, Partial}
    && (o.state == Succeeded ==> GoodFrom(made, 0)) && (NothingFailed(entries, calls) ==> o.state == Succeeded)
    && o.actionIds == Collect(made, B.AcceptedAction)
    && o.result.ActionReport? && o.result.action == payload.action && o.result.ids == payload.ids
    && Collect(made, FailureOf) <= o.result.failures && (o.result.failures == [] <==> o.state == Succeeded)
  }

  ghost predicate TrueDelete(payload: Payload, o: Outcome, entries: seq<Entry>, calls: seq<Call>, made: seq<Call>)
    requires payload.DeletePayload?
  {
    && B.DeletesEach(made, payload.ids)
    && (o.state == Succeeded <==> GoodFrom(made, 0)) && (o.state == Failed <==> B.AllFailed(made))
    && (NothingFailed(entries, calls) ==> o.state == Succeeded)
    && o.result == DeleteReport(Collect(made, B.Deleted), Collect(made, B.Undeleted)) && o.actionIds == []
  }

  /** A job that succeeds leaves its account synced at this time; a delete does not look at its sync. */
  ghost predicate Stamped(job: JobRow, o: Outcome, accounts: map<AccountId, Account>, now: Time) {
    o.state == Succeeded && job.account.Some? && job.kind != "delete_droplets" ==>
      SyncedAt(accounts, job.account.value, now)
  }

  const REFUSED := Outcome(Failed, NoReport, [], None)

  method RunSync(store: Store, provider: Provider, job: JobRow, now: Time)
    returns (o: Outcome, ghost entries: seq<Entry>, ghost calls: seq<Call>)
    requires job.kind == SYNC
    modifies store`accounts, store`droplets, store`credentials, store`nextRow, store`log, provider
    ensures store.log == old(store.log) + entries && provider.log == old(provider.log) + calls
    ensures TrueVerdict(job, o, entries, calls, Deed(true, [])) && o.state.Terminal()
    ensures Stamped(job, o, store.accounts, now)
    ensures Keeps(old(store.Tables()), store.Tables())
  {
    ghost var log0, calls0 := store.log, provider.log;
    o := REFUSED;
    if job.account.Some? {
      var count;
      ghost var applied, remotes;
      count, applied, remotes := SyncAccount(store, provider, job.account.value, now);
      if count.Some? {
        o := Outcome(Succeeded, SyncReport(job.account.value, count.value), [], None);
        AddedInTail(calls0, provider.log, ListCall(Some(remotes)));
      }
    }
    entries, calls := store.log[|log0|..], provider.log[|calls0|..];
    OkFromTail(log0, entries);
    GoodFromTail(calls0, calls);
  }

  lemma AddedInTail(before: seq<Call>, log: seq<Call>, c: Call)
    requires |before| <= |log| && AddedTo(log, |before|, c)
    ensures c in log[|before|..]
  {
    var i :| |before| <= i < |log| && log[i] == c;
    assert log[|before|..][i - |before|] == c;
  }

  /** The entries added to a log. */
  ghost function EntriesSince(before: seq<Entry>, log: seq<Entry>): (entries: seq<Entry>)
    requires Grew(before, log)
    ensures log == before + entries && entries == log[|before|..]
    ensures OkFrom(entries, 0) <==> OkFrom(log, |before|)
  {
    OkFromTail(before, log[|before|..]);
    assert log == before + log[|before|..];
    log[|before|..]
  }

  ghost function CallsSince(before: seq<Call>, log: seq<Call>): (calls: seq<Call>)
    requires Grew(before, log)
    ensures log == before + calls && calls == log[|before|..]
    ensures GoodFrom(calls, 0) <==> GoodFrom(log, |before|)
    ensures ReadsOnlyFrom(calls, 0) <==> ReadsOnlyFrom(log, |before|)
  {
    GoodFromTail(before, log[|before|..]);
    assert log == before + log[|before|..];
    log[|before|..]
  }

  lemma RefusalIsTrue(job: JobRow, entries: seq<Entry>, calls: seq<Call>, made: seq<Call>)
    requires job.kind == "create_droplets" && ReadsOnlyFrom(calls, 0)
    ensures TrueVerdict(job, REFUSED, entries, calls, Deed(true, made))
  {
  }

  lemma CreateIsTrue(job: JobRow, r: C.CreateResult, entries: seq<Entry>, calls: seq<Call>, at: nat, made: seq<Call>,
                     asked: seq<Failure>)
    requires job.kind == "create_droplets" && job.account.Some? && job.payload.CreatePayload? && r.CreateDone?
    requires WorkerAcceptsNames(job.payload.names) && Contains(calls, at, made)
    requires C.RequestsMade(made, job.payload.names, job.payload.rootPassword, r.created, r.actionIds, asked)
    requires |asked| <= |r.failures| && r.failures[..|asked|] == asked
    requires r.state == C.CreateVerdict(r.created, r.failures)
    requires r.state == Succeeded <==> r.created != [] && NothingFailed(entries, calls)
    ensures TrueVerdict(job, Outcome(r.state, CreateReport(r.created, r.failures), r.actionIds, None), entries, calls,
                        Deed(false, made))
  {
    assert TrueCreate(job.payload, Outcome(r.state, CreateReport(r.created, r.failures), r.actionIds, None), entries,
                      calls, made);
  }

  /** The create job, with that part of what it promises from which its outcome follows. */
  method CreateAndReport(store: Store, provider: Provider, account: Option<AccountId>, payload: Payload, now: Time)
    returns (r: C.CreateResult, ghost before: seq<Call>, ghost made: seq<Call>, ghost asked: seq<Failure>)
    requires Schema(store.Tables())
    modifies store`accounts, store`droplets, store`credentials, store`nextRow, store`log, provider
    ensures Grew(old(store.log), store.log) && Grew(old(provider.log), provider.log)
    ensures r.CreateRefused? ==> ReadsOnlyFrom(provider.log, |old(provider.log)|)
    ensures r.CreateDone? ==> account.Some? && payload.CreatePayload? && WorkerAcceptsNames(payload.names)
    ensures r.CreateDone? ==> C.RequestsMade(made, payload.names, payload.rootPassword, r.created, r.actionIds, asked)
    ensures r.CreateDone? ==> |asked| <= |r.failures| && r.failures[..|asked|] == asked
    ensures r.CreateDone? ==> Grew(old(provider.log), before) && Grew(before + made, provider.log)
    ensures r.CreateDone? ==> r.state == C.CreateVerdict(r.created, r.failures)
    ensures r.CreateDone? ==> (r.state == Succeeded <==>
              r.created != [] && OkFrom(store.log, |old(store.log)|) && GoodFrom(provider.log, |old(provider.log)|))
    ensures r.CreateDone? && r.state == Succeeded ==> SyncedAt(store.accounts, account.value, now)
    ensures Keeps(old(store.Tables()), store.Tables())
  {
    ghost var checked, listing, size, report;
    r, checked, listing, size, before, made, asked, report := C.CreateDroplets(store, provider, account, payload, now);
  }

  method RunCreate(store: Store, provider: Provider, job: JobRow, now: Time)
    returns (o: Outcome, ghost entries: seq<Entry>, ghost calls: seq<Call>, ghost deed: Deed)
    requires job.kind == "create_droplets" && Schema(store.Tables())
    modifies store`accounts, store`droplets, store`credentials, store`nextRow, store`log, provider
    ensures store.log == old(store.log) + entries && provider.log == old(provider.log) + calls
    ensures TrueVerdict(job, o, entries, calls, deed) && o.state.Terminal()
    ensures Stamped(job, o, store.accounts, now)
    ensures Keeps(old(store.Tables()), store.Tables())
  {
    ghost var log0, calls0 := store.log, provider.log;
    var r;
    ghost var before, made, asked;
    r, before, made, asked := CreateAndReport(store, provider, job.account, job.payload, now);
    entries, calls := EntriesSince(log0, store.log), CallsSince(calls0, provider.log);
    deed := Deed(r.CreateRefused?, made);
    if r.CreateRefused? {
      o := REFUSED;
      RefusalIsTrue(job, entries, calls, made);
      return;
    }
    o := Outcome(r.state, CreateReport(r.created, r.failures), r.actionIds, None);
    InTail(calls0, before, made, provider.log);
    CreateIsTrue(job, r, entries, calls, |before| - |calls0|, made, asked);
  }

  method RunAction(store: Store, provider: Provider, job: JobRow, now: Time)
    returns (o: Outcome, ghost entries: seq<Entry>, ghost calls: seq<Call>, ghost deed: Deed)
    requires job.kind == "droplet_action" && Schema(store.Tables())
    modifies store`accounts, store`droplets, store`credentials, store`nextRow, store`log, provider
    ensures store.log == old(store.log) + entries && provider.log == old(provider.log) + calls
    ensures TrueVerdict(job, o, entries, calls, deed) && o.state.Terminal()
    ensures RetiresPasswords(job, deed, store.droplets, store.credentials, entries)
    ensures Stamped(job, o, store.accounts, now)
    ensures Keeps(old(store.Tables()), store.Tables())
  {
    ghost var log0, calls0 := store.log, provider.log;
    var r;
    ghost var made, synced;
    r, made, synced := B.DropletAction(store, provider, job.account, job.payload, now);
    o := REFUSED;
    entries, calls, deed := store.log[|log0|..], provider.log[|calls0|..], Deed(r.ActionRefused?, made);
    OkFromTail(log0, entries);
    GoodFromTail(calls0, calls);
    if r.ActionDone? {
      o := Outcome(r.state, ActionReport(job.payload.action, job.payload.ids, r.failures), r.actionIds, None);
      InTail(calls0, calls0 + [OpenToken(true)], made, provider.log);
      assert TrueAction(job.payload, o, entries, calls, made);
      if B.ChangesRootPassword(job.payload.action) {
        StaleInTail(store.droplets, store.credentials, log0, store.log, job.account.value,
                    Collect(made, B.AcceptedDroplet));
      }
    }
  }

  /** After an action job every credential whose password the job has made invalid is stale, unless a statement of the
      job failed. */
  ghost predicate RetiresPasswords(job: JobRow, deed: Deed, droplets: map<Key, DropletRow>,
                                   credentials: map<RowId, Credential>, entries: seq<Entry>)
  {
    job.kind == "droplet_action" && job.account.Some? && job.payload.ActionPayload? && !deed.refused ==>
      B.PasswordsRetired(droplets, credentials, entries, 0, job.account.value, job.payload.action, deed.made)
  }

  lemma StaleInTail(droplets: map<Key, DropletRow>, credentials: map<RowId, Credential>, log0: seq<Entry>,
                    log: seq<Entry>, a: AccountId, accepted: seq<ProviderId>)
    requires Grew(log0, log) && B.AllStale(droplets, credentials, log, |log0|, a, accepted)
    ensures B.AllStale(droplets, credentials, log[|log0|..], 0, a, accepted)
  {
    var n := |log0|;
    assert forall i | n <= i < |log| :: log[i] == log[n..][i - n];
    forall i | 0 <= i < |accepted| ensures B.StaleOrFailed(droplets, credentials, log[n..], 0, Key(a, accepted[i])) {
      assert B.StaleOrFailed(droplets, credentials, log, n, Key(a, accepted[i]));
    }
  }

  method RunDelete(store: Store, provider: Provider, job: JobRow, now: Time)
    returns (o: Outcome, ghost entries: seq<Entry>, ghost calls: seq<Call>, ghost deed: Deed)
    requires job.kind == "delete_droplets"
    modifies store`accounts, store`droplets, store`credentials, store`nextRow, store`log, provider
    ensures store.log == old(store.log) + entries && provider.log == old(provider.log) + calls
    ensures TrueVerdict(job, o, entries, calls, deed) && o.state.Terminal()
    ensures Keeps(old(store.Tables()), store.Tables())
  {
    ghost var log0, calls0 := store.log, provider.log;
    var r;
    ghost var made;
    r, made := B.DeleteDroplets(store, provider, job.account, job.payload, now);
    o := if r.DeleteDone? then Outcome(r.state, DeleteReport(r.deleted, r.failed), [], None) else REFUSED;
    entries, calls, deed := store.log[|log0|..], provider.log[|calls0|..], Deed(r.DeleteRefused?, made);
    OkFromTail(log0, entries);
    GoodFromTail(calls0, calls);
    if r.DeleteDone? {
      InTail(calls0, calls0 + [OpenToken(true)], made, provider.log);
      B.DeleteVerdictIsTrue(made, job.payload.ids);
    }
  }

  lemma InTail(calls0: seq<Call>, before: seq<Call>, made: seq<Call>, log: seq<Call>)
    requires Grew(calls0, before) && Grew(before + made, log)
    ensures Contains(log[|calls0|..], |before| - |calls0|, made)
  {
    var at := |before| - |calls0|;
    assert log[|calls0|..][at..at + |made|] == log[..|before + made|][|before|..] == made;
  }

  /** process: the body that belongs to the kind. It leaves the jobs table alone, keeps references and ownership, and
      reports an error exactly when the state is not succeeded. */
  method Process(store: Store, provider: Provider, job: JobRow, now: Time)
    returns (o: Outcome, ghost entries: seq<Entry>, ghost calls: seq<Call>, ghost deed: Deed)
    requires Schema(store.Tables())
    modifies store`accounts, store`droplets, store`credentials, store`nextRow, store`log, provider
    ensures store.log == old(store.log) + entries && provider.log == old(provider.log) + calls
    ensures TrueVerdict(job, o, entries, calls, deed) && o.state.Terminal()
        && (o.message.Some? <==> o.state != Succeeded)
    ensures RetiresPasswords(job, deed, store.droplets, store.credentials, entries)
    ensures Stamped(job, o, store.accounts, now)
    ensures Keeps(old(store.Tables()), store.Tables())
  {
    entries, calls, deed := [], [], Deed(true, []);
    o := REFUSED;
    if job.kind == SYNC {
      o, entries, calls := RunSync(store, provider, job, now);
    } else if job.kind == "create_droplets" {
      o, entries, calls, deed := RunCreate(store, provider, job, now);
    } else if job.kind == "droplet_action" {
      o, entries, calls, deed := RunAction(store, provider, job, now);
    } else if job.kind == "delete_droplets" {
      o, entries, calls, deed := RunDelete(store, provider, job, now);
    }
    o := o.(message := if o.state == Succeeded then None else Some("error"));
  }

  datatype Turn =
    | Idle                                        // nothing due, or the claim failed
    | Ran(id: JobId, outcome: Outcome, stored: bool) // `stored` says whether the outcome could be written

  /** The row of a job after a turn. */
  function RowAfter(row: JobRow, turn: Turn, claimedAt: Time, now: Time): JobRow
    requires turn.Ran?
  {
    if turn.stored then Updated(Claimed(row, claimedAt), 100, turn.outcome, now) else Claimed(row, claimedAt)
  }

  /** Jobs whose rows change otherwise than in their account refer to the same accounts. */
  lemma JobsKeep(db: Db, jobs: map<JobId, JobRow>)
    requires forall j | j in jobs :: j in db.jobs && jobs[j].account == db.jobs[j].account
    ensures Keeps(db, db.(jobs := jobs))
  {
    if Schema(db) { assert Schema(db.(jobs := jobs)); }
  }

  /** The statement at the end of a turn: there is one exactly if the context has not ended over a success. */
  function LastWrite(turn: Turn, cancelled: bool): seq<Entry>
    requires turn.Ran?
  {
    if turn.outcome.state == Succeeded && cancelled then [] else [Entry(SaveJob(turn.id), turn.stored)]
  }

  /** The write at the end of a turn, unless the context has ended over a success. */
  method StoreOutcome(store: Store, id: JobId, o: Outcome, now: Time, cancelled: bool) returns (stored: bool)
    requires id in store.jobs
    modifies store`jobs, store`log
    ensures store.jobs == if stored then old(store.jobs)[id := Updated(old(store.jobs)[id], 100, o, now)]
      else old(store.jobs)
    ensures stored && o.state.Terminal() ==> Shows(store.jobs[id], o, now)
    ensures SameJob(old(store.jobs)[id], store.jobs[id])
    ensures store.log == old(store.log) + LastWrite(Ran(id, o, stored), cancelled)
    ensures Keeps(old(store.Tables()), store.Tables())
    ensures stored && cancelled ==> o.state != Succeeded
  {
    ghost var before := store.Tables();
    stored := false;
    if o.state != Succeeded || !cancelled {
      stored := store.UpdateJob(id, 100, o, now);
    }
    JobsKeep(before, store.jobs);
  }

  /** The verdict depends only on what a claim leaves alone. */
  lemma ClaimKeepsVerdict(queued: JobRow, claimed: JobRow, o: Outcome, entries: seq<Entry>, calls: seq<Call>,
                          deed: Deed, droplets: map<Key, DropletRow>, credentials: map<RowId, Credential>)
    requires SameJob(queued, claimed)
    requires TrueVerdict(claimed, o, entries, calls, deed)
    requires RetiresPasswords(claimed, deed, droplets, credentials, entries)
    ensures TrueVerdict(queued, o, entries, calls, deed)
    ensures RetiresPasswords(queued, deed, droplets, credentials, entries)
  {
  }

  /** What a turn owes to the row it has taken, whatever it has come to. */
  ghost predicate Served(row: JobRow, turn: Turn, entries: seq<Entry>, calls: seq<Call>, deed: Deed, after: Db,
                         now: Time)
    requires turn.Ran?
  {
    && TrueVerdict(row, turn.outcome, entries, calls, deed)
    && (turn.outcome.message.Some? <==> turn.outcome.state != Succeeded)
    && RetiresPasswords(row, deed, after.droplets, after.credentials, entries)
    && Stamped(row, turn.outcome, after.accounts, now)
  }

  /** The turn after its claim. */
  method RunClaimed(store: Store, provider: Provider, id: JobId, job: JobRow, now: Time, cancelled: bool)
    returns (turn: Turn, ghost entries: seq<Entry>, ghost calls: seq<Call>, ghost deed: Deed)
    requires Schema(store.Tables()) && id in store.jobs
    modifies store`accounts, store`droplets, store`credentials, store`nextRow, store`jobs, store`log, provider
    ensures Keeps(old(store.Tables()), store.Tables())
    ensures turn.Ran? && turn.id == id && turn.outcome.state.Terminal()
    ensures store.jobs == if turn.stored
      then old(store.jobs)[id := Updated(old(store.jobs)[id], 100, turn.outcome, now)] else old(store.jobs)
    ensures provider.log == old(provider.log) + calls
    ensures store.log == old(store.log) + entries + LastWrite(turn, cancelled)
    ensures Served(job, turn, entries, calls, deed, store.Tables(), now)
    ensures turn.stored && cancelled ==> turn.outcome.state != Succeeded
  {
    ghost var before := store.Tables();
    var o;
    o, entries, calls, deed := Process(store, provider, job, now);
    KeepsMeans(before, store.Tables());
    ghost var mid := store.Tables();
    var stored := StoreOutcome(store, id, o, now, cancelled);
    KeepsMeans(mid, store.Tables());
    KeepsMeans(before, store.Tables());
    turn := Ran(id, o, stored);
  }

  /** What is owed depends only on what a claim leaves alone. */
  lemma ClaimKeepsServed(queued: JobRow, claimed: JobRow, turn: Turn, entries: seq<Entry>, calls: seq<Call>, deed: Deed,
                         after: Db, now: Time)
    requires turn.Ran? && SameJob(queued, claimed) && Served(claimed, turn, entries, calls, deed, after, now)
    ensures Served(queued, turn, entries, calls, deed, after, now)
  {
    ClaimKeepsVerdict(queued, claimed, turn.outcome, entries, calls, deed, after.droplets, after.credentials);
  }

  /** What the row of a job shows after its turn. */
  ghost predicate ShowsTurn(before: JobRow, after: JobRow, turn: Turn, claimedAt: Time, now: Time)
    requires turn.Ran?
  {
    && SameJob(before, after) && (WellFormed(before) ==> WellFormed(after))
    && if turn.stored then Shows(after, turn.outcome, now) else Taken(before, after, claimedAt)
  }

  lemma RowShowsTurn(row: JobRow, turn: Turn, claimedAt: Time, now: Time)
    requires turn.Ran? && turn.outcome.state.Terminal() && row.state.Queued?
    ensures ShowsTurn(row, RowAfter(row, turn, claimedAt, now), turn, claimedAt, now)
  {
  }

  /** ProcessNext. `cancelled` is the state of the worker's context at the end: an outcome with an error is written
      in spite of it, a success is not. What the turn does to the jobs table is one claim and, if the write
      succeeds, one move of the same row to a terminal state; every other row is as before. References and ownership
      are kept, so that turn can follow turn. */
  method ProcessNext(store: Store, provider: Provider, claimedAt: Time, now: Time, cancelled: bool)
    returns (turn: Turn, ghost entries: seq<Entry>, ghost calls: seq<Call>, ghost deed: Deed)
    requires Schema(store.Tables())
    modifies store`accounts, store`droplets, store`credentials, store`nextRow, store`jobs, store`log, provider
    ensures Schema(store.Tables()) && Keeps(old(store.Tables()), store.Tables())
    ensures turn.Idle? ==> store.Tables() == old(store.Tables()) && provider.log == old(provider.log)
    ensures turn.Idle? ==> (forall j | j in store.jobs :: !Due(store.jobs[j], claimedAt))
                           || store.log == old(store.log) + [Entry(ClaimDue, false)]
    ensures turn.Ran? ==> OldestDue(old(store.jobs), turn.id, claimedAt) && turn.outcome.state.Terminal()
    ensures turn.Ran?
        ==> store.jobs == old(store.jobs)[turn.id := RowAfter(old(store.jobs)[turn.id], turn, claimedAt, now)]
    ensures turn.Ran? ==> ShowsTurn(old(store.jobs)[turn.id], store.jobs[turn.id], turn, claimedAt, now)
    ensures turn.Ran? ==> provider.log == old(provider.log) + calls
    ensures turn.Ran? ==> store.log == old(store.log) + [Entry(ClaimDue, true)] + entries
                                       + LastWrite(turn, cancelled)
    ensures turn.Ran? ==> Served(old(store.jobs)[turn.id], turn, entries, calls, deed, store.Tables(), now)
    ensures turn.Ran? && turn.stored && cancelled ==> turn.outcome.state != Succeeded
  {
    turn, entries, calls, deed := Idle, [], [], Deed(true, []);
    ghost var before := store.Tables();
    var claim := store.ClaimJob(claimedAt);
    if !claim.Got? {
      return;
    }
    JobsKeep(before, store.jobs);
    KeepsMeans(before, store.Tables());
    ghost var mid := store.Tables();
    turn, entries, calls, deed := RunClaimed(store, provider, claim.id, claim.job, now, cancelled);
    RowShowsTurn(before.jobs[claim.id], turn, claimedAt, now);
    ClaimKeepsServed(before.jobs[claim.id], claim.job, turn, entries, calls, deed, store.Tables(), now);
    KeepsMeans(mid, store.Tables());
    KeepsMeans(before, store.Tables());
  }

  /** loop: turn after turn until the context ends; `until` tells how many that are, and each turn has its own times. */
  method WorkerLoop(store: Store, provider: Provider, until: nat, claimedAt: nat -> Time, now: nat -> Time,
                    cancelled: nat -> bool)
    returns (turns: seq<Turn>)
    requires Schema(store.Tables())
    modifies store`accounts, store`droplets, store`credentials, store`nextRow, store`jobs, store`log, provider
    ensures Schema(store.Tables()) && Keeps(old(store.Tables()), store.Tables()) && |turns| == until
    ensures forall j | j in old(store.jobs) :: j in store.jobs && SameJob(old(store.jobs)[j], store.jobs[j])
  {
    turns := [];
    ghost var before := store.Tables();
    for i := 0 to until
      invariant Schema(store.Tables()) && Keeps(before, store.Tables()) && |turns| == i
      invariant forall j | j in before.jobs :: j in store.jobs && SameJob(before.jobs[j], store.jobs[j])
    {
      var turn, _, _, _ := ProcessNext(store, provider, claimedAt(i), now(i), cancelled(i));
      turns := turns + [turn];
    }
  }

  // ---- the turn as a run of the protocol ----

  /** The time the body takes, and the outcome. */
  function EndEvents(w: P.WorkerId, turn: Turn, duration: nat): seq<P.Event>
    requires turn.Ran?
  {
    [P.Tick(duration)] + ([P.Finish(w, turn.outcome)] + ([if turn.stored then P.Save(w) else P.SaveFails(w)] + []))
  }

  lemma EndRuns(s: P.State, w: P.WorkerId, turn: Turn, duration: nat)
    requires turn.Ran? && turn.outcome.state.Terminal()
    requires s.At(w) == P.Executing(turn.id) && P.NoOtherClaims(s, w) && turn.id in s.jobs
    ensures P.Run(s, EndEvents(w, turn, duration))
    ensures P.After(s, EndEvents(w, turn, duration)).jobs
         == if turn.stored then s.jobs[turn.id := Updated(s.jobs[turn.id], 100, turn.outcome, s.now + duration)]
           else s.jobs
  {
    var last := if turn.stored then P.Save(w) else P.SaveFails(w);
    var s1 := s.(now := s.now + duration);
    var s2 := s1.Move(w, P.Saving(turn.id, turn.outcome));
    forall v: P.WorkerId ensures !s2.At(v).Claiming() {
      if v != w { assert s2.At(v) == s.At(v); }
    }
    assert P.Next(s2, last).Some?;
    P.Then(s2, last, P.Next(s2, last).value, []);
    P.Then(s1, P.Finish(w, turn.outcome), s2, [last] + []);
    P.Then(s, P.Tick(duration), s1, [P.Finish(w, turn.outcome)] + ([last] + []));
  }

  /** What a turn does to the jobs table is what a run of the protocol does to it, so what is proved of all runs of
      the protocol holds of workers that take such turns. */
  lemma TurnFollowsProtocol(s: P.State, w: P.WorkerId, turn: Turn, duration: nat)
    requires s.At(w).Idle? && P.NoOtherClaims(s, w)
    requires turn.Ran? && turn.outcome.state.Terminal() && OldestDue(s.jobs, turn.id, s.now)
    ensures var es := P.ClaimEvents(w, turn.id) + EndEvents(w, turn, duration);
            P.Run(s, es)
                && P.After(s, es).jobs == s.jobs[turn.id := RowAfter(s.jobs[turn.id], turn, s.now, s.now + duration)]
  {
    P.ClaimRuns(s, w, turn.id);
    EndRuns(P.After(s, P.ClaimEvents(w, turn.id)), w, turn, duration);
    P.RunsConcat(s, P.ClaimEvents(w, turn.id), EndEvents(w, turn, duration));
  }
}
