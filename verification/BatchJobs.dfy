/** The bodies of delete_droplets and droplet_action jobs: one call per droplet, then a sync, then a verdict. */
module BatchJobs {
  import opened Common
  import opened Jobs
  import opened Inventory
  import opened StoreLayer
  import opened ProviderLayer
  import opened SyncJob
  import opened Requests

  // ---- deletes ----

  function Deleted(c: Call): seq<ProviderId> {
    if c.DeleteCall? && c.good then [c.id] else []
  }

  function Undeleted(c: Call): seq<ProviderId> {
    if c.DeleteCall? && !c.good then [c.id] else []
  }

  /** One delete call per id, in order. */
  ghost predicate DeletesEach(calls: seq<Call>, ids: seq<ProviderId>) {
    |calls| == |ids| && forall i | 0 <= i < |ids| :: calls[i].DeleteCall? && calls[i].id == ids[i]
  }

  /** Two lists merged in the order in which the calls went well or not. */
  function Merge(calls: seq<Call>, good: seq<ProviderId>, bad: seq<ProviderId>): seq<ProviderId> {
    if calls == [] then []
    else
      var last := calls[|calls| - 1];
      if last.DeleteCall? && last.good && good != []
      then Merge(calls[..|calls| - 1], good[..|good| - 1], bad) + [good[|good| - 1]]
      else if last.DeleteCall? && !last.good && bad != []
      then Merge(calls[..|calls| - 1], good, bad[..|bad| - 1]) + [bad[|bad| - 1]]
      else []
  }

  lemma MergeSnoc(calls: seq<Call>, good: seq<ProviderId>, bad: seq<ProviderId>, c: Call)
    requires c.DeleteCall?
    ensures Merge(calls + [c], good + Deleted(c), bad + Undeleted(c)) == Merge(calls, good, bad) + [c.id]
  {
    assert (calls + [c])[..|calls|] == calls;
    if c.good {
      assert (good + [c.id])[..|good|] == good && bad + [] == bad;
    } else {
      assert (bad + [c.id])[..|bad|] == bad && good + [] == good;
    }
  }

  /** Deleted and failed ids partition the payload in order: merged again they are the payload. */
  lemma {:induction false} DeletesPartition(calls: seq<Call>, ids: seq<ProviderId>)
    requires DeletesEach(calls, ids)
    ensures Merge(calls, Collect(calls, Deleted), Collect(calls, Undeleted)) == ids
    ensures |Collect(calls, Deleted)| + |Collect(calls, Undeleted)| == |ids|
    decreases |calls|
  {
    if calls != [] {
      var n := |calls| - 1;
      var c := calls[n];
      assert DeletesEach(calls[..n], ids[..n]);
      DeletesPartition(calls[..n], ids[..n]);
      MergeSnoc(calls[..n], Collect(calls[..n], Deleted), Collect(calls[..n], Undeleted), c);
      assert calls == calls[..n] + [c] && ids == ids[..n] + [c.id];
    }
  }

  ghost predicate AllFailed(calls: seq<Call>) {
    forall i | 0 <= i < |calls| :: calls[i].Failed()
  }

  lemma AllFailedSnoc(calls: seq<Call>, c: Call)
    ensures AllFailed(calls + [c]) <==> AllFailed(calls) && c.Failed()
  {
    assert (calls + [c])[|calls|] == c && forall i | 0 <= i < |calls| :: (calls + [c])[i] == calls[i];
  }

  /** Which part is empty says whether any call, or every call, failed; so the verdict is the truth. */
  lemma {:induction false} DeleteVerdictIsTrue(calls: seq<Call>, ids: seq<ProviderId>)
    requires DeletesEach(calls, ids)
    ensures Collect(calls, Undeleted) == [] <==> GoodFrom(calls, 0)
    ensures Collect(calls, Deleted) == [] <==> AllFailed(calls)
    decreases |calls|
  {
    if calls != [] {
      var n := |calls| - 1;
      var c := calls[n];
      assert DeletesEach(calls[..n], ids[..n]);
      DeleteVerdictIsTrue(calls[..n], ids[..n]);
      GoodFromSnoc(calls[..n], c);
      AllFailedSnoc(calls[..n], c);
      assert calls == calls[..n] + [c];
    }
  }

  function DeleteVerdict(deleted: seq<ProviderId>, failed: seq<ProviderId>): JobState {
    if deleted == [] && failed != [] then Failed else if failed != [] then Partial else Succeeded
  }

  method DeleteEach(provider: Provider, ids: seq<ProviderId>)
    returns (deleted: seq<ProviderId>, failed: seq<ProviderId>, ghost calls: seq<Call>)
    modifies provider
    ensures provider.log == old(provider.log) + calls && DeletesEach(calls, ids)
    ensures deleted == Collect(calls, Deleted) && failed == Collect(calls, Undeleted)
  {
    deleted, failed, calls := [], [], [];
    for i := 0 to |ids|
      invariant provider.log == old(provider.log) + calls && DeletesEach(calls, ids[..i])
      invariant deleted == Collect(calls, Deleted) && failed == Collect(calls, Undeleted)
    {
      var good := provider.DeleteDroplet(ids[i]);
      CollectSnoc(calls, DeleteCall(ids[i], good), Deleted);
      CollectSnoc(calls, DeleteCall(ids[i], good), Undeleted);
      calls := calls + [DeleteCall(ids[i], good)];
      if good {
        deleted := deleted + [ids[i]];
      } else {
        failed := failed + [ids[i]];
      }
    }
    assert ids[..|ids|] == ids;
  }

  /** The part of a delete job after its guards; what the sync comes to is not looked at. */
  method DeleteAndSync(store: Store, provider: Provider, a: AccountId, ids: seq<ProviderId>, now: Time)
    returns (deleted: seq<ProviderId>, failed: seq<ProviderId>, ghost calls: seq<Call>)
    modifies store`accounts, store`droplets, store`credentials, store`nextRow, store`log, provider
    ensures Grew(old(store.log), store.log) && Grew(old(provider.log) + calls, provider.log)
    ensures DeletesEach(calls, ids) && ReadsOnlyFrom(provider.log, |old(provider.log) + calls|)
    ensures deleted == Collect(calls, Deleted) && failed == Collect(calls, Undeleted)
    ensures GoodFrom(provider.log, |old(provider.log)|) ==> failed == []
    ensures OkFrom(store.log, |old(store.log)|) && GoodFrom(provider.log, |old(provider.log)|) ==>
              SyncedAt(store.accounts, a, now)
    ensures Keeps(old(store.Tables()), store.Tables())
  {
    ghost var calls0 := provider.log;
    deleted, failed, calls := DeleteEach(provider, ids);
    ghost var calls1 := provider.log;
    DeleteVerdictIsTrue(calls, ids);
    GoodFromTail(calls0, calls);
    var _, _, _ := SyncAccount(store, provider, a, now);
    GoodFromSplit(calls0, calls1, provider.log);
  }

  datatype DeleteResult = DeleteRefused | DeleteDone(deleted: seq<ProviderId>, failed: seq<ProviderId>, state: JobState)

  /** deleteDroplets. `calls` are the delete calls it made; the sync that follows does not enter the verdict. */
  method DeleteDroplets(store: Store, provider: Provider, account: Option<AccountId>, payload: Payload, now: Time)
    returns (r: DeleteResult, ghost calls: seq<Call>)
    modifies store`accounts, store`droplets, store`credentials, store`nextRow, store`log, provider
    ensures Grew(old(store.log), store.log) && Grew(old(provider.log), provider.log)
    ensures r.DeleteRefused? ==> ReadsOnlyFrom(provider.log, |old(provider.log)|)
                                 && store.Tables() == old(store.Tables())
    ensures r.DeleteDone? ==> account.Some? && payload.DeletePayload? && ValidIds(payload.ids, 100)
                              && DeletesEach(calls, payload.ids)
    ensures r.DeleteDone? ==> Grew(old(provider.log) + [OpenToken(true)] + calls, provider.log)
                              && ReadsOnlyFrom(provider.log, |old(provider.log)| + 1 + |calls|)
    ensures r.DeleteDone? ==> r.deleted == Collect(calls, Deleted) && r.failed == Collect(calls, Undeleted)
                              && r.state == DeleteVerdict(r.deleted, r.failed)
    ensures payload.DeletePayload? && ValidIds(payload.ids, 100) && account.Some?
            && OkFrom(store.log, |old(store.log)|) && GoodFrom(provider.log, |old(provider.log)|) ==>
              r.DeleteDone? && r.state == Succeeded && SyncedAt(store.accounts, account.value, now)
    ensures Keeps(old(store.Tables()), store.Tables())
  {
    r, calls := DeleteRefused, [];
    if account.None? || !payload.DeletePayload? {
      return;
    }
    var valid := ValidDropletIds(payload.ids, 100);
    if !valid {
      return;
    }
    ghost var log0, calls0 := store.log, provider.log;
    var row, usable := AccountClient(store, provider, account.value);
    if row.None? || !usable {
      assert row.None? ==> !store.log[|log0|].ok;
      assert row.Some? ==> provider.log[|calls0|].Failed();
      return;
    }
    ghost var log1, calls1 := store.log, provider.log;
    var deleted, failed;
    deleted, failed, calls := DeleteAndSync(store, provider, account.value, payload.ids, now);
    OkFromSplit(log0, log1, store.log);
    GoodFromSplit(calls0, calls1, provider.log);
    r := DeleteDone(deleted, failed, DeleteVerdict(deleted, failed));
  }

  // ---- actions ----

  function Requested(c: Call): seq<ProviderId> {
    if c.ActionCall? then [c.id] else []
  }

  function AcceptedDroplet(c: Call): seq<ProviderId> {
    if c.ActionCall? && c.accepted.Some? then [c.id] else []
  }

  function AcceptedAction(c: Call): seq<int> {
    if c.ActionCall? && c.accepted.Some? then [c.accepted.value] else []
  }

  function WaitedDroplet(c: Call): seq<ProviderId> {
    if c.WaitCall? then [c.droplet] else []
  }

  function WaitedAction(c: Call): seq<int> {
    if c.WaitCall? then [c.action] else []
  }

  function RequestErrors(failures: seq<Failure>): nat {
    if failures == [] then 0
    else RequestErrors(failures[..|failures| - 1]) + if failures[|failures| - 1].NotAccepted? then 1 else 0
  }

  lemma RequestErrorsSnoc(failures: seq<Failure>, c: Call)
    requires c.ActionCall? || c.WaitCall?
    ensures RequestErrors(failures + FailureOf(c)) == RequestErrors(failures) + |Requested(c)| - |AcceptedAction(c)|
  {
    if FailureOf(c) == [] {
      assert failures + FailureOf(c) == failures;
    } else {
      assert (failures + FailureOf(c))[..|failures|] == failures;
    }
  }

  /** Requests of this action, and waiting. */
  ghost predicate OnlyActions(calls: seq<Call>, action: string) {
    forall i | 0 <= i < |calls| :: (calls[i].ActionCall? && calls[i].request == action) || calls[i].WaitCall?
  }

  /** Every requested id is either an accepted action or a request error. */
  lemma {:induction false} ActionAccounting(calls: seq<Call>, action: string)
    requires OnlyActions(calls, action)
    ensures |Collect(calls, AcceptedAction)| + RequestErrors(Collect(calls, FailureOf)) == |Collect(calls, Requested)|
    decreases |calls|
  {
    if calls != [] {
      var n := |calls| - 1;
      ActionAccounting(calls[..n], action);
      RequestErrorsSnoc(Collect(calls[..n], FailureOf), calls[n]);
    }
  }

  predicate ChangesRootPassword(action: string) {
    action == "password_reset" || action == "rebuild"
  }

  /** The credential of the droplet, if there is one, is stale, or one of the two statements about it failed. */
  ghost predicate StaleOrFailed(droplets: map<Key, DropletRow>, credentials: map<RowId, Credential>, log: seq<Entry>,
                                n: nat, k: Key) {
    k in droplets && droplets[k].id in credentials ==>
      || credentials[droplets[k].id].status.StaleCredential?
      || (exists i :: n <= i < |log| && log[i] == Entry(FindDroplet(k), false))
      || (exists i :: n <= i < |log| && log[i] == Entry(StaleCredentialOf(droplets[k].id), false))
  }

  /** Credentials only become stale; none appears, disappears or changes its secret. */
  ghost predicate OnlyStaler(before: map<RowId, Credential>, after: map<RowId, Credential>) {
    && before.Keys == after.Keys
    && forall r | r in before :: after[r] == before[r] || after[r] == before[r].(status := StaleCredential)
  }

  lemma StaleStays(droplets: map<Key, DropletRow>, c0: map<RowId, Credential>, c1: map<RowId, Credential>,
                   log0: seq<Entry>, log1: seq<Entry>, n: nat, k: Key)
    requires StaleOrFailed(droplets, c0, log0, n, k) && OnlyStaler(c0, c1) && Grew(log0, log1)
    ensures StaleOrFailed(droplets, c1, log1, n, k)
  {
    if k in droplets && droplets[k].id in c1 && !c1[droplets[k].id].status.StaleCredential? {
      if i :| n <= i < |log0| && log0[i] == Entry(FindDroplet(k), false) {
        assert log1[i] == log0[i];
      } else {
        var i :| n <= i < |log0| && log0[i] == Entry(StaleCredentialOf(droplets[k].id), false);
        assert log1[i] == log0[i];
      }
    }
  }

  method MarkStale(store: Store, k: Key)
    modifies store`credentials, store`log
    ensures Grew(old(store.log), store.log)
    ensures OnlyStaler(old(store.credentials), store.credentials)
    ensures StaleOrFailed(store.droplets, store.credentials, store.log, |old(store.log)|, k)
  {
    ghost var n := |store.log|;
    var row := store.GetDropletByProviderID(k);
    if row.Some? {
      var ok := store.MarkRootCredentialStale(row.value.id);
      assert store.log[n + 1] == Entry(StaleCredentialOf(row.value.id), ok);
    } else {
      assert store.log[n] == Entry(FindDroplet(k), false);
    }
  }

  /** What the loop of an action job has asked of the provider and noted down: every id requested once and in
      order, every accepted action waited for, every failure recorded. */
  ghost predicate ActionsDone(calls: seq<Call>, ids: seq<ProviderId>, action: string, actionIds: seq<int>,
                              failures: seq<Failure>) {
    && OnlyActions(calls, action)
    && Collect(calls, Requested) == ids
    && Collect(calls, AcceptedAction) == Collect(calls, WaitedAction) == actionIds
    && Collect(calls, AcceptedDroplet) == Collect(calls, WaitedDroplet)
    && Collect(calls, FailureOf) == failures
  }

  ghost predicate AllStale(droplets: map<Key, DropletRow>, credentials: map<RowId, Credential>, log: seq<Entry>, n: nat,
                           a: AccountId, accepted: seq<ProviderId>) {
    forall i | 0 <= i < |accepted| :: StaleOrFailed(droplets, credentials, log, n, Key(a, accepted[i]))
  }

  lemma RefusedOneMore(calls: seq<Call>, ids: seq<ProviderId>, actionIds: seq<int>, failures: seq<Failure>,
                       id: ProviderId, action: string)
    requires ActionsDone(calls, ids, action, actionIds, failures)
    ensures var calls' := calls + [ActionCall(id, action, None)];
            ActionsDone(calls', ids + [id], action, actionIds, failures + [NotAccepted(id)])
            && Collect(calls', AcceptedDroplet) == Collect(calls, AcceptedDroplet)
  {
    var c := ActionCall(id, action, None);
    CollectSnoc(calls, c, Requested);
    CollectSnoc(calls, c, AcceptedAction);
    CollectSnoc(calls, c, WaitedAction);
    CollectSnoc(calls, c, AcceptedDroplet);
    CollectSnoc(calls, c, WaitedDroplet);
    CollectSnoc(calls, c, FailureOf);
  }

  lemma Collect2<T>(calls: seq<Call>, c: Call, d: Call, f: Call -> seq<T>)
    ensures Collect(calls + [c, d], f) == Collect(calls, f) + (f(c) + f(d))
  {
    CollectSnoc(calls, c, f);
    CollectSnoc(calls + [c], d, f);
    assert calls + [c, d] == calls + [c] + [d];
  }

  lemma AcceptedColumns(calls: seq<Call>, id: ProviderId, action: string, accepted: int, good: bool)
    ensures var calls' := calls + [ActionCall(id, action, Some(accepted)), WaitCall(id, accepted, good)];
            && Collect(calls', Requested) == Collect(calls, Requested) + [id]
            && Collect(calls', AcceptedAction) == Collect(calls, AcceptedAction) + [accepted]
            && Collect(calls', WaitedAction) == Collect(calls, WaitedAction) + [accepted]
            && Collect(calls', AcceptedDroplet) == Collect(calls, AcceptedDroplet) + [id]
            && Collect(calls', WaitedDroplet) == Collect(calls, WaitedDroplet) + [id]
  {
    var c, d := ActionCall(id, action, Some(accepted)), WaitCall(id, accepted, good);
    Collect2(calls, c, d, Requested);
    Collect2(calls, c, d, AcceptedAction);
    Collect2(calls, c, d, WaitedAction);
    Collect2(calls, c, d, AcceptedDroplet);
    Collect2(calls, c, d, WaitedDroplet);
  }

  lemma AcceptedOneMore(calls: seq<Call>, ids: seq<ProviderId>, actionIds: seq<int>, failures: seq<Failure>,
                        id: ProviderId, action: string, accepted: int, good: bool)
    requires ActionsDone(calls, ids, action, actionIds, failures)
    ensures var calls' := calls + [ActionCall(id, action, Some(accepted)), WaitCall(id, accepted, good)];
            ActionsDone(calls', ids + [id], action, actionIds + [accepted],
                        if good then failures else failures + [WaitFailed(id, accepted)])
            && Collect(calls', AcceptedDroplet) == Collect(calls, AcceptedDroplet) + [id]
  {
    AcceptedColumns(calls, id, action, accepted, good);
    Collect2(calls, ActionCall(id, action, Some(accepted)), WaitCall(id, accepted, good), FailureOf);
  }

  /** One droplet: request the action, wait for it, and retire a root password it makes invalid. */
  method ActOn(store: Store, provider: Provider, a: AccountId, id: ProviderId, action: string)
    returns (accepted: Option<int>, good: bool)
    modifies store`credentials, store`log, provider
    ensures Grew(old(store.log), store.log)
    ensures accepted.None? ==> provider.log == old(provider.log) + [ActionCall(id, action, None)]
    ensures accepted.Some?
        ==> provider.log == old(provider.log) + [ActionCall(id, action, accepted), WaitCall(id, accepted.value, good)]
    ensures OnlyStaler(old(store.credentials), store.credentials)
    ensures accepted.None? || action !in {"password_reset", "rebuild"} ==> store.credentials == old(store.credentials)
    ensures accepted.Some? && action in {"password_reset", "rebuild"} ==>
              StaleOrFailed(store.droplets, store.credentials, store.log, |old(store.log)|, Key(a, id))
  {
    good := false;
    accepted := provider.DropletAction(id, action);
    if accepted.Some? {
      good := provider.Wait(id, accepted.value);
      if ChangesRootPassword(action) {
        MarkStale(store, Key(a, id));
      }
    }
  }

  lemma AllStaleStays(droplets: map<Key, DropletRow>, c0: map<RowId, Credential>, c1: map<RowId, Credential>,
                      log0: seq<Entry>, log1: seq<Entry>, n: nat, a: AccountId, accepted: seq<ProviderId>)
    requires AllStale(droplets, c0, log0, n, a, accepted) && OnlyStaler(c0, c1) && Grew(log0, log1)
    ensures AllStale(droplets, c1, log1, n, a, accepted)
  {
    forall i | 0 <= i < |accepted| ensures StaleOrFailed(droplets, c1, log1, n, Key(a, accepted[i])) {
      StaleStays(droplets, c0, c1, log0, log1, n, Key(a, accepted[i]));
    }
  }

  lemma MoreIsStale(droplets: map<Key, DropletRow>, credentials: map<RowId, Credential>, log: seq<Entry>, n: nat,
                    m: nat, a: AccountId, accepted: seq<ProviderId>, id: ProviderId)
    requires AllStale(droplets, credentials, log, n, a, accepted) && n <= m
    requires StaleOrFailed(droplets, credentials, log, m, Key(a, id))
    ensures AllStale(droplets, credentials, log, n, a, accepted + [id])
  {
    assert StaleOrFailed(droplets, credentials, log, n, Key(a, id));
  }

  /** What the accepted requests have done to the credentials. */
  ghost predicate Retired(store: Store, before: map<RowId, Credential>, n: nat, a: AccountId, action: string,
                          accepted: seq<ProviderId>)
    reads store
  {
    && OnlyStaler(before, store.credentials)
    && if ChangesRootPassword(action) then AllStale(store.droplets, store.credentials, store.log, n, a, accepted)
       else store.credentials == before
  }

  function ActCalls(id: ProviderId, action: string, reply: Option<int>, good: bool): seq<Call> {
    if reply.None? then [ActionCall(id, action, None)]
      else [ActionCall(id, action, reply), WaitCall(id, reply.value, good)]
  }

  function ActFailures(id: ProviderId, reply: Option<int>, good: bool): seq<Failure> {
    if reply.None? then [NotAccepted(id)] else if good then [] else [WaitFailed(id, reply.value)]
  }

  ghost predicate Booked(calls: seq<Call>, ids: seq<ProviderId>, action: string, actionIds: seq<int>,
                         failures: seq<Failure>, accepted: seq<ProviderId>) {
    ActionsDone(calls, ids, action, actionIds, failures) && accepted == Collect(calls, AcceptedDroplet)
  }

  lemma BookOne(calls: seq<Call>, ids: seq<ProviderId>, i: nat, actionIds: seq<int>, failures: seq<Failure>,
                accepted: seq<ProviderId>, action: string, reply: Option<int>, good: bool)
    requires i < |ids| && Booked(calls, ids[..i], action, actionIds, failures, accepted)
    ensures reply.None? ==>
              Booked(calls + ActCalls(ids[i], action, reply, good), ids[..i + 1], action, actionIds,
                     failures + ActFailures(ids[i], reply, good), accepted)
    ensures reply.Some? ==>
              Booked(calls + ActCalls(ids[i], action, reply, good), ids[..i + 1], action, actionIds + [reply.value],
                     failures + ActFailures(ids[i], reply, good), accepted + [ids[i]])
  {
    assert ids[..i + 1] == ids[..i] + [ids[i]];
    if reply.None? {
      RefusedOneMore(calls, ids[..i], actionIds, failures, ids[i], action);
    } else {
      AcceptedOneMore(calls, ids[..i], actionIds, failures, ids[i], action, reply.value, good);
      assert good ==> failures + [] == failures;
    }
  }

  /** ActOn, with what it does to the credentials of the droplets accepted so far. */
  method ActAndRetire(store: Store, provider: Provider, a: AccountId, id: ProviderId, action: string,
                      ghost before: map<RowId, Credential>, ghost n: nat, ghost accepted: seq<ProviderId>)
    returns (reply: Option<int>, good: bool)
    requires Retired(store, before, n, a, action, accepted) && n <= |store.log|
    modifies store`credentials, store`log, provider
    ensures Grew(old(store.log), store.log)
    ensures provider.log == old(provider.log) + ActCalls(id, action, reply, good)
    ensures Retired(store, before, n, a, action, if reply.None? then accepted else accepted + [id])
  {
    ghost var c0, log0 := store.credentials, store.log;
    reply, good := ActOn(store, provider, a, id, action);
    if ChangesRootPassword(action) {
      AllStaleStays(store.droplets, c0, store.credentials, log0, store.log, n, a, accepted);
      if reply.Some? {
        MoreIsStale(store.droplets, store.credentials, store.log, n, |log0|, a, accepted, id);
      }
    }
  }

  /** The loop over the droplets of an action job. */
  method RunActions(store: Store, provider: Provider, a: AccountId, ids: seq<ProviderId>, action: string)
    returns (actionIds: seq<int>, failures: seq<Failure>, ghost calls: seq<Call>, ghost accepted: seq<ProviderId>)
    modifies store`credentials, store`log, provider
    ensures Grew(old(store.log), store.log) && provider.log == old(provider.log) + calls
    ensures Booked(calls, ids, action, actionIds, failures, accepted)
    ensures Retired(store, old(store.credentials), |old(store.log)|, a, action, accepted)
  {
    ghost var log0, credentials0 := store.log, store.credentials;
    calls, actionIds, failures, accepted := [], [], [], [];
    for i := 0 to |ids|
      invariant Grew(log0, store.log) && provider.log == old(provider.log) + calls
      invariant Booked(calls, ids[..i], action, actionIds, failures, accepted)
      invariant Retired(store, credentials0, |log0|, a, action, accepted)
    {
      var reply, good := ActAndRetire(store, provider, a, ids[i], action, credentials0, |log0|, accepted);
      BookOne(calls, ids, i, actionIds, failures, accepted, action, reply, good);
      calls := calls + ActCalls(ids[i], action, reply, good);
      failures := failures + ActFailures(ids[i], reply, good);
      if reply.Some? {
        actionIds, accepted := actionIds + [reply.value], accepted + [ids[i]];
      }
    }
    assert ids[..|ids|] == ids;
  }

  lemma StalerKeeps(db: Db, credentials: map<RowId, Credential>)
    requires OnlyStaler(db.credentials, credentials)
    ensures Keeps(db, db.(credentials := credentials))
  {
    if Schema(db) { assert Schema(db.(credentials := credentials)); }
  }

  /** A credential found at a row after a sync was found there before: survivors keep row and credential, and new
      rows have none. */
  lemma SyncBringsNoCredential(before: Db, after: Db, a: AccountId, ds: seq<Droplet>, k: Key)
    requires Schema(before) && ShowsMirror(before, after, a, ds)
    requires k in after.droplets && after.droplets[k].id in after.credentials
    ensures k in before.droplets && before.droplets[k].id == after.droplets[k].id
    ensures after.droplets[k].id in before.credentials
            && before.credentials[after.droplets[k].id] == after.credentials[after.droplets[k].id]
  {
    var user := before.accounts[a].user;
    var t := Mirror(before, a, user, ds);
    MirrorIsExact(before, a, user, ds);
    UpsertAllSchema(before, a, user, ds);
    assert MirrorsAt(before, t, a, user, ds, k);
    assert t.droplets[k].id in before.credentials;
    assert HasRow(before.droplets, t.droplets[k].id);
    assert k in before.droplets;
    assert CredentialFollows(before, t, k);
  }

  lemma StaleSinceEarlier(droplets: map<Key, DropletRow>, credentials: map<RowId, Credential>, log: seq<Entry>, n: nat,
                          m: nat, a: AccountId, accepted: seq<ProviderId>)
    requires n <= m && AllStale(droplets, credentials, log, m, a, accepted)
    ensures AllStale(droplets, credentials, log, n, a, accepted)
  {
    forall i | 0 <= i < |accepted| ensures StaleOrFailed(droplets, credentials, log, n, Key(a, accepted[i])) {
      assert StaleOrFailed(droplets, credentials, log, m, Key(a, accepted[i]));
    }
  }

  lemma SyncKeepsStale(before: Db, after: Db, a: AccountId, now: Time, r: Option<nat>, applied: Option<seq<Droplet>>,
                       log0: seq<Entry>, log1: seq<Entry>, n: nat, accepted: seq<ProviderId>)
    requires Schema(before) && Synced(before, after, a, now, r, applied) && Grew(log0, log1)
    requires AllStale(before.droplets, before.credentials, log0, n, a, accepted)
    ensures AllStale(after.droplets, after.credentials, log1, n, a, accepted)
  {
    forall i | 0 <= i < |accepted|
      ensures StaleOrFailed(after.droplets, after.credentials, log1, n, Key(a, accepted[i])) {
      var k := Key(a, accepted[i]);
      StaleStays(before.droplets, before.credentials, before.credentials, log0, log1, n, k);
      if applied.Some? && k in after.droplets && after.droplets[k].id in after.credentials {
        SyncBringsNoCredential(before, after, a, applied.value, k);
      }
    }
  }

  datatype ActionResult = ActionRefused | ActionDone(actionIds: seq<int>, failures: seq<Failure>, state: JobState)

  /** The credentials of the droplets whose root password was changed are stale, unless a statement failed; the closing
      sync does not undo that. */
  ghost predicate PasswordsRetired(droplets: map<Key, DropletRow>, credentials: map<RowId, Credential>, log: seq<Entry>,
                                   n: nat, a: AccountId, action: string, calls: seq<Call>) {
    ChangesRootPassword(action) ==> AllStale(droplets, credentials, log, n, a, Collect(calls, AcceptedDroplet))
  }

  /** The part of an action job after its guards. */
  method ActAndSync(store: Store, provider: Provider, a: AccountId, ids: seq<ProviderId>, action: string, now: Time)
    returns (actionIds: seq<int>, failures: seq<Failure>, ghost calls: seq<Call>, ghost asked: seq<Failure>,
             ghost synced: bool)
    modifies store`accounts, store`droplets, store`credentials, store`nextRow, store`log, provider
    ensures Grew(old(store.log), store.log) && Grew(old(provider.log) + calls, provider.log)
    ensures ActionsDone(calls, ids, action, actionIds, asked)
    ensures failures == asked + if synced then [] else [SyncFailed]
    ensures failures == [] <==> synced && GoodFrom(calls, 0)
    ensures OkFrom(store.log, |old(store.log)|) && GoodFrom(provider.log, |old(provider.log)|) ==> failures == []
    ensures synced ==> SyncedAt(store.accounts, a, now)
    ensures Keeps(old(store.Tables()), store.Tables())
    ensures old(Schema(store.Tables())) ==>
              PasswordsRetired(store.droplets, store.credentials, store.log, |old(store.log)|, a, action, calls)
  {
    ghost var accepted, before, log0, calls0 := [], store.Tables(), store.log, provider.log;
    actionIds, failures, calls, accepted := RunActions(store, provider, a, ids, action);
    ghost var log1, calls1 := store.log, provider.log;
    FailuresAreTrue(calls);
    GoodFromTail(calls0, calls);
    asked := failures;
    ghost var mid := store.Tables();
    StalerKeeps(before, store.credentials);
    var count, applied, _ := SyncAccount(store, provider, a, now);
    if Schema(before) && ChangesRootPassword(action) {
      KeepsMeans(before, mid);
      SyncKeepsStale(mid, store.Tables(), a, now, count, applied, log1, store.log, |log0|, accepted);
    }
    OkFromSplit(log0, log1, store.log);
    GoodFromSplit(calls0, calls1, provider.log);
    synced := count.Some?;
    if count.None? {
      failures := failures + [SyncFailed];
    }
  }

  /** The job behind its guards: refused only if there is no client for the account. */
  method ActIfUsable(store: Store, provider: Provider, a: AccountId, ids: seq<ProviderId>, action: string, now: Time)
    returns (done: bool, actionIds: seq<int>, failures: seq<Failure>, ghost calls: seq<Call>, ghost synced: bool)
    modifies store`accounts, store`droplets, store`credentials, store`nextRow, store`log, provider
    ensures Grew(old(store.log), store.log) && Grew(old(provider.log), provider.log)
    ensures !done ==> ReadsOnlyFrom(provider.log, |old(provider.log)|) && store.Tables() == old(store.Tables())
    ensures done ==> Grew(old(provider.log) + [OpenToken(true)] + calls, provider.log)
    ensures done ==> exists asked :: ActionsDone(calls, ids, action, actionIds, asked)
                                     && failures == asked + if synced then [] else [SyncFailed]
    ensures done ==> (failures == [] <==> synced && GoodFrom(calls, 0))
    ensures done && synced ==> SyncedAt(store.accounts, a, now)
    ensures OkFrom(store.log, |old(store.log)|) && GoodFrom(provider.log, |old(provider.log)|) ==>
              done && failures == []
    ensures Keeps(old(store.Tables()), store.Tables())
    ensures done && old(Schema(store.Tables())) ==>
              PasswordsRetired(store.droplets, store.credentials, store.log, |old(store.log)|, a, action, calls)
  {
    done, actionIds, failures, calls, synced := false, [], [], [], false;
    ghost var before, log0, calls0 := store.Tables(), store.log, provider.log;
    var row, usable := AccountClient(store, provider, a);
    if row.None? || !usable {
      assert row.None? ==> !store.log[|log0|].ok;
      assert row.Some? ==> provider.log[|calls0|].Failed();
      return;
    }
    done := true;
    ghost var asked;
    ghost var log1, calls1 := store.log, provider.log;
    actionIds, failures, calls, asked, synced := ActAndSync(store, provider, a, ids, action, now);
    OkFromSplit(log0, log1, store.log);
    GoodFromSplit(calls0, calls1, provider.log);
    if Schema(before) && ChangesRootPassword(action) {
      StaleSinceEarlier(store.droplets, store.credentials, store.log, |log0|, |log1|, a,
                        Collect(calls, AcceptedDroplet));
    }
  }

  /** dropletAction. Succeeded means that no request, no awaited action and nothing of the closing sync failed;
      otherwise the job is partial, never failed, however little was accepted. */
  method DropletAction(store: Store, provider: Provider, account: Option<AccountId>, payload: Payload, now: Time)
    returns (r: ActionResult, ghost calls: seq<Call>, ghost synced: bool)
    modifies store`accounts, store`droplets, store`credentials, store`nextRow, store`log, provider
    ensures Grew(old(store.log), store.log) && Grew(old(provider.log), provider.log)
    ensures r.ActionRefused? ==> ReadsOnlyFrom(provider.log, |old(provider.log)|)
                                 && store.Tables() == old(store.Tables())
    ensures r.ActionDone? ==> account.Some? && payload.ActionPayload?
                              && WorkerAcceptsAction(payload.ids, payload.action)
                              && Grew(old(provider.log) + [OpenToken(true)] + calls, provider.log)
    ensures r.ActionDone? ==> exists asked :: ActionsDone(calls, payload.ids, payload.action, r.actionIds, asked)
                                              && r.failures == asked + if synced then [] else [SyncFailed]
    ensures r.ActionDone? ==> r.state == if r.failures == [] then Succeeded else Partial
    ensures r.ActionDone? ==> (r.state == Succeeded <==> synced && GoodFrom(calls, 0))
    ensures r.ActionDone? && synced ==> SyncedAt(store.accounts, account.value, now)
    ensures payload.ActionPayload? && WorkerAcceptsAction(payload.ids, payload.action) && account.Some?
            && OkFrom(store.log, |old(store.log)|) && GoodFrom(provider.log, |old(provider.log)|) ==>
              r.ActionDone? && r.state == Succeeded
    ensures Keeps(old(store.Tables()), store.Tables())
    ensures r.ActionDone? && old(Schema(store.Tables())) && payload.action in {"password_reset", "rebuild"} ==>
              AllStale(store.droplets, store.credentials, store.log, |old(store.log)|, account.value,
                       Collect(calls, AcceptedDroplet))
    ensures r.ActionDone? && old(Schema(store.Tables())) ==>
              PasswordsRetired(store.droplets, store.credentials, store.log, |old(store.log)|, account.value,
                               payload.action, calls)
  {
    r, calls, synced := ActionRefused, [], false;
    if account.None? || !payload.ActionPayload? {
      return;
    }
    var valid := CheckAction(payload.ids, payload.action);
    if !valid {
      return;
    }
    var done, actionIds, failures;
    done, actionIds, failures, calls, synced := ActIfUsable(store, provider, account.value, payload.ids, payload.action,
                                                            now);
    if done {
      r := ActionDone(actionIds, failures, if failures != [] then Partial else Succeeded);
    }
  }
}
