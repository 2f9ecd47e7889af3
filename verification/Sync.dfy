/** syncAccount: bring the local rows of one account into agreement with the provider. */
module SyncJob {
  import opened Common
  import opened Jobs
  import opened Inventory
  import opened StoreLayer
  import opened ProviderLayer
  import DO = DigitalOcean

  /** Everything the database was asked from entry `n` of its log on has succeeded. */
  ghost predicate OkFrom(log: seq<Entry>, n: nat) {
    forall i | n <= i < |log| :: log[i].ok
  }

  ghost predicate GoodFrom(log: seq<Call>, n: nat) {
    forall i | n <= i < |log| :: !log[i].Failed()
  }

  ghost predicate ReadsOnlyFrom(log: seq<Call>, n: nat) {
    forall i | n <= i < |log| :: log[i].ReadsOnly()
  }

  /** Such calls ask the provider for nothing but information. */
  lemma ReadsChangeNothing(log: seq<Call>, n: nat)
    requires ReadsOnlyFrom(log, n)
    ensures forall i | n <= i < |log| ::
              !log[i].CreateCall? && !log[i].DeleteCall? && !log[i].ActionCall? && !log[i].AssignCall?
  {
  }

  /** Looks at the account and its droplets, and at nothing else. */
  ghost predicate LooksFrom(log: seq<Call>, n: nat) {
    forall i | n <= i < |log| ::
      log[i].OpenToken? || log[i].AccountCall? || log[i].BalanceCall? || log[i].ListCall?
  }

  lemma LooksFromSplit(log0: seq<Call>, log1: seq<Call>, log2: seq<Call>)
    requires Grew(log0, log1) && Grew(log1, log2)
    ensures LooksFrom(log2, |log0|) <==> LooksFrom(log1, |log0|) && LooksFrom(log2, |log1|)
    ensures LooksFrom(log2, |log0|) ==> ReadsOnlyFrom(log2, |log0|)
  {
    assert forall i | 0 <= i < |log1| :: log1[i] == log2[..|log1|][i] == log2[i];
  }

  /** Neither takes nor gives back a user lock. */
  ghost predicate NoLocksFrom(log: seq<Entry>, n: nat) {
    forall i | n <= i < |log| :: !log[i].statement.LockUser? && !log[i].statement.UnlockUser?
  }

  ghost predicate AddedTo<T>(log: seq<T>, n: nat, e: T) {
    exists i :: n <= i < |log| && log[i] == e
  }

  lemma AddedLast<T>(log: seq<T>, n: nat, e: T)
    requires n <= |log|
    ensures AddedTo(log + [e], n, e)
  {
    assert (log + [e])[|log|] == e;
  }

  /** A log is only ever appended to. */
  ghost predicate Grew<T>(before: seq<T>, after: seq<T>) {
    |before| <= |after| && after[..|before|] == before
  }

  ghost predicate Contains<T>(log: seq<T>, at: nat, part: seq<T>) {
    at + |part| <= |log| && log[at..at + |part|] == part
  }

  lemma OkFromSplit(log0: seq<Entry>, log1: seq<Entry>, log2: seq<Entry>)
    requires Grew(log0, log1) && Grew(log1, log2)
    ensures Grew(log0, log2)
    ensures OkFrom(log2, |log0|) <==> OkFrom(log1, |log0|) && OkFrom(log2, |log1|)
    ensures NoLocksFrom(log2, |log0|) <==> NoLocksFrom(log1, |log0|) && NoLocksFrom(log2, |log1|)
  {
    assert forall i | 0 <= i < |log1| :: log1[i] == log2[..|log1|][i] == log2[i];
  }

  lemma GoodFromSplit(log0: seq<Call>, log1: seq<Call>, log2: seq<Call>)
    requires Grew(log0, log1) && Grew(log1, log2)
    ensures Grew(log0, log2)
    ensures GoodFrom(log2, |log0|) <==> GoodFrom(log1, |log0|) && GoodFrom(log2, |log1|)
    ensures ReadsOnlyFrom(log2, |log0|) <==> ReadsOnlyFrom(log1, |log0|) && ReadsOnlyFrom(log2, |log1|)
  {
    assert forall i | 0 <= i < |log1| :: log1[i] == log2[..|log1|][i] == log2[i];
  }

  lemma OkFromTail(log: seq<Entry>, entries: seq<Entry>)
    ensures OkFrom(log + entries, |log|) <==> OkFrom(entries, 0)
    ensures NoLocksFrom(log + entries, |log|) <==> NoLocksFrom(entries, 0)
  {
    assert forall i | 0 <= i < |entries| :: (log + entries)[|log| + i] == entries[i];
    assert forall i | |log| <= i < |log + entries| :: (log + entries)[i] == entries[i - |log|];
  }

  lemma GoodFromTail(log: seq<Call>, calls: seq<Call>)
    ensures GoodFrom(log + calls, |log|) <==> GoodFrom(calls, 0)
    ensures ReadsOnlyFrom(log + calls, |log|) <==> ReadsOnlyFrom(calls, 0)
  {
    assert forall i | 0 <= i < |calls| :: (log + calls)[|log| + i] == calls[i];
    assert forall i | |log| <= i < |log + calls| :: (log + calls)[i] == calls[i - |log|];
  }

  lemma GoodFromSnoc(calls: seq<Call>, c: Call)
    ensures GoodFrom(calls + [c], 0) <==> GoodFrom(calls, 0) && !c.Failed()
  {
    GoodFromSplit([], calls, calls + [c]);
    assert (calls + [c])[|calls|] == c;
  }

  /** A failure is recorded exactly if a call failed. */
  lemma {:induction false} FailuresAreTrue(calls: seq<Call>)
    requires forall i | 0 <= i < |calls| :: calls[i].Reported()
    ensures Collect(calls, FailureOf) == [] <==> GoodFrom(calls, 0)
    decreases |calls|
  {
    if calls != [] {
      var n := |calls| - 1;
      FailuresAreTrue(calls[..n]);
      GoodFromSnoc(calls[..n], calls[n]);
      assert calls == calls[..n] + [calls[n]];
      assert FailureOf(calls[n]) == [] <==> !calls[n].Failed();
    }
  }

  ghost predicate MapsAll(remotes: seq<DO.Remote>, ds: seq<Droplet>) {
    |remotes| == |ds| && forall i | 0 <= i < |ds| :: DO.Maps(remotes[i], ds[i])
  }

  /** The row of an account may get a new status and sync time; nothing else about accounts changes. */
  ghost predicate OnlyStatus(before: map<AccountId, Account>, after: map<AccountId, Account>, a: AccountId) {
    && before.Keys == after.Keys
    && (forall b | b in before :: after[b].user == before[b].user && (b != a ==> after[b] == before[b]))
  }

  /** The droplet and credential tables show this listing for the account, and what they showed before elsewhere. */
  ghost predicate ShowsMirror(before: Db, after: Db, a: AccountId, ds: seq<Droplet>) {
    a in before.accounts &&
    var m := Mirror(before, a, before.accounts[a].user, ds);
    after.droplets == m.droplets && after.credentials == m.credentials && after.nextRow == m.nextRow
  }

  lemma {:induction false} UpsertIgnoresAccounts(db: Db, accounts: map<AccountId, Account>, a: AccountId, user: UserId,
                                                 ds: seq<Droplet>)
    ensures UpsertAll(db.(accounts := accounts), a, user, ds) == UpsertAll(db, a, user, ds).(accounts := accounts)
    decreases |ds|
  {
    if ds != [] { UpsertIgnoresAccounts(db, accounts, a, user, ds[..|ds| - 1]); }
  }

  method MapAll(remotes: seq<DO.Remote>) returns (ds: seq<Droplet>)
    ensures MapsAll(remotes, ds)
  {
    ds := [];
    for i := 0 to |remotes|
      invariant |ds| == i && forall j | 0 <= j < i :: DO.Maps(remotes[j], ds[j])
    {
      var d := DO.MapDroplet(remotes[i]);
      ds := ds + [d];
    }
  }

  /** The account row and a client for it; the row comes back even when its token cannot be opened. */
  method AccountClient(store: Store, provider: Provider, a: AccountId) returns (account: Option<Account>, usable: bool)
    modifies store`log, provider
    ensures store.log == old(store.log) + [Entry(GetAccount(a), account.Some?)]
    ensures account.Some? ==> a in store.accounts && account.value == store.accounts[a]
    ensures account.None? ==> !usable && provider.log == old(provider.log)
    ensures account.Some? ==> provider.log == old(provider.log) + [OpenToken(usable)]
  {
    usable := false;
    account := store.GetCloudAccount(a);
    if account.Some? {
      usable := provider.DecryptToken();
    }
  }

  /** The status stored for what the provider says about the account. */
  function StatusFor(answer: Answer): string {
    match answer
    case Good => "valid"
    case Forbidden => "insufficient"
    case OtherError => "invalid"
  }

  /** What the answer of the provider does to the status of the account, if it can be stored. */
  ghost predicate StatusStored(after: map<AccountId, Account>, a: AccountId, answer: Answer, e: Entry) {
    e.ok && a in after ==>
      && (answer.Good? ==> after[a].credentialStatus == "valid")
      && (answer.Forbidden? ==> after[a].credentialStatus == "insufficient")
      && (answer.OtherError? ==> after[a].credentialStatus == "invalid")
  }

  /** Asks the provider who the account is and stores the answer; false when the sync must stop here. */
  method ValidateAccount(store: Store, provider: Provider, a: AccountId) returns (ok: bool)
    modifies store`accounts, store`log, provider
    ensures Grew(old(store.log), store.log) && Grew(old(provider.log), provider.log)
    ensures LooksFrom(provider.log, |old(provider.log)|) && NoLocksFrom(store.log, |old(store.log)|)
    ensures ok <==> OkFrom(store.log, |old(store.log)|) && GoodFrom(provider.log, |old(provider.log)|)
    ensures OnlyStatus(old(store.accounts), store.accounts, a)
    ensures ok ==> store.Tables() == SetCredentialStatus(old(store.Tables()), a, "valid")
    ensures |provider.log| > |old(provider.log)| && provider.log[|old(provider.log)|].AccountCall?
            && |store.log| == |old(store.log)| + 1
            && store.log[|old(store.log)|].statement
                == SaveCredentialStatus(a, StatusFor(provider.log[|old(provider.log)|].answer))
            && StatusStored(store.accounts, a, provider.log[|old(provider.log)|].answer, store.log[|old(store.log)|])
  {
    ok := false;
    ghost var log0, calls0 := store.log, provider.log;
    var answer := provider.Account();
    assert provider.log[|calls0|].Failed() == !answer.Good?;
    if answer.Good? {
      var balance := provider.Balance();
      ok := store.UpdateAccountValidation(a);
      assert store.log[|log0|].ok == ok;
    } else {
      var _ := store.MarkAccountValidationError(a, if answer.Forbidden? then "insufficient" else "invalid");
    }
  }

  /** The first call was to open the account's token, and it could not be opened. */
  ghost predicate TokenRefused(before: seq<Call>, after: seq<Call>) {
    |before| < |after| && after[|before|] == OpenToken(false)
  }

  ghost predicate MarkedInvalid(before: Db, after: Db, a: AccountId, log: seq<Entry>, n: nat) {
    after == SetCredentialStatus(before, a, "invalid")
    || AddedTo(log, n, Entry(SaveCredentialStatus(a, "invalid"), false))
  }

  method MarkInvalid(store: Store, a: AccountId, ghost n: nat)
    requires n <= |store.log|
    modifies store`accounts, store`log
    ensures Grew(old(store.log), store.log) && |store.log| == |old(store.log)| + 1
            && NoLocksFrom(store.log, |old(store.log)|)
    ensures MarkedInvalid(old(store.Tables()), store.Tables(), a, store.log, n)
    ensures OnlyStatus(old(store.accounts), store.accounts, a)
  {
    ghost var log0 := store.log;
    var marked := store.MarkAccountValidationError(a, "invalid");
    AddedLast(log0, n, Entry(SaveCredentialStatus(a, "invalid"), marked));
  }

  /** The first half of a sync, up to the listing: the owner of the account as read, if nothing failed. */
  method PrepareSync(store: Store, provider: Provider, a: AccountId) returns (user: Option<UserId>)
    modifies store`accounts, store`log, provider
    ensures Grew(old(store.log), store.log) && Grew(old(provider.log), provider.log)
    ensures LooksFrom(provider.log, |old(provider.log)|) && NoLocksFrom(store.log, |old(store.log)|)
    ensures user.Some? <==> OkFrom(store.log, |old(store.log)|) && GoodFrom(provider.log, |old(provider.log)|)
    ensures OnlyStatus(old(store.accounts), store.accounts, a)
    ensures TokenRefused(old(provider.log), provider.log) ==>
              MarkedInvalid(old(store.Tables()), store.Tables(), a, store.log, |old(store.log)|)
    ensures user.Some? ==> a in old(store.accounts) && user.value == old(store.accounts)[a].user
                           && store.Tables() == SetCredentialStatus(old(store.Tables()), a, "valid")
  {
    user := None;
    ghost var log0, calls0 := store.log, provider.log;
    var account, usable := AccountClient(store, provider, a);
    if account.None? {
      assert !store.log[|log0|].ok;
      return;
    }
    if !usable {
      MarkInvalid(store, a, |log0|);
      assert provider.log[|calls0|].Failed();
      return;
    }
    ghost var log1, calls1 := store.log, provider.log;
    var valid := ValidateAccount(store, provider, a);
    OkFromSplit(log0, log1, store.log);
    GoodFromSplit(calls0, calls1, provider.log);
    LooksFromSplit(calls0, calls1, provider.log);
    if valid {
      user := Some(account.value.user);
    }
  }

  /** The second half: list, map, upsert, and note the time. */
  method MirrorAccount(store: Store, provider: Provider, a: AccountId, user: UserId, now: Time)
    returns (r: Option<nat>, ghost applied: Option<seq<Droplet>>, ghost remotes: seq<DO.Remote>)
    requires a in store.accounts
    modifies store`accounts, store`droplets, store`credentials, store`nextRow, store`log, provider
    ensures Grew(old(store.log), store.log)
    ensures Grew(old(provider.log), provider.log)
    ensures applied.Some? ==> provider.log == old(provider.log) + [ListCall(Some(remotes))]
    ensures LooksFrom(provider.log, |old(provider.log)|) && NoLocksFrom(store.log, |old(store.log)|)
    ensures r.Some? <==> OkFrom(store.log, |old(store.log)|) && GoodFrom(provider.log, |old(provider.log)|)
    ensures r.None? ==> store.accounts == old(store.accounts)
    ensures r.Some? ==> applied.Some? && r.value == |applied.value|
                        && store.accounts == old(store.accounts)[a := old(store.accounts)[a].(lastSynced := Some(now))]
    ensures applied.Some? ==> var m := Mirror(old(store.Tables()), a, user, applied.value);
              store.droplets == m.droplets && store.credentials == m.credentials && store.nextRow == m.nextRow
    ensures applied.Some? ==> MapsAll(remotes, applied.value)
    ensures applied.None? ==> store.droplets == old(store.droplets) && store.credentials == old(store.credentials)
                              && store.nextRow == old(store.nextRow)
    ensures r.None? && applied.Some? ==> AddedTo(store.log, |old(store.log)|, Entry(SaveSynced(a), false))
  {
    r, applied, remotes := None, None, [];
    ghost var log0, calls0 := store.log, provider.log;
    var listing := provider.List();
    if listing.None? {
      assert provider.log[|calls0|].Failed();
      return;
    }
    remotes := listing.value;
    var ds := MapAll(listing.value);
    var upserted;
    ghost var fault;
    upserted, fault := store.UpsertDroplets(a, user, ds);
    if !upserted {
      assert !store.log[|log0|].ok;
      return;
    }
    applied := Some(ds);
    var synced := store.MarkAccountSynced(a, now);
    assert store.log[|log0| + 1].ok == synced;
    if synced {
      r := Some(|ds|);
    }
  }

  /** The mirror is the same whatever the status of the account. */
  lemma MirrorAcross(before: Db, mid: Db, after: Db, a: AccountId, ds: seq<Droplet>)
    requires a in before.accounts && mid == before.(accounts := mid.accounts)
    requires var m := Mirror(mid, a, before.accounts[a].user, ds);
             after.droplets == m.droplets && after.credentials == m.credentials && after.nextRow == m.nextRow
    ensures ShowsMirror(before, after, a, ds)
  {
    UpsertIgnoresAccounts(before, mid.accounts, a, before.accounts[a].user, ds);
  }

  /** What a sync does to the tables: with a success the rows of the account are the mapped listing and the sync time
      is set; the listing applied, or nothing at all of droplets and credentials is touched. */
  ghost predicate Synced(before: Db, after: Db, a: AccountId, now: Time, r: Option<nat>,
                         applied: Option<seq<Droplet>>) {
    && OnlyStatus(before.accounts, after.accounts, a)
    && (r.Some? ==>
          && applied.Some? && r.value == |applied.value|
          && a in after.accounts && after.accounts[a].credentialStatus == "valid"
          && after.accounts[a].lastSynced == Some(now))
    && (if applied.Some? then ShowsMirror(before, after, a, applied.value)
        else
          && after.droplets == before.droplets && after.credentials == before.credentials
          && after.nextRow == before.nextRow)
  }

  /** The account shows this as the time of its last sync. */
  ghost predicate SyncedAt(accounts: map<AccountId, Account>, a: AccountId, now: Time) {
    a in accounts && accounts[a].lastSynced == Some(now)
  }

  /** A sync keeps references and ownership, whether it mirrors a listing or not. */
  lemma SyncKeeps(before: Db, after: Db, a: AccountId, now: Time, r: Option<nat>, applied: Option<seq<Droplet>>)
    requires Synced(before, after, a, now, r, applied) && before.jobs == after.jobs
    ensures Keeps(before, after)
  {
    if applied.Some? {
      MirrorKeeps(before, a, applied.value);
    }
  }

  /** A success means that no call and no statement failed. A failure leaves the droplet and credential rows alone,
      unless it was only the sync time that could not be stored. References and ownership are kept in any case. */
  method SyncAccount(store: Store, provider: Provider, a: AccountId, now: Time)
    returns (r: Option<nat>, ghost applied: Option<seq<Droplet>>, ghost remotes: seq<DO.Remote>)
    modifies store`accounts, store`droplets, store`credentials, store`nextRow, store`log, provider
    ensures Grew(old(store.log), store.log) && Grew(old(provider.log), provider.log)
    ensures LooksFrom(provider.log, |old(provider.log)|) && NoLocksFrom(store.log, |old(store.log)|)
    ensures r.Some? <==> OkFrom(store.log, |old(store.log)|) && GoodFrom(provider.log, |old(provider.log)|)
    ensures Synced(old(store.Tables()), store.Tables(), a, now, r, applied)
    ensures applied.Some? ==> AddedTo(provider.log, |old(provider.log)|, ListCall(Some(remotes)))
                              && MapsAll(remotes, applied.value)
    ensures r.None? && applied.Some? ==> AddedTo(store.log, |old(store.log)|, Entry(SaveSynced(a), false))
    ensures Keeps(old(store.Tables()), store.Tables())
  {
    r, applied, remotes := None, None, [];
    ghost var before, log0, calls0 := store.Tables(), store.log, provider.log;
    var user := PrepareSync(store, provider, a);
    if user.Some? {
      ghost var mid, log1, calls1 := store.Tables(), store.log, provider.log;
      r, applied, remotes := MirrorAccount(store, provider, a, user.value, now);
      OkFromSplit(log0, log1, store.log);
      GoodFromSplit(calls0, calls1, provider.log);
      LooksFromSplit(calls0, calls1, provider.log);
      if applied.Some? {
        AddedLast(calls1, |calls0|, ListCall(Some(remotes)));
        MirrorAcross(before, mid, store.Tables(), a, applied.value);
      }
    }
    SyncKeeps(before, store.Tables(), a, now, r, applied);
  }
}
