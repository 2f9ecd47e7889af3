/** Whole requests and worker turns, one after the other, on one store. */
module SerialRuns {
  import opened Common
  import opened Jobs
  import opened Inventory
  import opened StoreLayer
  import opened ProviderLayer
  import opened SyncJob
  import opened WorkerTurn
  import C = CreateJob

  /** updateRootCredential: the password goes to the owner of the droplet row, whoever of those allowed has sent it. */
  method UpdateRootCredential(store: Store, provider: Provider, row: RowId, principal: UserId, admin: bool,
                              password: string)
    returns (ok: bool)
    modifies store`credentials, store`log, provider
    ensures Keeps(old(store.Tables()), store.Tables())
    ensures ok ==> exists k :: k in store.droplets && store.droplets[k].id == row
                               && (admin || store.droplets[k].user == principal) && 12 <= |password| <= 128
                               && C.Holds(store.droplets, store.credentials, k, store.droplets[k].user, password)
    ensures !ok ==> store.credentials == old(store.credentials)
    ensures !ok && OkFrom(store.log, |old(store.log)|) && GoodFrom(provider.log, |old(provider.log)|) ==>
              |password| < 12 || |password| > 128
              || (!admin && exists k :: k in store.droplets && store.droplets[k].id == row
                                        && store.droplets[k].user != principal)
  {
    ok := false;
    ghost var n, m := |store.log|, |provider.log|;
    var droplet := store.GetDroplet(row);
    assert store.log[n].ok == droplet.Some?;
    if droplet.None? || (!admin && droplet.value.user != principal) || |password| < 12 || |password| > 128 {
      return;
    }
    var secret := provider.Encrypt(password, row);
    assert provider.log[m].Failed() == secret.None?;
    if secret.None? {
      return;
    }
    ghost var k :| k in store.droplets && store.droplets[k] == droplet.value;
    PutCredentialKeeps(store.Tables(), k, droplet.value.user, secret.value);
    ok := store.UpsertRootCredential(droplet.value.user, row, secret.value);
    assert store.log[n + 1].ok == ok;
  }

  datatype Request =
    | TakeTurn(claimedAt: Time, now: Time, cancelled: bool)
    | OpenAccount(a: AccountId, user: UserId)
    | TransferTo(a: AccountId, user: UserId)
    | RemoveAccount(a: AccountId)
    | SetPassword(row: RowId, principal: UserId, admin: bool, password: string)
    | Enqueue(id: JobId, user: UserId, account: Option<AccountId>, kind: string, payload: Payload, now: Time)

  /** The statement of a request that is none of a worker and sets no password. */
  function StatementOf(request: Request): Op
    requires !request.TakeTurn? && !request.SetPassword?
  {
    match request
    case OpenAccount(a, user) => OpAddAccount(a, user)
    case TransferTo(a, user) => OpTransfer(a, user)
    case RemoveAccount(a) => OpDelete(a)
    case Enqueue(id, user, account, kind, payload, now) => OpEnqueue(id, NewRow(user, account, kind, payload, now))
  }

  /** One of them; keys that are not fresh do not occur in the program, here they are passed over. */
  method Serve(store: Store, provider: Provider, request: Request)
    requires Schema(store.Tables())
    modifies store`accounts, store`droplets, store`credentials, store`nextRow, store`jobs, store`log, provider
    ensures Keeps(old(store.Tables()), store.Tables())
    ensures !request.TakeTurn? && !request.SetPassword? ==>
              || store.Tables() == old(store.Tables())
              || store.Tables() == Exec(old(store.Tables()), StatementOf(request))
  {
    match request
    case TakeTurn(claimedAt, now, cancelled) =>
      var _, _, _, _ := ProcessNext(store, provider, claimedAt, now, cancelled);
    case OpenAccount(a, user) =>
      if a !in store.accounts {
        var _ := store.CreateCloudAccount(a, user);
      }
    case TransferTo(a, user) =>
      var _, _ := store.TransferCloudAccount(a, user);
    case RemoveAccount(a) =>
      var _, _ := store.DeleteCloudAccount(a);
    case SetPassword(row, principal, admin, password) =>
      var _ := UpdateRootCredential(store, provider, row, principal, admin, password);
    case Enqueue(id, user, account, kind, payload, now) =>
      if id !in store.jobs {
        var _ := store.EnqueueJob(id, user, account, kind, payload, now);
      }
  }

  /** Any serial run of worker turns, with their syncs, creates, actions and deletes, and of transfers, credential
      updates, account deletions and new jobs keeps references and ownership: every droplet has its account's owner,
      every credential its droplet's owner, and no droplet, credential or account-bound job outlives its parent. */
  method ServeAll(store: Store, provider: Provider, requests: seq<Request>)
    requires Schema(store.Tables())
    modifies store`accounts, store`droplets, store`credentials, store`nextRow, store`jobs, store`log, provider
    ensures Schema(store.Tables())
    ensures old(Consistent(store.Tables())) ==> Consistent(store.Tables())
  {
    ghost var before := store.Tables();
    for i := 0 to |requests|
      invariant Schema(store.Tables()) && Keeps(before, store.Tables())
    {
      ghost var mid := store.Tables();
      Serve(store, provider, requests[i]);
      KeepsMeans(mid, store.Tables());
    }
    KeepsMeans(before, store.Tables());
  }
}
