/** The data access layer: tables as fields, each method one statement or one transaction. The database may
    fail any of them; a failed transaction leaves the tables as they were. */
module StoreLayer {
  import opened Common
  import opened Jobs
  import opened Inventory
  import U = Usage

  datatype Quotas = Quotas(droplets: Option<nat>, vcpus: Option<nat>, memoryMb: Option<nat>)

  /** What was asked of the database; a log entry adds whether it succeeded. */
  datatype Statement =
    | GetAccount(a: AccountId)
    | SaveCredentialStatus(a: AccountId, status: string)
    | UpsertStatement(a: AccountId)
    | SaveSynced(a: AccountId)
    | GetQuotas(user: UserId)
    | GetUsage(user: UserId)
    | SetProjectOf(k: Key)
    | FindDroplet(k: Key)
    | FindRow(r: RowId)
    | InsertAccount(a: AccountId)
    | PutCredentialOf(r: RowId)
    | StaleCredentialOf(r: RowId)
    | LockUser(user: UserId)
    | UnlockUser(user: UserId)
    | ClaimDue
    | SaveJob(id: JobId)
    | InsertJob(id: JobId)

  /** What claiming comes to: the job as the worker sees it, nothing to do, or a database error. */
  datatype Claim = Got(id: JobId, job: JobRow) | NothingDue | ClaimFailed

  /** A log entry is not ok if the statement failed or found nothing. Where a method has a ghost `fault` it tells
      a failing database from a refusal by the tables. */
  datatype Entry = Entry(statement: Statement, ok: bool)

  class Store {
    var accounts: map<AccountId, Account>
    var droplets: map<Key, DropletRow>
    var credentials: map<RowId, Credential>
    var jobs: map<JobId, JobRow>
    var nextRow: RowId
    var quotas: map<UserId, Quotas>
    ghost var log: seq<Entry>

    ghost function Tables(): Db
      reads this
    {
      Db(accounts, droplets, credentials, jobs, nextRow)
    }

    constructor ()
      ensures Tables() == Db(map[], map[], map[], map[], 0) && quotas == map[] && log == []
      ensures Consistent(Tables())
    {
      accounts, droplets, credentials, jobs, nextRow, quotas, log := map[], map[], map[], map[], 0, map[], [];
    }

    // ---- the advisory lock of a user ----

    /** A connection of the pool and the lock on it; either may be refused. */
    method Lock(user: UserId) returns (ok: bool)
      modifies this`log
      ensures log == old(log) + [Entry(LockUser(user), ok)]
    {
      ok := *;
      log := log + [Entry(LockUser(user), ok)];
    }

    /** Errors are ignored; the connection goes back to the pool in any case. */
    method Unlock(user: UserId)
      modifies this`log
      ensures log == old(log) + [Entry(UnlockUser(user), true)]
    {
      log := log + [Entry(UnlockUser(user), true)];
    }

    // ---- accounts ----

    method GetCloudAccount(a: AccountId) returns (r: Option<Account>)
      modifies this`log
      ensures log == old(log) + [Entry(GetAccount(a), r.Some?)]
      ensures r.Some? ==> a in accounts && r.value == accounts[a]
    {
      var reached: bool := *;
      r := if reached && a in accounts then Some(accounts[a]) else None;
      log := log + [Entry(GetAccount(a), r.Some?)];
    }

    /** The status a successful validation stores; an account that is gone is no error. */
    method UpdateAccountValidation(a: AccountId) returns (ok: bool)
      modifies this`accounts, this`log
      ensures log == old(log) + [Entry(SaveCredentialStatus(a, "valid"), ok)]
      ensures Tables() == if ok then SetCredentialStatus(old(Tables()), a, "valid") else old(Tables())
      ensures ok && a in accounts ==> accounts[a].credentialStatus == "valid"
    {
      ok := *;
      if ok && a in accounts {
        accounts := accounts[a := accounts[a].(credentialStatus := "valid")];
      }
      log := log + [Entry(SaveCredentialStatus(a, "valid"), ok)];
    }

    /** The status a failed validation stores; an account that is gone is reported as not found. */
    method MarkAccountValidationError(a: AccountId, status: string) returns (ok: bool)
      modifies this`accounts, this`log
      ensures log == old(log) + [Entry(SaveCredentialStatus(a, status), ok)]
      ensures ok ==> a in old(accounts) && a in accounts && accounts[a].credentialStatus == status
      ensures Tables() == if ok then SetCredentialStatus(old(Tables()), a, status) else old(Tables())
    {
      var reached: bool := *;
      ok := reached && a in accounts;
      if ok {
        accounts := accounts[a := accounts[a].(credentialStatus := status)];
      }
      log := log + [Entry(SaveCredentialStatus(a, status), ok)];
    }

    /** `a` is the fresh key of the new row. */
    method CreateCloudAccount(a: AccountId, user: UserId) returns (ok: bool)
      requires a !in accounts
      modifies this`accounts, this`log
      ensures log == old(log) + [Entry(InsertAccount(a), ok)]
      ensures Tables() == if ok then AddAccount(old(Tables()), a, user) else old(Tables())
      ensures ok ==> Tables() == Exec(old(Tables()), OpAddAccount(a, user))
      ensures Keeps(old(Tables()), Tables())
    {
      ok := *;
      AddAccountKeeps(Tables(), a, user);
      if ok {
        accounts := accounts[a := Account(user, "unverified", None)];
      }
      log := log + [Entry(InsertAccount(a), ok)];
    }

    method MarkAccountSynced(a: AccountId, now: Time) returns (ok: bool)
      modifies this`accounts, this`log
      ensures log == old(log) + [Entry(SaveSynced(a), ok)]
      ensures ok ==> a in old(accounts) && Tables() == MarkSynced(old(Tables()), a, now)
      ensures !ok ==> Tables() == old(Tables())
    {
      var reached: bool := *;
      ok := reached && a in accounts;
      if ok {
        accounts := accounts[a := accounts[a].(lastSynced := Some(now))];
      }
      log := log + [Entry(SaveSynced(a), ok)];
    }

    /** One transaction of three updates; the last finds the credentials through the droplets table. */
    method TransferCloudAccount(a: AccountId, user: UserId) returns (ok: bool, ghost fault: bool)
      modifies this`accounts, this`droplets, this`credentials
      ensures ok <==> !fault
      ensures Tables() == if ok then Transfer(old(Tables()), a, user) else old(Tables())
      ensures ok ==> Tables() == Exec(old(Tables()), OpTransfer(a, user))
      ensures Keeps(old(Tables()), Tables())
    {
      ghost var before := Tables();
      var saved := (accounts, droplets, credentials);
      if a in accounts {
        accounts := accounts[a := accounts[a].(user := user)];
      }
      droplets := map k | k in droplets :: if k.account == a then droplets[k].(user := user) else droplets[k];
      var db := Db(accounts, droplets, credentials, jobs, nextRow);
      credentials := map r | r in credentials :: if OfAccount(db, a, r) then credentials[r].(user := user)
        else credentials[r];
      ok := *;
      fault := !ok;
      if ok {
        TransferByStatements(before, db, a, user);
      } else {
        accounts, droplets, credentials := saved.0, saved.1, saved.2;
      }
    }

    /** One statement; the schema's cascades take the droplets, their credentials and the jobs along. */
    method DeleteCloudAccount(a: AccountId) returns (ok: bool, ghost fault: bool)
      modifies this`accounts, this`droplets, this`credentials, this`jobs
      ensures ok <==> !fault && a in old(accounts)
      ensures ok ==> Tables() == DeleteAccount(old(Tables()), a) == Exec(old(Tables()), OpDelete(a))
      ensures !ok ==> Tables() == old(Tables())
      ensures Keeps(old(Tables()), Tables())
    {
      ghost var before := Tables();
      var reached: bool := *;
      fault := !reached;
      ok := reached && a in accounts;
      if ok {
        var gone := set k | k in droplets && k.account == a;
        credentials := credentials - (set k | k in gone && k in droplets :: droplets[k].id);
        droplets := droplets - gone;
        jobs := map j | j in jobs && jobs[j].account != Some(a) :: jobs[j];
        accounts := accounts - {a};
        DeleteAccountKeeps(before, a);
      }
    }

    // ---- droplets ----

    /** One transaction: an upsert per listed droplet, then the delete of what is not listed. `user` is the owner
        the caller has read. Any statement of it may fail, and then all of it is undone. */
    method UpsertDroplets(a: AccountId, user: UserId, ds: seq<Droplet>) returns (ok: bool, ghost fault: bool)
      modifies this`droplets, this`credentials, this`nextRow, this`log
      ensures log == old(log) + [Entry(UpsertStatement(a), ok)]
      ensures ok <==> !fault && (ds == [] || a in accounts)
      ensures ok ==> Tables() == Mirror(old(Tables()), a, user, ds)
      ensures !ok ==> Tables() == old(Tables())
    {
      ghost var before := Tables();
      var saved := (droplets, credentials, nextRow);
      ok, fault := true, false;
      var ids: set<ProviderId> := {};
      var i := 0;
      while i < |ds| && ok
        invariant 0 <= i <= |ds| && (i > 0 ==> a in accounts)
        invariant accounts == before.accounts && jobs == before.jobs && log == old(log)
        invariant ok ==> Tables() == UpsertAll(before, a, user, ds[..i]) && ids == Ids(ds[..i])
        invariant if ok then !fault else fault || (a !in accounts && ds != [])
        decreases |ds| - i, ok
      {
        var reached: bool := *;
        fault := !reached;
        ok := reached && a in accounts;
        if ok {
          var k := Key(a, ds[i].providerId);
          if k in droplets {
            droplets := droplets[k := droplets[k].(user := user, info := ds[i].info)];
          } else {
            droplets := droplets[k := DropletRow(nextRow, user, ds[i].info, None)];
            nextRow := nextRow + 1;
          }
          ids := ids + {ds[i].providerId};
          assert ds[..i + 1][..i] == ds[..i];
          IdsOfPrefix(ds[..i + 1]);
          i := i + 1;
        }
      }
      if ok {
        assert ds[..i] == ds;
        var gone := set k | k in droplets && k.account == a && k.providerId !in ids;
        credentials := credentials - (set k | k in gone && k in droplets :: droplets[k].id);
        droplets := droplets - gone;
        ok := *;
        fault := !ok;
      }
      if !ok {
        droplets, credentials, nextRow := saved.0, saved.1, saved.2;
      }
      log := log + [Entry(UpsertStatement(a), ok)];
    }

    method GetDropletByProviderID(k: Key) returns (r: Option<DropletRow>)
      modifies this`log
      ensures log == old(log) + [Entry(FindDroplet(k), r.Some?)]
      ensures r.Some? ==> k in droplets && r.value == droplets[k]
    {
      var reached: bool := *;
      r := if reached && k in droplets then Some(droplets[k]) else None;
      log := log + [Entry(FindDroplet(k), r.Some?)];
    }

    method GetDroplet(id: RowId) returns (r: Option<DropletRow>)
      modifies this`log
      ensures log == old(log) + [Entry(FindRow(id), r.Some?)]
      ensures r.Some? ==> r.value.id == id && r.value in droplets.Values
    {
      var reached: bool := *;
      r := None;
      if k :| k in droplets && droplets[k].id == id {
        assert droplets[k] in droplets.Values;
        r := if reached then Some(droplets[k]) else None;
      }
      log := log + [Entry(FindRow(id), r.Some?)];
    }

    method SetDropletProject(k: Key, project: string) returns (ok: bool)
      modifies this`droplets, this`log
      ensures log == old(log) + [Entry(SetProjectOf(k), ok)]
      ensures ok ==> k in old(droplets) && Tables() == SetProject(old(Tables()), k, project)
                     && Tables() == Exec(old(Tables()), OpProject(k, project))
      ensures !ok ==> Tables() == old(Tables())
    {
      var reached: bool := *;
      ok := reached && k in droplets;
      if ok {
        droplets := droplets[k := droplets[k].(project := Some(project))];
      }
      log := log + [Entry(SetProjectOf(k), ok)];
    }

    // ---- credentials ----

    /** A droplet row that has vanished is refused by the foreign key. */
    method UpsertRootCredential(user: UserId, r: RowId, secret: Sealed) returns (ok: bool)
      modifies this`credentials, this`log
      ensures log == old(log) + [Entry(PutCredentialOf(r), ok)]
      ensures ok ==> HasRow(droplets, r) && Tables() == PutCredential(old(Tables()), user, r, secret)
      ensures ok ==> forall k | k in droplets && droplets[k].id == r && droplets[k].user == user ::
                Tables() == Exec(old(Tables()), OpPutCredential(k, secret))
      ensures !ok ==> Tables() == old(Tables())
    {
      var reached: bool := *;
      ok := reached && exists k :: k in droplets && droplets[k].id == r;
      if ok {
        credentials := credentials[r := Credential(user, secret, Active)];
      }
      log := log + [Entry(PutCredentialOf(r), ok)];
    }

    method MarkRootCredentialStale(r: RowId) returns (ok: bool)
      modifies this`credentials, this`log
      ensures log == old(log) + [Entry(StaleCredentialOf(r), ok)]
      ensures Tables() == if ok then StaleCredentialAt(old(Tables()), r) else old(Tables())
      ensures ok ==> forall k | k in droplets && droplets[k].id == r :: Tables() == Exec(old(Tables()), OpStale(k))
    {
      ok := *;
      if ok && r in credentials {
        credentials := credentials[r := credentials[r].(status := StaleCredential)];
      }
      log := log + [Entry(StaleCredentialOf(r), ok)];
    }

    // ---- jobs ----

    /** `id` is the fresh key of the new row; an account that does not exist is refused by the foreign key. */
    method EnqueueJob(id: JobId, user: UserId, account: Option<AccountId>, kind: string, payload: Payload, now: Time)
      returns (ok: bool)
      requires id !in jobs
      modifies this`jobs, this`log
      ensures log == old(log) + [Entry(InsertJob(id), ok)]
      ensures ok ==> (account.Some? ==> account.value in accounts)
                     && Tables() == AddJob(old(Tables()), id, NewRow(user, account, kind, payload, now))
                     && Tables() == Exec(old(Tables()), OpEnqueue(id, jobs[id]))
                     && jobs[id].user == user && jobs[id].account == account && jobs[id].kind == kind
                     && jobs[id].payload == payload && jobs[id].state == Queued
                     && jobs[id].createdAt == jobs[id].scheduledAt == now
      ensures !ok ==> Tables() == old(Tables())
      ensures Keeps(old(Tables()), Tables())
    {
      var reached: bool := *;
      ok := reached && (account.Some? ==> account.value in accounts);
      if ok {
        AddJobKeeps(Tables(), id, NewRow(user, account, kind, payload, now));
        jobs := jobs[id := NewRow(user, account, kind, payload, now)];
      }
      log := log + [Entry(InsertJob(id), ok)];
    }

    /** One transaction, with no other claim going on: the oldest due job becomes running. */
    method ClaimJob(now: Time) returns (claim: Claim)
      modifies this`jobs, this`log
      ensures log == old(log) + [Entry(ClaimDue, !claim.ClaimFailed?)]
      ensures claim.Got? ==> OldestDue(old(jobs), claim.id, now)
                             && jobs == old(jobs)[claim.id := Claimed(old(jobs)[claim.id], now)]
                             && claim.job
                                 == old(jobs)[claim.id].(state := Running, attempts := old(jobs)[claim.id].attempts + 1)
      ensures claim.Got? ==> SameJob(old(jobs)[claim.id], jobs[claim.id])
                             && Taken(old(jobs)[claim.id], jobs[claim.id], now)
      ensures !claim.Got? ==> jobs == old(jobs)
      ensures claim.NothingDue? ==> forall j | j in jobs :: !Due(jobs[j], now)
    {
      var reached: bool := *;
      if !reached {
        log := log + [Entry(ClaimDue, false)];
        return ClaimFailed;
      }
      claim := NothingDue;
      var due := set j | j in jobs && Due(jobs[j], now);
      if due != {} {
        var id := Oldest(jobs, due);
        claim := Got(id, jobs[id].(state := Running, attempts := jobs[id].attempts + 1));
        jobs := jobs[id := Claimed(jobs[id], now)];
      } else {
        assert forall j | j in jobs :: j !in due;
      }
      log := log + [Entry(ClaimDue, true)];
    }

    /** One statement; it does not look at the state it overwrites, and a row that is gone is no error. */
    method UpdateJob(id: JobId, progress: nat, o: Outcome, now: Time) returns (ok: bool)
      modifies this`jobs, this`log
      ensures log == old(log) + [Entry(SaveJob(id), ok)]
      ensures jobs == if ok && id in old(jobs) then old(jobs)[id := Updated(old(jobs)[id], progress, o, now)]
                      else old(jobs)
      ensures ok && id in old(jobs) ==> SameJob(old(jobs)[id], jobs[id])
      ensures ok && id in old(jobs) && !o.state.Terminal() ==> jobs[id].finishedAt == old(jobs)[id].finishedAt
      ensures ok && id in old(jobs) && progress == 100 && o.state.Terminal() ==> Shows(jobs[id], o, now)
    {
      ok := *;
      if ok && id in jobs {
        jobs := jobs[id := Updated(jobs[id], progress, o, now)];
      }
      log := log + [Entry(SaveJob(id), ok)];
    }

    // ---- quota ----

    method GetUserQuotas(user: UserId) returns (r: Option<Quotas>)
      modifies this`log
      ensures log == old(log) + [Entry(GetQuotas(user), r.Some?)]
      ensures r.Some? ==> user in quotas && r.value == quotas[user]
    {
      var reached: bool := *;
      r := if reached && user in quotas then Some(quotas[user]) else None;
      log := log + [Entry(GetQuotas(user), r.Some?)];
    }

    /** Counts and adds up the user's rows. */
    method UserUsage(user: UserId) returns (ok: bool, count: int, vcpus: int, memoryMb: int)
      modifies this`log
      ensures log == old(log) + [Entry(GetUsage(user), ok)]
      ensures ok ==> count == |U.DropletsOf(Tables(), user)|
      ensures ok ==> vcpus == Sum(U.VcpusOf(Tables(), user))
      ensures ok ==> memoryMb == Sum(U.MemoryOf(Tables(), user))
    {
      ok := *;
      count, vcpus, memoryMb := 0, 0, 0;
      if ok {
        var db := Db(accounts, droplets, map[], map[], 0);
        count := |U.DropletsOf(db, user)|;
        vcpus := TotalOf(U.VcpusOf(db, user));
        memoryMb := TotalOf(U.MemoryOf(db, user));
      }
      log := log + [Entry(GetUsage(user), ok)];
    }
  }

  /** The third statement looks for the credentials in the droplets table that the second has written. */
  lemma TransferByStatements(before: Db, mid: Db, a: AccountId, user: UserId)
    requires mid
        == before.(accounts := AccountsAfterTransfer(before, a, user),
                   droplets := DropletsAfterTransfer(before, a, user))
    ensures mid.(credentials := CredentialsAfterTransfer(mid, a, user)) == Transfer(before, a, user)
    ensures Keeps(before, Transfer(before, a, user))
  {
    SameRowsSameAccount(before, mid, a);
    TransferKeeps(before, a, user);
  }

  lemma SameRowsSameAccount(before: Db, after: Db, a: AccountId)
    requires before.droplets.Keys == after.droplets.Keys
    requires forall k | k in before.droplets :: before.droplets[k].id == after.droplets[k].id
    ensures forall r :: OfAccount(before, a, r) <==> OfAccount(after, a, r)
  {
    forall r ensures OfAccount(before, a, r) <==> OfAccount(after, a, r) {
      if k :| k in before.droplets && k.account == a && before.droplets[k].id == r { assert after.droplets[k].id == r; }
      if k :| k in after.droplets && k.account == a && after.droplets[k].id == r { assert before.droplets[k].id == r; }
    }
  }

  /** ORDER BY created_at LIMIT 1. */
  method Oldest(jobs: map<JobId, JobRow>, ids: set<JobId>) returns (id: JobId)
    requires ids != {} && ids <= jobs.Keys
    ensures id in ids && forall j | j in ids :: jobs[id].createdAt <= jobs[j].createdAt
  {
    id :| id in ids;
    var rest := ids - {id};
    while rest != {}
      invariant rest <= ids && id in ids && forall j | j in ids && j !in rest :: jobs[id].createdAt <= jobs[j].createdAt
      decreases rest
    {
      var j :| j in rest;
      if jobs[j].createdAt < jobs[id].createdAt {
        id := j;
      }
      rest := rest - {j};
    }
  }

  method TotalOf(m: map<Key, int>) returns (total: int)
    ensures total == Sum(m)
  {
    total := 0;
    var todo := m;
    while todo != map[]
      invariant total + Sum(todo) == Sum(m)
      decreases |todo|
    {
      var k :| k in todo;
      SumRemove(todo, k);
      total := total + todo[k];
      todo := todo - {k};
    }
  }
}
