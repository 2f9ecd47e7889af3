/** The relational state behind accounts, droplets and managed credentials, the statements that change it,
    and what they preserve. */
module Inventory {
  import opened Common
  import opened Jobs

  type RowId = nat
  type ProviderId = int

  /** The columns a sync overwrites; `extra` stands for those copied verbatim (price, image, features, tags, raw). */
  datatype Info = Info(
    name: string, status: string, locked: bool, region: Option<string>, size: Option<string>, vcpus: int, memoryMb: int,
    diskGb: int, ipv4: Option<string>, ipv6: Option<string>, vpc: Option<string>, extra: int)

  datatype Droplet = Droplet(providerId: ProviderId, info: Info)

  datatype Account = Account(user: UserId, credentialStatus: string, lastSynced: Option<Time>)
  datatype Key = Key(account: AccountId, providerId: ProviderId)
  datatype DropletRow = DropletRow(id: RowId, user: UserId, info: Info, project: Option<string>)

  /** Authenticated encryption, symbolically: opening needs the associated data used for sealing. */
  datatype Sealed = Sealed(plaintext: string, aad: RowId)

  function Decrypt(c: Sealed, aad: RowId): Option<string> {
    if c.aad == aad then Some(c.plaintext) else None
  }

  datatype CredentialStatus = Active | StaleCredential | Revoked
  datatype Credential = Credential(user: UserId, secret: Sealed, status: CredentialStatus)

  /** Tables by their keys: the unique pair (account_id, provider_id) for droplets, the droplet's row id for
      credentials. `nextRow` is the supply of fresh row ids. */
  datatype Db = Db(
    accounts: map<AccountId, Account>, droplets: map<Key, DropletRow>, credentials: map<RowId, Credential>,
    jobs: map<JobId, JobRow>, nextRow: RowId)

  // ---- the schema's constraints, and ownership ----

  ghost predicate HasRow(droplets: map<Key, DropletRow>, r: RowId) {
    exists k :: k in droplets && droplets[k].id == r
  }

  ghost predicate DistinctIds(droplets: map<Key, DropletRow>) {
    forall k, l | k in droplets && l in droplets && droplets[k].id == droplets[l].id :: k == l
  }

  ghost predicate Schema(db: Db) {
    && (forall k | k in db.droplets :: k.account in db.accounts && db.droplets[k].id < db.nextRow)
    && DistinctIds(db.droplets)
    && (forall r | r in db.credentials :: HasRow(db.droplets, r))
    && (forall j | j in db.jobs && db.jobs[j].account.Some? :: db.jobs[j].account.value in db.accounts)
  }

  ghost predicate DropletsOwned(db: Db) {
    forall k | k in db.droplets :: k.account in db.accounts && db.droplets[k].user == db.accounts[k.account].user
  }

  ghost predicate CredentialsOwned(db: Db) {
    forall k | k in db.droplets && db.droplets[k].id in db.credentials ::
      db.credentials[db.droplets[k].id].user == db.droplets[k].user
  }

  ghost predicate Consistent(db: Db) {
    Schema(db) && DropletsOwned(db) && CredentialsOwned(db)
  }

  /** How far the tables are in order: not at all, all references hold, or ownership agrees as well. */
  ghost function Order(db: Db): nat {
    if Consistent(db) then 2 else if Schema(db) then 1 else 0
  }

  /** A change that keeps references, and ownership if that was in order. */
  ghost predicate Keeps(before: Db, after: Db) {
    Order(before) <= Order(after)
  }

  lemma KeepsMeans(before: Db, after: Db)
    ensures Keeps(before, after) <==> (Schema(before) ==> Schema(after)) && (Consistent(before) ==> Consistent(after))
  {
  }

  // ---- UpsertDroplets ----

  /** INSERT ... ON CONFLICT(account_id, provider_id) DO UPDATE: an existing row keeps its id and project. */
  function UpsertOne(db: Db, a: AccountId, user: UserId, d: Droplet): Db {
    var k := Key(a, d.providerId);
    if k in db.droplets
    then db.(droplets := db.droplets[k := db.droplets[k].(user := user, info := d.info)])
    else db.(droplets := db.droplets[k := DropletRow(db.nextRow, user, d.info, None)], nextRow := db.nextRow + 1)
  }

  function UpsertAll(db: Db, a: AccountId, user: UserId, ds: seq<Droplet>): Db {
    if ds == [] then db else UpsertOne(UpsertAll(db, a, user, ds[..|ds| - 1]), a, user, ds[|ds| - 1])
  }

  function Ids(ds: seq<Droplet>): set<ProviderId> {
    set i | 0 <= i < |ds| :: ds[i].providerId
  }

  /** DELETE FROM droplets with its cascade to the credentials of the deleted rows. */
  function DeleteDroplets(db: Db, gone: set<Key>): Db {
    db.(droplets := db.droplets - gone,
        credentials := db.credentials - (set k | k in gone && k in db.droplets :: db.droplets[k].id))
  }

  function Missing(db: Db, a: AccountId, ids: set<ProviderId>): set<Key> {
    set k | k in db.droplets && k.account == a && k.providerId !in ids
  }

  function Mirror(db: Db, a: AccountId, user: UserId, ds: seq<Droplet>): Db {
    var up := UpsertAll(db, a, user, ds);
    DeleteDroplets(up, Missing(up, a, Ids(ds)))
  }

  /** The fields the listing ends up giving a droplet: those of its last occurrence. */
  function LastInfo(ds: seq<Droplet>, p: ProviderId): Info
    requires p in Ids(ds)
  {
    if ds[|ds| - 1].providerId == p then ds[|ds| - 1].info else LastInfo(ds[..|ds| - 1], p)
  }

  // ---- the other statements ----

  function Transfer(db: Db, a: AccountId, user: UserId): Db {
    Db(AccountsAfterTransfer(db, a, user), DropletsAfterTransfer(db, a, user), CredentialsAfterTransfer(db, a, user),
       db.jobs, db.nextRow)
  }

  function AccountsAfterTransfer(db: Db, a: AccountId, user: UserId): map<AccountId, Account> {
    if a in db.accounts then db.accounts[a := db.accounts[a].(user := user)] else db.accounts
  }

  function DropletsAfterTransfer(db: Db, a: AccountId, user: UserId): map<Key, DropletRow> {
    map k | k in db.droplets :: if k.account == a then db.droplets[k].(user := user) else db.droplets[k]
  }

  function CredentialsAfterTransfer(db: Db, a: AccountId, user: UserId): map<RowId, Credential> {
    map r | r in db.credentials :: if OfAccount(db, a, r) then db.credentials[r].(user := user) else db.credentials[r]
  }

  predicate OfAccount(db: Db, a: AccountId, r: RowId) {
    exists k :: k in db.droplets && k.account == a && db.droplets[k].id == r
  }

  /** DELETE FROM cloud_accounts with its cascades to droplets, credentials and jobs. */
  function DeleteAccount(db: Db, a: AccountId): Db {
    var gone := DeleteDroplets(db, set k | k in db.droplets && k.account == a);
    gone.(accounts := db.accounts - {a}, jobs := map j | j in db.jobs && db.jobs[j].account != Some(a) :: db.jobs[j])
  }

  function PutCredential(db: Db, user: UserId, r: RowId, secret: Sealed): Db {
    db.(credentials := db.credentials[r := Credential(user, secret, Active)])
  }

  function StaleCredentialAt(db: Db, r: RowId): Db {
    if r in db.credentials then db.(credentials := db.credentials[r := db.credentials[r].(status := StaleCredential)])
      else db
  }

  function SetProject(db: Db, k: Key, project: string): Db
    requires k in db.droplets
  {
    db.(droplets := db.droplets[k := db.droplets[k].(project := Some(project))])
  }

  function MarkSynced(db: Db, a: AccountId, now: Time): Db
    requires a in db.accounts
  {
    db.(accounts := db.accounts[a := db.accounts[a].(lastSynced := Some(now))])
  }

  function SetCredentialStatus(db: Db, a: AccountId, status: string): Db {
    if a in db.accounts then db.(accounts := db.accounts[a := db.accounts[a].(credentialStatus := status)]) else db
  }

  function AddJob(db: Db, id: JobId, row: JobRow): Db {
    db.(jobs := db.jobs[id := row])
  }

  function AddAccount(db: Db, a: AccountId, user: UserId): Db {
    db.(accounts := db.accounts[a := Account(user, "unverified", None)])
  }

  // ---- what the loop of upserts does ----

  lemma {:induction false} IdsOfPrefix(ds: seq<Droplet>)
    requires ds != []
    ensures Ids(ds) == Ids(ds[..|ds| - 1]) + {ds[|ds| - 1].providerId}
  {
    var n := |ds| - 1;
    forall p | p in Ids(ds) ensures p in Ids(ds[..n]) + {ds[n].providerId} {
      var i :| 0 <= i < |ds| && ds[i].providerId == p;
      assert i < n ==> ds[..n][i] == ds[i];
    }
    forall p | p in Ids(ds[..n]) ensures p in Ids(ds) {
      var i :| 0 <= i < n && ds[..n][i].providerId == p;
      assert ds[i].providerId == p;
    }
  }

  /** What a row of the mirrored account becomes, given the listing read so far. */
  ghost predicate RowMirrors(before: map<Key, DropletRow>, row: DropletRow, k: Key, user: UserId, info: Info,
                             nextRow: RowId) {
    && row.user == user && row.info == info
    && (if k in before then row.id == before[k].id && row.project == before[k].project
        else row.id >= nextRow && row.project.None?)
  }

  lemma UpsertOneKeepsIds(db: Db, a: AccountId, user: UserId, d: Droplet)
    requires Schema(db)
    ensures var t := UpsertOne(db, a, user, d);
            && (forall k | k in t.droplets :: t.droplets[k].id < t.nextRow)
            && (forall k | k in db.droplets :: k in t.droplets && t.droplets[k].id == db.droplets[k].id)
  {
  }

  lemma UpsertOneDistinct(db: Db, a: AccountId, user: UserId, d: Droplet)
    requires Schema(db)
    ensures DistinctIds(UpsertOne(db, a, user, d).droplets)
  {
    var t := UpsertOne(db, a, user, d);
    var added := Key(a, d.providerId);
    forall k, l | k in t.droplets && l in t.droplets && t.droplets[k].id == t.droplets[l].id ensures k == l {
      if added !in db.droplets && (k == added || l == added) {
        assert t.droplets[k].id == db.nextRow;
      }
    }
  }

  lemma HasRowStays(before: map<Key, DropletRow>, after: map<Key, DropletRow>, r: RowId)
    requires HasRow(before, r) && forall k | k in before :: k in after && after[k].id == before[k].id
    ensures HasRow(after, r)
  {
    var k :| k in before && before[k].id == r;
    assert after[k].id == r;
  }

  lemma UpsertOneSchema(db: Db, a: AccountId, user: UserId, d: Droplet)
    requires Schema(db) && a in db.accounts
    ensures Schema(UpsertOne(db, a, user, d))
  {
    var t := UpsertOne(db, a, user, d);
    UpsertOneKeepsIds(db, a, user, d);
    UpsertOneDistinct(db, a, user, d);
    forall r | r in t.credentials ensures HasRow(t.droplets, r) {
      HasRowStays(db.droplets, t.droplets, r);
    }
  }

  lemma {:induction false} UpsertAllSchema(db: Db, a: AccountId, user: UserId, ds: seq<Droplet>)
    requires Schema(db) && a in db.accounts
    ensures var t := UpsertAll(db, a, user, ds);
            && Schema(t) && t.nextRow >= db.nextRow
            && t.accounts == db.accounts && t.credentials == db.credentials && t.jobs == db.jobs
    decreases |ds|
  {
    if ds != [] {
      UpsertAllSchema(db, a, user, ds[..|ds| - 1]);
      UpsertOneSchema(UpsertAll(db, a, user, ds[..|ds| - 1]), a, user, ds[|ds| - 1]);
    }
  }

  predicate Listed(a: AccountId, ds: seq<Droplet>, k: Key) {
    k.account == a && k.providerId in Ids(ds)
  }

  lemma UpsertOneRow(db: Db, a: AccountId, user: UserId, d: Droplet, k: Key)
    ensures var t := UpsertOne(db, a, user, d);
            if k != Key(a, d.providerId) then (k in t.droplets <==> k in db.droplets)
                && (k in db.droplets ==> t.droplets[k] == db.droplets[k])
            else k in t.droplets && RowMirrors(db.droplets, t.droplets[k], k, user, d.info, db.nextRow)
  {
  }

  lemma {:induction false} UpsertAllRow(db: Db, a: AccountId, user: UserId, ds: seq<Droplet>, k: Key)
    requires Schema(db) && a in db.accounts
    ensures var t := UpsertAll(db, a, user, ds);
            && (k in t.droplets <==> k in db.droplets || Listed(a, ds, k))
            && (Listed(a, ds, k)
                ==> RowMirrors(db.droplets, t.droplets[k], k, user, LastInfo(ds, k.providerId), db.nextRow))
            && (k in db.droplets && !Listed(a, ds, k) ==> t.droplets[k] == db.droplets[k])
    decreases |ds|
  {
    if ds != [] {
      var n := |ds| - 1;
      UpsertAllRow(db, a, user, ds[..n], k);
      UpsertAllSchema(db, a, user, ds[..n]);
      IdsOfPrefix(ds);
      UpsertOneRow(UpsertAll(db, a, user, ds[..n]), a, user, ds[n], k);
    }
  }

  lemma DeleteDropletsEffect(db: Db, gone: set<Key>)
    requires Schema(db)
    ensures Schema(DeleteDroplets(db, gone))
    ensures forall k | k in db.droplets && k !in gone ::
              var r := db.droplets[k].id;
              && (r in DeleteDroplets(db, gone).credentials <==> r in db.credentials)
              && (r in db.credentials ==> DeleteDroplets(db, gone).credentials[r] == db.credentials[r])
    ensures forall k | k in db.droplets && k in gone :: db.droplets[k].id !in DeleteDroplets(db, gone).credentials
  {
    var t := DeleteDroplets(db, gone);
    forall r | r in t.credentials ensures HasRow(t.droplets, r) {
      var k :| k in db.droplets && db.droplets[k].id == r;
      assert k in t.droplets && t.droplets[k].id == r;
    }
  }

  /** What a mirrored table holds at one key: for the synced account exactly the listed droplets, for any other
      account what was there before. */
  ghost predicate MirrorsAt(db: Db, t: Db, a: AccountId, user: UserId, ds: seq<Droplet>, k: Key) {
    if k.account != a then
      (k in t.droplets <==> k in db.droplets) && (k in db.droplets ==> t.droplets[k] == db.droplets[k])
    else
      && (k in t.droplets <==> k.providerId in Ids(ds))
      && (k in t.droplets ==> RowMirrors(db.droplets, t.droplets[k], k, user, LastInfo(ds, k.providerId), db.nextRow))
  }

  /** A surviving row keeps its credential, a vanished row takes its credential along. */
  ghost predicate CredentialFollows(db: Db, t: Db, k: Key)
    requires k in db.droplets
  {
    var r := db.droplets[k].id;
    if k in t.droplets
    then (r in t.credentials <==> r in db.credentials)
        && (r in db.credentials ==> t.credentials[r] == db.credentials[r])
    else r !in t.credentials
  }

  lemma MirrorAt(db: Db, a: AccountId, user: UserId, ds: seq<Droplet>, k: Key)
    requires Schema(db) && a in db.accounts
    ensures MirrorsAt(db, Mirror(db, a, user, ds), a, user, ds, k)
  {
    UpsertAllRow(db, a, user, ds, k);
  }

  lemma MirrorCredential(db: Db, a: AccountId, user: UserId, ds: seq<Droplet>, k: Key)
    requires Schema(db) && a in db.accounts && k in db.droplets
    ensures CredentialFollows(db, Mirror(db, a, user, ds), k)
  {
    var up := UpsertAll(db, a, user, ds);
    UpsertAllSchema(db, a, user, ds);
    UpsertAllRow(db, a, user, ds, k);
    DeleteDropletsEffect(up, Missing(up, a, Ids(ds)));
  }

  /** The mirror law. After a successful sync the rows of the account are exactly the listed droplets, each with
      the fields of its last occurrence and the owner that was read; survivors keep row id, project and
      credential; new rows get unused ids; rows of other accounts, and their credentials, are untouched; the
      credentials of vanished rows are gone. */
  lemma MirrorIsExact(db: Db, a: AccountId, user: UserId, ds: seq<Droplet>)
    requires Schema(db) && a in db.accounts
    ensures var t := Mirror(db, a, user, ds);
            && Schema(t) && t.accounts == db.accounts && t.jobs == db.jobs
            && (forall k: Key :: MirrorsAt(db, t, a, user, ds, k))
            && (forall k | k in db.droplets :: CredentialFollows(db, t, k))
  {
    var t := Mirror(db, a, user, ds);
    UpsertAllSchema(db, a, user, ds);
    DeleteDropletsEffect(UpsertAll(db, a, user, ds), Missing(UpsertAll(db, a, user, ds), a, Ids(ds)));
    forall k: Key ensures MirrorsAt(db, t, a, user, ds, k) { MirrorAt(db, a, user, ds, k); }
    forall k | k in db.droplets ensures CredentialFollows(db, t, k) { MirrorCredential(db, a, user, ds, k); }
  }

  // ---- ownership ----

  /** A sync writes the owner it read earlier: the droplets of the account end up with their account's owner
      exactly if no transfer has changed the owner since, or the listing is empty. */
  lemma SyncOwnership(db: Db, a: AccountId, user: UserId, ds: seq<Droplet>)
    requires Schema(db) && a in db.accounts
    ensures (forall k | k in Mirror(db, a, user, ds).droplets && k.account == a ::
               Mirror(db, a, user, ds).droplets[k].user == db.accounts[a].user)
       <==> ds == [] || user == db.accounts[a].user
  {
    var t := Mirror(db, a, user, ds);
    MirrorIsExact(db, a, user, ds);
    if ds == [] {
      assert Ids(ds) == {};
      forall k: Key ensures !(k in t.droplets && k.account == a) { assert MirrorsAt(db, t, a, user, ds, k); }
    } else {
      assert ds[0].providerId in Ids(ds);
      assert MirrorsAt(db, t, a, user, ds, Key(a, ds[0].providerId));
      forall k | k in t.droplets && k.account == a ensures t.droplets[k].user == user {
        assert MirrorsAt(db, t, a, user, ds, k);
      }
    }
  }

  lemma MirrorConsistent(db: Db, a: AccountId, ds: seq<Droplet>)
    requires Consistent(db) && a in db.accounts
    ensures Consistent(Mirror(db, a, db.accounts[a].user, ds))
  {
    var user := db.accounts[a].user;
    var t := Mirror(db, a, user, ds);
    MirrorIsExact(db, a, user, ds);
    forall k | k in t.droplets ensures t.droplets[k].user == db.accounts[k.account].user {
      assert MirrorsAt(db, t, a, user, ds, k);
    }
    forall k | k in t.droplets && t.droplets[k].id in t.credentials
      ensures t.credentials[t.droplets[k].id].user == t.droplets[k].user
    {
      MirroredCredentialOwner(db, a, ds, k);
    }
  }

  lemma MirroredCredentialOwner(db: Db, a: AccountId, ds: seq<Droplet>, k: Key)
    requires Consistent(db) && a in db.accounts
    requires var t := Mirror(db, a, db.accounts[a].user, ds); k in t.droplets && t.droplets[k].id in t.credentials
    ensures var t := Mirror(db, a, db.accounts[a].user, ds);
            t.credentials[t.droplets[k].id].user == t.droplets[k].user
  {
    var user := db.accounts[a].user;
    var t := Mirror(db, a, user, ds);
    MirrorIsExact(db, a, user, ds);
    assert MirrorsAt(db, t, a, user, ds, k);
    var up := UpsertAll(db, a, user, ds);
    UpsertAllSchema(db, a, user, ds);
    assert t.droplets[k].id in db.credentials;
    var l :| l in db.droplets && db.droplets[l].id == t.droplets[k].id;
    UpsertAllRow(db, a, user, ds, l);
    UpsertAllRow(db, a, user, ds, k);
    assert l == k;
    assert CredentialFollows(db, t, k);
  }

  lemma TransferConsistent(db: Db, a: AccountId, user: UserId)
    requires Consistent(db)
    ensures Consistent(Transfer(db, a, user))
  {
    var t := Transfer(db, a, user);
    forall r | r in t.credentials ensures HasRow(t.droplets, r) { HasRowStays(db.droplets, t.droplets, r); }
    forall k | k in t.droplets && t.droplets[k].id in t.credentials
      ensures t.credentials[t.droplets[k].id].user == t.droplets[k].user
    {
      assert OfAccount(db, a, db.droplets[k].id) <==> k.account == a;
    }
  }

  /** A transfer writes the owner into the account, its droplets and their credentials, and nothing else anywhere. */
  lemma TransferIsExact(db: Db, a: AccountId, user: UserId)
    requires Schema(db) && a in db.accounts
    ensures var t := Transfer(db, a, user);
            && t.accounts == db.accounts[a := db.accounts[a].(user := user)]
            && t.droplets.Keys == db.droplets.Keys && t.credentials.Keys == db.credentials.Keys && t.jobs == db.jobs
            && forall k | k in db.droplets ::
                 var r := db.droplets[k].id;
                 if k.account == a then
                   && t.droplets[k] == db.droplets[k].(user := user)
                   && (r in db.credentials ==> t.credentials[r] == db.credentials[r].(user := user))
                 else
                   && t.droplets[k] == db.droplets[k]
                   && (r in db.credentials ==> t.credentials[r] == db.credentials[r])
  {
    forall k | k in db.droplets ensures OfAccount(db, a, db.droplets[k].id) <==> k.account == a {
      if l :| l in db.droplets && l.account == a && db.droplets[l].id == db.droplets[k].id { assert l == k; }
    }
  }

  /** A deletion takes away what belongs to the account, and leaves everything of other accounts as it is. */
  lemma DeleteAccountIsExact(db: Db, a: AccountId)
    requires Schema(db)
    ensures var t := DeleteAccount(db, a);
            && t.accounts == db.accounts - {a}
            && (forall k :: k in t.droplets <==> k in db.droplets && k.account != a)
            && (forall k | k in t.droplets :: t.droplets[k] == db.droplets[k] && CredentialFollows(db, t, k))
            && (forall j :: j in t.jobs <==> j in db.jobs && db.jobs[j].account != Some(a))
            && (forall j | j in t.jobs :: t.jobs[j] == db.jobs[j])
            && (forall k | k in db.droplets && k.account == a :: db.droplets[k].id !in t.credentials)
  {
    DeleteDropletsEffect(db, set k | k in db.droplets && k.account == a);
  }

  lemma DeleteAccountConsistent(db: Db, a: AccountId)
    requires Consistent(db)
    ensures Consistent(DeleteAccount(db, a))
    ensures forall k | k in DeleteAccount(db, a).droplets :: k.account != a
    ensures forall j | j in DeleteAccount(db, a).jobs :: DeleteAccount(db, a).jobs[j].account != Some(a)
  {
    DeleteDropletsEffect(db, set k | k in db.droplets && k.account == a);
  }

  /** Writing a credential keeps the tables consistent exactly if it is written for the droplet's owner. */
  lemma PutCredentialConsistent(db: Db, k: Key, user: UserId, secret: Sealed)
    requires Consistent(db) && k in db.droplets
    ensures Consistent(PutCredential(db, user, db.droplets[k].id, secret)) <==> user == db.droplets[k].user
  {
    assert HasRow(db.droplets, db.droplets[k].id);
  }

  // ---- serial runs ----

  datatype Secret = Secret(id: ProviderId, sealed: Sealed)

  datatype Op =
    | OpAddAccount(a: AccountId, user: UserId)
    | OpSync(a: AccountId, ds: seq<Droplet>)             // reads the account row and mirrors the listing
    | OpTransfer(a: AccountId, user: UserId)
    | OpDelete(a: AccountId)
    | OpCreate(a: AccountId, refresh: seq<Droplet>, closing: Option<seq<Droplet>>, ids: seq<ProviderId>,
               project: string, secrets: seq<Secret>)
    | OpPutCredential(k: Key, secret: Sealed)
    | OpStale(k: Key)
    | OpProject(k: Key, project: string)
    | OpEnqueue(id: JobId, row: JobRow)

  /** The updates of the project column; a row that does not exist is a failure and changes nothing. */
  function SetProjects(db: Db, a: AccountId, ids: seq<ProviderId>, project: string): Db {
    if ids == [] then db
    else
      var before, k := SetProjects(db, a, ids[..|ids| - 1], project), Key(a, ids[|ids| - 1]);
      if k in before.droplets then SetProject(before, k, project) else before
  }

  /** The credentials a create job stores: for the owner it has read at its start. */
  function PutAll(db: Db, a: AccountId, user: UserId, secrets: seq<Secret>): Db {
    if secrets == [] then db
    else
      var before, last := PutAll(db, a, user, secrets[..|secrets| - 1]), secrets[|secrets| - 1];
      var k := Key(a, last.id);
      if k in before.droplets then PutCredential(before, user, before.droplets[k].id, last.sealed) else before
  }

  /** What a create job does to the tables once it has been admitted: the refresh, the closing sync if it succeeds,
      the projects, the credentials. */
  function Create(db: Db, a: AccountId, user: UserId, refresh: seq<Droplet>, closing: Option<seq<Droplet>>,
                  ids: seq<ProviderId>, project: string, secrets: seq<Secret>): Db
  {
    var refreshed := Mirror(db, a, user, refresh);
    var synced := if closing.Some? then Mirror(refreshed, a, user, closing.value) else refreshed;
    PutAll(SetProjects(synced, a, ids, project), a, user, secrets)
  }

  /** One operation run on its own; foreign keys turn an operation on a missing row into a failure. */
  function Exec(db: Db, op: Op): Db {
    match op
    case OpAddAccount(a, user) => if a in db.accounts then db else AddAccount(db, a, user)
    case OpSync(a, ds) => if a in db.accounts then Mirror(db, a, db.accounts[a].user, ds) else db
    case OpTransfer(a, user) => Transfer(db, a, user)
    case OpDelete(a) => DeleteAccount(db, a)
    case OpCreate(a, refresh, closing, ids, project, secrets) =>
      if a in db.accounts then Create(db, a, db.accounts[a].user, refresh, closing, ids, project, secrets) else db
    case OpPutCredential(k, secret) =>
      if k in db.droplets then PutCredential(db, db.droplets[k].user, db.droplets[k].id, secret) else db
    case OpStale(k) => if k in db.droplets then StaleCredentialAt(db, db.droplets[k].id) else db
    case OpProject(k, project) => if k in db.droplets then SetProject(db, k, project) else db
    case OpEnqueue(id, row) =>
      if id !in db.jobs && (row.account.Some? ==> row.account.value in db.accounts) then AddJob(db, id, row) else db
  }

  function ExecAll(db: Db, ops: seq<Op>): Db {
    if ops == [] then db else Exec(ExecAll(db, ops[..|ops| - 1]), ops[|ops| - 1])
  }

  lemma ProjectKeeps(db: Db, k: Key, project: string)
    requires k in db.droplets
    ensures Keeps(db, SetProject(db, k, project))
  {
    var t := SetProject(db, k, project);
    if Schema(db) {
      forall r | r in t.credentials ensures HasRow(t.droplets, r) { HasRowStays(db.droplets, t.droplets, r); }
    }
  }

  ghost predicate OwnedBy(db: Db, a: AccountId, user: UserId) {
    a in db.accounts && db.accounts[a].user == user
  }

  lemma PutCredentialKeeps(db: Db, k: Key, user: UserId, secret: Sealed)
    requires k in db.droplets && (db.droplets[k].user == user || OwnedBy(db, k.account, user))
    ensures Keeps(db, PutCredential(db, user, db.droplets[k].id, secret))
  {
    assert HasRow(db.droplets, db.droplets[k].id);
    if Consistent(db) { PutCredentialConsistent(db, k, user, secret); }
  }

  lemma {:induction false} SetProjectsKeep(db: Db, a: AccountId, ids: seq<ProviderId>, project: string)
    ensures Keeps(db, SetProjects(db, a, ids, project)) && SetProjects(db, a, ids, project).accounts == db.accounts
    decreases |ids|
  {
    if ids != [] {
      var before, k := SetProjects(db, a, ids[..|ids| - 1], project), Key(a, ids[|ids| - 1]);
      SetProjectsKeep(db, a, ids[..|ids| - 1], project);
      if k in before.droplets { ProjectKeeps(before, k, project); }
    }
  }

  lemma {:induction false} PutAllKeeps(db: Db, a: AccountId, user: UserId, secrets: seq<Secret>)
    requires OwnedBy(db, a, user)
    ensures Keeps(db, PutAll(db, a, user, secrets)) && PutAll(db, a, user, secrets).accounts == db.accounts
    decreases |secrets|
  {
    if secrets != [] {
      var before, last := PutAll(db, a, user, secrets[..|secrets| - 1]), secrets[|secrets| - 1];
      var k := Key(a, last.id);
      PutAllKeeps(db, a, user, secrets[..|secrets| - 1]);
      if k in before.droplets { PutCredentialKeeps(before, k, user, last.sealed); }
    }
  }

  lemma MirrorKeeps(db: Db, a: AccountId, ds: seq<Droplet>)
    requires a in db.accounts
    ensures var t := Mirror(db, a, db.accounts[a].user, ds);
            Keeps(db, t) && t.accounts == db.accounts && t.jobs == db.jobs
  {
    UpsertAllTables(db, a, db.accounts[a].user, ds);
    if Schema(db) { MirrorIsExact(db, a, db.accounts[a].user, ds); }
    if Consistent(db) { MirrorConsistent(db, a, ds); }
  }

  lemma CreateKeeps(db: Db, a: AccountId, refresh: seq<Droplet>, closing: Option<seq<Droplet>>,
                    ids: seq<ProviderId>, project: string, secrets: seq<Secret>)
    requires a in db.accounts
    ensures var t := Create(db, a, db.accounts[a].user, refresh, closing, ids, project, secrets);
            Keeps(db, t) && t.accounts == db.accounts
  {
    var user := db.accounts[a].user;
    var refreshed := Mirror(db, a, user, refresh);
    MirrorKeeps(db, a, refresh);
    var synced := if closing.Some? then Mirror(refreshed, a, user, closing.value) else refreshed;
    if closing.Some? { MirrorKeeps(refreshed, a, closing.value); }
    SetProjectsKeep(synced, a, ids, project);
    PutAllKeeps(SetProjects(synced, a, ids, project), a, user, secrets);
  }

  /** The project column is set for exactly the ids that have a row; nothing else changes. */
  lemma {:induction false} SetProjectsAt(db: Db, a: AccountId, ids: seq<ProviderId>, project: string, k: Key)
    ensures var t := SetProjects(db, a, ids, project);
            && t.accounts == db.accounts && t.credentials == db.credentials && t.jobs == db.jobs
            && (k in t.droplets <==> k in db.droplets)
            && (k in db.droplets ==>
                  t.droplets[k] == if k.account == a && k.providerId in ids
                                   then db.droplets[k].(project := Some(project)) else db.droplets[k])
    decreases |ids|
  {
    if ids != [] {
      var n := |ids| - 1;
      SetProjectsAt(db, a, ids[..n], project, k);
      SetProjectsAt(db, a, ids[..n], project, Key(a, ids[n]));
      assert ids == ids[..n] + [ids[n]];
    }
  }

  /** The secret that is stored last for an id. */
  function LastSecret(secrets: seq<Secret>, id: ProviderId): Option<Sealed> {
    if secrets == [] then None
    else if secrets[|secrets| - 1].id == id then Some(secrets[|secrets| - 1].sealed)
    else LastSecret(secrets[..|secrets| - 1], id)
  }

  /** A droplet of the account ends up with an active credential of this user that holds the last secret for its id, and
      keeps its credential, or has none, where there is no secret. */
  lemma {:induction false} PutAllAt(db: Db, a: AccountId, user: UserId, secrets: seq<Secret>, k: Key)
    requires DistinctIds(db.droplets) && k in db.droplets
    ensures var t := PutAll(db, a, user, secrets);
            var r := db.droplets[k].id;
            && t.accounts == db.accounts && t.droplets == db.droplets && t.jobs == db.jobs
            && (if k.account == a && LastSecret(secrets, k.providerId).Some?
                then r in t.credentials
                     && t.credentials[r] == Credential(user, LastSecret(secrets, k.providerId).value, Active)
                else (r in t.credentials <==> r in db.credentials)
                     && (r in t.credentials ==> t.credentials[r] == db.credentials[r]))
    decreases |secrets|
  {
    if secrets != [] { PutAllAt(db, a, user, secrets[..|secrets| - 1], k); }
  }

  /** What a create job leaves of a droplet: the row as its last sync has mirrored it, with the project if its id was
      among those to be assigned, and the last secret stored for it. */
  lemma CreateIsExact(db: Db, a: AccountId, user: UserId, refresh: seq<Droplet>, closing: Option<seq<Droplet>>,
                      ids: seq<ProviderId>, project: string, secrets: seq<Secret>, k: Key)
    requires Schema(db) && a in db.accounts
    ensures var refreshed := Mirror(db, a, user, refresh);
            var synced := if closing.Some? then Mirror(refreshed, a, user, closing.value) else refreshed;
            var t := Create(db, a, user, refresh, closing, ids, project, secrets);
            && (k in t.droplets <==> k in synced.droplets)
            && (k in t.droplets ==>
                  && t.droplets[k] == (if k.account == a && k.providerId in ids
                                       then synced.droplets[k].(project := Some(project)) else synced.droplets[k])
                  && (k.account == a && LastSecret(secrets, k.providerId).Some? ==>
                        && t.droplets[k].id in t.credentials
                        && t.credentials[t.droplets[k].id]
                           == Credential(user, LastSecret(secrets, k.providerId).value, Active))
                  && (k.account != a || LastSecret(secrets, k.providerId).None? ==>
                        && (t.droplets[k].id in t.credentials <==> t.droplets[k].id in synced.credentials)
                        && (t.droplets[k].id in t.credentials ==>
                              t.credentials[t.droplets[k].id] == synced.credentials[t.droplets[k].id])))
  {
    MirrorIsExact(db, a, user, refresh);
    var refreshed := Mirror(db, a, user, refresh);
    if closing.Some? { MirrorIsExact(refreshed, a, user, closing.value); }
    var synced := if closing.Some? then Mirror(refreshed, a, user, closing.value) else refreshed;
    var projected := SetProjects(synced, a, ids, project);
    SetProjectsAt(synced, a, ids, project, k);
    SetProjectsKeep(synced, a, ids, project);
    KeepsMeans(synced, projected);
    if k in projected.droplets { PutAllAt(projected, a, user, secrets, k); }
    PutAllTables(projected, a, user, secrets);
  }

  lemma {:induction false} PutAllTables(db: Db, a: AccountId, user: UserId, secrets: seq<Secret>)
    ensures PutAll(db, a, user, secrets).droplets == db.droplets
    decreases |secrets|
  {
    if secrets != [] { PutAllTables(db, a, user, secrets[..|secrets| - 1]); }
  }

  lemma TransferKeeps(db: Db, a: AccountId, user: UserId)
    ensures Keeps(db, Transfer(db, a, user))
  {
    var t := Transfer(db, a, user);
    if Schema(db) {
      forall r | r in t.credentials ensures HasRow(t.droplets, r) { HasRowStays(db.droplets, t.droplets, r); }
      assert Schema(t);
    }
    if Consistent(db) { TransferConsistent(db, a, user); }
  }

  lemma DeleteAccountKeeps(db: Db, a: AccountId)
    ensures Keeps(db, DeleteAccount(db, a))
  {
    if Schema(db) {
      DeleteDropletsEffect(db, set k | k in db.droplets && k.account == a);
      assert Schema(DeleteAccount(db, a));
    }
    if Consistent(db) { DeleteAccountConsistent(db, a); }
  }

  lemma AddJobKeeps(db: Db, id: JobId, row: JobRow)
    requires row.account.Some? ==> row.account.value in db.accounts
    ensures Keeps(db, AddJob(db, id, row))
  {
  }

  lemma AddAccountKeeps(db: Db, a: AccountId, user: UserId)
    requires a !in db.accounts
    ensures Keeps(db, AddAccount(db, a, user))
  {
  }

  lemma StaleKeeps(db: Db, r: RowId)
    ensures Keeps(db, StaleCredentialAt(db, r))
  {
  }

  lemma AccountOpKeeps(db: Db, op: Op)
    requires op.OpAddAccount? || op.OpTransfer? || op.OpDelete? || op.OpEnqueue?
    ensures Keeps(db, Exec(db, op))
  {
    match op
    case OpAddAccount(a, user) => if a !in db.accounts { AddAccountKeeps(db, a, user); }
    case OpTransfer(a, user) => TransferKeeps(db, a, user);
    case OpDelete(a) => DeleteAccountKeeps(db, a);
    case OpEnqueue(id, row) =>
      if id !in db.jobs && (row.account.Some? ==> row.account.value in db.accounts) { AddJobKeeps(db, id, row); }
  }

  lemma DropletOpKeeps(db: Db, op: Op)
    requires op.OpSync? || op.OpCreate? || op.OpPutCredential? || op.OpStale? || op.OpProject?
    ensures Keeps(db, Exec(db, op))
  {
    match op
    case OpSync(a, ds) => if a in db.accounts { MirrorKeeps(db, a, ds); }
    case OpCreate(a, refresh, closing, ids, project, secrets) =>
      if a in db.accounts { CreateKeeps(db, a, refresh, closing, ids, project, secrets); }
    case OpPutCredential(k, secret) =>
      if k in db.droplets { PutCredentialKeeps(db, k, db.droplets[k].user, secret); }
    case OpStale(k) => if k in db.droplets { StaleKeeps(db, db.droplets[k].id); }
    case OpProject(k, project) => if k in db.droplets { ProjectKeeps(db, k, project); }
  }

  lemma ExecKeeps(db: Db, op: Op)
    ensures Keeps(db, Exec(db, op))
  {
    if op.OpAddAccount? || op.OpTransfer? || op.OpDelete? || op.OpEnqueue? {
      AccountOpKeeps(db, op);
    } else {
      DropletOpKeeps(db, op);
    }
  }

  lemma {:induction false} SerialRunsKeep(db: Db, ops: seq<Op>)
    ensures Keeps(db, ExecAll(db, ops))
    decreases |ops|
  {
    if ops != [] {
      SerialRunsKeep(db, ops[..|ops| - 1]);
      ExecKeeps(ExecAll(db, ops[..|ops| - 1]), ops[|ops| - 1]);
    }
  }

  /** After any serial run every droplet has its account's owner, every credential its droplet's owner, and no
      droplet, credential or account-bound job has outlived its parent. References alone are kept as well, from
      tables with any owners. */
  lemma SerialRunsStayConsistent(db: Db, ops: seq<Op>)
    ensures Consistent(db) ==> Consistent(ExecAll(db, ops))
    ensures Schema(db) ==> Schema(ExecAll(db, ops))
  {
    SerialRunsKeep(db, ops);
    KeepsMeans(db, ExecAll(db, ops));
  }

  lemma {:induction false} OwnerStays(db: Db, ops: seq<Op>, a: AccountId)
    requires a in db.accounts && Schema(db)
    requires forall i | 0 <= i < |ops| :: ops[i] != OpDelete(a) && !(ops[i].OpTransfer? && ops[i].a == a)
    ensures a in ExecAll(db, ops).accounts && ExecAll(db, ops).accounts[a].user == db.accounts[a].user
    decreases |ops|
  {
    if ops != [] {
      var n := |ops| - 1;
      OwnerStays(db, ops[..n], a);
      var m := ExecAll(db, ops[..n]);
      if ops[n].OpSync? && ops[n].a in m.accounts {
        UpsertAllTables(m, ops[n].a, m.accounts[ops[n].a].user, ops[n].ds);
      } else if ops[n].OpCreate? && ops[n].a in m.accounts {
        CreateKeeps(m, ops[n].a, ops[n].refresh, ops[n].closing, ops[n].ids, ops[n].project, ops[n].secrets);
      }
    }
  }

  lemma {:induction false} UpsertAllTables(db: Db, a: AccountId, user: UserId, ds: seq<Droplet>)
    ensures UpsertAll(db, a, user, ds).accounts == db.accounts && UpsertAll(db, a, user, ds).jobs == db.jobs
    decreases |ds|
  {
    if ds != [] { UpsertAllTables(db, a, user, ds[..|ds| - 1]); }
  }

  /** Whatever the owners of the rows were, one sync that has read its account after the last transfer makes
      the account's droplets belong to the account's owner again. */
  lemma LateSyncRestoresOwnership(db: Db, ops: seq<Op>, a: AccountId, ds: seq<Droplet>)
    requires a in db.accounts && Schema(db)
    requires forall i | 0 <= i < |ops| :: ops[i] != OpDelete(a) && !(ops[i].OpTransfer? && ops[i].a == a)
    ensures var t := Mirror(ExecAll(db, ops), a, db.accounts[a].user, ds);
            a in t.accounts && forall k | k in t.droplets && k.account == a :: t.droplets[k].user == t.accounts[a].user
  {
    OwnerStays(db, ops, a);
    SerialRunsStayConsistent(db, ops);
    SyncOwnership(ExecAll(db, ops), a, db.accounts[a].user, ds);
    MirrorIsExact(ExecAll(db, ops), a, db.accounts[a].user, ds);
  }
}
