/** The usage summaries and what a transfer does to them. */
module Usage {
  import opened Common
  import opened Jobs
  import opened Inventory

  datatype Field = CloudAccounts | UnhealthyAccounts | Droplets | ActiveDroplets | Vcpus | MemoryMb

  function AccountWeight(f: Field, row: Account): int {
    match f
    case CloudAccounts => 1
    case UnhealthyAccounts => if row.credentialStatus != "valid" then 1 else 0
    case _ => 0
  }

  function DropletWeight(f: Field, row: DropletRow): int {
    match f
    case Droplets => 1
    case ActiveDroplets => if row.info.status == "active" then 1 else 0
    case Vcpus => row.info.vcpus
    case MemoryMb => row.info.memoryMb
    case _ => 0
  }

  function AccountWeights(db: Db, f: Field): map<AccountId, int> {
    map a | a in db.accounts :: AccountWeight(f, db.accounts[a])
  }

  function DropletWeights(db: Db, f: Field): map<Key, int> {
    map k | k in db.droplets :: DropletWeight(f, db.droplets[k])
  }

  function AccountOwners(db: Db): map<AccountId, UserId> {
    map a | a in db.accounts :: db.accounts[a].user
  }

  function DropletOwners(db: Db): map<Key, UserId> {
    map k | k in db.droplets :: db.droplets[k].user
  }

  /** One integer column of the summary query; no scope means all users. */
  ghost function Value(db: Db, f: Field, scope: Option<UserId>): int {
    match scope
    case None => Sum(AccountWeights(db, f)) + Sum(DropletWeights(db, f))
    case Some(u) =>
      Sum(Part(AccountWeights(db, f), AccountOwners(db), u)) + Sum(Part(DropletWeights(db, f), DropletOwners(db), u))
  }

  /** The columns about droplets owe nothing to the accounts table. */
  lemma NoAccountWeight(db: Db, f: Field, user: UserId)
    requires f.Droplets? || f.ActiveDroplets? || f.Vcpus? || f.MemoryMb?
    ensures Value(db, f, Some(user)) == Sum(Part(DropletWeights(db, f), DropletOwners(db), user))
  {
    SumZero(Part(AccountWeights(db, f), AccountOwners(db), user));
  }

  /** And those about accounts nothing to the droplets. */
  lemma NoDropletWeight(db: Db, f: Field, user: UserId)
    requires f.CloudAccounts? || f.UnhealthyAccounts?
    ensures Value(db, f, Some(user)) == Sum(Part(AccountWeights(db, f), AccountOwners(db), user))
  {
    SumZero(Part(DropletWeights(db, f), DropletOwners(db), user));
  }

  // ---- what the columns stand for ----

  function AccountsOf(db: Db, user: UserId): set<AccountId> {
    set a | a in db.accounts && db.accounts[a].user == user
  }

  function UnhealthyOf(db: Db, user: UserId): set<AccountId> {
    set a | a in db.accounts && db.accounts[a].user == user && db.accounts[a].credentialStatus != "valid"
  }

  function DropletsOf(db: Db, user: UserId): set<Key> {
    set k | k in db.droplets && db.droplets[k].user == user
  }

  function ActiveOf(db: Db, user: UserId): set<Key> {
    set k | k in db.droplets && db.droplets[k].user == user && db.droplets[k].info.status == "active"
  }

  function VcpusOf(db: Db, user: UserId): map<Key, int> {
    map k | k in db.droplets && db.droplets[k].user == user :: db.droplets[k].info.vcpus
  }

  function MemoryOf(db: Db, user: UserId): map<Key, int> {
    map k | k in db.droplets && db.droplets[k].user == user :: db.droplets[k].info.memoryMb
  }

  /** Two columns of a user's summary count accounts, all of them and those without a valid credential. */
  lemma AccountColumns(db: Db, user: UserId)
    ensures Value(db, CloudAccounts, Some(user)) == |AccountsOf(db, user)|
    ensures Value(db, UnhealthyAccounts, Some(user)) == |UnhealthyOf(db, user)|
  {
    NoDropletWeight(db, CloudAccounts, user);
    NoDropletWeight(db, UnhealthyAccounts, user);
    SumOfMarks(Part(AccountWeights(db, CloudAccounts), AccountOwners(db), user), AccountsOf(db, user));
    SumOfMarks(Part(AccountWeights(db, UnhealthyAccounts), AccountOwners(db), user), UnhealthyOf(db, user));
  }

  /** Two count droplets, all of them and those that are active. */
  lemma DropletColumns(db: Db, user: UserId)
    ensures Value(db, Droplets, Some(user)) == |DropletsOf(db, user)|
    ensures Value(db, ActiveDroplets, Some(user)) == |ActiveOf(db, user)|
  {
    NoAccountWeight(db, Droplets, user);
    NoAccountWeight(db, ActiveDroplets, user);
    SumOfMarks(Part(DropletWeights(db, Droplets), DropletOwners(db), user), DropletsOf(db, user));
    SumOfMarks(Part(DropletWeights(db, ActiveDroplets), DropletOwners(db), user), ActiveOf(db, user));
  }

  /** And two add up the vCPUs and the memory of all the user's droplets. */
  lemma SummedColumns(db: Db, user: UserId)
    ensures Value(db, Vcpus, Some(user)) == Sum(VcpusOf(db, user))
    ensures Value(db, MemoryMb, Some(user)) == Sum(MemoryOf(db, user))
  {
    NoAccountWeight(db, Vcpus, user);
    NoAccountWeight(db, MemoryMb, user);
    assert Part(DropletWeights(db, Vcpus), DropletOwners(db), user) == VcpusOf(db, user);
    assert Part(DropletWeights(db, MemoryMb), DropletOwners(db), user) == MemoryOf(db, user);
  }

  ghost predicate AllOwnersIn(db: Db, users: set<UserId>) {
    && (forall a | a in db.accounts :: db.accounts[a].user in users)
    && (forall k | k in db.droplets :: db.droplets[k].user in users)
  }

  ghost function UserValues(db: Db, f: Field, users: set<UserId>): map<UserId, int> {
    map u | u in users :: Value(db, f, Some(u))
  }

  lemma UserValuesSplit(db: Db, f: Field, users: set<UserId>)
    ensures Sum(UserValues(db, f, users))
         == Sum(Shares(AccountWeights(db, f), AccountOwners(db), users)) + Sum(Shares(DropletWeights(db, f),
                                                                                      DropletOwners(db), users))
  {
    SumPointwise(Shares(AccountWeights(db, f), AccountOwners(db), users),
                 Shares(DropletWeights(db, f), DropletOwners(db), users), UserValues(db, f, users));
  }

  /** Every integer field of the administrator's summary is the sum of the users' own summaries. */
  lemma GlobalIsSumOfUsers(db: Db, f: Field, users: set<UserId>)
    requires AllOwnersIn(db, users)
    ensures Value(db, f, None) == Sum(UserValues(db, f, users))
  {
    UserValuesSplit(db, f, users);
    SumByOwner(AccountWeights(db, f), AccountOwners(db), users);
    SumByOwner(DropletWeights(db, f), DropletOwners(db), users);
  }

  /** What one account contributes: itself and its droplets. */
  ghost function Contribution(db: Db, f: Field, a: AccountId): int {
    Sum(Only(AccountWeights(db, f), {a})) + Sum(Only(DropletWeights(db, f), KeysOf(db, a)))
  }

  function KeysOf(db: Db, a: AccountId): set<Key> {
    set k | k in db.droplets && k.account == a
  }

  lemma TransferKeepsWeights(db: Db, f: Field, a: AccountId, user: UserId)
    ensures AccountWeights(Transfer(db, a, user), f) == AccountWeights(db, f)
    ensures DropletWeights(Transfer(db, a, user), f) == DropletWeights(db, f)
  {
  }

  lemma TransferMovesAccount(db: Db, f: Field, a: AccountId, user: UserId, w: UserId)
    requires a in db.accounts
    ensures var m := AccountWeights(db, f);
            (Sum(Part(m, AccountOwners(Transfer(db, a, user)), w)) - Sum(Part(m, AccountOwners(db), w))
             == (if w == user then Sum(Only(m, {a})) else 0)
                - (if w == db.accounts[a].user then Sum(Only(m, {a})) else 0))
  {
    Reassign(AccountWeights(db, f), AccountOwners(db), AccountOwners(Transfer(db, a, user)), {a}, db.accounts[a].user,
             user, w);
  }

  lemma TransferMovesDroplets(db: Db, f: Field, a: AccountId, user: UserId, w: UserId)
    requires a in db.accounts && DropletsOwned(db)
    ensures var m := DropletWeights(db, f);
            (Sum(Part(m, DropletOwners(Transfer(db, a, user)), w)) - Sum(Part(m, DropletOwners(db), w))
             == (if w == user then Sum(Only(m, KeysOf(db, a))) else 0)
                - (if w == db.accounts[a].user then Sum(Only(m, KeysOf(db, a))) else 0))
  {
    Reassign(DropletWeights(db, f), DropletOwners(db), DropletOwners(Transfer(db, a, user)), KeysOf(db, a),
             db.accounts[a].user, user, w);
  }

  /** A transfer moves exactly the account's contribution from the old owner to the new one: the global summary
      and those of all other users stay, and so does everything when the account already belongs to the target. */
  lemma TransferMovesContribution(db: Db, f: Field, a: AccountId, user: UserId, w: UserId)
    requires a in db.accounts && DropletsOwned(db)
    ensures var t, from := Transfer(db, a, user), db.accounts[a].user;
            && Value(t, f, None) == Value(db, f, None)
            && Value(t, f, Some(w)) == Value(db, f, Some(w))
                 + (if w == user then Contribution(db, f, a) else 0) - (if w == from then Contribution(db, f, a) else 0)
  {
    TransferKeepsWeights(db, f, a, user);
    TransferMovesAccount(db, f, a, user, w);
    TransferMovesDroplets(db, f, a, user, w);
  }
}
