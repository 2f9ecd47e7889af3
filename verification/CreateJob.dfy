/** The body of create_droplets jobs: refresh, check the quota, create, then bring the local rows up to date. */
module CreateJob {
  import opened Common
  import opened Jobs
  import opened Inventory
  import opened StoreLayer
  import opened ProviderLayer
  import opened SyncJob
  import opened CreateRequests
  import opened Requests
  import U = Usage

  // ---- checkQuota ----

  /** One of these sizes has this slug, and no earlier one has. */
  ghost predicate IsFirstWith(sizes: seq<Size>, slug: string, size: Size) {
    exists i :: 0 <= i < |sizes| && sizes[i] == size && size.slug == slug
                && forall j | 0 <= j < i :: sizes[j].slug != slug
  }

  ghost predicate Answered(c: Call) {
    c.SizesCall? && c.sizes.Some?
  }

  /** What the provider has answered from call `n` on about the size with this slug: the size is in an answer, or no
      answer has one with this slug. */
  ghost predicate SizeAnswered(calls: seq<Call>, n: nat, slug: string, size: Option<Size>) {
    match size
    case Some(found) => exists i :: n <= i < |calls| && Answered(calls[i])
                                    && IsFirstWith(calls[i].sizes.value, slug, found)
    case None => forall i | n <= i < |calls| && Answered(calls[i]) ::
                   forall j | 0 <= j < |calls[i].sizes.value| :: calls[i].sizes.value[j].slug != slug
  }

  /** Calls that do not ask for sizes do not change what has been answered about them. */
  lemma SameAnswers(log0: seq<Call>, log1: seq<Call>, log2: seq<Call>, slug: string, size: Option<Size>)
    requires Grew(log0, log1) && Grew(log1, log2) && LooksFrom(log1, |log0|)
    requires SizeAnswered(log2, |log1|, slug, size)
    ensures SizeAnswered(log2, |log0|, slug, size)
  {
    assert forall i | 0 <= i < |log1| :: log1[i] == log2[..|log1|][i] == log2[i];
    if size.Some? {
      var i :| |log1| <= i < |log2| && Answered(log2[i]) && IsFirstWith(log2[i].sizes.value, slug, size.value);
      assert |log0| <= i;
    }
  }

  ghost predicate Fits(used: int, each: int, count: nat, quota: Option<nat>) {
    quota.Some? ==> used + each * count <= quota.value
  }

  /** What the quotas of a user demand of `count` more droplets of a size: an unlimited resource demands nothing,
      a limited one must still hold once they are all there. A size must be known only if vCPUs or memory are
      limited. */
  ghost predicate Admits(db: Db, q: Quotas, user: UserId, size: Option<Size>, count: nat) {
    Leaves(q, |U.DropletsOf(db, user)|, Sum(U.VcpusOf(db, user)), Sum(U.MemoryOf(db, user)), size, count)
  }

  /** The same, by what the user has already. */
  ghost predicate Leaves(q: Quotas, droplets: int, vcpus: int, memory: int, size: Option<Size>, count: nat) {
    && Fits(droplets, 1, count, q.droplets)
    && (q.vcpus.Some? || q.memoryMb.Some? ==> size.Some?)
    && (size.Some? ==> Fits(vcpus, size.value.vcpus, count, q.vcpus))
    && (size.Some? ==> Fits(memory, size.value.memory, count, q.memoryMb))
  }

  method SelectSize(sizes: seq<Size>, slug: string) returns (selected: Option<Size>)
    ensures selected.Some? ==> IsFirstWith(sizes, slug, selected.value)
    ensures selected.None? ==> forall i | 0 <= i < |sizes| :: sizes[i].slug != slug
  {
    selected := None;
    for i := 0 to |sizes|
      invariant selected.None? && forall j | 0 <= j < i :: sizes[j].slug != slug
    {
      if sizes[i].slug == slug {
        return Some(sizes[i]);
      }
    }
  }

  /** The numbers compared with the quotas; the provider's sizes are asked for only when they matter. */
  method CompareWithQuota(provider: Provider, q: Quotas, droplets: int, vcpus: int, memory: int, slug: string,
                          count: nat)
    returns (ok: bool, ghost size: Option<Size>)
    modifies provider
    ensures Grew(old(provider.log), provider.log) && ReadsOnlyFrom(provider.log, |old(provider.log)|)
    ensures SizeAnswered(provider.log, |old(provider.log)|, slug, size)
    ensures ok ==> GoodFrom(provider.log, |old(provider.log)|)
    ensures GoodFrom(provider.log, |old(provider.log)|) ==> (ok <==> Leaves(q, droplets, vcpus, memory, size, count))
  {
    ok, size := false, None;
    if q.droplets.Some? && droplets + count > q.droplets.value {
      return;
    }
    if q.vcpus.None? && q.memoryMb.None? {
      return true, None;
    }
    ghost var m := |provider.log|;
    var sizes := provider.Sizes();
    assert provider.log[m] == SizesCall(sizes);
    if sizes.None? {
      return;
    }
    var selected := SelectSize(sizes.value, slug);
    size := selected;
    if selected.None? {
      return;
    }
    if q.vcpus.Some? && vcpus + selected.value.vcpus * count > q.vcpus.value {
      return;
    }
    if q.memoryMb.Some? && memory + selected.value.memory * count > q.memoryMb.value {
      return;
    }
    ok := true;
  }

  /** Admits the request exactly if everything could be read and the quotas allow it. */
  method CheckQuota(store: Store, provider: Provider, user: UserId, slug: string, count: nat)
    returns (ok: bool, ghost size: Option<Size>)
    modifies store`log, provider
    ensures NoLocksFrom(store.log, |old(store.log)|)
    ensures Grew(old(store.log), store.log) && Grew(old(provider.log), provider.log)
    ensures ReadsOnlyFrom(provider.log, |old(provider.log)|)
    ensures SizeAnswered(provider.log, |old(provider.log)|, slug, size)
    ensures ok ==> OkFrom(store.log, |old(store.log)|) && GoodFrom(provider.log, |old(provider.log)|)
    ensures ok ==> user in store.quotas && Admits(store.Tables(), store.quotas[user], user, size, count)
    ensures !ok && OkFrom(store.log, |old(store.log)|) && GoodFrom(provider.log, |old(provider.log)|) ==>
              user in store.quotas && !Admits(store.Tables(), store.quotas[user], user, size, count)
  {
    ok, size := false, None;
    ghost var n := |store.log|;
    var quotas := store.GetUserQuotas(user);
    assert store.log[n].ok == quotas.Some?;
    if quotas.None? {
      return;
    }
    var read, droplets, vcpus, memory := store.UserUsage(user);
    assert store.log[n + 1].ok == read;
    if !read {
      return;
    }
    ok, size := CompareWithQuota(provider, quotas.value, droplets, vcpus, memory, slug, count);
  }

  // ---- persistDropletProjects ----

  /** One update per id, in order. */
  ghost predicate SetsEach(entries: seq<Entry>, a: AccountId, ids: seq<ProviderId>) {
    |entries| == |ids| && forall i | 0 <= i < |ids| :: entries[i].statement == SetProjectOf(Key(a, ids[i]))
  }

  /** The failures of these updates: one for every update that did not succeed, in order. */
  function ProjectFailures(entries: seq<Entry>, ids: seq<ProviderId>): seq<Failure>
    requires |entries| == |ids|
  {
    if ids == [] then []
    else
      var n := |ids| - 1;
      ProjectFailures(entries[..n], ids[..n]) + if entries[n].ok then [] else [LocalProjectFailed(ids[n])]
  }

  ghost predicate WasSet(entries: seq<Entry>, a: AccountId, ids: seq<ProviderId>, k: Key)
    requires |entries| == |ids|
  {
    exists i :: 0 <= i < |ids| && Key(a, ids[i]) == k && entries[i].ok
  }

  /** The rows whose update succeeded carry the project, and nothing else has changed. */
  ghost predicate ProjectsSet(before: map<Key, DropletRow>, after: map<Key, DropletRow>, a: AccountId,
                              ids: seq<ProviderId>, entries: seq<Entry>, project: string)
    requires |entries| == |ids|
  {
    && before.Keys == after.Keys
    && (forall i | 0 <= i < |ids| && entries[i].ok :: Key(a, ids[i]) in before)
    && forall k | k in before :: after[k] == if WasSet(entries, a, ids, k) then before[k].(project := Some(project))
      else before[k]
  }

  ghost predicate ProjectsTried(before: map<Key, DropletRow>, after: map<Key, DropletRow>, a: AccountId,
                                ids: seq<ProviderId>, entries: seq<Entry>, failures: seq<Failure>, project: string) {
    && SetsEach(entries, a, ids) && failures == ProjectFailures(entries, ids)
    && ProjectsSet(before, after, a, ids, entries, project)
  }

  lemma OneMoreProject(before: map<Key, DropletRow>, mid: map<Key, DropletRow>, after: map<Key, DropletRow>,
                       a: AccountId,
                       ids: seq<ProviderId>, id: ProviderId, entries: seq<Entry>, e: Entry, failures: seq<Failure>,
                       project: string)
    requires ProjectsTried(before, mid, a, ids, entries, failures, project) && e.statement == SetProjectOf(Key(a, id))
    requires e.ok ==> Key(a, id) in mid && after == mid[Key(a, id) := mid[Key(a, id)].(project := Some(project))]
    requires !e.ok ==> after == mid
    ensures ProjectsTried(before, after, a, ids + [id], entries + [e],
                          if e.ok then failures else failures + [LocalProjectFailed(id)], project)
  {
    var n := |ids|;
    assert (ids + [id])[..n] == ids && (entries + [e])[..n] == entries;
    forall k | k in before
      ensures WasSet(entries + [e], a, ids + [id], k) <==> WasSet(entries, a, ids, k) || (k == Key(a, id) && e.ok) {
      if WasSet(entries, a, ids, k) {
        var i :| 0 <= i < n && Key(a, ids[i]) == k && entries[i].ok;
        assert (ids + [id])[i] == ids[i] && (entries + [e])[i] == entries[i];
      }
      assert (ids + [id])[n] == id && (entries + [e])[n] == e;
    }
  }

  lemma OkFromSnoc(entries: seq<Entry>, e: Entry)
    ensures OkFrom(entries + [e], 0) <==> OkFrom(entries, 0) && e.ok
  {
    OkFromSplit([], entries, entries + [e]);
    assert (entries + [e])[|entries|] == e;
  }

  lemma {:induction false} NoProjectFailures(entries: seq<Entry>, ids: seq<ProviderId>)
    requires |entries| == |ids|
    ensures ProjectFailures(entries, ids) == [] <==> OkFrom(entries, 0)
    decreases |ids|
  {
    if ids != [] {
      var n := |ids| - 1;
      NoProjectFailures(entries[..n], ids[..n]);
      OkFromSnoc(entries[..n], entries[n]);
      assert entries == entries[..n] + [entries[n]];
    }
  }

  lemma ProjectsKeep(db: Db, after: map<Key, DropletRow>, a: AccountId, ids: seq<ProviderId>, entries: seq<Entry>,
                     project: string)
    requires |entries| == |ids| && ProjectsSet(db.droplets, after, a, ids, entries, project)
    ensures Keeps(db, db.(droplets := after)) && (DistinctIds(db.droplets) ==> DistinctIds(after))
  {
    if Schema(db) {
      forall r | r in db.credentials ensures HasRow(after, r) { HasRowStays(db.droplets, after, r); }
      assert Schema(db.(droplets := after));
    }
  }

  /** One of these updates, and what it does to the rows. */
  method TryProject(store: Store, k: Key, project: string) returns (ok: bool)
    modifies store`droplets, store`log
    ensures store.log == old(store.log) + [Entry(SetProjectOf(k), ok)]
    ensures ok ==> k in old(store.droplets)
                   && store.droplets == old(store.droplets)[k := old(store.droplets)[k].(project := Some(project))]
    ensures !ok ==> store.droplets == old(store.droplets)
  {
    ok := store.SetDropletProject(k, project);
  }

  method TryProjects(store: Store, a: AccountId, ids: seq<ProviderId>, project: string)
    returns (failures: seq<Failure>, ghost entries: seq<Entry>)
    modifies store`droplets, store`log
    ensures store.log == old(store.log) + entries
    ensures ProjectsTried(old(store.droplets), store.droplets, a, ids, entries, failures, project)
  {
    failures, entries := [], [];
    ghost var log0, droplets0 := store.log, store.droplets;
    for i := 0 to |ids|
      invariant store.log == log0 + entries
      invariant ProjectsTried(droplets0, store.droplets, a, ids[..i], entries, failures, project)
    {
      ghost var mid := store.droplets;
      var ok := TryProject(store, Key(a, ids[i]), project);
      ghost var e := Entry(SetProjectOf(Key(a, ids[i])), ok);
      OneMoreProject(droplets0, mid, store.droplets, a, ids[..i], ids[i], entries, e, failures, project);
      assert ids[..i + 1] == ids[..i] + [ids[i]];
      entries := entries + [e];
      if !ok {
        failures := failures + [LocalProjectFailed(ids[i])];
      }
    }
    assert ids[..|ids|] == ids;
  }

  /** Tries every id, whatever happens to the others. */
  method PersistDropletProjects(store: Store, a: AccountId, ids: seq<ProviderId>, project: string)
    returns (failures: seq<Failure>, ghost entries: seq<Entry>)
    modifies store`droplets, store`log
    ensures store.log == old(store.log) + entries
    ensures ProjectsTried(old(store.droplets), store.droplets, a, ids, entries, failures, project)
    ensures Keeps(old(store.Tables()), store.Tables())
        && (old(DistinctIds(store.droplets)) ==> DistinctIds(store.droplets))
  {
    ghost var before := store.Tables();
    failures, entries := TryProjects(store, a, ids, project);
    ProjectsKeep(before, store.droplets, a, ids, entries, project);
  }

  // ---- root passwords ----

  /** An active credential of this droplet and user that opens to exactly this password. */
  ghost predicate Holds(droplets: map<Key, DropletRow>, credentials: map<RowId, Credential>, k: Key, user: UserId,
                        password: string) {
    && k in droplets && droplets[k].id in credentials
    && credentials[droplets[k].id].status == Active && credentials[droplets[k].id].user == user
    && Decrypt(credentials[droplets[k].id].secret, droplets[k].id) == Some(password)
  }

  ghost predicate SameCredential(droplets: map<Key, DropletRow>, before: map<RowId, Credential>,
                                 after: map<RowId, Credential>, k: Key) {
    k in droplets ==>
      && (droplets[k].id in after <==> droplets[k].id in before)
      && (droplets[k].id in before ==> after[droplets[k].id] == before[droplets[k].id])
  }

  /** One password: find the row, encrypt for that row, store. */
  method StoreOne(store: Store, provider: Provider, a: AccountId, user: UserId, id: ProviderId, password: string)
    returns (ok: bool)
    requires DistinctIds(store.droplets) && OwnedBy(store.Tables(), a, user)
    modifies store`credentials, store`log, provider
    ensures NoLocksFrom(store.log, |old(store.log)|)
    ensures Grew(old(store.log), store.log) && Grew(old(provider.log), provider.log)
    ensures ok <==> OkFrom(store.log, |old(store.log)|) && GoodFrom(provider.log, |old(provider.log)|)
    ensures if ok then Holds(store.droplets, store.credentials, Key(a, id), user, password)
      else store.credentials == old(store.credentials)
    ensures forall k | k != Key(a, id) :: SameCredential(store.droplets, old(store.credentials), store.credentials, k)
    ensures Keeps(old(store.Tables()), store.Tables())
  {
    ok := false;
    ghost var n, m := |store.log|, |provider.log|;
    var row := store.GetDropletByProviderID(Key(a, id));
    assert store.log[n].ok == row.Some?;
    if row.None? {
      return;
    }
    var secret := provider.Encrypt(password, row.value.id);
    assert provider.log[m].Failed() == secret.None?;
    if secret.None? {
      return;
    }
    PutCredentialKeeps(store.Tables(), Key(a, id), user, secret.value);
    ok := store.UpsertRootCredential(user, row.value.id, secret.value);
    assert store.log[n + 1].ok == ok;
  }

  ghost predicate Reports(failures: seq<Failure>, failed: set<ProviderId>) {
    && (forall id :: CredentialFailed(id) in failures <==> id in failed)
    && (forall f | f in failures :: f.CredentialFailed?)
    && |failures| == |failed|
  }

  /** How the walk through the passwords stands: the ids in `stored` hold their password, those in `failed` are
      reported, and no other credential was touched. */
  ghost predicate Walked(droplets: map<Key, DropletRow>, before: map<RowId, Credential>, after: map<RowId, Credential>,
                         a: AccountId, user: UserId, passwords: map<ProviderId, string>, stored: set<ProviderId>) {
    && (forall id | id in stored :: id in passwords && Holds(droplets, after, Key(a, id), user, passwords[id]))
    && (forall k: Key | k.account != a || k.providerId !in stored :: SameCredential(droplets, before, after, k))
  }

  lemma WalkOn(droplets: map<Key, DropletRow>, before: map<RowId, Credential>, mid: map<RowId, Credential>,
               after: map<RowId, Credential>,
               a: AccountId, user: UserId, passwords: map<ProviderId, string>, stored: set<ProviderId>, id: ProviderId)
    requires Walked(droplets, before, mid, a, user, passwords, stored) && id in passwords && id !in stored
    requires Holds(droplets, after, Key(a, id), user, passwords[id])
    requires forall k | k != Key(a, id) :: SameCredential(droplets, mid, after, k)
    ensures Walked(droplets, before, after, a, user, passwords, stored + {id})
  {
    forall i | i in stored ensures Holds(droplets, after, Key(a, i), user, passwords[i]) {
      assert SameCredential(droplets, mid, after, Key(a, i));
    }
    forall k: Key | k.account != a || k.providerId !in stored + {id}
      ensures SameCredential(droplets, before, after, k) {
      assert SameCredential(droplets, before, mid, k) && SameCredential(droplets, mid, after, k);
    }
  }

  lemma ReportOne(failures: seq<Failure>, failed: set<ProviderId>, id: ProviderId)
    requires Reports(failures, failed) && id !in failed
    ensures Reports(failures + [CredentialFailed(id)], failed + {id})
  {
  }

  /** Every id is either still to be walked to, stored or reported, and only one of these. */
  ghost predicate Splits(all: set<ProviderId>, todo: set<ProviderId>, stored: set<ProviderId>,
                         failed: set<ProviderId>) {
    forall id ::
      && (id in all <==> id in todo || id in stored || id in failed)
      && (id in todo ==> id !in stored && id !in failed) && (id in stored ==> id !in failed)
  }

  /** Walks the passwords in whatever order the map yields them. */
  method StoreCredentials(store: Store, provider: Provider, a: AccountId, user: UserId,
                          passwords: map<ProviderId, string>)
    returns (failures: seq<Failure>, ghost stored: set<ProviderId>, ghost failed: set<ProviderId>)
    requires DistinctIds(store.droplets) && OwnedBy(store.Tables(), a, user)
    modifies store`credentials, store`log, provider
    ensures NoLocksFrom(store.log, |old(store.log)|)
    ensures Grew(old(store.log), store.log) && Grew(old(provider.log), provider.log)
    ensures forall id :: id in passwords <==> id in stored || id in failed
    ensures Reports(failures, failed) && forall id | id in stored :: id !in failed
    ensures failures == [] <==> OkFrom(store.log, |old(store.log)|) && GoodFrom(provider.log, |old(provider.log)|)
    ensures Walked(store.droplets, old(store.credentials), store.credentials, a, user, passwords, stored)
    ensures Keeps(old(store.Tables()), store.Tables())
  {
    failures, stored, failed := [], {}, {};
    ghost var before := store.Tables();
    var todo := passwords.Keys;
    ghost var log0, calls0, credentials0 := store.log, provider.log, store.credentials;
    var more := true;
    while more
      invariant Grew(log0, store.log) && Grew(calls0, provider.log) && NoLocksFrom(store.log, |log0|)
      invariant failures == [] <==> OkFrom(store.log, |log0|) && GoodFrom(provider.log, |calls0|)
      invariant Splits(passwords.Keys, todo, stored, failed) && (more || forall id :: id !in todo)
      invariant Reports(failures, failed) && Keeps(before, store.Tables())
      invariant Walked(store.droplets, credentials0, store.credentials, a, user, passwords, stored)
      decreases todo, more
    {
      if id :| id in todo {
        ghost var mid, log1, calls1 := store.credentials, store.log, provider.log;
        var ok := StoreOne(store, provider, a, user, id, passwords[id]);
        OkFromSplit(log0, log1, store.log);
        GoodFromSplit(calls0, calls1, provider.log);
        todo := todo - {id};
        if ok {
          WalkOn(store.droplets, credentials0, mid, store.credentials, a, user, passwords, stored, id);
          stored := stored + {id};
        } else {
          ReportOne(failures, failed, id);
          failures, failed := failures + [CredentialFailed(id)], failed + {id};
        }
      } else {
        more := false;
      }
    }
  }

  // ---- after the requests ----

  /** Whether the provider has taken the assignment to the project. */
  datatype Assignment = NotAsked | Taken | Refused

  /** What the steps after the requests came to: the assignment to the project,
      whether the sync went well, the updates of the local project column, and the credentials not stored. */
  datatype Report = Report(outcome: Assignment, synced: bool, entries: seq<Entry>, unstored: seq<Failure>)

  ghost predicate Recorded(failures: seq<Failure>, report: Report, created: seq<ProviderId>) {
    && (report.outcome.Taken? ==> |report.entries| == |created|)
    && failures
       == (if report.outcome.Refused? then [ProjectFailed] else [])
          + (if report.synced then [] else [SyncFailed])
          + (if report.outcome.Taken? then ProjectFailures(report.entries, created) else [])
          + report.unstored
  }

  /** The project is assigned, to all created droplets at once, if there is one and anything was created. */
  ghost predicate AssignedFirst(log: seq<Call>, n: nat, outcome: Assignment, created: seq<ProviderId>,
                                project: string) {
    if created == [] || project == "" then outcome.NotAsked?
    else !outcome.NotAsked? && n < |log| && log[n] == AssignCall(project, created, outcome.Taken?)
  }

  ghost predicate Assigned(log: seq<Call>, outcome: Assignment, created: seq<ProviderId>, project: string) {
    if created == [] || project == "" then outcome.NotAsked?
    else !outcome.NotAsked? && AssignCall(project, created, outcome.Taken?) in log
  }

  /** Every created droplet has a row with the project, if one was asked for. */
  ghost predicate ProjectEverywhere(droplets: map<Key, DropletRow>, a: AccountId, created: seq<ProviderId>,
                                    project: string) {
    project != "" ==> forall id | id in created :: Key(a, id) in droplets
                                                   && droplets[Key(a, id)].project == Some(project)
  }

  lemma AllProjectsSet(before: map<Key, DropletRow>, after: map<Key, DropletRow>, a: AccountId, ids: seq<ProviderId>,
                       entries: seq<Entry>, project: string)
    requires |entries| == |ids| && ProjectsSet(before, after, a, ids, entries, project) && OkFrom(entries, 0)
    ensures ProjectEverywhere(after, a, ids, project)
  {
    forall id | id in ids ensures Key(a, id) in after && after[Key(a, id)].project == Some(project) {
      var i :| 0 <= i < |ids| && ids[i] == id;
      assert WasSet(entries, a, ids, Key(a, id));
    }
  }

  method AssignAtProvider(provider: Provider, created: seq<ProviderId>, project: string) returns (outcome: Assignment)
    modifies provider
    ensures Grew(old(provider.log), provider.log)
    ensures outcome.NotAsked? <==> created == [] || project == ""
    ensures provider.log == old(provider.log) + if outcome.NotAsked? then []
      else [AssignCall(project, created, outcome.Taken?)]
    ensures !outcome.Refused? <==> GoodFrom(provider.log, |old(provider.log)|)
  {
    outcome := NotAsked;
    ghost var m := |provider.log|;
    if created != [] && project != "" {
      var good := provider.AssignProject(project, created);
      assert provider.log[m].Failed() == !good;
      outcome := if good then Taken else Refused;
    }
  }

  /** The local project column: only if the provider has taken the assignment. */
  method PersistIfAssigned(store: Store, a: AccountId, created: seq<ProviderId>, project: string, outcome: Assignment)
    returns (failures: seq<Failure>, ghost entries: seq<Entry>)
    requires outcome.NotAsked? <==> created == [] || project == ""
    modifies store`droplets, store`log
    ensures store.log == old(store.log) + entries
    ensures outcome.Taken? ==> SetsEach(entries, a, created) && failures == ProjectFailures(entries, created)
                                        && ProjectsSet(old(store.droplets), store.droplets, a, created, entries,
                                                       project)
    ensures !outcome.Taken? ==> entries == [] && failures == [] && store.droplets == old(store.droplets)
    ensures failures == [] <==> OkFrom(store.log, |old(store.log)|)
    ensures NoLocksFrom(store.log, |old(store.log)|)
    ensures failures == [] && !outcome.Refused? ==> ProjectEverywhere(store.droplets, a, created, project)
    ensures Keeps(old(store.Tables()), store.Tables())
        && (old(DistinctIds(store.droplets)) ==> DistinctIds(store.droplets))
  {
    failures, entries := [], [];
    if outcome.Taken? {
      failures, entries := PersistDropletProjects(store, a, created, project);
      NoProjectFailures(entries, created);
      OkFromTail(old(store.log), entries);
      if failures == [] {
        AllProjectsSet(old(store.droplets), store.droplets, a, created, entries, project);
      }
    }
  }

  /** Local rows and root passwords, once the closing sync has been tried. */
  method StoreLocally(store: Store, provider: Provider, a: AccountId, user: UserId, created: seq<ProviderId>,
                      project: string, outcome: Assignment, passwords: map<ProviderId, string>)
    returns (rows: seq<Failure>, unstored: seq<Failure>, ghost entries: seq<Entry>)
    requires DistinctIds(store.droplets) && OwnedBy(store.Tables(), a, user)
    requires outcome.NotAsked? <==> created == [] || project == ""
    modifies store`droplets, store`credentials, store`log, provider
    ensures NoLocksFrom(store.log, |old(store.log)|)
    ensures Grew(old(store.log), store.log) && Grew(old(provider.log), provider.log)
    ensures if outcome.Taken? then |entries| == |created| && rows == ProjectFailures(entries, created) else rows == []
    ensures forall f | f in unstored :: f.CredentialFailed? && f.id in passwords
    ensures rows == unstored == [] <==> OkFrom(store.log, |old(store.log)|)
                                        && GoodFrom(provider.log, |old(provider.log)|)
    ensures rows == [] && !outcome.Refused? ==> ProjectEverywhere(store.droplets, a, created, project)
    ensures forall id | id in passwords && CredentialFailed(id) !in unstored ::
              Holds(store.droplets, store.credentials, Key(a, id), user, passwords[id])
    ensures Keeps(old(store.Tables()), store.Tables())
  {
    ghost var log0 := store.log;
    rows, entries := PersistIfAssigned(store, a, created, project, outcome);
    ghost var log1 := store.log;
    ghost var stored, failed;
    unstored, stored, failed := StoreCredentials(store, provider, a, user, passwords);
    OkFromSplit(log0, log1, store.log);
  }

  /** The steps at the provider: the project, and the closing sync whatever came of it. */
  method AssignAndSync(store: Store, provider: Provider, a: AccountId, created: seq<ProviderId>, project: string,
                       now: Time)
    returns (outcome: Assignment, synced: bool)
    modifies store`accounts, store`droplets, store`credentials, store`nextRow, store`log, provider
    ensures NoLocksFrom(store.log, |old(store.log)|)
    ensures Grew(old(store.log), store.log) && Grew(old(provider.log), provider.log)
    ensures AssignedFirst(provider.log, |old(provider.log)|, outcome, created, project)
    ensures !outcome.Refused? && synced <==> OkFrom(store.log, |old(store.log)|)
                                             && GoodFrom(provider.log, |old(provider.log)|)
    ensures synced ==> SyncedAt(store.accounts, a, now)
    ensures OnlyStatus(old(store.accounts), store.accounts, a) && Keeps(old(store.Tables()), store.Tables())
  {
    ghost var calls0 := provider.log;
    outcome := AssignAtProvider(provider, created, project);
    ghost var calls1 := provider.log;
    var count, _, _ := SyncAccount(store, provider, a, now);
    GoodFromSplit(calls0, calls1, provider.log);
    synced := count.Some?;
  }

  /** Project, closing sync, local project column and root passwords; nothing here undoes a create. */
  method Settle(store: Store, provider: Provider, a: AccountId, user: UserId, created: seq<ProviderId>, project: string,
                passwords: map<ProviderId, string>, now: Time)
    returns (failures: seq<Failure>, ghost report: Report)
    requires Schema(store.Tables()) && OwnedBy(store.Tables(), a, user)
    modifies store`accounts, store`droplets, store`credentials, store`nextRow, store`log, provider
    ensures NoLocksFrom(store.log, |old(store.log)|)
    ensures Grew(old(store.log), store.log) && Grew(old(provider.log), provider.log)
    ensures Recorded(failures, report, created)
    ensures AssignedFirst(provider.log, |old(provider.log)|, report.outcome, created, project)
    ensures failures == [] <==> OkFrom(store.log, |old(store.log)|) && GoodFrom(provider.log, |old(provider.log)|)
    ensures failures == [] ==> ProjectEverywhere(store.droplets, a, created, project)
                               && SyncedAt(store.accounts, a, now)
    ensures forall id | id in passwords && CredentialFailed(id) !in failures ::
              Holds(store.droplets, store.credentials, Key(a, id), user, passwords[id])
    ensures Keeps(old(store.Tables()), store.Tables())
  {
    ghost var before, log0, calls0 := store.Tables(), store.log, provider.log;
    var outcome, synced := AssignAndSync(store, provider, a, created, project, now);
    KeepsMeans(before, store.Tables());
    ghost var log1, calls1 := store.log, provider.log;
    var rows, unstored;
    ghost var entries;
    rows, unstored, entries := StoreLocally(store, provider, a, user, created, project, outcome, passwords);
    OkFromSplit(log0, log1, store.log);
    GoodFromSplit(calls0, calls1, provider.log);
    failures := (if outcome.Refused? then [ProjectFailed] else []) + (if synced then [] else [SyncFailed])
                + rows + unstored;
    report := Report(outcome, synced, entries, unstored);
  }

  // ---- the job ----

  datatype CreateResult =
    | CreateRefused
    | CreateDone(created: seq<ProviderId>, actionIds: seq<int>, failures: seq<Failure>, state: JobState)

  /** The refresh and the check. What is added up are the tables as the refresh has left them. */
  method RefreshAndCheck(store: Store, provider: Provider, a: AccountId, user: UserId, slug: string, count: nat,
                         now: Time)
    returns (ok: bool, ghost size: Option<Size>, ghost listing: seq<Droplet>)
    modifies store`accounts, store`droplets, store`credentials, store`nextRow, store`log, provider
    ensures NoLocksFrom(store.log, |old(store.log)|)
    ensures Grew(old(store.log), store.log) && Grew(old(provider.log), provider.log)
    ensures ReadsOnlyFrom(provider.log, |old(provider.log)|)
    ensures SizeAnswered(provider.log, |old(provider.log)|, slug, size)
    ensures OnlyStatus(old(store.accounts), store.accounts, a) && Keeps(old(store.Tables()), store.Tables())
    ensures ok ==> OkFrom(store.log, |old(store.log)|) && GoodFrom(provider.log, |old(provider.log)|)
    ensures ok ==> user in store.quotas && Admits(store.Tables(), store.quotas[user], user, size, count)
    ensures ok ==> ShowsMirror(old(store.Tables()), store.Tables(), a, listing) && SyncedAt(store.accounts, a, now)
    ensures !ok && OkFrom(store.log, |old(store.log)|) && GoodFrom(provider.log, |old(provider.log)|) ==>
              user in store.quotas && !Admits(store.Tables(), store.quotas[user], user, size, count)
  {
    ok, size, listing := false, None, [];
    ghost var log0, calls0 := store.log, provider.log;
    var rows, applied, _ := SyncAccount(store, provider, a, now);
    if rows.None? {
      return;
    }
    listing := applied.value;
    ghost var log1, calls1 := store.log, provider.log;
    ok, size := CheckQuota(store, provider, user, slug, count);
    SameAnswers(calls0, calls1, provider.log, slug, size);
    OkFromSplit(log0, log1, store.log);
    GoodFromSplit(calls0, calls1, provider.log);
  }

  /** The owner of the account as read, with the owner's lock. */
  method LockOwner(store: Store, provider: Provider, a: AccountId) returns (owner: Option<UserId>)
    modifies store`log, provider
    ensures Grew(old(store.log), store.log) && Grew(old(provider.log), provider.log)
    ensures LooksFrom(provider.log, |old(provider.log)|)
    ensures owner.Some? <==> OkFrom(store.log, |old(store.log)|) && GoodFrom(provider.log, |old(provider.log)|)
    ensures owner.Some? ==> a in store.accounts && owner.value == store.accounts[a].user
                            && |store.log| == |old(store.log)| + 2
                                && store.log[|old(store.log)|].statement == GetAccount(a)
                            && store.log[|old(store.log)| + 1] == Entry(LockUser(owner.value), true)
  {
    owner := None;
    ghost var log0, calls0 := store.log, provider.log;
    var account, usable := AccountClient(store, provider, a);
    if account.None? || !usable {
      assert account.None? ==> !store.log[|log0|].ok;
      assert account.Some? ==> provider.log[|calls0|].Failed();
      return;
    }
    var ok := store.Lock(account.value.user);
    assert store.log[|log0| + 1] == Entry(LockUser(account.value.user), ok);
    if ok {
      owner := Some(account.value.user);
    }
  }

  /** The lock of the user is taken by the second statement, and kept since. */
  ghost predicate TookLock(log: seq<Entry>, n: nat, user: UserId) {
    && n + 2 <= |log| && log[n].statement.GetAccount?
    && log[n + 1] == Entry(LockUser(user), true) && NoLocksFrom(log, n + 2)
  }

  /** Everything from the second statement on happens in the lock, and its release is the last. */
  ghost predicate HeldLock(log: seq<Entry>, n: nat, user: UserId) {
    n + 2 < |log| && TookLock(log[..|log| - 1], n, user) && log[|log| - 1] == Entry(UnlockUser(user), true)
  }

  /** Admitted under the quotas of the account's owner, on tables refreshed with a listing of the account. */
  ghost predicate Admitted(before: Db, checked: Db, quotas: map<UserId, Quotas>, a: AccountId, listing: seq<Droplet>,
                           size: Option<Size>, count: nat) {
    && a in before.accounts && before.accounts[a].user in quotas
    && ShowsMirror(before, checked, a, listing)
    && Admits(checked, quotas[before.accounts[a].user], before.accounts[a].user, size, count)
  }

  /** Everything before the requests, the check under the owner's lock; a refusal gives the lock back. */
  method Admit(store: Store, provider: Provider, a: AccountId, slug: string, count: nat, now: Time)
    returns (user: Option<UserId>, ghost size: Option<Size>, ghost listing: seq<Droplet>)
    modifies store`accounts, store`droplets, store`credentials, store`nextRow, store`log, provider
    ensures Grew(old(store.log), store.log) && Grew(old(provider.log), provider.log)
    ensures ReadsOnlyFrom(provider.log, |old(provider.log)|)
    ensures SizeAnswered(provider.log, |old(provider.log)|, slug, size)
    ensures Keeps(old(store.Tables()), store.Tables())
    ensures user.Some? ==> OwnedBy(store.Tables(), a, user.value) && SyncedAt(store.accounts, a, now)
    ensures user.Some? ==> OkFrom(store.log, |old(store.log)|) && GoodFrom(provider.log, |old(provider.log)|)
    ensures user.Some? ==> a in old(store.accounts) && user.value == old(store.accounts)[a].user
                           && TookLock(store.log, |old(store.log)|, user.value)
    ensures user.Some? ==> Admitted(old(store.Tables()), store.Tables(), store.quotas, a, listing, size, count)
    ensures user.None? && OkFrom(store.log, |old(store.log)|) && GoodFrom(provider.log, |old(provider.log)|) ==>
              QuotaRefused(store.Tables(), store.quotas, old(store.accounts), a, size, count)
              && HeldLock(store.log, |old(store.log)|, old(store.accounts)[a].user)
  {
    user, size, listing := None, None, [];
    ghost var log0, calls0 := store.log, provider.log;
    var owner := LockOwner(store, provider, a);
    if owner.None? {
      return;
    }
    ghost var log1, calls1 := store.log, provider.log;
    var ok;
    ok, size, listing := RefreshAndCheck(store, provider, a, owner.value, slug, count, now);
    SameAnswers(calls0, calls1, provider.log, slug, size);
    ghost var log2 := store.log;
    OkFromSplit(log0, log1, log2);
    GoodFromSplit(calls0, calls1, provider.log);
    assert TookLock(log2, |log0|, owner.value) by {
      assert log1 == log2[..|log1|] && log2[|log0|] == log1[|log0|] && log2[|log0| + 1] == log1[|log0| + 1];
    }
    if ok {
      user := owner;
    } else {
      store.Unlock(owner.value);
      assert store.log[..|log2|] == log2;
      OkFromSplit(log0, log2, store.log);
      OkFromTail(log2, [Entry(UnlockUser(owner.value), true)]);
    }
  }

  /** What a create job leaves behind for a droplet it created with a root password. */
  ghost predicate Accounted(droplets: map<Key, DropletRow>, credentials: map<RowId, Credential>, a: AccountId,
                            user: UserId, calls: seq<Call>, failures: seq<Failure>, id: ProviderId) {
    && SentFor(calls, id).Some?
    && (Holds(droplets, credentials, Key(a, id), user, SentFor(calls, id).value) || CredentialFailed(id) in failures)
  }

  /** The requests of a job and what it makes of them: every name settled once, in order; the reported ids, actions
      and failures are those of the calls, and every action that names a droplet was waited for. */
  ghost predicate RequestsMade(calls: seq<Call>, names: seq<string>, rootPassword: bool, created: seq<ProviderId>,
                            actionIds: seq<int>, failures: seq<Failure>) {
    var s := Summarize(calls);
    && Creating(calls) && s.settled == names && s.toAwait == s.awaited
    && s.created == created && s.started == actionIds && s.failures == failures
    && (if rootPassword then OnePerName(calls) else OneRequest(calls, names, None))
  }

  function CreateVerdict(created: seq<ProviderId>, failures: seq<Failure>): JobState {
    if created == [] then Failed else if failures != [] then Partial else Succeeded
  }

  lemma RootPasswordsAccounted(calls: seq<Call>, passwords: map<ProviderId, string>, id: ProviderId)
    requires OnePerName(calls) && PasswordsNoted(calls, passwords) && id in Summarize(calls).created
    ensures id in passwords && SentFor(calls, id) == Some(passwords[id])
  {
    EveryCreatedHasPassword(calls, id);
    assert Lookup(passwords, id) == SentFor(calls, id);
  }

  /** The requests and what follows them, once a request has been admitted. `calls` are the calls of the requests,
      `asked` the failures among them. */
  method CreateAdmitted(store: Store, provider: Provider, a: AccountId, user: UserId, payload: Payload, now: Time)
    returns (created: seq<ProviderId>, actionIds: seq<int>, failures: seq<Failure>,
             ghost calls: seq<Call>, ghost asked: seq<Failure>, ghost report: Report)
    requires Schema(store.Tables()) && OwnedBy(store.Tables(), a, user) && payload.CreatePayload?
    modifies store`accounts, store`droplets, store`credentials, store`nextRow, store`log, provider
    ensures NoLocksFrom(store.log, |old(store.log)|)
    ensures Grew(old(store.log), store.log) && Grew(old(provider.log), old(provider.log) + calls)
    ensures Grew(old(provider.log) + calls, provider.log)
    ensures RequestsMade(calls, payload.names, payload.rootPassword, created, actionIds, asked)
    ensures |asked| <= |failures| && failures[..|asked|] == asked && Recorded(failures[|asked|..], report, created)
    ensures AssignedFirst(provider.log, |old(provider.log)| + |calls|, report.outcome, created, payload.project)
    ensures failures == [] <==> OkFrom(store.log, |old(store.log)|) && GoodFrom(provider.log, |old(provider.log)|)
    ensures failures == [] ==> ProjectEverywhere(store.droplets, a, created, payload.project)
                               && SyncedAt(store.accounts, a, now)
    ensures payload.rootPassword ==>
              forall id | id in created :: Accounted(store.droplets, store.credentials, a, user, calls, failures, id)
    ensures Keeps(old(store.Tables()), store.Tables())
  {
    ghost var calls0 := provider.log;
    var run := RunCreates(provider, payload.names, payload.rootPassword);
    calls, asked := run.calls, run.failures;
    ghost var calls1 := provider.log;
    CreateFailuresAreTrue(calls);
    GoodFromTail(calls0, calls);
    var more;
    more, report := Settle(store, provider, a, user, run.createdIds, payload.project, run.passwords, now);
    GoodFromSplit(calls0, calls1, provider.log);
    created, actionIds, failures := run.createdIds, run.actionIds, run.failures + more;
    if payload.rootPassword {
      forall id | id in created ensures Accounted(store.droplets, store.credentials, a, user, calls, failures, id) {
        RootPasswordsAccounted(calls, run.passwords, id);
      }
    }
  }

  lemma UnlockedLast(log1: seq<Entry>, log2: seq<Entry>, n: nat, user: UserId)
    requires Grew(log1, log2) && TookLock(log1, n, user) && NoLocksFrom(log2, |log1|)
    ensures var log3 := log2 + [Entry(UnlockUser(user), true)];
            Grew(log1, log3) && HeldLock(log3, n, user) && (OkFrom(log3, |log1|) <==> OkFrom(log2, |log1|))
  {
    var log3 := log2 + [Entry(UnlockUser(user), true)];
    assert forall i | 0 <= i < |log1| :: log1[i] == log2[..|log1|][i] == log2[i];
    assert log3[..|log2|] == log2;
    OkFromSplit(log1, log2, log3);
    OkFromTail(log2, [Entry(UnlockUser(user), true)]);
  }

  /** CreateAdmitted, and then the lock goes back; `n` is where the job's statements begin. */
  method CreateAndUnlock(store: Store, provider: Provider, a: AccountId, user: UserId, payload: Payload, now: Time,
                         ghost n: nat)
    returns (created: seq<ProviderId>, actionIds: seq<int>, failures: seq<Failure>,
             ghost calls: seq<Call>, ghost asked: seq<Failure>, ghost report: Report)
    requires Schema(store.Tables()) && OwnedBy(store.Tables(), a, user) && payload.CreatePayload?
        && TookLock(store.log, n, user)
    modifies store`accounts, store`droplets, store`credentials, store`nextRow, store`log, provider
    ensures Grew(old(store.log), store.log) && Grew(old(provider.log), provider.log)
    ensures HeldLock(store.log, n, user) && Grew(old(provider.log) + calls, provider.log)
    ensures RequestsMade(calls, payload.names, payload.rootPassword, created, actionIds, asked)
    ensures |asked| <= |failures| && failures[..|asked|] == asked && Recorded(failures[|asked|..], report, created)
    ensures Assigned(provider.log, report.outcome, created, payload.project)
    ensures failures == [] <==> OkFrom(store.log, |old(store.log)|) && GoodFrom(provider.log, |old(provider.log)|)
    ensures failures == [] ==> ProjectEverywhere(store.droplets, a, created, payload.project)
                               && SyncedAt(store.accounts, a, now)
    ensures payload.rootPassword ==>
              forall id | id in created :: Accounted(store.droplets, store.credentials, a, user, calls, failures, id)
    ensures Keeps(old(store.Tables()), store.Tables())
  {
    ghost var log1 := store.log;
    created, actionIds, failures, calls, asked, report := CreateAdmitted(store, provider, a, user, payload, now);
    UnlockedLast(log1, store.log, n, user);
    store.Unlock(user);
  }

  lemma NothingFailedSince(log0: seq<Entry>, log1: seq<Entry>, log2: seq<Entry>, calls0: seq<Call>, calls1: seq<Call>,
                           calls2: seq<Call>)
    requires Grew(log0, log1) && Grew(log1, log2) && Grew(calls0, calls1) && Grew(calls1, calls2)
    requires OkFrom(log1, |log0|) && GoodFrom(calls1, |calls0|)
    ensures Grew(log0, log2) && Grew(calls0, calls2)
    ensures OkFrom(log2, |log0|) && GoodFrom(calls2, |calls0|) <==> OkFrom(log2, |log1|) && GoodFrom(calls2, |calls1|)
  {
    OkFromSplit(log0, log1, log2);
    GoodFromSplit(calls0, calls1, calls2);
  }

  /** createDroplets. `checked` are the tables the quota was checked on and `listing` is what they were refreshed
      with; `before` are the calls up to there, `calls` those of the requests, `asked` the failures among them,
      `report` what followed. */
  method CreateDroplets(store: Store, provider: Provider, account: Option<AccountId>, payload: Payload, now: Time)
    returns (r: CreateResult, ghost checked: Db, ghost listing: seq<Droplet>, ghost size: Option<Size>,
             ghost before: seq<Call>, ghost calls: seq<Call>, ghost asked: seq<Failure>, ghost report: Report)
    requires Schema(store.Tables())
    modifies store`accounts, store`droplets, store`credentials, store`nextRow, store`log, provider
    ensures Grew(old(store.log), store.log) && Grew(old(provider.log), provider.log)
    ensures r.CreateRefused? ==> ReadsOnlyFrom(provider.log, |old(provider.log)|)
    ensures r.CreateDone? ==> account.Some? && payload.CreatePayload? && WorkerAcceptsNames(payload.names)
    ensures r.CreateDone? ==>
              Admitted(old(store.Tables()), checked, store.quotas, account.value, listing, size, |payload.names|)
              && SizeAnswered(before, |old(provider.log)|, payload.size, size)
              && SyncedAt(checked.accounts, account.value, now)
    ensures r.CreateDone? ==> RequestsMade(calls, payload.names, payload.rootPassword, r.created, r.actionIds, asked)
    ensures r.CreateDone? ==> |asked| <= |r.failures| && r.failures[..|asked|] == asked
                              && Recorded(r.failures[|asked|..], report, r.created)
    ensures r.CreateDone? ==> Grew(old(provider.log), before) && Grew(before + calls, provider.log)
    ensures r.CreateDone? ==> Assigned(provider.log, report.outcome, r.created, payload.project)
    ensures r.CreateDone? ==> r.state == CreateVerdict(r.created, r.failures)
    ensures r.CreateDone? ==> (r.state == Succeeded <==>
              r.created != [] && OkFrom(store.log, |old(store.log)|) && GoodFrom(provider.log, |old(provider.log)|))
    ensures r.CreateDone? && r.state == Succeeded ==>
              ProjectEverywhere(store.droplets, account.value, r.created, payload.project)
              && SyncedAt(store.accounts, account.value, now)
    ensures r.CreateDone? && payload.rootPassword ==>
              forall id | id in r.created ::
                Accounted(store.droplets, store.credentials, account.value, old(store.accounts)[account.value].user,
                          calls, r.failures, id)
    ensures r.CreateDone? ==> HeldLock(store.log, |old(store.log)|, old(store.accounts)[account.value].user)
    ensures r.CreateRefused? && account.Some? && payload.CreatePayload? && WorkerAcceptsNames(payload.names)
            && OkFrom(store.log, |old(store.log)|) && GoodFrom(provider.log, |old(provider.log)|) ==>
              QuotaRefused(store.Tables(), store.quotas, old(store.accounts), account.value, size, |payload.names|)
              && SizeAnswered(provider.log, |old(provider.log)|, payload.size, size)
              && HeldLock(store.log, |old(store.log)|, old(store.accounts)[account.value].user)
    ensures Keeps(old(store.Tables()), store.Tables())
  {
    r, checked, listing, size, before, calls, asked := CreateRefused, store.Tables(), [], None, [], [], [];
    report := Report(NotAsked, false, [], []);
    if account.None? || !payload.CreatePayload? || |payload.names| == 0 || |payload.names| > 10 {
      return;
    }
    ghost var before0, log0, calls0 := store.Tables(), store.log, provider.log;
    var user;
    user, size, listing := Admit(store, provider, account.value, payload.size, |payload.names|, now);
    if user.None? {
      return;
    }
    KeepsMeans(before0, store.Tables());
    checked := store.Tables();
    ghost var log1, calls1 := store.log, provider.log;
    before := provider.log;
    var created, actionIds, failures;
    created, actionIds, failures, calls, asked, report :=
      CreateAndUnlock(store, provider, account.value, user.value, payload, now, |log0|);
    NothingFailedSince(log0, log1, store.log, calls0, calls1, provider.log);
    r := CreateDone(created, actionIds, failures, CreateVerdict(created, failures));
  }

  ghost predicate QuotaRefused(db: Db, quotas: map<UserId, Quotas>, accounts: map<AccountId, Account>, a: AccountId,
                               size: Option<Size>, count: nat) {
    && a in accounts && accounts[a].user in quotas
    && !Admits(db, quotas[accounts[a].user], accounts[a].user, size, count)
  }
}
