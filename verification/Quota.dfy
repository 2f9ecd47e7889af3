/** The local quota under any interleaving of create jobs, sync jobs, remote deletes and crashes.

    The table `remote` is what the provider really runs, `local` is the mirror the quota check adds up. */
module Quota {
  import opened Common

  type User = nat
  type Account = nat
  type WorkerId = nat

  datatype Resource = Droplets | Vcpus | Memory
  datatype Size = Size(vcpus: nat, memoryMb: nat)
  datatype Key = Key(account: Account, id: nat)
  type Table = map<Key, Size>

  /** What does not change during a run: who owns an account, the hash of the advisory key, the quotas. */
  datatype Config = Config(owner: Account -> User, hash: User -> int, quota: (User, Resource) -> Option<nat>)

  datatype Request = Request(account: Account, size: Size, count: nat)

  datatype Pc =
    | Idle
    | Syncing(account: Account, rows: Table)      // a sync outside any lock, listing in hand
    | Entered(req: Request)                       // lock taken
    | Refreshing(req: Request, rows: Table)       // listing of the refresh before the check
    | Ready(req: Request)                         // refreshed, about to check the quota
    | Creating(req: Request, budget: nat)         // quota passed, requests going out
    | Settling(req: Request, rows: Table)         // listing of the sync after the creates
    | Leaving(req: Request)                       // about to unlock
  {
    predicate InLock() { !Idle? && !Syncing? }
    predicate Listed() { Refreshing? || Settling? }
    predicate Unsettled() { Creating? || Settling? }
  }

  datatype State = State(remote: Table, local: Table, locks: map<int, WorkerId>, pcs: map<WorkerId, Pc>) {
    function At(w: WorkerId): Pc { if w in pcs then pcs[w] else Idle }
    function Move(w: WorkerId, pc: Pc): State { this.(pcs := pcs[w := pc]) }
  }

  datatype Event =
    | Enter(w: WorkerId, req: Request)
    | List(w: WorkerId, account: Account)
    | Apply(w: WorkerId)
    | SyncFails(w: WorkerId)
    | Check(w: WorkerId)
    | Create(w: WorkerId, id: nat)
    | Leave(w: WorkerId)
    | Crash(w: WorkerId)
    | Delete(key: Key)
    | Resize(key: Key, size: Size)

  function Weight(r: Resource, size: Size): nat {
    match r
    case Droplets => 1
    case Vcpus => size.vcpus
    case Memory => size.memoryMb
  }

  function Cost(r: Resource, size: Size, n: nat): nat {
    Weight(r, size) * n
  }

  lemma CostStep(r: Resource, size: Size, n: nat)
    requires n > 0
    ensures Cost(r, size, n) == Cost(r, size, n - 1) + Weight(r, size)
  {
  }

  ghost function Weights(c: Config, r: Resource, t: Table, u: User): map<Key, int> {
    map k | k in t && c.owner(k.account) == u :: Weight(r, t[k])
  }

  /** What user `u` uses of `r`, summed over all accounts of the user. */
  ghost function Total(c: Config, r: Resource, t: Table, u: User): int {
    Sum(Weights(c, r, t, u))
  }

  function Listing(t: Table, a: Account): Table {
    map k | k in t && k.account == a :: t[k]
  }

  /** The rows of the account are replaced by the listing; other accounts keep theirs. */
  function Mirror(t: Table, a: Account, rows: Table): Table {
    (map k | k in t && k.account != a :: t[k]) + rows
  }

  ghost predicate Fits(c: Config, r: Resource, s: State, req: Request) {
    var q := c.quota(c.owner(req.account), r);
    q.Some? ==> Total(c, r, s.local, c.owner(req.account)) + Cost(r, req.size, req.count) <= q.value
  }

  ghost predicate Admits(c: Config, s: State, req: Request) {
    Fits(c, Droplets, s, req) && Fits(c, Vcpus, s, req) && Fits(c, Memory, s, req)
  }

  function LockKey(c: Config, req: Request): int {
    c.hash(c.owner(req.account))
  }

  /** One step of the world; None when the event cannot happen in this state. */
  ghost function Next(c: Config, s: State, e: Event): Option<State> {
    match e
    case Enter(w, req) =>
      if s.At(w).Idle? && 1 <= req.count <= 10 && LockKey(c, req) !in s.locks
      then Some(s.Move(w, Entered(req)).(locks := s.locks[LockKey(c, req) := w])) else None
    case List(w, a) =>
      (match s.At(w)
       case Idle => Some(s.Move(w, Syncing(a, Listing(s.remote, a))))
       case Entered(req) => if a == req.account then Some(s.Move(w, Refreshing(req, Listing(s.remote, a)))) else None
       case Creating(req, _) => if a == req.account then Some(s.Move(w, Settling(req, Listing(s.remote, a)))) else None
       case _ => None)
    case Apply(w) =>
      (match s.At(w)
       case Syncing(a, rows) => Some(s.Move(w, Idle).(local := Mirror(s.local, a, rows)))
       case Refreshing(req, rows) => Some(s.Move(w, Ready(req)).(local := Mirror(s.local, req.account, rows)))
       case Settling(req, rows) => Some(s.Move(w, Leaving(req)).(local := Mirror(s.local, req.account, rows)))
       case _ => None)
    case SyncFails(w) =>
      (match s.At(w)
       case Syncing(_, _) => Some(s.Move(w, Idle))
       case Entered(req) => Some(s.Move(w, Leaving(req)))
       case Refreshing(req, _) => Some(s.Move(w, Leaving(req)))
       case Creating(req, _) => Some(s.Move(w, Leaving(req)))
       case Settling(req, _) => Some(s.Move(w, Leaving(req)))
       case _ => None)
    case Check(w) =>
      (match s.At(w)
       case Ready(req) => Some(s.Move(w, if Admits(c, s, req) then Creating(req, req.count) else Leaving(req)))
       case _ => None)
    case Create(w, id) =>
      (match s.At(w)
       case Creating(req, budget) =>
         if budget > 0 && Key(req.account, id) !in s.remote
         then Some(s.Move(w, Creating(req, budget - 1)).(remote := s.remote[Key(req.account, id) := req.size]))
           else None
       case _ => None)
    case Leave(w) =>
      (match s.At(w)
       case Leaving(req) => Some(s.Move(w, Idle).(locks := s.locks - {LockKey(c, req)}))
       case _ => None)
    case Crash(w) =>
      Some(s.Move(w, Idle).(locks := if s.At(w).InLock() then s.locks - {LockKey(c, s.At(w).req)} else s.locks))
    case Delete(k) => Some(s.(remote := s.remote - {k}))
    case Resize(k, size) => if k in s.remote then Some(s.(remote := s.remote[k := size])) else None
  }

  // ---- totals ----

  lemma TotalMonotone(c: Config, r: Resource, a: Table, b: Table, u: User)
    requires forall k | k in a && c.owner(k.account) == u :: k in b && Weight(r, a[k]) <= Weight(r, b[k])
    ensures Total(c, r, a, u) <= Total(c, r, b, u)
  {
    SumMonotone(Weights(c, r, a, u), Weights(c, r, b, u));
  }

  lemma TotalCreate(c: Config, r: Resource, t: Table, k: Key, size: Size, u: User)
    requires k !in t
    ensures Total(c, r, t[k := size], u) == Total(c, r, t, u) + if c.owner(k.account) == u then Weight(r, size) else 0
  {
    var w, w' := Weights(c, r, t, u), Weights(c, r, t[k := size], u);
    if c.owner(k.account) == u {
      assert w' == w[k := Weight(r, size)];
      SumInsert(w, k, Weight(r, size));
    } else {
      assert w' == w;
    }
  }

  /** The totals of a user by what they stand for: the number of the droplets, their vCPUs and their memory. */
  lemma TotalsAreColumns(c: Config, t: Table, u: User)
    ensures Total(c, Droplets, t, u) == |set k | k in t && c.owner(k.account) == u|
    ensures Total(c, Vcpus, t, u) == Sum(map k | k in t && c.owner(k.account) == u :: t[k].vcpus)
    ensures Total(c, Memory, t, u) == Sum(map k | k in t && c.owner(k.account) == u :: t[k].memoryMb)
  {
    SumOfMarks(Weights(c, Droplets, t, u), set k | k in t && c.owner(k.account) == u);
    assert Weights(c, Vcpus, t, u) == map k | k in t && c.owner(k.account) == u :: t[k].vcpus;
    assert Weights(c, Memory, t, u) == map k | k in t && c.owner(k.account) == u :: t[k].memoryMb;
  }

  // ---- mutual exclusion ----

  ghost predicate Exclusive(c: Config, s: State) {
    forall w | s.At(w).InLock() :: LockKey(c, s.At(w).req) in s.locks && s.locks[LockKey(c, s.At(w).req)] == w
  }

  /** Two jobs inside the lock never share a user, even when lock keys of different users collide. */
  lemma OneJobPerUser(c: Config, s: State, w1: WorkerId, w2: WorkerId)
    requires Exclusive(c, s) && s.At(w1).InLock() && s.At(w2).InLock()
    ensures c.owner(s.At(w1).req.account) == c.owner(s.At(w2).req.account) ==> w1 == w2
  {
  }

  lemma OthersKeepTheirLock(c: Config, s: State, e: Event, w: WorkerId)
    requires Exclusive(c, s) && Next(c, s, e).Some?
    requires s.At(w).InLock() && (!e.Delete? && !e.Resize? ==> w != e.w)
    ensures var t := Next(c, s, e).value;
            t.At(w) == s.At(w) && LockKey(c, t.At(w).req) in t.locks && t.locks[LockKey(c, t.At(w).req)] == w
  {
  }

  lemma ExclusiveStep(c: Config, s: State, e: Event)
    requires Exclusive(c, s) && Next(c, s, e).Some?
    ensures Exclusive(c, Next(c, s, e).value)
  {
    var t := Next(c, s, e).value;
    forall w | t.At(w).InLock()
      ensures LockKey(c, t.At(w).req) in t.locks && t.locks[LockKey(c, t.At(w).req)] == w
    {
      if e.Delete? || e.Resize? || w != e.w {
        OthersKeepTheirLock(c, s, e, w);
      }
    }
  }

  // ---- safety, given that each check sees no less than what really runs ----

  /** At a quota check the mirror of the whole user weighs at least as much as the user's real droplets. */
  ghost predicate SoundCheck(c: Config, r: Resource, s: State, e: Event) {
    && (e.Check? && s.At(e.w).Ready? ==>
          var u := c.owner(s.At(e.w).req.account);
          Total(c, r, s.remote, u) <= Total(c, r, s.local, u))
    && (e.Resize? && e.key in s.remote ==> Weight(r, e.size) <= Weight(r, s.remote[e.key]))
  }

  /** Nobody is over quota, not even after everything that was admitted has been created. */
  ghost predicate Within(c: Config, r: Resource, s: State) {
    && Exclusive(c, s)
    && (forall u | c.quota(u, r).Some? :: Total(c, r, s.remote, u) <= c.quota(u, r).value)
    && (forall w | s.At(w).Creating? :: WithinBudget(c, r, s, s.At(w).req, s.At(w).budget))
  }

  ghost predicate WithinBudget(c: Config, r: Resource, s: State, req: Request, budget: nat) {
    var u := c.owner(req.account);
    c.quota(u, r).Some? ==> Total(c, r, s.remote, u) + Cost(r, req.size, budget) <= c.quota(u, r).value
  }

  /** Steps that add no droplet and enlarge none cannot raise anybody's total. */
  lemma NoGrowth(c: Config, r: Resource, s: State, e: Event)
    requires Next(c, s, e).Some? && !e.Create? && SoundCheck(c, r, s, e)
    ensures forall u :: Total(c, r, Next(c, s, e).value.remote, u) <= Total(c, r, s.remote, u)
  {
    forall u ensures Total(c, r, Next(c, s, e).value.remote, u) <= Total(c, r, s.remote, u) {
      TotalMonotone(c, r, Next(c, s, e).value.remote, s.remote, u);
    }
  }

  lemma CreateStaysWithin(c: Config, r: Resource, s: State, w: WorkerId, id: nat)
    requires Within(c, r, s) && Next(c, s, Create(w, id)).Some?
    ensures Within(c, r, Next(c, s, Create(w, id)).value)
  {
    var t := Next(c, s, Create(w, id)).value;
    ExclusiveStep(c, s, Create(w, id));
    var req := s.At(w).req;
    var budget := s.At(w).budget;
    forall u ensures Total(c, r, t.remote, u)
                  == Total(c, r, s.remote, u) + if c.owner(req.account) == u then Weight(r, req.size) else 0
    {
      TotalCreate(c, r, s.remote, Key(req.account, id), req.size, u);
    }
    assert WithinBudget(c, r, s, req, budget);
    CostStep(r, req.size, budget);
    forall w' | t.At(w').Creating?
      ensures WithinBudget(c, r, t, t.At(w').req, t.At(w').budget)
    {
      if w' != w {
        assert t.At(w') == s.At(w');
        OneJobPerUser(c, s, w, w');
      }
    }
  }

  lemma StepStaysWithin(c: Config, r: Resource, s: State, e: Event)
    requires Within(c, r, s) && Next(c, s, e).Some? && SoundCheck(c, r, s, e)
    ensures Within(c, r, Next(c, s, e).value)
  {
    if e.Create? {
      CreateStaysWithin(c, r, s, e.w, e.id);
    } else {
      var t := Next(c, s, e).value;
      ExclusiveStep(c, s, e);
      NoGrowth(c, r, s, e);
      forall w | t.At(w).Creating? ensures WithinBudget(c, r, t, t.At(w).req, t.At(w).budget) {
        BudgetStays(c, r, s, e, w);
      }
    }
  }

  /** What has been admitted still fits, and what a check admits fits because the check has seen enough. */
  lemma BudgetStays(c: Config, r: Resource, s: State, e: Event, w: WorkerId)
    requires Within(c, r, s) && Next(c, s, e).Some? && SoundCheck(c, r, s, e) && !e.Create?
    requires Next(c, s, e).value.At(w).Creating?
    ensures var t := Next(c, s, e).value; WithinBudget(c, r, t, t.At(w).req, t.At(w).budget)
  {
    var t := Next(c, s, e).value;
    var req := t.At(w).req;
    NoGrowth(c, r, s, e);
    assert Total(c, r, t.remote, c.owner(req.account)) <= Total(c, r, s.remote, c.owner(req.account));
    if s.At(w).Creating? {
      assert t.At(w) == s.At(w);
      assert WithinBudget(c, r, s, req, s.At(w).budget);
    } else {
      assert e == Check(w) && Fits(c, r, s, req);
    }
  }

  // ---- whole runs ----

  ghost predicate Run(c: Config, s: State, es: seq<Event>)
    decreases |es|
  {
    es == [] || (Next(c, s, es[0]).Some? && Run(c, Next(c, s, es[0]).value, es[1..]))
  }

  ghost function After(c: Config, s: State, es: seq<Event>): State
    requires Run(c, s, es)
    decreases |es|
  {
    if es == [] then s else After(c, Next(c, s, es[0]).value, es[1..])
  }

  ghost predicate SoundChecks(c: Config, r: Resource, s: State, es: seq<Event>)
    requires Run(c, s, es)
    decreases |es|
  {
    es == [] || (SoundCheck(c, r, s, es[0]) && SoundChecks(c, r, Next(c, s, es[0]).value, es[1..]))
  }

  /** Failed syncs, stale listings, crashes and colliding lock keys do not matter as long as each single
      check sees at least what really runs. */
  lemma {:induction false} SoundRunsStayWithin(c: Config, r: Resource, s: State, es: seq<Event>)
    requires Within(c, r, s) && Run(c, s, es) && SoundChecks(c, r, s, es)
    ensures Within(c, r, After(c, s, es))
    decreases |es|
  {
    if es != [] {
      StepStaysWithin(c, r, s, es[0]);
      SoundRunsStayWithin(c, r, Next(c, s, es[0]).value, es[1..]);
    }
  }

  // ---- why the checks are sound in an orderly run ----

  ghost predicate Covers(r: Resource, remote: Table, rows: Table, a: Account) {
    forall k | k in remote && k.account == a :: k in rows && Weight(r, remote[k]) <= Weight(r, rows[k])
  }

  ghost predicate Within1(rows: Table, a: Account) {
    forall k | k in rows :: k.account == a
  }

  ghost predicate Mirrored(r: Resource, s: State, k: Key)
    requires k in s.remote
  {
    k in s.local && Weight(r, s.remote[k]) <= Weight(r, s.local[k])
  }

  /** Some job inside the lock is between its quota check and its closing sync of account `a`. */
  ghost predicate Pending(s: State, a: Account) {
    exists w: WorkerId :: s.At(w).Unsettled() && s.At(w).req.account == a
  }

  ghost predicate Clean(c: Config, r: Resource, s: State) {
    && Exclusive(c, s)
    && (forall w: WorkerId | s.At(w).Syncing? :: Within1(s.At(w).rows, s.At(w).account))
    && (forall w: WorkerId | s.At(w).Listed() :: Within1(s.At(w).rows, s.At(w).req.account)
                                               && Covers(r, s.remote, s.At(w).rows, s.At(w).req.account))
    && (forall k | k in s.remote :: Mirrored(r, s, k) || Pending(s, k.account))
  }

  /** An orderly step: a sync outside the lock does not apply a listing that misses a droplet, a job does not
      lose its closing sync, and nothing grows in place. Syncs inside the lock need no such promise. */
  ghost predicate Orderly(r: Resource, s: State, e: Event) {
    && (e.Apply? && s.At(e.w).Syncing? ==> Covers(r, s.remote, s.At(e.w).rows, s.At(e.w).account))
    && ((e.SyncFails? || e.Crash?) ==> !s.At(e.w).Unsettled())
    && (e.Resize? && e.key in s.remote ==> Weight(r, e.size) <= Weight(r, s.remote[e.key]))
  }

  lemma CleanChecksAreSound(c: Config, r: Resource, s: State, e: Event)
    requires Clean(c, r, s) && Orderly(r, s, e) && Next(c, s, e).Some?
    ensures SoundCheck(c, r, s, e)
  {
    if e.Check? {
      var u := c.owner(s.At(e.w).req.account);
      forall k | k in s.remote && c.owner(k.account) == u ensures Mirrored(r, s, k) {
        if w: WorkerId :| s.At(w).Unsettled() && s.At(w).req.account == k.account {
          OneJobPerUser(c, s, w, e.w);
        }
      }
      TotalMonotone(c, r, s.remote, s.local, u);
    }
  }

  lemma NothingGrows(c: Config, r: Resource, s: State, e: Event)
    requires Orderly(r, s, e) && Next(c, s, e).Some? && !e.Create?
    ensures forall k | k in Next(c, s, e).value.remote ::
              k in s.remote && Weight(r, Next(c, s, e).value.remote[k]) <= Weight(r, s.remote[k])
  {
  }

  /** The listing of a job inside the lock stays complete: nobody else can create on its account meanwhile. */
  lemma ListingsStayComplete(c: Config, r: Resource, s: State, e: Event, w: WorkerId)
    requires Clean(c, r, s) && Orderly(r, s, e) && Next(c, s, e).Some? && Next(c, s, e).value.At(w).Listed()
    ensures var t := Next(c, s, e).value;
            Within1(t.At(w).rows, t.At(w).req.account) && Covers(r, t.remote, t.At(w).rows, t.At(w).req.account)
  {
    var t := Next(c, s, e).value;
    if e.Create? {
      assert t.At(w) == s.At(w);
      OneJobPerUser(c, s, w, e.w);
    } else if t.At(w) == s.At(w) {
      NothingGrows(c, r, s, e);
    } else {
      assert t.At(w).rows == Listing(s.remote, t.At(w).req.account) && t.remote == s.remote;
    }
  }

  /** A job leaves the unsettled part of its work only by applying its closing listing. */
  lemma UnsettledUntilApplied(c: Config, r: Resource, s: State, e: Event, w: WorkerId)
    requires Orderly(r, s, e) && Next(c, s, e).Some? && s.At(w).Unsettled()
    ensures (Next(c, s, e).value.At(w).Unsettled() && Next(c, s, e).value.At(w).req == s.At(w).req)
         || (e == Apply(w) && s.At(w).Settling?)
  {
  }

  lemma ClosingSyncMirrors(c: Config, r: Resource, s: State, w: WorkerId, k: Key)
    requires Clean(c, r, s) && s.At(w).Settling? && k in s.remote && k.account == s.At(w).req.account
    ensures Mirrored(r, Next(c, s, Apply(w)).value, k)
  {
    assert Covers(r, s.remote, s.At(w).rows, k.account);
  }

  lemma PendingStays(c: Config, r: Resource, s: State, e: Event, k: Key)
    requires Clean(c, r, s) && Orderly(r, s, e) && Next(c, s, e).Some?
    requires k in Next(c, s, e).value.remote && k in s.remote && Pending(s, k.account)
    ensures Mirrored(r, Next(c, s, e).value, k) || Pending(Next(c, s, e).value, k.account)
  {
    var w: WorkerId :| s.At(w).Unsettled() && s.At(w).req.account == k.account;
    UnsettledUntilApplied(c, r, s, e, w);
    if e == Apply(w) && s.At(w).Settling? {
      ClosingSyncMirrors(c, r, s, w, k);
    }
  }

  lemma MirroredStays(c: Config, r: Resource, s: State, e: Event, k: Key)
    requires Clean(c, r, s) && Orderly(r, s, e) && Next(c, s, e).Some?
    requires k in Next(c, s, e).value.remote && k in s.remote && Mirrored(r, s, k)
    ensures Mirrored(r, Next(c, s, e).value, k)
  {
    if e.Apply? && s.At(e.w).Listed() {
      assert Covers(r, s.remote, s.At(e.w).rows, s.At(e.w).req.account);
    }
  }

  lemma CleanStep(c: Config, r: Resource, s: State, e: Event)
    requires Clean(c, r, s) && Orderly(r, s, e) && Next(c, s, e).Some?
    ensures Clean(c, r, Next(c, s, e).value)
  {
    var t := Next(c, s, e).value;
    ExclusiveStep(c, s, e);
    forall w: WorkerId | t.At(w).Syncing? ensures Within1(t.At(w).rows, t.At(w).account) {
      if t.At(w) == s.At(w) {}
    }
    forall w: WorkerId | t.At(w).Listed()
      ensures Within1(t.At(w).rows, t.At(w).req.account) && Covers(r, t.remote, t.At(w).rows, t.At(w).req.account)
    {
      ListingsStayComplete(c, r, s, e, w);
    }
    forall k | k in t.remote ensures Mirrored(r, t, k) || Pending(t, k.account) {
      if k !in s.remote {
        assert t.At(e.w).Unsettled() && t.At(e.w).req.account == k.account;
      } else if Pending(s, k.account) {
        PendingStays(c, r, s, e, k);
      } else {
        MirroredStays(c, r, s, e, k);
      }
    }
  }

  ghost predicate OrderlyRun(c: Config, r: Resource, s: State, es: seq<Event>)
    requires Run(c, s, es)
    decreases |es|
  {
    es == [] || (Orderly(r, s, es[0]) && OrderlyRun(c, r, Next(c, s, es[0]).value, es[1..]))
  }

  ghost predicate AllFit(c: Config, r: Resource, t: Table) {
    forall u :: c.quota(u, r).Some? ==> Total(c, r, t, u) <= c.quota(u, r).value
  }

  /** Nobody works, the mirror misses nothing, and nobody is over quota. */
  ghost predicate Start(c: Config, r: Resource, s: State) {
    && s.locks == map[] && s.pcs == map[]
    && (forall k | k in s.remote :: Mirrored(r, s, k))
    && AllFit(c, r, s.remote)
  }

  lemma {:induction false} OrderlyRunsAreSound(c: Config, r: Resource, s: State, es: seq<Event>)
    requires Clean(c, r, s) && Run(c, s, es) && OrderlyRun(c, r, s, es)
    ensures SoundChecks(c, r, s, es)
    decreases |es|
  {
    if es != [] {
      CleanChecksAreSound(c, r, s, es[0]);
      CleanStep(c, r, s, es[0]);
      OrderlyRunsAreSound(c, r, Next(c, s, es[0]).value, es[1..]);
    }
  }

  /** Quota safety: after any orderly run of any number of workers, what a user really runs over all accounts
      is within the user's quota, for droplets, vCPUs and memory alike. */
  lemma QuotaHolds(c: Config, r: Resource, s: State, es: seq<Event>, u: User)
    requires Start(c, r, s) && Run(c, s, es) && OrderlyRun(c, r, s, es)
    ensures c.quota(u, r).Some? ==> Total(c, r, After(c, s, es).remote, u) <= c.quota(u, r).value
  {
    OrderlyRunsAreSound(c, r, s, es);
    SoundRunsStayWithin(c, r, s, es);
  }

  // ---- exactly when an admitted request breaks the quota ----

  ghost predicate Creates(w: WorkerId, es: seq<Event>) {
    forall i | 0 <= i < |es| :: es[i].Create? && es[i].w == w
  }

  lemma {:induction false} CreatesSpendBudget(c: Config, r: Resource, s: State, w: WorkerId, es: seq<Event>)
    requires s.At(w).Creating? && Creates(w, es) && Run(c, s, es)
    ensures var req, t := s.At(w).req, After(c, s, es);
            && t.At(w).Creating? && t.At(w).req == req
            && Total(c, r, t.remote, c.owner(req.account)) + Cost(r, req.size, t.At(w).budget)
            == Total(c, r, s.remote, c.owner(req.account)) + Cost(r, req.size, s.At(w).budget)
    decreases |es|
  {
    if es != [] {
      var req := s.At(w).req;
      TotalCreate(c, r, s.remote, Key(req.account, es[0].id), req.size, c.owner(req.account));
      CostStep(r, req.size, s.At(w).budget);
      CreatesSpendBudget(c, r, Next(c, s, es[0]).value, w, es[1..]);
    }
  }

  lemma {:induction false} FreshId(t: Table, a: Account) returns (id: nat)
    ensures forall k | k in t :: k.id < id
    decreases |t|
  {
    if k :| k in t {
      var rest := FreshId(t - {k}, a);
      id := if rest > k.id then rest else k.id + 1;
      forall j | j in t ensures j.id < id { assert j == k || j in t - {k}; }
    } else {
      id := 0;
    }
  }

  lemma {:induction false} CreatesCanSpendAll(c: Config, s: State, w: WorkerId) returns (es: seq<Event>)
    requires s.At(w).Creating?
    ensures Creates(w, es) && Run(c, s, es) && After(c, s, es).At(w).Creating? && After(c, s, es).At(w).budget == 0
    decreases s.At(w).budget
  {
    if s.At(w).budget == 0 {
      es := [];
    } else {
      var id := FreshId(s.remote, s.At(w).req.account);
      var rest := CreatesCanSpendAll(c, Next(c, s, Create(w, id)).value, w);
      es := [Create(w, id)] + rest;
      assert es[1..] == rest;
    }
  }

  /** An admitted request can be carried out so that its user ends over the quota if and only if the user's
      real usage plus the request exceeds it; the mirror the check looked at does not enter. */
  lemma AdmissionIsExact(c: Config, r: Resource, s: State, w: WorkerId)
    requires s.At(w).Ready? && Admits(c, s, s.At(w).req) && c.quota(c.owner(s.At(w).req.account), r).Some?
    ensures var req := s.At(w).req;
            var u := c.owner(req.account);
            var s1 := Next(c, s, Check(w)).value;
            (exists es :: Creates(w, es) && Run(c, s1, es)
                          && Total(c, r, After(c, s1, es).remote, u) > c.quota(u, r).value)
            <==> Total(c, r, s.remote, u) + Cost(r, req.size, req.count) > c.quota(u, r).value
  {
    var req := s.At(w).req;
    var u := c.owner(req.account);
    var s1 := Next(c, s, Check(w)).value;
    forall es | Creates(w, es) && Run(c, s1, es)
      ensures Total(c, r, After(c, s1, es).remote, u) <= Total(c, r, s.remote, u) + Cost(r, req.size, req.count)
    {
      CreatesSpendBudget(c, r, s1, w, es);
    }
    var es := CreatesCanSpendAll(c, s1, w);
    CreatesSpendBudget(c, r, s1, w, es);
    assert Cost(r, req.size, 0) == 0;
  }

  // ---- what no check stands in front of: resizes and transfers ----

  /** A resize moves the total of the droplet's owner by the difference of the sizes, and nobody else's. */
  lemma ResizeTotals(c: Config, r: Resource, t: Table, k: Key, size: Size, u: User)
    requires k in t
    ensures Total(c, r, t[k := size], u)
         == Total(c, r, t, u) + if c.owner(k.account) == u then Weight(r, size) - Weight(r, t[k]) else 0
  {
    var rest := t - {k};
    assert rest[k := t[k]] == t && rest[k := size] == t[k := size];
    TotalCreate(c, r, rest, k, t[k], u);
    TotalCreate(c, r, rest, k, size, u);
  }

  /** With everybody within the quota, a resize keeps it so if and only if the owner has room for the difference. */
  lemma ResizeIsExact(c: Config, r: Resource, s: State, k: Key, size: Size)
    requires k in s.remote && AllFit(c, r, s.remote)
    ensures var u := c.owner(k.account);
            AllFit(c, r, Next(c, s, Resize(k, size)).value.remote)
            <==> (c.quota(u, r).Some?
                  ==> Total(c, r, s.remote, u) - Weight(r, s.remote[k]) + Weight(r, size) <= c.quota(u, r).value)
  {
    forall u ensures Total(c, r, s.remote[k := size], u)
                  == Total(c, r, s.remote, u) + if c.owner(k.account) == u then Weight(r, size) - Weight(r, s.remote[k])
                    else 0
    {
      ResizeTotals(c, r, s.remote, k, size, u);
    }
  }

  /** No check is made: one resize can push the owner of any droplet over any vCPU quota. */
  lemma ResizeIsUnchecked(c: Config, s: State, k: Key, limit: nat)
    requires k in s.remote
    ensures exists size :: Next(c, s, Resize(k, size)).Some?
              && Total(c, Vcpus, Next(c, s, Resize(k, size)).value.remote, c.owner(k.account)) > limit
  {
    var u := c.owner(k.account);
    var size := Size(limit + 1 + s.remote[k].vcpus, 0);
    ResizeTotals(c, Vcpus, s.remote, k, size, u);
    TotalMonotone(c, Vcpus, map[], s.remote, u);
    assert Weights(c, Vcpus, map[], u) == map[];
    assert Next(c, s, Resize(k, size)).Some?;
  }

  /** The configuration after a transfer of account `a` to user `v`. */
  function Transferred(c: Config, a: Account, v: User): Config {
    var owner := c.owner;
    Config((b: Account) => if b == a then v else owner(b), c.hash, c.quota)
  }

  function ShareWeights(r: Resource, t: Table, a: Account): map<Key, int> {
    map k | k in t && k.account == a :: Weight(r, t[k])
  }

  ghost function Share(r: Resource, t: Table, a: Account): int {
    Sum(ShareWeights(r, t, a))
  }

  function AllWeights(r: Resource, t: Table): map<Key, int> {
    map k | k in t :: Weight(r, t[k])
  }

  function Owners(c: Config, t: Table): map<Key, User> {
    map k | k in t :: c.owner(k.account)
  }

  lemma WeightsAreAPart(c: Config, r: Resource, t: Table, u: User)
    ensures Part(AllWeights(r, t), Owners(c, t), u) == Weights(c, r, t, u)
  {
  }

  /** A transfer moves exactly the account's share. */
  lemma TransferTotals(c: Config, r: Resource, t: Table, a: Account, v: User, u: User)
    ensures Total(Transferred(c, a, v), r, t, u)
         == Total(c, r, t, u) + (if u == v then Share(r, t, a) else 0) - (if u == c.owner(a) then Share(r, t, a) else 0)
  {
    var d := Transferred(c, a, v);
    var moved := set k | k in t && k.account == a;
    Reassign(AllWeights(r, t), Owners(c, t), Owners(d, t), moved, c.owner(a), v, u);
    WeightsAreAPart(c, r, t, u);
    WeightsAreAPart(d, r, t, u);
    assert Only(AllWeights(r, t), moved) == ShareWeights(r, t, a);
  }

  /** With everybody within the quota, a transfer keeps it so if and only if the new owner has room for the account. */
  lemma TransferIsExact(c: Config, r: Resource, t: Table, a: Account, v: User)
    requires AllFit(c, r, t)
    ensures AllFit(Transferred(c, a, v), r, t)
       <==> v == c.owner(a) || (c.quota(v, r).Some? ==> Total(c, r, t, v) + Share(r, t, a) <= c.quota(v, r).value)
  {
    var d := Transferred(c, a, v);
    ShareIsNotNegative(r, t, a);
    forall u ensures Total(d, r, t, u)
                  == Total(c, r, t, u) + (if u == v then Share(r, t, a) else 0)
                     - (if u == c.owner(a) then Share(r, t, a) else 0)
    {
      TransferTotals(c, r, t, a, v, u);
    }
    assert d.quota(v, r) == c.quota(v, r);
  }

  lemma ShareIsNotNegative(r: Resource, t: Table, a: Account)
    ensures Share(r, t, a) >= 0
  {
    SumMonotone(map[], ShareWeights(r, t, a));
  }

  lemma TotalOfOne(c: Config, k: Key, u: User)
    ensures Total(c, Droplets, map[k := SMALL], u) == if c.owner(k.account) == u then 1 else 0
  {
    assert map[][k := SMALL] == map[k := SMALL];
    TotalCreate(c, Droplets, map[], k, SMALL, u);
    assert Weights(c, Droplets, map[], u) == map[];
  }

  /** No check is made here either: two users at rest run one droplet each, which is their quota, and then one of
      them is handed the account of the other. */
  lemma TransferIsUnchecked() returns (c: Config, s: State, a: Account, v: User)
    ensures Start(c, Droplets, s) && s.local == s.remote
    ensures c.quota(v, Droplets) == Some(1) && Total(Transferred(c, a, v), Droplets, s.remote, v) == 2
  {
    c := Config(b => b, u => 0, (u: User, r: Resource) => Some(1));
    var k0, k1 := Key(0, 7), Key(1, 8);
    var t := map[k0 := SMALL, k1 := SMALL];
    s, a, v := State(t, t, map[], map[]), 0, 1;
    forall u ensures Total(c, Droplets, t, u) <= 1 {
      assert t == map[k0 := SMALL][k1 := SMALL];
      TotalOfOne(c, k0, u);
      TotalCreate(c, Droplets, map[k0 := SMALL], k1, SMALL, u);
    }
    TwoDroplets(Transferred(c, a, v), t, k0, k1);
  }

  // ---- without these assumptions the quota can be exceeded ----

  lemma {:induction false} RunConcat(c: Config, s: State, a: seq<Event>, b: seq<Event>)
    requires Run(c, s, a) && Run(c, After(c, s, a), b)
    ensures Run(c, s, a + b) && After(c, s, a + b) == After(c, After(c, s, a), b)
    decreases |a|
  {
    if a == [] {
      assert a + b == b;
    } else {
      RunConcat(c, Next(c, s, a[0]).value, a[1..], b);
      assert (a + b)[1..] == a[1..] + b;
    }
  }

  lemma Extend(c: Config, s: State, es: seq<Event>, e: Event)
    requires Run(c, s, es) && Next(c, After(c, s, es), e).Some?
    ensures Run(c, s, es + [e]) && After(c, s, es + [e]) == Next(c, After(c, s, es), e).value
  {
    assert [e][1..] == [];
    assert Run(c, Next(c, After(c, s, es), e).value, []);
    RunConcat(c, s, es, [e]);
  }

  ghost function OneDropletEach(): Config {
    Config(a => 0, u => 0, (u: User, r: Resource) => if r == Droplets then Some(1) else None)
  }

  const SMALL := Size(1, 1024)

  /** Worker 1 takes the lock for a create on account `a`, which runs nothing, and refreshes that account. */
  lemma RefreshEmpty(s: State, a: Account) returns (es: seq<Event>)
    requires s.At(1).Idle? && s.locks == map[] && s.local == map[]
    requires forall k | k in s.remote :: k.account != a
    ensures Run(OneDropletEach(), s, es) && forall i | 0 <= i < |es| :: !es[i].SyncFails? && !es[i].Crash?
    ensures After(OneDropletEach(), s, es) == s.Move(1, Ready(Request(a, SMALL, 1))).(locks := map[0 := 1])
  {
    var c := OneDropletEach();
    var req := Request(a, SMALL, 1);
    es := [];
    Extend(c, s, es, Enter(1, req));
    es := es + [Enter(1, req)];
    assert Listing(s.remote, a) == map[];
    Extend(c, s, es, List(1, a));
    es := es + [List(1, a)];
    var s2 := After(c, s, es);
    assert s2.At(1) == Refreshing(req, map[]);
    Extend(c, s, es, Apply(1));
    es := es + [Apply(1)];
    assert Mirror(s2.local, a, map[]) == map[];
    assert After(c, s, es).pcs == s.pcs[1 := Ready(req)];
  }

  /** The whole way from the lock to the first droplet on account `a`, with an empty mirror. */
  lemma CreateOnEmptyMirror(s: State, a: Account, id: nat) returns (es: seq<Event>)
    requires s.At(1).Idle? && s.locks == map[] && s.local == map[]
    requires forall k | k in s.remote :: k.account != a
    ensures Run(OneDropletEach(), s, es)
    ensures After(OneDropletEach(), s, es)
         == s.Move(1, Creating(Request(a, SMALL, 1), 0)).(remote := s.remote[Key(a, id) := SMALL], locks := map[0 := 1])
    ensures forall i | 0 <= i < |es| :: !es[i].SyncFails? && !es[i].Crash?
  {
    var c := OneDropletEach();
    var req := Request(a, SMALL, 1);
    es := RefreshEmpty(s, a);
    var s3 := After(c, s, es);
    assert Weights(c, Droplets, s3.local, 0) == map[];
    assert Admits(c, s3, req);
    Extend(c, s, es, Check(1));
    es := es + [Check(1)];
    Extend(c, s, es, Create(1, id));
    es := es + [Create(1, id)];
    assert After(c, s, es).pcs == s.pcs[1 := Creating(req, 0)];
  }

  lemma TwoDroplets(c: Config, t: Table, k1: Key, k2: Key)
    requires k1 != k2 && t == map[k1 := SMALL, k2 := SMALL] && c.owner(k1.account) == c.owner(k2.account)
    ensures Total(c, Droplets, t, c.owner(k1.account)) == 2
  {
    assert t == map[k1 := SMALL][k2 := SMALL];
    TotalCreate(c, Droplets, map[], k1, SMALL, c.owner(k1.account));
    TotalCreate(c, Droplets, map[k1 := SMALL], k2, SMALL, c.owner(k1.account));
    assert Weights(c, Droplets, map[], c.owner(k1.account)) == map[];
    assert map[][k1 := SMALL] == map[k1 := SMALL];
  }

  /** A closing sync that fails is enough: the next create, on another account of the same user, refreshes only
      its own account and is admitted although the user already runs the whole quota. */
  lemma LostClosingSyncBreaksQuota() returns (es: seq<Event>)
    ensures var c, s := OneDropletEach(), State(map[], map[], map[], map[]);
            && Start(c, Droplets, s) && Run(c, s, es)
            && Total(c, Droplets, After(c, s, es).remote, 0) == 2 > c.quota(0, Droplets).value
  {
    var c, s := OneDropletEach(), State(map[], map[], map[], map[]);
    forall u ensures Total(c, Droplets, s.remote, u) == 0 { assert Weights(c, Droplets, s.remote, u) == map[]; }
    var first := CreateOnEmptyMirror(s, 0, 7);
    var s1 := After(c, s, first);
    es := first;
    Extend(c, s, es, SyncFails(1));
    es := es + [SyncFails(1)];
    Extend(c, s, es, Leave(1));
    es := es + [Leave(1)];
    var s2 := After(c, s, es);
    assert s2.locks == map[];
    var second := CreateOnEmptyMirror(s2, 1, 8);
    RunConcat(c, s, es, second);
    es := es + second;
    TwoDroplets(c, After(c, s, es).remote, Key(0, 7), Key(1, 8));
  }

  /** Worker 1 closes its create properly: lists, applies, unlocks. */
  lemma Settle(s: State, req: Request, k: Key) returns (es: seq<Event>)
    requires s.At(1) == Creating(req, 0) && s.locks == map[0 := 1] && k.account == req.account
    requires s.remote == map[k := SMALL] && s.local == map[]
    ensures Run(OneDropletEach(), s, es) && forall i | 0 <= i < |es| :: !es[i].SyncFails? && !es[i].Crash?
    ensures After(OneDropletEach(), s, es) == s.Move(1, Idle).(local := s.remote, locks := map[])
  {
    var c := OneDropletEach();
    es := [];
    Extend(c, s, es, List(1, req.account));
    es := es + [List(1, req.account)];
    assert Listing(s.remote, req.account) == s.remote;
    Extend(c, s, es, Apply(1));
    es := es + [Apply(1)];
    assert After(c, s, es).local == s.remote;
    Extend(c, s, es, Leave(1));
    es := es + [Leave(1)];
    assert After(c, s, es).locks == map[];
    assert After(c, s, es).pcs == s.pcs[1 := Idle];
  }

  /** Worker 2 reads an empty listing of account 0, worker 1 then creates there and settles, and worker 2
      applies its old listing: the mirror has forgotten the droplet. */
  lemma ForgetDroplet(s: State) returns (es: seq<Event>)
    requires s == State(map[], map[], map[], map[])
    ensures Run(OneDropletEach(), s, es) && forall i | 0 <= i < |es| :: !es[i].SyncFails? && !es[i].Crash?
    ensures var t := After(OneDropletEach(), s, es);
            t.remote == map[Key(0, 7) := SMALL] && t.local == map[] && t.locks == map[] && t.At(1).Idle?
  {
    var c := OneDropletEach();
    es := [];
    Extend(c, s, es, List(2, 0));
    es := es + [List(2, 0)];
    assert Listing(s.remote, 0) == map[];
    var first := CreateOnEmptyMirror(After(c, s, es), 0, 7);
    RunConcat(c, s, es, first);
    es := es + first;
    assert After(c, s, es).remote == map[Key(0, 7) := SMALL];
    var late := Settle(After(c, s, es), Request(0, SMALL, 1), Key(0, 7));
    RunConcat(c, s, es, late);
    es := es + late;
    Extend(c, s, es, Apply(2));
    es := es + [Apply(2)];
    assert After(c, s, es).local == map[];
  }

  /** So is one unlocked sync that applies the listing it read before a create of somebody else. */
  lemma StaleListingBreaksQuota() returns (es: seq<Event>)
    ensures var c, s := OneDropletEach(), State(map[], map[], map[], map[]);
            && Start(c, Droplets, s) && Run(c, s, es)
                && (forall i | 0 <= i < |es| :: !es[i].SyncFails? && !es[i].Crash?)
            && Total(c, Droplets, After(c, s, es).remote, 0) == 2 > c.quota(0, Droplets).value
  {
    var c, s := OneDropletEach(), State(map[], map[], map[], map[]);
    forall u ensures Total(c, Droplets, s.remote, u) == 0 { assert Weights(c, Droplets, s.remote, u) == map[]; }
    var first := ForgetDroplet(s);
    var second := CreateOnEmptyMirror(After(c, s, first), 1, 8);
    RunConcat(c, s, first, second);
    es := first + second;
    TwoDroplets(c, After(c, s, es).remote, Key(0, 7), Key(1, 8));
  }
}
