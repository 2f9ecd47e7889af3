/** The connection pools and the per-user advisory lock, as a resource-allocation machine.

    A create job keeps one pooled connection for its advisory lock and borrows a second one for every
    query it makes while it holds that lock. Every process has its own pool; the locks are shared by all
    processes because they live in the database. */
module Pool {

  type Key = int

  datatype Op = Acquire | Release | Lock(key: Key) | Unlock(key: Key)

  /** What a client owns: nothing, one connection, one connection and a lock, or two connections and a lock. */
  datatype Phase = Free | Holding | Locked(key: Key) | Querying(key: Key) {
    function Conns(): nat {
      match this
      case Free => 0
      case Holding | Locked(_) => 1
      case Querying(_) => 2
    }

    predicate Owns(k: Key) {
      (Locked? || Querying?) && key == k
    }

    predicate Allows(op: Op) {
      match op
      case Acquire => Free? || Locked?
      case Release => Holding? || Querying?
      case Lock(_) => Holding?
      case Unlock(k) => this == Locked(k)
    }

    function Then(op: Op): Phase
      requires Allows(op)
    {
      match op
      case Acquire => if Free? then Holding else Querying(key)
      case Release => if Holding? then Free else Locked(key)
      case Lock(k) => Locked(k)
      case Unlock(_) => Holding
    }
  }

  /** `worker` marks the clients that run create jobs; the others (scheduler, heartbeat, HTTP handlers)
      only make single queries. */
  datatype Client = Client(pool: nat, worker: bool, phase: Phase, todo: seq<Op>) {
    predicate Done() { todo == [] }

    ghost predicate Valid() {
      && Typed(phase, todo)
      && (!worker ==> (phase.Free? || phase.Holding?) && forall i | 0 <= i < |todo| :: !todo[i].Lock?)
    }
  }

  datatype State = State(clients: seq<Client>, locks: map<Key, nat>)

  /** The operations left can be carried out from this phase and give everything back. */
  ghost predicate Typed(p: Phase, ops: seq<Op>)
    decreases |ops|
  {
    if ops == [] then p.Free? else p.Allows(ops[0]) && Typed(p.Then(ops[0]), ops[1..])
  }

  function Used(cs: seq<Client>, pool: nat): nat {
    if cs == [] then 0
    else Used(cs[..|cs| - 1], pool) + if cs[|cs| - 1].pool == pool then cs[|cs| - 1].phase.Conns() else 0
  }

  function Workers(cs: seq<Client>, pool: nat): nat {
    if cs == [] then 0
    else Workers(cs[..|cs| - 1], pool) + if cs[|cs| - 1].pool == pool && cs[|cs| - 1].worker then 1 else 0
  }

  function Work(cs: seq<Client>): nat {
    if cs == [] then 0 else Work(cs[..|cs| - 1]) + |cs[|cs| - 1].todo|
  }

  predicate Enabled(size: nat, s: State, c: nat) {
    && c < |s.clients|
    && !s.clients[c].Done()
    && s.clients[c].phase.Allows(s.clients[c].todo[0])
    && match s.clients[c].todo[0]
       case Acquire => Used(s.clients, s.clients[c].pool) < size
       case Lock(k) => k !in s.locks
       case _ => true
  }

  function Apply(s: State, c: nat): State
    requires c < |s.clients| && !s.clients[c].Done() && s.clients[c].phase.Allows(s.clients[c].todo[0])
  {
    var me := s.clients[c];
    var op := me.todo[0];
    State(s.clients[c := me.(phase := me.phase.Then(op), todo := me.todo[1..])],
          match op
          case Lock(k) => s.locks[k := c]
          case Unlock(k) => s.locks - {k}
          case _ => s.locks)
  }

  ghost predicate Inv(size: nat, s: State) {
    && (forall c | 0 <= c < |s.clients| :: s.clients[c].Valid())
    && (forall k | k in s.locks :: s.locks[k] < |s.clients| && s.clients[s.locks[k]].phase.Owns(k))
    && (forall c, k | 0 <= c < |s.clients| && s.clients[c].phase.Owns(k) :: k in s.locks && s.locks[k] == c)
    && (forall p: nat :: Used(s.clients, p) <= size)
  }

  ghost predicate AllDone(s: State) {
    forall c | 0 <= c < |s.clients| :: s.clients[c].Done()
  }

  ghost predicate Stuck(size: nat, s: State) {
    !AllDone(s) && forall c: nat :: !Enabled(size, s, c)
  }

  // ---- one step ----

  lemma {:induction false} UsedAfter(cs: seq<Client>, c: nat, x: Client, pool: nat)
    requires c < |cs| && x.pool == cs[c].pool
    ensures Used(cs[c := x], pool) - Used(cs, pool)
         == if x.pool == pool then x.phase.Conns() - cs[c].phase.Conns() else 0
  {
    var n := |cs| - 1;
    if c == n {
      assert cs[c := x][..n] == cs[..n];
    } else {
      assert cs[c := x][..n] == cs[..n][c := x];
      UsedAfter(cs[..n], c, x, pool);
    }
  }

  lemma {:induction false} WorkAfter(cs: seq<Client>, c: nat, x: Client)
    requires c < |cs|
    ensures Work(cs[c := x]) - Work(cs) == |x.todo| - |cs[c].todo|
  {
    var n := |cs| - 1;
    if c == n {
      assert cs[c := x][..n] == cs[..n];
    } else {
      assert cs[c := x][..n] == cs[..n][c := x];
      WorkAfter(cs[..n], c, x);
    }
  }

  lemma {:induction false} WorkersAfter(cs: seq<Client>, c: nat, x: Client, pool: nat)
    requires c < |cs| && x.pool == cs[c].pool && x.worker == cs[c].worker
    ensures Workers(cs[c := x], pool) == Workers(cs, pool)
  {
    var n := |cs| - 1;
    if c == n {
      assert cs[c := x][..n] == cs[..n];
    } else {
      assert cs[c := x][..n] == cs[..n][c := x];
      WorkersAfter(cs[..n], c, x, pool);
    }
  }

  /** A step changes the lock table only at the key it locks or unlocks. */
  lemma OtherLocksStay(size: nat, s: State, c: nat, k: Key)
    requires Inv(size, s) && Enabled(size, s, c)
    requires s.clients[c].todo[0] != Lock(k) && s.clients[c].todo[0] != Unlock(k)
    ensures (k in Apply(s, c).locks <==> k in s.locks) && (k in s.locks ==> Apply(s, c).locks[k] == s.locks[k])
    ensures Apply(s, c).clients[c].phase.Owns(k) <==> s.clients[c].phase.Owns(k)
  {
    var me := s.clients[c];
    assert me.phase.Allows(me.todo[0]);
    match me.todo[0]
    case Unlock(l) => assert me.phase == Locked(l);
    case _ =>
  }

  lemma LockTaken(size: nat, s: State, c: nat, k: Key)
    requires Inv(size, s) && Enabled(size, s, c) && s.clients[c].todo[0] == Lock(k)
    ensures var t := Apply(s, c); k in t.locks && t.locks[k] == c && t.clients[c].phase.Owns(k)
    ensures forall d | 0 <= d < |s.clients| :: !s.clients[d].phase.Owns(k)
  {
  }

  lemma LockGivenBack(size: nat, s: State, c: nat, k: Key)
    requires Inv(size, s) && Enabled(size, s, c) && s.clients[c].todo[0] == Unlock(k)
    ensures var t := Apply(s, c); k !in t.locks && !t.clients[c].phase.Owns(k)
    ensures forall d | 0 <= d < |s.clients| && d != c :: !s.clients[d].phase.Owns(k)
  {
    assert s.clients[c].phase.Owns(k) && s.locks[k] == c;
  }

  /** Who holds the lock on `k` is its only owner. */
  ghost predicate LockOwned(s: State, k: Key) {
    && (k in s.locks ==> s.locks[k] < |s.clients| && s.clients[s.locks[k]].phase.Owns(k))
    && (forall d | 0 <= d < |s.clients| && s.clients[d].phase.Owns(k) :: k in s.locks && s.locks[k] == d)
  }

  lemma LockStaysOwned(size: nat, s: State, c: nat, k: Key)
    requires Inv(size, s) && Enabled(size, s, c)
    ensures LockOwned(Apply(s, c), k)
  {
    var t := Apply(s, c);
    assert LockOwned(s, k);
    assert forall d | 0 <= d < |s.clients| && d != c :: t.clients[d] == s.clients[d];
    if s.clients[c].todo[0] == Lock(k) {
      LockTaken(size, s, c, k);
    } else if s.clients[c].todo[0] == Unlock(k) {
      LockGivenBack(size, s, c, k);
    } else {
      OtherLocksStay(size, s, c, k);
    }
  }

  /** The tables of lock owners before and after a step agree with what the clients own. */
  lemma LocksStayOwned(size: nat, s: State, c: nat)
    requires Inv(size, s) && Enabled(size, s, c)
    ensures var t := Apply(s, c);
            && (forall k | k in t.locks :: t.locks[k] < |t.clients| && t.clients[t.locks[k]].phase.Owns(k))
            && (forall d, k | 0 <= d < |t.clients| && t.clients[d].phase.Owns(k) :: k in t.locks && t.locks[k] == d)
  {
    var t := Apply(s, c);
    forall k | k in t.locks ensures t.locks[k] < |t.clients| && t.clients[t.locks[k]].phase.Owns(k) {
      LockStaysOwned(size, s, c, k);
    }
    forall d, k | 0 <= d < |t.clients| && t.clients[d].phase.Owns(k) ensures k in t.locks && t.locks[k] == d {
      LockStaysOwned(size, s, c, k);
    }
  }

  /** Every enabled step keeps the invariant, does exactly one operation, and moves no client between pools. */
  lemma StepKeepsInv(size: nat, s: State, c: nat)
    requires Inv(size, s) && Enabled(size, s, c)
    ensures Inv(size, Apply(s, c))
    ensures Work(Apply(s, c).clients) == Work(s.clients) - 1
    ensures forall p: nat :: Workers(Apply(s, c).clients, p) == Workers(s.clients, p)
  {
    var me := s.clients[c];
    assert me.Valid();
    var t := Apply(s, c);
    var x := t.clients[c];
    assert x.Valid();
    WorkAfter(s.clients, c, x);
    LocksStayOwned(size, s, c);
    forall p: nat
      ensures Workers(t.clients, p) == Workers(s.clients, p) && Used(t.clients, p) <= size
    {
      WorkersAfter(s.clients, c, x, p);
      UsedAfter(s.clients, c, x, p);
    }
  }

  // ---- no deadlock below the bound ----

  /** If nobody borrows a second connection and only workers keep one, a pool is at most as busy as it has workers. */
  lemma {:induction false} UsedByWorkers(cs: seq<Client>, pool: nat)
    requires forall c | 0 <= c < |cs| :: cs[c].phase.Conns() <= if cs[c].worker then 1 else 0
    ensures Used(cs, pool) <= Workers(cs, pool)
  {
    if cs != [] {
      UsedByWorkers(cs[..|cs| - 1], pool);
    }
  }

  lemma Progress(size: nat, s: State)
    requires Inv(size, s) && !AllDone(s)
    requires forall p: nat :: Workers(s.clients, p) < size
    ensures exists c: nat :: Enabled(size, s, c)
  {
    if forall c: nat :: !Enabled(size, s, c) {
      forall c | 0 <= c < |s.clients|
        ensures s.clients[c].phase.Conns() <= if s.clients[c].worker then 1 else 0
      {
        assert s.clients[c].Valid() && !Enabled(size, s, c);
      }
      var c :| 0 <= c < |s.clients| && !s.clients[c].Done();
      assert s.clients[c].Valid() && !Enabled(size, s, c);
      UsedByWorkers(s.clients, s.clients[c].pool);
      assert s.clients[c].todo[0].Lock?;
      var h := s.locks[s.clients[c].todo[0].key];
      assert s.clients[h].Valid() && !Enabled(size, s, h);
      UsedByWorkers(s.clients, s.clients[h].pool);
      assert false;
    }
  }

  // ---- whole runs ----

  /** A schedule names, step after step, the client that moves. */
  ghost predicate Runs(size: nat, s: State, sched: seq<nat>)
    decreases |sched|
  {
    sched == [] || (Enabled(size, s, sched[0]) && Runs(size, Apply(s, sched[0]), sched[1..]))
  }

  ghost function End(size: nat, s: State, sched: seq<nat>): State
    requires Runs(size, s, sched)
    decreases |sched|
  {
    if sched == [] then s else End(size, Apply(s, sched[0]), sched[1..])
  }

  lemma {:induction false} RunKeepsInv(size: nat, s: State, sched: seq<nat>)
    requires Inv(size, s) && Runs(size, s, sched)
    ensures Inv(size, End(size, s, sched))
    ensures Work(End(size, s, sched).clients) == Work(s.clients) - |sched|
    ensures forall p: nat :: Workers(End(size, s, sched).clients, p) == Workers(s.clients, p)
    decreases |sched|
  {
    if sched != [] {
      StepKeepsInv(size, s, sched[0]);
      RunKeepsInv(size, Apply(s, sched[0]), sched[1..]);
    }
  }

  lemma {:induction false} WorkIsZero(cs: seq<Client>)
    ensures Work(cs) == 0 <==> forall c | 0 <= c < |cs| :: cs[c].Done()
  {
    if cs != [] {
      var n := |cs| - 1;
      WorkIsZero(cs[..n]);
      assert forall c | 0 <= c < n :: cs[..n][c] == cs[c];
    }
  }

  /** Below the bound every run can go on until all jobs are done, and it is done after exactly the
      number of operations it started with, whatever the interleaving. */
  lemma EveryRunFinishes(size: nat, s: State, sched: seq<nat>)
    requires Inv(size, s) && Runs(size, s, sched)
    requires forall p: nat :: Workers(s.clients, p) < size
    ensures |sched| <= Work(s.clients)
    ensures |sched| == Work(s.clients) <==> AllDone(End(size, s, sched))
    ensures |sched| < Work(s.clients) ==> exists c: nat :: Enabled(size, End(size, s, sched), c)
  {
    RunKeepsInv(size, s, sched);
    WorkIsZero(End(size, s, sched).clients);
    if |sched| < Work(s.clients) {
      Progress(size, End(size, s, sched));
    }
  }

  // ---- deadlock at the bound ----

  /** Every connection of the pool belongs to a job that holds it for its lock and will want a second one. */
  ghost predicate Doomed(size: nat, s: State, pool: nat) {
    && Used(s.clients, pool) == size
    && forall c | 0 <= c < |s.clients| && s.clients[c].pool == pool :: Doubling(s.clients[c])
  }

  ghost predicate Doubling(c: Client) {
    || c.phase.Free?
    || (c.phase.Holding? && |c.todo| >= 2 && c.todo[0].Lock? && c.todo[1] == Acquire)
    || (c.phase.Locked? && |c.todo| >= 1 && c.todo[0] == Acquire)
  }

  lemma DoomIsForever(size: nat, s: State, pool: nat, c: nat)
    requires Inv(size, s) && Doomed(size, s, pool) && Enabled(size, s, c)
    ensures Doomed(size, Apply(s, c), pool)
  {
    assert s.clients[c].Valid();
    UsedAfter(s.clients, c, Apply(s, c).clients[c], pool);
  }

  lemma {:induction false} UsedIsSomeones(cs: seq<Client>, pool: nat)
    requires Used(cs, pool) > 0
    ensures exists c | 0 <= c < |cs| :: !cs[c].phase.Free?
  {
    var n := |cs| - 1;
    if cs[n].phase.Free? {
      UsedIsSomeones(cs[..n], pool);
      var c :| 0 <= c < |cs[..n]| && !cs[..n][c].phase.Free?;
      assert !cs[c].phase.Free?;
    }
  }

  lemma DoomedIsUnfinished(size: nat, s: State, pool: nat)
    requires size > 0 && Inv(size, s) && Doomed(size, s, pool)
    ensures !AllDone(s)
  {
    UsedIsSomeones(s.clients, pool);
    var c :| 0 <= c < |s.clients| && !s.clients[c].phase.Free?;
    assert s.clients[c].Valid();
    assert !s.clients[c].Done();
  }

  /** From a doomed state every continuation ends stuck: it stays doomed and unfinished however far it is carried, and
      it cannot be carried on for ever. */
  lemma {:induction false} DoomedRunsGetStuck(size: nat, s: State, pool: nat, sched: seq<nat>)
    requires size > 0 && Inv(size, s) && Doomed(size, s, pool) && Runs(size, s, sched)
    ensures Doomed(size, End(size, s, sched), pool) && !AllDone(End(size, s, sched))
    ensures |sched| <= Work(s.clients)
    ensures (forall c: nat :: !Enabled(size, End(size, s, sched), c)) ==> Stuck(size, End(size, s, sched))
    decreases |sched|
  {
    if sched == [] {
      DoomedIsUnfinished(size, s, pool);
    } else {
      DoomIsForever(size, s, pool, sched[0]);
      StepKeepsInv(size, s, sched[0]);
      DoomedRunsGetStuck(size, Apply(s, sched[0]), pool, sched[1..]);
    }
  }

  lemma {:induction false} StuckIsReached(size: nat, s: State, pool: nat) returns (sched: seq<nat>)
    requires size > 0 && Inv(size, s) && Doomed(size, s, pool)
    ensures Runs(size, s, sched) && Stuck(size, End(size, s, sched))
    decreases Work(s.clients)
  {
    if c: nat :| Enabled(size, s, c) {
      DoomIsForever(size, s, pool, c);
      StepKeepsInv(size, s, c);
      var rest := StuckIsReached(size, Apply(s, c), pool);
      sched := [c] + rest;
      assert sched[1..] == rest;
    } else {
      sched := [];
      DoomedIsUnfinished(size, s, pool);
    }
  }

  // ---- the programs that the workers really run ----

  /** The counts of single queries before, under and after the user lock. */
  datatype Job = Job(user: Key, before: nat, inside: nat, after: nat)

  function Queries(n: nat): seq<Op> {
    if n == 0 then [] else [Acquire, Release] + Queries(n - 1)
  }

  function CreateJob(j: Job): seq<Op> {
    Queries(j.before) + ([Acquire, Lock(j.user)] + (Queries(j.inside) + ([Unlock(j.user), Release] + Queries(j.after))))
  }

  function Program(jobs: seq<Job>): seq<Op> {
    if jobs == [] then [] else CreateJob(jobs[0]) + Program(jobs[1..])
  }

  lemma {:induction false} QueriesTyped(p: Phase, n: nat, rest: seq<Op>)
    requires (p.Free? || p.Locked?) && Typed(p, rest)
    ensures Typed(p, Queries(n) + rest)
  {
    if n == 0 {
      assert Queries(n) + rest == rest;
    } else {
      QueriesTyped(p, n - 1, rest);
      var ops := Queries(n) + rest;
      assert ops == [Acquire, Release] + (Queries(n - 1) + rest);
      assert ops[1..] == [Release] + (Queries(n - 1) + rest);
      assert ops[1..][1..] == Queries(n - 1) + rest;
      var q := p.Then(Acquire);
      assert ops[1..][0] == Release && q.Then(Release) == p;
      assert Typed(q, ops[1..]);
    }
  }

  lemma Typed2(p: Phase, a: Op, b: Op, rest: seq<Op>)
    requires p.Allows(a) && p.Then(a).Allows(b) && Typed(p.Then(a).Then(b), rest)
    ensures Typed(p, [a, b] + rest)
  {
    var ops := [a, b] + rest;
    assert ops[1..][0] == b && ops[1..][1..] == rest;
    assert Typed(p.Then(a), ops[1..]);
  }

  lemma Regroup3<T>(a: seq<T>, b: seq<T>, c: seq<T>, d: seq<T>, e: seq<T>, rest: seq<T>)
    ensures (a + (b + (c + (d + e)))) + rest == a + (b + (c + (d + (e + rest))))
  {
  }

  lemma CreateJobTyped(j: Job, rest: seq<Op>)
    requires Typed(Free, rest)
    ensures Typed(Free, CreateJob(j) + rest)
  {
    QueriesTyped(Free, j.after, rest);
    Typed2(Locked(j.user), Unlock(j.user), Release, Queries(j.after) + rest);
    var unlock := [Unlock(j.user), Release] + (Queries(j.after) + rest);
    QueriesTyped(Locked(j.user), j.inside, unlock);
    Typed2(Free, Acquire, Lock(j.user), Queries(j.inside) + unlock);
    QueriesTyped(Free, j.before, [Acquire, Lock(j.user)] + (Queries(j.inside) + unlock));
    Regroup3(Queries(j.before), [Acquire, Lock(j.user)], Queries(j.inside), [Unlock(j.user), Release], Queries(j.after),
             rest);
  }

  lemma {:induction false} ProgramTyped(jobs: seq<Job>)
    ensures Typed(Free, Program(jobs))
  {
    if jobs != [] {
      ProgramTyped(jobs[1..]);
      CreateJobTyped(jobs[0], Program(jobs[1..]));
    }
  }

  lemma {:induction false} QueriesHaveNoLock(n: nat)
    ensures forall i | 0 <= i < |Queries(n)| :: !Queries(n)[i].Lock?
  {
    if n > 0 { QueriesHaveNoLock(n - 1); }
  }

  /** A client of a process: a worker with the create jobs it will run, or a source of single queries. */
  datatype Load = Creating(pool: nat, jobs: seq<Job>) | Background(pool: nat, queries: nat)

  function Client0(l: Load): Client {
    match l
    case Creating(p, jobs) => Client(p, true, Free, Program(jobs))
    case Background(p, n) => Client(p, false, Free, Queries(n))
  }

  function Clients0(loads: seq<Load>): seq<Client> {
    seq(|loads|, i requires 0 <= i < |loads| => Client0(loads[i]))
  }

  function Init(loads: seq<Load>): State {
    State(Clients0(loads), map[])
  }

  /** How many create workers the loads put into one pool. */
  function Concurrency(loads: seq<Load>, pool: nat): nat {
    if loads == [] then 0
    else Concurrency(loads[..|loads| - 1], pool)
         + if loads[|loads| - 1].Creating? && loads[|loads| - 1].pool == pool then 1 else 0
  }

  /** Every worker has a create job to run, and a create job queries at least once under its lock:
      it always starts by reading the account row again. */
  ghost predicate Busy(loads: seq<Load>) {
    forall i | 0 <= i < |loads| && loads[i].Creating? :: loads[i].jobs != [] && loads[i].jobs[0].inside >= 1
  }

  lemma {:induction false} InitCounts(loads: seq<Load>, pool: nat)
    ensures Used(Clients0(loads), pool) == 0
    ensures Workers(Clients0(loads), pool) == Concurrency(loads, pool)
  {
    if loads != [] {
      var n := |loads| - 1;
      InitCounts(loads[..n], pool);
      assert Clients0(loads)[..n] == Clients0(loads[..n]);
    }
  }

  lemma InitInv(size: nat, loads: seq<Load>)
    ensures Inv(size, Init(loads))
    ensures forall p: nat :: Workers(Init(loads).clients, p) == Concurrency(loads, p)
  {
    forall p: nat
      ensures Used(Init(loads).clients, p) == 0 && Workers(Init(loads).clients, p) == Concurrency(loads, p)
    {
      InitCounts(loads, p);
    }
    forall c | 0 <= c < |loads| ensures Client0(loads[c]).Valid() {
      match loads[c]
      case Creating(_, jobs) => ProgramTyped(jobs);
      case Background(_, n) =>
        QueriesHaveNoLock(n);
        QueriesTyped(Free, n, []);
        assert Queries(n) + [] == Queries(n);
    }
  }

  // ---- reaching the doomed state ----

  lemma {:induction false} RunsConcat(size: nat, s: State, a: seq<nat>, b: seq<nat>)
    requires Runs(size, s, a) && Runs(size, End(size, s, a), b)
    ensures Runs(size, s, a + b) && End(size, s, a + b) == End(size, End(size, s, a), b)
    decreases |a|
  {
    if a == [] {
      assert a + b == b;
    } else {
      RunsConcat(size, Apply(s, a[0]), a[1..], b);
      assert (a + b)[1..] == a[1..] + b;
    }
  }

  /** A free client can make one query while its pool has a connection left; nothing else changes. */
  lemma RunQuery(size: nat, s: State, c: nat, rest: seq<Op>)
    requires c < |s.clients| && s.clients[c].phase.Free? && s.clients[c].todo == [Acquire, Release] + rest
    requires Used(s.clients, s.clients[c].pool) < size
    ensures Runs(size, s, [c, c])
    ensures End(size, s, [c, c]) == s.(clients := s.clients[c := s.clients[c].(todo := rest)])
  {
    var s1 := Apply(s, c);
    assert s1.clients[c].todo == [Release] + rest;
    var s2 := Apply(s1, c);
    assert s2.clients[c].todo == rest;
    assert s2.clients == s.clients[c := s.clients[c].(todo := rest)];
    assert [c, c][1..] == [c] && [c][1..] == [];
    assert Runs(size, s2, []);
    assert Runs(size, s1, [c]) && End(size, s1, [c]) == s2;
  }

  lemma {:induction false} RunQueries(size: nat, s: State, c: nat, n: nat, rest: seq<Op>) returns (sched: seq<nat>)
    requires c < |s.clients| && s.clients[c].phase.Free? && s.clients[c].todo == Queries(n) + rest
    requires Used(s.clients, s.clients[c].pool) < size
    ensures Runs(size, s, sched)
    ensures End(size, s, sched) == s.(clients := s.clients[c := s.clients[c].(todo := rest)])
    decreases n
  {
    var me := s.clients[c];
    if n == 0 {
      sched := [];
      assert Queries(n) + rest == rest;
      assert s.clients[c := me] == s.clients;
    } else {
      var mid := Queries(n - 1) + rest;
      assert me.todo == [Acquire, Release] + mid;
      RunQuery(size, s, c, mid);
      var s2 := End(size, s, [c, c]);
      UsedAfter(s.clients, c, me.(todo := mid), me.pool);
      var tail := RunQueries(size, s2, c, n - 1, rest);
      assert s2.clients[c := me.(todo := rest)] == s.clients[c := me.(todo := rest)];
      RunsConcat(size, s, [c, c], tail);
      sched := [c, c] + tail;
    }
  }

  /** A worker with a create job starts with single queries, then takes the connection for its lock, then
      locks, and wants the second connection next. */
  lemma ProgramShape(jobs: seq<Job>) returns (rest: seq<Op>)
    requires jobs != [] && jobs[0].inside >= 1
    ensures Program(jobs) == Queries(jobs[0].before) + ([Acquire] + ([Lock(jobs[0].user), Acquire] + rest))
  {
    var j := jobs[0];
    var inner := [Release] + Queries(j.inside - 1);
    var tail := [Unlock(j.user), Release] + Queries(j.after);
    rest := inner + tail + Program(jobs[1..]);
    assert Queries(j.inside) == [Acquire] + inner;
    Regroup(Queries(j.before), Lock(j.user), inner, tail, Program(jobs[1..]));
  }

  lemma Regroup(q: seq<Op>, lock: Op, inner: seq<Op>, tail: seq<Op>, more: seq<Op>)
    ensures (q + ([Acquire, lock] + (([Acquire] + inner) + tail))) + more
         == q + ([Acquire] + ([lock, Acquire] + (inner + tail + more)))
  {
    assert [Acquire, lock] + (([Acquire] + inner) + tail) == [Acquire] + ([lock, Acquire] + (inner + tail));
  }

  /** A free client whose next operation is to acquire can do so while its pool has a connection left. */
  lemma RunAcquire(size: nat, s: State, c: nat, rest: seq<Op>)
    requires c < |s.clients| && s.clients[c].phase.Free? && s.clients[c].todo == [Acquire] + rest
    requires Used(s.clients, s.clients[c].pool) < size
    ensures Runs(size, s, [c])
    ensures End(size, s, [c]) == s.(clients := s.clients[c := s.clients[c].(phase := Holding, todo := rest)])
  {
    var s1 := Apply(s, c);
    assert s1.clients[c].todo == rest;
    assert s1.clients == s.clients[c := s.clients[c].(phase := Holding, todo := rest)];
    assert [c][1..] == [];
    assert Runs(size, s1, []);
  }

  /** Single queries, and then a connection to keep. */
  lemma QueryThenAcquire(size: nat, s: State, c: nat, n: nat, rest: seq<Op>) returns (sched: seq<nat>)
    requires c < |s.clients| && s.clients[c].phase.Free? && s.clients[c].todo == Queries(n) + ([Acquire] + rest)
    requires Used(s.clients, s.clients[c].pool) < size
    ensures Runs(size, s, sched)
    ensures End(size, s, sched) == s.(clients := s.clients[c := s.clients[c].(phase := Holding, todo := rest)])
  {
    var me := s.clients[c];
    var queries := RunQueries(size, s, c, n, [Acquire] + rest);
    var s1 := End(size, s, queries);
    UsedAfter(s.clients, c, me.(todo := [Acquire] + rest), me.pool);
    RunAcquire(size, s1, c, rest);
    assert s1.clients[c := me.(phase := Holding, todo := rest)] == s.clients[c := me.(phase := Holding, todo := rest)];
    RunsConcat(size, s, queries, [c]);
    sched := queries + [c];
  }

  /** A worker at the start of a create job can be led to the point where it owns the connection meant for
      its lock, without touching anybody else. */
  lemma LeadToLock(size: nat, s: State, c: nat, jobs: seq<Job>) returns (sched: seq<nat>, x: Client)
    requires c < |s.clients| && s.clients[c].phase.Free? && s.clients[c].todo == Program(jobs)
    requires jobs != [] && jobs[0].inside >= 1
    requires Used(s.clients, s.clients[c].pool) < size
    ensures Runs(size, s, sched)
    ensures End(size, s, sched) == s.(clients := s.clients[c := x])
    ensures x.pool == s.clients[c].pool && x.phase.Holding? && Doubling(x)
    ensures Used(s.clients[c := x], x.pool) == Used(s.clients, x.pool) + 1
  {
    var rest := ProgramShape(jobs);
    var lock := [Lock(jobs[0].user), Acquire] + rest;
    sched := QueryThenAcquire(size, s, c, jobs[0].before, lock);
    x := s.clients[c].(phase := Holding, todo := lock);
    UsedAfter(s.clients, c, x, x.pool);
  }

  lemma ConcurrencyPrefix(loads: seq<Load>, n: nat, pool: nat)
    requires n < |loads|
    ensures Concurrency(loads[..n + 1], pool)
         == Concurrency(loads[..n], pool) + if loads[n].Creating? && loads[n].pool == pool then 1 else 0
  {
    assert loads[..n + 1][..n] == loads[..n];
  }

  /** The clients from `n` on have not moved, and the workers among them can still fill the pool. */
  ghost predicate Filling(size: nat, loads: seq<Load>, pool: nat, s: State, n: nat) {
    && Inv(size, s) && n <= |loads| == |s.clients|
    && (forall c | 0 <= c < |s.clients| && s.clients[c].pool == pool :: Doubling(s.clients[c]))
    && (forall c | n <= c < |loads| :: s.clients[c] == Client0(loads[c]))
    && Used(s.clients, pool) + Concurrency(loads, pool) - Concurrency(loads[..n], pool) >= size
  }

  lemma FillOne(size: nat, loads: seq<Load>, pool: nat, s: State, n: nat) returns (sched: seq<nat>)
    requires Busy(loads) && Filling(size, loads, pool, s, n) && n < |loads| && Used(s.clients, pool) < size
    ensures Runs(size, s, sched) && Filling(size, loads, pool, End(size, s, sched), n + 1)
  {
    ConcurrencyPrefix(loads, n, pool);
    if loads[n].Background? || loads[n].pool != pool {
      sched := [];
    } else {
      var x;
      sched, x := LeadToLock(size, s, n, loads[n].jobs);
      RunKeepsInv(size, s, sched);
    }
  }

  /** The workers of the pool are led, one after the other, to the point where each owns its lock connection. */
  lemma {:induction false} FillPool(size: nat, loads: seq<Load>, pool: nat, s: State, n: nat) returns (sched: seq<nat>)
    requires Busy(loads) && Filling(size, loads, pool, s, n)
    ensures Runs(size, s, sched) && Doomed(size, End(size, s, sched), pool)
    decreases |loads| - n
  {
    if Used(s.clients, pool) == size {
      sched := [];
    } else {
      assert loads[..|loads|] == loads;
      var lead := FillOne(size, loads, pool, s, n);
      var rest := FillPool(size, loads, pool, End(size, s, lead), n + 1);
      RunsConcat(size, s, lead, rest);
      sched := lead + rest;
    }
  }

  /** From the start, the schedule leads to a state in which somebody is unfinished and nobody can move. */
  ghost predicate Deadlocks(size: nat, loads: seq<Load>, sched: seq<nat>) {
    Runs(size, Init(loads), sched) && Stuck(size, End(size, Init(loads), sched))
  }

  lemma DeadlockIsReachable(size: nat, loads: seq<Load>, pool: nat) returns (sched: seq<nat>)
    requires size > 0 && Busy(loads) && size <= Concurrency(loads, pool)
    ensures Deadlocks(size, loads, sched)
  {
    var s := Init(loads);
    InitInv(size, loads);
    InitCounts(loads, pool);
    assert Concurrency(loads[..0], pool) == 0;
    var fill := FillPool(size, loads, pool, s, 0);
    RunKeepsInv(size, s, fill);
    var rest := StuckIsReached(size, End(size, s, fill), pool);
    RunsConcat(size, s, fill, rest);
    sched := fill + rest;
  }

  lemma NoDeadlockBelow(size: nat, loads: seq<Load>, sched: seq<nat>)
    requires Runs(size, Init(loads), sched) && forall p: nat :: Concurrency(loads, p) < size
    ensures !Deadlocks(size, loads, sched)
  {
    InitInv(size, loads);
    RunKeepsInv(size, Init(loads), sched);
    if !AllDone(End(size, Init(loads), sched)) {
      Progress(size, End(size, Init(loads), sched));
    }
  }

  /** The bound is exact: a deadlock can happen if and only if some process runs at least as many create
      workers as its pool has connections, whoever the users are and however the advisory keys collide. */
  lemma DeadlockBound(size: nat, loads: seq<Load>)
    requires size > 0 && Busy(loads)
    ensures (exists sched: seq<nat> :: Deadlocks(size, loads, sched))
       <==> (exists p: nat :: size <= Concurrency(loads, p))
  {
    if p: nat :| size <= Concurrency(loads, p) {
      var sched := DeadlockIsReachable(size, loads, p);
    } else if sched: seq<nat> :| Deadlocks(size, loads, sched) {
      NoDeadlockBelow(size, loads, sched);
    }
  }

  /** The workers of one process, each with a create job to run, for whatever users. */
  ghost predicate OneProcess(loads: seq<Load>) {
    Busy(loads) && forall i | 0 <= i < |loads| :: loads[i].Creating? && loads[i].pool == 0
  }

  lemma {:induction false} OneProcessConcurrency(loads: seq<Load>, pool: nat)
    requires OneProcess(loads)
    ensures Concurrency(loads, pool) == if pool == 0 then |loads| else 0
  {
    if loads != [] { OneProcessConcurrency(loads[..|loads| - 1], pool); }
  }

  /** The accepted settings straddle the bound: with the real pool size of 20, one process whose workers all create,
      for whatever users, can deadlock exactly from concurrency 20 on, and the configuration accepts 1 to 32. */
  lemma ConfiguredConcurrency(loads: seq<Load>)
    requires OneProcess(loads) && 1 <= |loads| <= 32
    ensures (exists sched: seq<nat> :: Deadlocks(20, loads, sched)) <==> |loads| >= 20
  {
    DeadlockBound(20, loads);
    OneProcessConcurrency(loads, 0);
    forall p: nat ensures Concurrency(loads, p) == if p == 0 then |loads| else 0 {
      OneProcessConcurrency(loads, p);
    }
  }
}
