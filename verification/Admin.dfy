/** adminUpdateUser, and the rule that the last active administrator stays. */
module Admin {
  import opened Common

  type UserId = nat

  datatype User = User(role: string, status: string, droplets: Option<int>, vcpus: Option<int>, memoryMb: Option<int>)

  /** A field of the request body: left out, null, or a number. */
  datatype Field = Omitted | Null | Set(value: int)

  datatype Input = Input(role: Option<string>, status: Option<string>, droplets: Field, vcpus: Field, memoryMb: Field)

  datatype Reply = NotFound | InvalidRole | InvalidStatus | InvalidQuota | LastAdmin | UpdateFailed | Done(user: User)

  type Table = map<UserId, User>

  predicate ActiveAdmin(u: User) {
    u.role == "admin" && u.status == "active"
  }

  function ActiveAdmins(users: Table): set<UserId> {
    set id | id in users && ActiveAdmin(users[id])
  }

  predicate ValidInput(input: Input) {
    && (input.role.Some? ==> input.role.value == "admin" || input.role.value == "user")
    && (input.status.Some? ==> input.status.value == "active" || input.status.value == "disabled"
                               || input.status.value == "pending")
    && NotNegative(input.droplets) && NotNegative(input.vcpus) && NotNegative(input.memoryMb)
  }

  predicate NotNegative(f: Field) {
    f.Set? ==> f.value >= 0
  }

  /** What a field does to a column. */
  predicate Sets(f: Field, before: Option<int>, after: Option<int>) {
    match f
    case Omitted => after == before
    case Null => after.None?
    case Set(value) => after == Some(value)
  }

  /** The row after an accepted update. */
  predicate Applies(input: Input, before: User, after: User) {
    && after.role == (if input.role.Some? then input.role.value else before.role)
    && after.status == (if input.status.Some? then input.status.value else before.status)
    && Sets(input.droplets, before.droplets, after.droplets)
    && Sets(input.vcpus, before.vcpus, after.vcpus)
    && Sets(input.memoryMb, before.memoryMb, after.memoryMb)
  }

  /** quotaUpdate and the CASE of the statement: a column is written only if the field is present. */
  function Column(f: Field, before: Option<int>): Option<int> {
    var present := !f.Omitted?;
    var value := if f.Set? then Some(f.value) else None;
    if present then value else before
  }

  function Written(input: Input, u: User): User {
    User(if input.role.Some? then input.role.value else u.role,
         if input.status.Some? then input.status.value else u.status,
         Column(input.droplets, u.droplets), Column(input.vcpus, u.vcpus), Column(input.memoryMb, u.memoryMb))
  }

  /** The row an update writes is the only one that the fields of the body allow. */
  lemma WrittenApplies(input: Input, before: User, after: User)
    ensures Applies(input, before, after) <==> after == Written(input, before)
  {
  }

  /** The update sets a role or a status that active administrators do not have. */
  predicate Demotes(input: Input) {
    (input.role.Some? && input.role.value != "admin") || (input.status.Some? && input.status.value != "active")
  }

  /** The update takes an active administrator away. */
  predicate Removes(input: Input, current: User) {
    ActiveAdmin(current) && Demotes(input)
  }

  lemma RemovesIsExact(input: Input, current: User)
    ensures Removes(input, current) <==> ActiveAdmin(current) && !ActiveAdmin(Written(input, current))
  {
  }

  /** What the rules allow, judged on this table. */
  ghost predicate Passes(users: Table, id: UserId, input: Input) {
    id in users && ValidInput(input) && (Removes(input, users[id]) ==> |ActiveAdmins(users)| >= 2)
  }

  class Users {
    var users: Table

    constructor (users: Table)
      ensures this.users == users
    {
      this.users := users;
    }

    /** Checks in the order of the handler, then one statement. A count that cannot be read is zero. Any statement may
        fail, which is a fault; without one every update that the rules allow is done. */
    method AdminUpdate(id: UserId, input: Input) returns (reply: Reply, ghost fault: bool)
      modifies this
      ensures reply.Done? ==> id in old(users) && ValidInput(input) && Applies(input, old(users)[id], reply.user)
                              && users == old(users)[id := reply.user]
      ensures !reply.Done? ==> users == old(users)
      ensures reply.Done? && Removes(input, old(users)[id]) ==> |ActiveAdmins(old(users))| >= 2
      ensures Step(old(users), OpUpdate(id, input, reply.Done?), users)
      ensures reply.InvalidRole? || reply.InvalidStatus? || reply.InvalidQuota? ==> !ValidInput(input)
      ensures reply.InvalidQuota? ==> exists n :: n < 0 && (input.droplets == Set(n) || input.vcpus == Set(n)
                                                            || input.memoryMb == Set(n))
      ensures reply.LastAdmin? ==> id in users && ValidInput(input) && Removes(input, users[id])
      ensures id in old(users) && !ValidInput(input) ==> !reply.Done? && !reply.LastAdmin?
      ensures !fault ==> (reply.Done? <==> Passes(old(users), id, input))
      ensures id in old(users) && Removes(input, old(users)[id]) && ActiveAdmins(old(users)) == {id} ==> !reply.Done?
    {
      fault := false;
      var found: bool := *;
      if !found || id !in users {
        return NotFound, !found;
      }
      var current := users[id];
      if input.role.Some? && input.role.value != "admin" && input.role.value != "user" {
        return InvalidRole, false;
      }
      if input.status.Some? && input.status.value != "active" && input.status.value != "disabled"
          && input.status.value != "pending" {
        return InvalidStatus, false;
      }
      if !NotNegative(input.droplets) || !NotNegative(input.vcpus) || !NotNegative(input.memoryMb) {
        return InvalidQuota, false;
      }
      if Removes(input, current) {
        var counted: bool := *;
        var count := if counted then |ActiveAdmins(users)| else 0;
        if count <= 1 {
          return LastAdmin, !counted;
        }
      }
      var stored: bool := *;
      if !stored {
        return UpdateFailed, true;
      }
      WrittenApplies(input, current, Written(input, current));
      users := users[id := Written(input, current)];
      reply := Done(users[id]);
    }

    /** Registration and creation by an administrator; a taken address is refused. */
    method CreateUser(id: UserId, user: User) returns (ok: bool)
      requires id !in users
      modifies this
      ensures users == if ok then old(users)[id := user] else old(users)
      ensures Step(old(users), OpCreate(id, user), users)
    {
      ok := *;
      if ok {
        users := users[id := user];
      }
    }

    method ActivateUser(id: UserId) returns (ok: bool)
      modifies this
      ensures ok ==> id in old(users) && users == old(users)[id := old(users)[id].(status := "active")]
      ensures !ok ==> users == old(users)
      ensures Step(old(users), OpActivate(id), users)
    {
      var reached: bool := *;
      ok := reached && id in users;
      if ok {
        users := users[id := users[id].(status := "active")];
      }
    }
  }

  // ---- serial runs ----

  datatype Op =
    | OpUpdate(id: UserId, input: Input, stored: bool)
    | OpCreate(id: UserId, user: User)
    | OpActivate(id: UserId)

  /** What a completed operation may have done to the table. */
  ghost predicate Step(before: Table, op: Op, after: Table) {
    match op
    case OpUpdate(id, input, stored) =>
      if stored then
        && id in before && ValidInput(input) && (Removes(input, before[id]) ==> |ActiveAdmins(before)| >= 2)
        && id in after && Applies(input, before[id], after[id]) && after == before[id := after[id]]
      else after == before
    case OpCreate(id, user) => after == before || (id !in before && after == before[id := user])
    case OpActivate(id) => after == before || (id in before && after == before[id := before[id].(status := "active")])
  }

  lemma TwoHaveAnother(s: set<UserId>, x: UserId)
    requires |s| >= 2
    ensures exists y :: y in s && y != x
  {
    var others := s - {x};
    assert |others| >= |s| - 1;
    var y :| y in others;
    assert y in s && y != x;
  }

  lemma StepKeepsAnAdmin(before: Table, op: Op, after: Table)
    requires Step(before, op, after) && ActiveAdmins(before) != {}
    ensures ActiveAdmins(after) != {}
  {
    var x :| x in ActiveAdmins(before);
    if op.OpUpdate? && op.stored {
      WrittenApplies(op.input, before[op.id], after[op.id]);
      RemovesIsExact(op.input, before[op.id]);
      if x == op.id && Removes(op.input, before[op.id]) {
        TwoHaveAnother(ActiveAdmins(before), op.id);
        var y :| y in ActiveAdmins(before) && y != op.id;
        assert y in ActiveAdmins(after);
      } else {
        assert x in ActiveAdmins(after);
      }
    } else {
      assert x in ActiveAdmins(after);
    }
  }

  ghost predicate SerialRun(tables: seq<Table>, ops: seq<Op>) {
    |tables| == |ops| + 1 && forall i | 0 <= i < |ops| :: Step(tables[i], ops[i], tables[i + 1])
  }

  /** Starting with an active administrator, serial runs never lose the last one, whatever fields the updates mix. */
  lemma {:induction false} SerialRunsKeepAnAdmin(tables: seq<Table>, ops: seq<Op>)
    requires SerialRun(tables, ops) && ActiveAdmins(tables[0]) != {}
    ensures forall i | 0 <= i < |tables| :: ActiveAdmins(tables[i]) != {}
    decreases |ops|
  {
    if ops != [] {
      var n := |ops|;
      SerialRunsKeepAnAdmin(tables[..n], ops[..n - 1]);
      assert tables[..n][n - 1] == tables[n - 1];
      StepKeepsAnAdmin(tables[n - 1], ops[n - 1], tables[n]);
      forall i | 0 <= i < n ensures ActiveAdmins(tables[i]) != {} { assert tables[i] == tables[..n][i]; }
    }
  }

  // ---- several requests at once ----

  datatype Request = Request(id: UserId, input: Input)

  /** The updates, one after the other, each of the row it finds. */
  function WriteAll(users: Table, reqs: seq<Request>): Table {
    if reqs == [] then users
    else
      var before, last := WriteAll(users, reqs[..|reqs| - 1]), reqs[|reqs| - 1];
      if last.id in before then before[last.id := Written(last.input, before[last.id])] else before
  }

  function Targets(reqs: seq<Request>): set<UserId> {
    set i | 0 <= i < |reqs| :: reqs[i].id
  }

  lemma TargetsSnoc(reqs: seq<Request>, last: Request)
    ensures Targets(reqs + [last]) == Targets(reqs) + {last.id}
  {
    var all := reqs + [last];
    assert all[|reqs|] == last && forall i | 0 <= i < |reqs| :: all[i] == reqs[i];
    forall id | id in Targets(reqs) + {last.id} ensures id in Targets(all) {
      if id != last.id {
        var i :| 0 <= i < |reqs| && reqs[i].id == id;
        assert all[i].id == id;
      }
    }
  }

  /** Whatever row it finds, such an update leaves something else than an active administrator behind. */
  lemma DemotionSticks(input: Input, found: User)
    requires Demotes(input)
    ensures !ActiveAdmin(Written(input, found))
  {
  }

  lemma OneAdminLess(users: Table, id: UserId, u: User)
    requires id in users && !ActiveAdmin(u)
    ensures ActiveAdmins(users[id := u]) == ActiveAdmins(users) - {id}
  {
  }

  /** Demotions that are past their guards, whenever that was, take away exactly their targets; so they leave nobody if
      and only if every active administrator is the target of one of them. */
  lemma {:induction false} PendingDemotions(users: Table, reqs: seq<Request>)
    requires forall i | 0 <= i < |reqs| :: Demotes(reqs[i].input)
    ensures ActiveAdmins(WriteAll(users, reqs)) == ActiveAdmins(users) - Targets(reqs)
    ensures ActiveAdmins(WriteAll(users, reqs)) == {} <==> ActiveAdmins(users) <= Targets(reqs)
    decreases |reqs|
  {
    if reqs != [] {
      var n := |reqs| - 1;
      PendingDemotions(users, reqs[..n]);
      var before := WriteAll(users, reqs[..n]);
      assert reqs == reqs[..n] + [reqs[n]];
      TargetsSnoc(reqs[..n], reqs[n]);
      if reqs[n].id in before {
        DemotionSticks(reqs[n].input, before[reqs[n].id]);
        OneAdminLess(before, reqs[n].id, Written(reqs[n].input, before[reqs[n].id]));
      }
    } else {
      assert Targets(reqs) == {};
    }
  }

  /** Count and update are two statements, so any number of requests can pass their guards on the same table before
      the first of them writes. */
  ghost predicate Race(users: Table, reqs: seq<Request>) {
    forall i | 0 <= i < |reqs| ::
      Passes(users, reqs[i].id, reqs[i].input) && Removes(reqs[i].input, users[reqs[i].id])
  }

  /** An administrator is left after a race of removals, in whatever order they write, if and only if there were more
      active administrators than the removals have targets. */
  lemma RaceOutcome(users: Table, reqs: seq<Request>)
    requires Race(users, reqs)
    ensures ActiveAdmins(WriteAll(users, reqs)) != {} <==> |ActiveAdmins(users)| > |Targets(reqs)|
  {
    PendingDemotions(users, reqs);
    var all, gone := ActiveAdmins(users), Targets(reqs);
    assert gone <= all;
    assert all == (all - gone) + gone && |all| == |all - gone| + |gone|;
  }

  /** So a race of as many removals as there are administrators, if these are at least two, locks everybody out. */
  lemma RaceLosesLastAdmin(users: Table, reqs: seq<Request>)
    requires |ActiveAdmins(users)| >= 2 && Targets(reqs) == ActiveAdmins(users)
    requires forall i | 0 <= i < |reqs| :: reqs[i].input == Input(Some("user"), None, Omitted, Omitted, Omitted)
    ensures Race(users, reqs) && ActiveAdmins(WriteAll(users, reqs)) == {}
  {
    forall i | 0 <= i < |reqs|
      ensures Passes(users, reqs[i].id, reqs[i].input) && Removes(reqs[i].input, users[reqs[i].id])
    {
      assert reqs[i].id in Targets(reqs);
    }
    RaceOutcome(users, reqs);
  }

  /** Two administrators and two requests are enough. */
  lemma TwoRequestsLoseTwoAdmins() returns (users: Table, reqs: seq<Request>)
    ensures |ActiveAdmins(users)| == 2 == |reqs| && Race(users, reqs) && ActiveAdmins(WriteAll(users, reqs)) == {}
  {
    var admin := User("admin", "active", None, None, None);
    var input := Input(Some("user"), None, Omitted, Omitted, Omitted);
    users, reqs := map[0 := admin, 1 := admin], [Request(0, input), Request(1, input)];
    assert ActiveAdmins(users) == {0, 1};
    assert reqs[0].id == 0 && reqs[1].id == 1;
    assert Targets(reqs) == {0, 1};
    RaceLosesLastAdmin(users, reqs);
  }
}
