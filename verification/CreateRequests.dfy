/** The part of a create job that asks the provider for droplets and waits for them. */
module CreateRequests {
  import opened Common
  import opened Jobs
  import opened Inventory
  import opened ProviderLayer
  import opened SyncJob

  // ---- what a log of requests says ----

  function IdsOf(actions: seq<Action>): seq<int> {
    if actions == [] then [] else [actions[0].id] + IdsOf(actions[1..])
  }

  /** The actions that name a droplet. */
  function Awaitable(actions: seq<Action>): seq<Action> {
    if actions == [] then []
    else if actions[0].resource != 0 then [actions[0]] + Awaitable(actions[1..])
    else Awaitable(actions[1..])
  }

  /** Read off a log: the created droplets, the started actions, those to be waited for and those that were, what
      failed, and the names settled by a request or by the failure to generate a password. */
  datatype Summary = Summary(
    created: seq<ProviderId>, started: seq<int>, toAwait: seq<Action>, awaited: seq<Action>, failures: seq<Failure>,
    settled: seq<string>)

  const NOTHING := Summary([], [], [], [], [], [])

  function Add(s: Summary, c: Call): Summary {
    match c
    case CreateCall(names, _, None) => s.(failures := s.failures + [RequestFailed(names)], settled := s.settled + names)
    case CreateCall(names, _, Some(reply)) =>
      s.(created := s.created + reply.droplets, started := s.started + IdsOf(reply.actions),
         toAwait := s.toAwait + Awaitable(reply.actions), settled := s.settled + names)
    case PasswordCall(name, None) => s.(failures := s.failures + [PasswordFailed(name)], settled := s.settled + [name])
    case WaitCall(droplet, action, good) =>
      s.(awaited := s.awaited + [Action(action, droplet)],
         failures := s.failures + if good then [] else [Failure.WaitFailed(droplet, action)])
    case _ => s
  }

  function Summarize(calls: seq<Call>): Summary {
    if calls == [] then NOTHING else Add(Summarize(calls[..|calls| - 1]), calls[|calls| - 1])
  }

  function SentIn(c: Call, id: ProviderId): Option<string> {
    if c.CreateCall? && c.reply.Some? && id in c.reply.value.droplets then c.password else None
  }

  /** The password of the last request that returned this id together with a password. */
  function SentFor(calls: seq<Call>, id: ProviderId): Option<string> {
    if calls == [] then None
    else if SentIn(calls[|calls| - 1], id).Some? then SentIn(calls[|calls| - 1], id)
    else SentFor(calls[..|calls| - 1], id)
  }

  lemma OneMore(calls: seq<Call>, c: Call)
    ensures Summarize(calls + [c]) == Add(Summarize(calls), c)
    ensures forall id :: SentFor(calls + [c], id) == if SentIn(c, id).Some? then SentIn(c, id) else SentFor(calls, id)
  {
    assert (calls + [c])[..|calls|] == calls;
  }

  function Lookup(passwords: map<ProviderId, string>, id: ProviderId): Option<string> {
    if id in passwords then Some(passwords[id]) else None
  }

  ghost predicate PasswordsNoted(calls: seq<Call>, passwords: map<ProviderId, string>) {
    forall id :: Lookup(passwords, id) == SentFor(calls, id)
  }

  /** A request is for one name, with the password just generated for that name. */
  ghost predicate UsesItsPassword(calls: seq<Call>, i: nat)
    requires i < |calls|
  {
    calls[i].CreateCall? ==>
      && |calls[i].names| == 1 && calls[i].password.Some?
      && i > 0 && calls[i - 1] == PasswordCall(calls[i].names[0], calls[i].password)
  }

  /** With root passwords there is a request for each name. */
  ghost predicate OnePerName(calls: seq<Call>) {
    forall i | 0 <= i < |calls| :: UsesItsPassword(calls, i)
  }

  ghost predicate Creating(calls: seq<Call>) {
    forall i | 0 <= i < |calls| :: calls[i].CreateCall? || calls[i].WaitCall? || calls[i].PasswordCall?
  }

  lemma StillOnePerName(calls: seq<Call>, c: Call)
    requires OnePerName(calls) && UsesItsPassword(calls + [c], |calls|)
    ensures OnePerName(calls + [c])
  {
    forall i | 0 <= i < |calls| + 1 ensures UsesItsPassword(calls + [c], i) {
      if i < |calls| { assert UsesItsPassword(calls, i); }
    }
  }

  // ---- what the captured variables say about the calls ----

  /** `pending` are the actions of the current reply that have not been looked at. */
  ghost predicate Noted(calls: seq<Call>, createdIds: seq<ProviderId>, actionIds: seq<int>, failures: seq<Failure>,
                        settled: seq<string>, pending: seq<Action>) {
    var s := Summarize(calls);
    && s.created == createdIds && s.failures == failures && s.settled == settled
    && s.started == actionIds + IdsOf(pending) && s.toAwait == s.awaited + Awaitable(pending)
  }

  lemma NoteIgnored(calls: seq<Call>, createdIds: seq<ProviderId>, actionIds: seq<int>, failures: seq<Failure>,
                    settled: seq<string>, pending: seq<Action>)
    requires pending != [] && pending[0].resource == 0
        && Noted(calls, createdIds, actionIds, failures, settled, pending)
    ensures Noted(calls, createdIds, actionIds + [pending[0].id], failures, settled, pending[1..])
  {
  }

  lemma NoteWait(calls: seq<Call>, createdIds: seq<ProviderId>, actionIds: seq<int>, failures: seq<Failure>,
                 settled: seq<string>, pending: seq<Action>, good: bool)
    requires pending != [] && pending[0].resource != 0
        && Noted(calls, createdIds, actionIds, failures, settled, pending)
    ensures Noted(calls + [WaitCall(pending[0].resource, pending[0].id, good)], createdIds, actionIds + [pending[0].id],
                  if good then failures
                    else failures + [Failure.WaitFailed(pending[0].resource, pending[0].id)], settled, pending[1..])
  {
    OneMore(calls, WaitCall(pending[0].resource, pending[0].id, good));
  }

  lemma NoteReply(calls: seq<Call>, createdIds: seq<ProviderId>, actionIds: seq<int>, failures: seq<Failure>,
                  settled: seq<string>, c: Call)
    requires Noted(calls, createdIds, actionIds, failures, settled, []) && c.CreateCall? && c.reply.Some?
    ensures Noted(calls + [c], createdIds + c.reply.value.droplets, actionIds, failures, settled + c.names,
                  c.reply.value.actions)
  {
    OneMore(calls, c);
  }

  lemma NoteRefusal(calls: seq<Call>, createdIds: seq<ProviderId>, actionIds: seq<int>, failures: seq<Failure>,
                    settled: seq<string>, c: Call)
    requires Noted(calls, createdIds, actionIds, failures, settled, []) && c.CreateCall? && c.reply.None?
    ensures Noted(calls + [c], createdIds, actionIds, failures + [RequestFailed(c.names)], settled + c.names, [])
  {
    OneMore(calls, c);
  }

  lemma NotePassword(calls: seq<Call>, createdIds: seq<ProviderId>, actionIds: seq<int>, failures: seq<Failure>,
                     settled: seq<string>, p: Call)
    requires Noted(calls, createdIds, actionIds, failures, settled, []) && p.PasswordCall?
    ensures p.password.None?
        ==> Noted(calls + [p], createdIds, actionIds, failures + [PasswordFailed(p.name)], settled + [p.name], [])
    ensures p.password.Some? ==> Noted(calls + [p], createdIds, actionIds, failures, settled, [])
  {
    OneMore(calls, p);
  }

  /** The passwords after a call: those it brings, and otherwise those there were. */
  ghost predicate Brings(c: Call, before: map<ProviderId, string>, after: map<ProviderId, string>) {
    forall id :: Lookup(after, id) == if SentIn(c, id).Some? then SentIn(c, id) else Lookup(before, id)
  }

  /** All that holds of the calls whatever they brought. */
  ghost predicate Proper(calls: seq<Call>, passwords: map<ProviderId, string>, rooted: bool) {
    PasswordsNoted(calls, passwords) && Creating(calls) && (rooted ==> OnePerName(calls))
  }

  lemma StaysProper(calls: seq<Call>, before: map<ProviderId, string>, after: map<ProviderId, string>, rooted: bool,
                    c: Call)
    requires Proper(calls, before, rooted) && Brings(c, before, after)
    requires c.WaitCall? || c.PasswordCall? || c.CreateCall?
    requires rooted ==> UsesItsPassword(calls + [c], |calls|)
    ensures Proper(calls + [c], after, rooted)
  {
    OneMore(calls, c);
    if rooted {
      StillOnePerName(calls, c);
    }
  }

  lemma WaitStaysProper(calls: seq<Call>, passwords: map<ProviderId, string>, rooted: bool, c: Call)
    requires Proper(calls, passwords, rooted) && c.WaitCall?
    ensures Proper(calls + [c], passwords, rooted)
  {
    StaysProper(calls, passwords, passwords, rooted, c);
  }

  ghost predicate Waits(calls: seq<Call>) {
    forall i | 0 <= i < |calls| :: calls[i].WaitCall?
  }

  /** With keys there is one request for all names. */
  ghost predicate OneRequest(calls: seq<Call>, names: seq<string>, password: Option<string>) {
    && calls != [] && calls[0].CreateCall? && calls[0].names == names && calls[0].password == password
    && Waits(calls[1..])
  }

  lemma Regroup<T>(a: seq<T>, b: seq<T>, c: seq<T>)
    ensures a + b + c == a + (b + c)
  {
  }

  // ---- the captured variables of createDroplets, and its inner function ----

  class CreateRun {
    var createdIds: seq<ProviderId>
    var actionIds: seq<int>
    var passwords: map<ProviderId, string>
    var failures: seq<Failure>
    ghost const rooted: bool
    ghost var settled: seq<string>
    ghost var calls: seq<Call>

    /** The captured variables hold what the calls so far say; only `pending` is still to be noted and waited for. */
    ghost predicate Midway(pending: seq<Action>)
      reads this
    {
      && Noted(calls, createdIds, actionIds, failures, settled, pending)
      && Proper(calls, passwords, rooted)
    }

    constructor (ghost rooted: bool)
      ensures Midway([]) && calls == [] && settled == [] && this.rooted == rooted
    {
      createdIds, actionIds, passwords, failures, settled, calls := [], [], map[], [], [], [];
      this.rooted := rooted;
    }

    /** The first of the pending actions: noted, and waited for if it names a droplet. */
    method Await(provider: Provider, pending: seq<Action>) returns (ghost waits: seq<Call>)
      requires pending != [] && Midway(pending)
      modifies this`actionIds, this`failures, this`calls, provider
      ensures Midway(pending[1..])
      ensures Waits(waits) && calls == old(calls) + waits && provider.log == old(provider.log) + waits
    {
      var action := pending[0];
      waits := [];
      if action.resource == 0 {
        NoteIgnored(calls, createdIds, actionIds, failures, settled, pending);
        actionIds := actionIds + [action.id];
      } else {
        var good := provider.Wait(action.resource, action.id);
        ghost var c := WaitCall(action.resource, action.id, good);
        waits := [c];
        NoteWait(calls, createdIds, actionIds, failures, settled, pending, good);
        WaitStaysProper(calls, passwords, rooted, c);
        actionIds := actionIds + [action.id];
        calls := calls + [c];
        if !good {
          failures := failures + [Failure.WaitFailed(action.resource, action.id)];
        }
      }
    }

    method AwaitAll(provider: Provider, actions: seq<Action>) returns (ghost waits: seq<Call>)
      requires Midway(actions)
      modifies this`actionIds, this`failures, this`calls, provider
      ensures Midway([])
      ensures Waits(waits) && calls == old(calls) + waits && provider.log == old(provider.log) + waits
    {
      waits := [];
      for i := 0 to |actions|
        invariant Midway(actions[i..])
        invariant Waits(waits) && calls == old(calls) + waits && provider.log == old(provider.log) + waits
      {
        assert actions[i..][1..] == actions[i + 1..];
        ghost var more := Await(provider, actions[i..]);
        Regroup(old(calls), waits, more);
        Regroup(old(provider.log), waits, more);
        waits := waits + more;
      }
    }

    method NotePasswords(ids: seq<ProviderId>, password: string)
      modifies this`passwords
      ensures forall id :: Lookup(passwords, id) == if id in ids then Some(password) else Lookup(old(passwords), id)
    {
      for i := 0 to |ids|
        invariant forall id :: Lookup(passwords, id) == if id in ids[..i] then Some(password)
          else Lookup(old(passwords), id)
      {
        assert ids[..i + 1] == ids[..i] + [ids[i]];
        passwords := passwords[ids[i] := password];
      }
      assert ids[..|ids|] == ids;
    }

    /** Takes down a reply and waits for the actions it names. */
    method TakeReply(provider: Provider, created: Created, password: Option<string>, ghost c: Call)
      returns (ghost waits: seq<Call>)
      requires Midway([])
      requires c.CreateCall? && c.reply == Some(created) && c.password == password
      requires rooted ==> UsesItsPassword(calls + [c], |calls|)
      modifies this, provider
      ensures Midway([]) && settled == old(settled) + c.names
      ensures Waits(waits) && calls == old(calls) + [c] + waits && provider.log == old(provider.log) + waits
    {
      NoteReply(calls, createdIds, actionIds, failures, settled, c);
      createdIds := createdIds + created.droplets;
      if password.Some? {
        NotePasswords(created.droplets, password.value);
      }
      StaysProper(calls, old(passwords), passwords, rooted, c);
      calls, settled := calls + [c], settled + c.names;
      waits := AwaitAll(provider, created.actions);
    }

    /** createOne: one request, and waiting for what it started. */
    method CreateOne(provider: Provider, names: seq<string>, password: Option<string>) returns (ghost added: seq<Call>)
      requires Midway([])
      requires rooted ==> |names| == 1 && password.Some? && calls != []
                          && calls[|calls| - 1] == PasswordCall(names[0], password)
      modifies this, provider
      ensures Midway([]) && settled == old(settled) + names
      ensures OneRequest(added, names, password) && calls == old(calls) + added
          && provider.log == old(provider.log) + added
    {
      var reply := provider.Create(names, password);
      ghost var c, waits := CreateCall(names, password, reply), [];
      if reply.None? {
        NoteRefusal(calls, createdIds, actionIds, failures, settled, c);
        StaysProper(calls, passwords, passwords, rooted, c);
        failures := failures + [RequestFailed(names)];
        calls, settled := calls + [c], settled + names;
      } else {
        waits := TakeReply(provider, reply.value, password, c);
      }
      Regroup(old(calls), [c], waits);
      Regroup(old(provider.log), [c], waits);
      added := [c] + waits;
      assert added[1..] == waits;
    }

    /** One name in root password mode; `added` are its calls. */
    method CreateWithPassword(provider: Provider, name: string) returns (ghost added: seq<Call>)
      requires Midway([]) && rooted
      modifies this, provider
      ensures Midway([]) && settled == old(settled) + [name]
      ensures calls == old(calls) + added && provider.log == old(provider.log) + added
    {
      var password := provider.GeneratePassword(name);
      ghost var p := PasswordCall(name, password);
      NotePassword(calls, createdIds, actionIds, failures, settled, p);
      StaysProper(calls, passwords, passwords, rooted, p);
      calls := calls + [p];
      added := [p];
      if password.None? {
        failures, settled := failures + [PasswordFailed(name)], settled + [name];
      } else {
        ghost var more := CreateOne(provider, [name], password);
        Regroup(old(calls), [p], more);
        Regroup(old(provider.log), [p], more);
        added := [p] + more;
      }
    }
  }

  method CreateEach(provider: Provider, run: CreateRun, names: seq<string>) returns (ghost added: seq<Call>)
    requires run.Midway([]) && run.rooted && run.settled == [] && run.calls == []
    modifies run, provider
    ensures run.Midway([]) && run.settled == names
    ensures run.calls == added && provider.log == old(provider.log) + added
  {
    added := [];
    for i := 0 to |names|
      invariant run.Midway([]) && run.settled == names[..i]
      invariant run.calls == added && provider.log == old(provider.log) + added
    {
      ghost var more := run.CreateWithPassword(provider, names[i]);
      Regroup(old(provider.log), added, more);
      added := added + more;
    }
  }

  /** All requests of a job: one for all names with keys, one per name with root passwords. Whatever fails, every
      name is settled exactly once and in order. */
  method RunCreates(provider: Provider, names: seq<string>, rootPassword: bool) returns (run: CreateRun)
    modifies provider
    ensures fresh(run) && run.Midway([]) && run.rooted == rootPassword && run.settled == names
    ensures provider.log == old(provider.log) + run.calls
    ensures !rootPassword ==> OneRequest(run.calls, names, None)
  {
    run := new CreateRun(rootPassword);
    if rootPassword {
      ghost var added := CreateEach(provider, run, names);
    } else {
      ghost var added := run.CreateOne(provider, names, None);
      assert run.calls == added;
    }
  }

  // ---- what the notes are worth ----

  /** With root passwords every created id has the password of a request that returned it. */
  lemma {:induction false} EveryCreatedHasPassword(calls: seq<Call>, id: ProviderId)
    requires OnePerName(calls) && id in Summarize(calls).created
    ensures SentFor(calls, id).Some? && exists i :: 0 <= i < |calls| && SentIn(calls[i], id) == SentFor(calls, id)
    decreases |calls|
  {
    var n := |calls| - 1;
    assert UsesItsPassword(calls, n);
    if SentIn(calls[n], id).None? {
      forall i | 0 <= i < n ensures UsesItsPassword(calls[..n], i) { assert UsesItsPassword(calls, i); }
      EveryCreatedHasPassword(calls[..n], id);
      var i :| 0 <= i < n && SentIn(calls[..n][i], id) == SentFor(calls[..n], id);
      assert calls[i] == calls[..n][i];
    }
  }

  /** With keys no password is ever noted. */
  lemma {:induction false} KeysNeedNoPassword(calls: seq<Call>, names: seq<string>, id: ProviderId)
    requires OneRequest(calls, names, None)
    ensures SentFor(calls, id).None?
    decreases |calls|
  {
    if |calls| > 1 { KeysNeedNoPassword(calls[..|calls| - 1], names, id); }
  }

  /** A failure is recorded exactly if one of the calls failed. */
  lemma {:induction false} CreateFailuresAreTrue(calls: seq<Call>)
    requires Creating(calls)
    ensures Summarize(calls).failures == [] <==> GoodFrom(calls, 0)
    decreases |calls|
  {
    if calls != [] {
      var n := |calls| - 1;
      CreateFailuresAreTrue(calls[..n]);
      GoodFromSnoc(calls[..n], calls[n]);
      assert calls == calls[..n] + [calls[n]];
    }
  }
}
