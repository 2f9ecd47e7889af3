/** Everything outside the database that a job talks to: the provider's API, and the random source behind
    generated passwords and encryption. Any call may fail; the log keeps what was asked and answered. */
module ProviderLayer {
  import opened Common
  import opened Jobs
  import opened Inventory
  import opened DigitalOcean

  datatype Action = Action(id: int, resource: int)

  datatype Created = Created(droplets: seq<ProviderId>, actions: seq<Action>)

  datatype Answer = Good | Forbidden | OtherError

  datatype Size = Size(slug: string, vcpus: int, memory: int)

  datatype Call =
    | OpenToken(good: bool)
    | AccountCall(answer: Answer)
    | BalanceCall(good: bool)
    | ListCall(items: Option<seq<Remote>>)
    | SizesCall(sizes: Option<seq<Size>>)
    | PasswordCall(name: string, password: Option<string>)
    | CreateCall(names: seq<string>, password: Option<string>, reply: Option<Created>)
    | WaitCall(droplet: ProviderId, action: int, good: bool)
    | AssignCall(project: string, ids: seq<ProviderId>, good: bool)
    | EncryptCall(good: bool)
    | ActionCall(id: ProviderId, request: string, accepted: Option<int>)
    | DeleteCall(id: ProviderId, good: bool)
  {
    predicate Failed() {
      match this
      case OpenToken(good) => !good
      case AccountCall(answer) => !answer.Good?
      case BalanceCall(_) => false                  // a job goes on without the balance
      case ListCall(items) => items.None?
      case SizesCall(sizes) => sizes.None?
      case PasswordCall(_, password) => password.None?
      case CreateCall(_, _, reply) => reply.None?
      case WaitCall(_, _, good) => !good
      case AssignCall(_, _, good) => !good
      case EncryptCall(good) => !good
      case ActionCall(_, _, accepted) => accepted.None?
      case DeleteCall(_, good) => !good
    }

    /** The calls whose failure a job reports one by one. */
    predicate Reported() {
      ActionCall? || WaitCall? || CreateCall? || PasswordCall?
    }

    predicate ReadsOnly() {
      OpenToken? || AccountCall? || BalanceCall? || ListCall? || SizesCall?
    }
  }

  /** What `f` reads off each call, in order. */
  function Collect<T>(calls: seq<Call>, f: Call -> seq<T>): seq<T> {
    if calls == [] then [] else Collect(calls[..|calls| - 1], f) + f(calls[|calls| - 1])
  }

  lemma CollectSnoc<T>(calls: seq<Call>, c: Call, f: Call -> seq<T>)
    ensures Collect(calls + [c], f) == Collect(calls, f) + f(c)
  {
    assert (calls + [c])[..|calls|] == calls;
  }

  function FailureOf(c: Call): seq<Failure> {
    match c
    case ActionCall(id, _, accepted) => if accepted.None? then [NotAccepted(id)] else []
    case WaitCall(droplet, action, good) => if !good then [Failure.WaitFailed(droplet, action)] else []
    case CreateCall(names, _, reply) => if reply.None? then [RequestFailed(names)] else []
    case PasswordCall(name, password) => if password.None? then [PasswordFailed(name)] else []
    case _ => []
  }

  class Provider {
    ghost var log: seq<Call>

    constructor ()
      ensures log == []
    {
      log := [];
    }

    method DecryptToken() returns (good: bool)
      modifies this
      ensures log == old(log) + [OpenToken(good)]
    {
      good := *;
      log := log + [OpenToken(good)];
    }

    method Account() returns (answer: Answer)
      modifies this
      ensures log == old(log) + [AccountCall(answer)]
    {
      answer := *;
      log := log + [AccountCall(answer)];
    }

    method Balance() returns (good: bool)
      modifies this
      ensures log == old(log) + [BalanceCall(good)]
    {
      good := *;
      log := log + [BalanceCall(good)];
    }

    /** The pages are whatever the provider answers; the client follows their links. */
    method List() returns (items: Option<seq<Remote>>)
      modifies this
      ensures log == old(log) + [ListCall(items)]
    {
      var first: Reply := *;
      items := ListDroplets(first);
      log := log + [ListCall(items)];
    }

    method Sizes() returns (sizes: Option<seq<Size>>)
      modifies this
      ensures log == old(log) + [SizesCall(sizes)]
    {
      sizes := *;
      log := log + [SizesCall(sizes)];
    }

    method GeneratePassword(name: string) returns (password: Option<string>)
      modifies this
      ensures log == old(log) + [PasswordCall(name, password)]
      ensures password.Some? ==> |password.value| == 24
    {
      var characters: seq<char> := *;
      password := if |characters| == 24 then Some(characters) else None;
      log := log + [PasswordCall(name, password)];
    }

    /** The client refuses anything but one to ten names without asking the provider. */
    method Create(names: seq<string>, password: Option<string>) returns (reply: Option<Created>)
      modifies this
      ensures log == old(log) + [CreateCall(names, password, reply)]
      ensures !(1 <= |names| <= 10) ==> reply.None?
    {
      reply := None;
      if 1 <= |names| <= 10 {
        reply := *;
      }
      log := log + [CreateCall(names, password, reply)];
    }

    method Wait(droplet: ProviderId, action: int) returns (good: bool)
      modifies this
      ensures log == old(log) + [WaitCall(droplet, action, good)]
    {
      good := *;
      log := log + [WaitCall(droplet, action, good)];
    }

    method AssignProject(project: string, ids: seq<ProviderId>) returns (good: bool)
      modifies this
      ensures log == old(log) + [AssignCall(project, ids, good)]
    {
      good := *;
      log := log + [AssignCall(project, ids, good)];
    }

    method Encrypt(plaintext: string, aad: RowId) returns (secret: Option<Sealed>)
      modifies this
      ensures log == old(log) + [EncryptCall(secret.Some?)]
      ensures secret.Some? ==> Decrypt(secret.value, aad) == Some(plaintext)
    {
      var good: bool := *;
      secret := if good then Some(Sealed(plaintext, aad)) else None;
      log := log + [EncryptCall(good)];
    }

    method DropletAction(id: ProviderId, request: string) returns (action: Option<int>)
      modifies this
      ensures log == old(log) + [ActionCall(id, request, action)]
    {
      action := *;
      log := log + [ActionCall(id, request, action)];
    }

    method DeleteDroplet(id: ProviderId) returns (good: bool)
      modifies this
      ensures log == old(log) + [DeleteCall(id, good)]
    {
      good := *;
      log := log + [DeleteCall(id, good)];
    }
  }
}
