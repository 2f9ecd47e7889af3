/** The provider client: paged listing, mapping to local rows, and waiting for an action. */
module DigitalOcean {
  import opened Common
  import opened Inventory
  import opened Strings

  // ---- remote droplets and the columns they become ----

  datatype Network = Network(address: string, kind: string)

  datatype Remote = Remote(
    id: ProviderId, name: string, status: string, locked: bool, regionSlug: string, sizeSlug: string, vcpus: int,
    memory: int, disk: int, v4: seq<Network>, v6: seq<Network>, vpcUuid: string, extra: int)

  /** The address of the first public network that has one, if there is such a network. */
  ghost predicate IsFirstPublic(nets: seq<Network>, r: Option<string>) {
    match r
    case None => forall i | 0 <= i < |nets| :: nets[i].kind != "public" || nets[i].address == ""
    case Some(address) =>
      exists i | 0 <= i < |nets| ::
        && nets[i] == Network(address, "public") && address != ""
        && forall j | 0 <= j < i :: nets[j].kind != "public" || nets[j].address == ""
  }

  method FirstPublic(nets: seq<Network>) returns (r: Option<string>)
    ensures IsFirstPublic(nets, r)
  {
    r := None;
    for i := 0 to |nets|
      invariant r == None && forall j | 0 <= j < i :: nets[j].kind != "public" || nets[j].address == ""
    {
      if nets[i].kind == "public" && nets[i].address != "" {
        assert nets[i] == Network(nets[i].address, "public");
        return Some(nets[i].address);
      }
    }
  }

  /** No slug stands for a blank one, and any other for itself. */
  ghost predicate IsPointer(value: string, r: Option<string>) {
    if AllSpaces(value) then r.None? else r == Some(value)
  }

  method StringPointer(value: string) returns (r: Option<string>)
    ensures IsPointer(value, r)
  {
    BlankIsEmpty(value);
    r := if TrimSpace(value) == "" then None else Some(value);
  }

  ghost predicate Maps(remote: Remote, d: Droplet) {
    && d.providerId == remote.id
    && IsFirstPublic(remote.v4, d.info.ipv4) && IsFirstPublic(remote.v6, d.info.ipv6)
    && IsPointer(remote.regionSlug, d.info.region) && IsPointer(remote.sizeSlug, d.info.size)
    && IsPointer(remote.vpcUuid, d.info.vpc)
    && d.info.name == remote.name && d.info.status == remote.status && d.info.locked == remote.locked
    && d.info.vcpus == remote.vcpus && d.info.memoryMb == remote.memory && d.info.diskGb == remote.disk
    && d.info.extra == remote.extra
  }

  method MapDroplet(remote: Remote) returns (d: Droplet)
    ensures Maps(remote, d)
  {
    var ipv4 := FirstPublic(remote.v4);
    var ipv6 := FirstPublic(remote.v6);
    var region := StringPointer(remote.regionSlug);
    var size := StringPointer(remote.sizeSlug);
    var vpc := StringPointer(remote.vpcUuid);
    d := Droplet(remote.id, Info(remote.name, remote.status, remote.locked, region, size, remote.vcpus, remote.memory,
                                 remote.disk, ipv4, ipv6, vpc, remote.extra));
  }

  /** The mapping leaves no choice: a remote droplet determines its local columns. */
  lemma MappingIsDetermined(remote: Remote, d: Droplet, e: Droplet)
    requires Maps(remote, d) && Maps(remote, e)
    ensures d == e
  {
    FirstPublicIsUnique(remote.v4, d.info.ipv4, e.info.ipv4);
    FirstPublicIsUnique(remote.v6, d.info.ipv6, e.info.ipv6);
  }

  lemma FirstPublicIsUnique(nets: seq<Network>, a: Option<string>, b: Option<string>)
    requires IsFirstPublic(nets, a) && IsFirstPublic(nets, b)
    ensures a == b
  {
    if a.Some? && b.Some? {
      var i :| 0 <= i < |nets| && nets[i] == Network(a.value, "public")
          && forall j | 0 <= j < i :: nets[j].kind != "public" || nets[j].address == "";
      var k :| 0 <= k < |nets| && nets[k] == Network(b.value, "public")
          && forall j | 0 <= j < k :: nets[j].kind != "public" || nets[j].address == "";
      assert i == k;
    }
  }

  // ---- paging ----

  /** What the provider answers, page by page: a failed request or undecodable page, or items and a link.
      Links are finite and acyclic; `Malformed` is a link that cannot be parsed, with what it should lead to. */
  datatype Reply = Fails | Page(items: seq<Remote>, next: Link)
  datatype Link = NoNext | Next(reply: Reply) | Malformed(reply: Reply)

  function Prepend(items: seq<Remote>, rest: Option<seq<Remote>>): Option<seq<Remote>> {
    if rest.None? then None else Some(items + rest.value)
  }

  /** The whole remote list, if every page can be had. */
  function AllItems(r: Reply): Option<seq<Remote>> {
    match r
    case Fails => None
    case Page(items, NoNext) => Some(items)
    case Page(items, link) => Prepend(items, AllItems(link.reply))
  }

  /** What following the links yields; a malformed link ends the listing without an error. */
  function Followed(r: Reply): Option<seq<Remote>> {
    if r.Fails? then None else Prepend(r.items, FollowedLink(r.next))
  }

  function FollowedLink(link: Link): Option<seq<Remote>> {
    if link.Next? then Followed(link.reply) else Some([])
  }

  lemma PrependTwice(a: seq<Remote>, b: seq<Remote>, rest: Option<seq<Remote>>)
    ensures Prepend(a, Prepend(b, rest)) == Prepend(a + b, rest)
    ensures Prepend([], rest) == rest
  {
    if rest.Some? {
      assert a + (b + rest.value) == a + b + rest.value;
      assert [] + rest.value == rest.value;
    }
  }

  method ListDroplets(first: Reply) returns (r: Option<seq<Remote>>)
    ensures r == Followed(first)
  {
    var items: seq<Remote> := [];
    var path := Next(first);
    PrependTwice([], [], Followed(first));
    while path.Next?
      invariant Followed(first) == Prepend(items, FollowedLink(path))
      decreases path
    {
      var response := path.reply;
      if response.Fails? {
        return None;
      }
      PrependTwice(items, response.items, FollowedLink(response.next));
      items := items + response.items;
      path := response.next;
    }
    assert items + [] == items;
    return Some(items);
  }

  /** The first malformed link met while following, and what it hides. */
  function Hidden(r: Reply): Option<Reply> {
    match r
    case Page(_, Malformed(reply)) => Some(reply)
    case Page(_, Next(reply)) => Hidden(reply)
    case _ => None
  }

  lemma PrependIsInjective(items: seq<Remote>, a: Option<seq<Remote>>, b: Option<seq<Remote>>)
    ensures Prepend(items, a) == Prepend(items, b) <==> a == b
  {
    if a.Some? && b.Some? {
      assert (items + a.value)[|items|..] == a.value;
      assert (items + b.value)[|items|..] == b.value;
    }
  }

  /** The listing is the whole remote list exactly if no malformed link hides a failing page or an item. */
  lemma {:induction false} ListingIsComplete(r: Reply)
    ensures Followed(r) == AllItems(r)
       <==> Hidden(r).None? || AllItems(Hidden(r).value) == Some([])
  {
    match r
    case Fails =>
    case Page(items, NoNext) => assert items + [] == items;
    case Page(items, Next(reply)) =>
      ListingIsComplete(reply);
      PrependIsInjective(items, Followed(reply), AllItems(reply));
    case Page(items, Malformed(reply)) => PrependIsInjective(items, Some([]), AllItems(reply));
  }

  // ---- waiting for an action ----

  /** What one poll brings: a failed request, or the status of the action. */
  datatype Poll = PollFailed | Polled(status: string)

  datatype Waited = WaitOk | WaitFailed | WaitErrored | TimedOut | Cancelled

  /** A poll that does not end the wait: the action is still under way, the deadline not over, the context alive. */
  predicate GoesOn(poll: Poll, now: int, deadline: int, cancelled: bool) {
    poll.Polled? && poll.status != "completed" && poll.status != "errored" && now <= deadline && !cancelled
  }

  /** Times are in nanoseconds. `polls(i)` is the i-th answer, `clock(i)` the time read after it, `cancelled(i)`
      whether the context ends during the pause that follows. With a monotone clock and pauses of at least three
      seconds the wait ends after at most timeout/3s + 2 polls, with what the first poll that ends it says. */
  method WaitDropletAction(start: int, timeout: nat, polls: nat -> Poll, clock: nat -> int, cancelled: nat -> bool)
    returns (r: Waited, n: nat)
    requires start <= clock(0) && forall i: nat :: clock(i) + 3_000_000_000 <= clock(i + 1)
    ensures 1 <= n <= timeout / 3_000_000_000 + 2
    ensures forall i: nat | i < n - 1 :: GoesOn(polls(i), clock(i), start + timeout, cancelled(i))
    ensures !GoesOn(polls(n - 1), clock(n - 1), start + timeout, cancelled(n - 1))
    ensures r == WaitFailed <==> polls(n - 1) == PollFailed
    ensures r == WaitOk <==> polls(n - 1) == Polled("completed")
    ensures r == WaitErrored <==> polls(n - 1) == Polled("errored")
    ensures r == TimedOut ==> clock(n - 1) > start + timeout
    ensures r == Cancelled ==> cancelled(n - 1) && clock(n - 1) <= start + timeout
  {
    var deadline := start + timeout;
    n := 0;
    while true
      invariant start + 3_000_000_000 * n <= clock(n)
      invariant forall i: nat | i < n :: GoesOn(polls(i), clock(i), deadline, cancelled(i))
      invariant n > 0 ==> clock(n - 1) <= deadline && start + 3_000_000_000 * (n - 1) <= clock(n - 1)
      decreases timeout / 3_000_000_000 + 2 - n
    {
      assert n <= timeout / 3_000_000_000 + 1;
      var poll := polls(n);
      n := n + 1;
      if poll.PollFailed? {
        return WaitFailed, n;
      }
      if poll.status == "completed" {
        return WaitOk, n;
      }
      if poll.status == "errored" {
        return WaitErrored, n;
      }
      if clock(n - 1) > deadline {
        return TimedOut, n;
      }
      if cancelled(n - 1) {
        return Cancelled, n;
      }
    }
  }
}
