/** What the HTTP handlers let into the queue, what the workers and the client accept, and that both agree. */
module Requests {
  import opened Jobs
  import opened Strings

  // ---- uniqueInt64 ----

  /** Where a value first occurs. */
  function First(values: seq<int>, v: int): nat
    requires v in values
  {
    if values[0] == v then 0 else 1 + First(values[1..], v)
  }

  lemma {:induction false} FirstIsFirst(values: seq<int>, v: int)
    requires v in values
    ensures First(values, v) < |values| && values[First(values, v)] == v
    ensures forall i | 0 <= i < First(values, v) :: values[i] != v
  {
    if values[0] != v { FirstIsFirst(values[1..], v); }
  }

  lemma {:induction false} FirstInPrefix(values: seq<int>, n: nat, v: int)
    requires n <= |values| && v in values[..n]
    ensures First(values, v) == First(values[..n], v)
  {
    if values[0] != v {
      assert values[..n][1..] == values[1..][..n - 1];
      FirstInPrefix(values[1..], n - 1, v);
    }
  }

  ghost predicate SamePositives(values: seq<int>, r: seq<int>) {
    forall v :: v in r <==> v in values && v > 0
  }

  ghost predicate InFirstOrder(values: seq<int>, r: seq<int>) {
    && (forall i | 0 <= i < |r| :: r[i] in values)
    && (forall i, j | 0 <= i < j < |r| :: First(values, r[i]) < First(values, r[j]))
  }

  /** Exactly the positive values, each once, in the order of their first occurrences. */
  ghost predicate IsUnique(values: seq<int>, r: seq<int>) {
    SamePositives(values, r) && InFirstOrder(values, r)
  }

  method UniqueInt64(values: seq<int>) returns (r: seq<int>)
    ensures IsUnique(values, r)
  {
    var seen: set<int> := {};
    r := [];
    for n := 0 to |values|
      invariant IsUnique(values[..n], r)
      invariant forall v :: v in seen <==> v in r
    {
      var v := values[n];
      assert values[..n + 1] == values[..n] + [v];
      ghost var before := r;
      if v > 0 && v !in seen {
        seen := seen + {v};
        r := r + [v];
      }
      UniqueExtends(values, n, before, r);
    }
    assert values[..|values|] == values;
  }

  lemma FirstStays(values: seq<int>, n: nat, v: int)
    requires n < |values| && v in values[..n]
    ensures v in values[..n + 1] && First(values[..n + 1], v) == First(values[..n], v) < n
  {
    var post := values[..n + 1];
    assert post[..n] == values[..n] && post == values[..n] + [values[n]];
    FirstInPrefix(post, n, v);
    FirstIsFirst(values[..n], v);
  }

  lemma OrderStays(values: seq<int>, n: nat, r: seq<int>)
    requires n < |values| && InFirstOrder(values[..n], r)
    ensures InFirstOrder(values[..n + 1], r)
  {
    forall i | 0 <= i < |r|
      ensures r[i] in values[..n + 1] && First(values[..n + 1], r[i]) == First(values[..n], r[i])
    {
      FirstStays(values, n, r[i]);
    }
  }

  lemma OrderExtends(values: seq<int>, n: nat, r: seq<int>)
    requires n < |values| && InFirstOrder(values[..n], r) && values[n] !in values[..n]
    ensures InFirstOrder(values[..n + 1], r + [values[n]])
  {
    var post := values[..n + 1];
    assert post == values[..n] + [values[n]];
    OrderStays(values, n, r);
    FirstIsFirst(post, values[n]);
    assert First(post, values[n]) == n;
    forall i | 0 <= i < |r| ensures First(post, r[i]) < n { FirstStays(values, n, r[i]); }
  }

  lemma UniqueExtends(values: seq<int>, n: nat, before: seq<int>, after: seq<int>)
    requires n < |values| && IsUnique(values[..n], before)
    requires after == if values[n] > 0 && values[n] !in before then before + [values[n]] else before
    ensures IsUnique(values[..n + 1], after)
  {
    assert values[..n + 1] == values[..n] + [values[n]];
    if values[n] > 0 && values[n] !in before {
      OrderExtends(values, n, before);
    } else {
      OrderStays(values, n, before);
    }
  }

  lemma NextIsNoLater(values: seq<int>, a: seq<int>, b: seq<int>, i: nat)
    requires IsUnique(values, a) && IsUnique(values, b) && i < |a| && i <= |b| && a[..i] == b[..i]
    ensures i < |b| && First(values, b[i]) <= First(values, a[i])
  {
    forall k | 0 <= k < i ensures b[k] != a[i] {
      assert b[k] == b[..i][k] == a[..i][k] == a[k];
      assert First(values, a[k]) < First(values, a[i]);
    }
    assert a[i] in a && a[i] in b;
    var k :| 0 <= k < |b| && b[k] == a[i];
  }

  lemma {:induction false} UniquePrefixAgrees(values: seq<int>, a: seq<int>, b: seq<int>, n: nat)
    requires IsUnique(values, a) && IsUnique(values, b) && n <= |a|
    ensures n <= |b| && a[..n] == b[..n]
  {
    if n > 0 {
      var i := n - 1;
      UniquePrefixAgrees(values, a, b, i);
      NextIsNoLater(values, a, b, i);
      NextIsNoLater(values, b, a, i);
      FirstIsFirst(values, a[i]);
      FirstIsFirst(values, b[i]);
      assert a[..n] == a[..i] + [a[i]] && b[..n] == b[..i] + [b[i]];
    }
  }

  /** The specification of uniqueInt64 leaves exactly one result. */
  lemma UniqueIsDetermined(values: seq<int>, a: seq<int>, b: seq<int>)
    requires IsUnique(values, a) && IsUnique(values, b)
    ensures a == b
  {
    UniquePrefixAgrees(values, a, b, |a|);
    UniquePrefixAgrees(values, b, a, |b|);
  }

  // ---- validDropletIDs ----

  predicate ValidIds(ids: seq<int>, maximum: nat) {
    && 1 <= |ids| <= maximum
    && (forall i | 0 <= i < |ids| :: ids[i] > 0)
    && (forall i, j | 0 <= i < j < |ids| :: ids[i] != ids[j])
  }

  method ValidDropletIds(ids: seq<int>, maximum: nat) returns (r: bool)
    ensures r <==> ValidIds(ids, maximum)
  {
    if |ids| == 0 || |ids| > maximum {
      return false;
    }
    var seen: set<int> := {};
    for n := 0 to |ids|
      invariant forall v :: v in seen <==> v in ids[..n]
      invariant forall i | 0 <= i < n :: ids[i] > 0
      invariant forall i, j | 0 <= i < j < n :: ids[i] != ids[j]
    {
      if ids[n] <= 0 {
        return false;
      }
      if ids[n] in seen {
        var i :| 0 <= i < n && ids[..n][i] == ids[n];
        return false;
      }
      seen := seen + {ids[n]};
      assert ids[..n + 1] == ids[..n] + [ids[n]];
    }
    return true;
  }

  lemma UniqueIdsAreValid(values: seq<int>, r: seq<int>)
    requires IsUnique(values, r) && 1 <= |r| <= 100
    ensures ValidIds(r, 100)
  {
    forall i | 0 <= i < |r| ensures r[i] > 0 { assert r[i] in r; }
  }

  /** The positive distinct lists are the fixed points, and nothing else comes out. */
  lemma {:induction false} ValidIdsStay(ids: seq<int>)
    requires ValidIds(ids, 100)
    ensures IsUnique(ids, ids)
  {
    forall i | 0 <= i < |ids| ensures First(ids, ids[i]) == i {
      FirstIsFirst(ids, ids[i]);
    }
  }

  // ---- actions ----

  /** The handler's switch. */
  predicate SupportedDropletAction(action: string) {
    || action == "power_on" || action == "power_off" || action == "power_cycle" || action == "shutdown"
    || action == "reboot" || action == "password_reset" || action == "resize" || action == "rebuild"
    || action == "rename" || action == "snapshot" || action == "enable_backups" || action == "disable_backups"
    || action == "restore"
  }

  predicate SingleDropletAction(action: string) {
    action == "rename" || action == "resize" || action == "rebuild" || action == "restore"
  }

  /** The worker's own table and its own list of single-droplet actions. */
  const ALLOWED: set<string> := {
    "power_on", "power_off", "power_cycle", "shutdown", "reboot", "password_reset", "resize", "rebuild", "rename",
    "snapshot", "enable_backups", "disable_backups", "restore"}

  predicate WorkerAcceptsAction(ids: seq<int>, action: string) {
    && action in ALLOWED && ValidIds(ids, 100)
    && (action == "rename" || action == "resize" || action == "rebuild" || action == "restore" ==> |ids| == 1)
  }

  /** The guards of the action job, in the worker's order. */
  method CheckAction(ids: seq<int>, action: string) returns (ok: bool)
    ensures ok <==> WorkerAcceptsAction(ids, action)
  {
    var valid := ValidDropletIds(ids, 100);
    if action !in ALLOWED || !valid {
      return false;
    }
    if (action == "rename" || action == "resize" || action == "rebuild" || action == "restore") && |ids| != 1 {
      return false;
    }
    return true;
  }

  datatype Rejection =
    | InvalidSelection | UnsupportedAction | SingleDropletRequired
    | InvalidNames | InvalidName | CreateFieldsRequired | InvalidAuthMode | SshKeyRequired | CloudInitRequired

  datatype Enqueued = Rejected(reason: Rejection) | Accepted(payload: Payload)

  /** enqueueDropletAction, up to the account and inventory checks. */
  method EnqueueDropletAction(ids: seq<int>, action: string) returns (r: Enqueued)
    ensures r.Accepted? ==> r.payload.ActionPayload? && IsUnique(ids, r.payload.ids)
                            && r.payload.action == TrimSpace(action)
                            && WorkerAcceptsAction(r.payload.ids, r.payload.action)
    ensures r.Rejected? ==> forall u | IsUnique(ids, u) :: !WorkerAcceptsAction(u, TrimSpace(action))
  {
    var unique := UniqueInt64(ids);
    forall u | IsUnique(ids, u) ensures u == unique { UniqueIsDetermined(ids, u, unique); }
    if |unique| == 0 || |unique| > 100 {
      return Rejected(InvalidSelection);
    }
    UniqueIdsAreValid(ids, unique);
    var trimmed := TrimSpace(action);
    if !SupportedDropletAction(trimmed) {
      return Rejected(UnsupportedAction);
    }
    if SingleDropletAction(trimmed) && |unique| != 1 {
      return Rejected(SingleDropletRequired);
    }
    return Accepted(ActionPayload(unique, trimmed));
  }

  method EnqueueDropletDelete(ids: seq<int>) returns (r: Enqueued)
    ensures r.Accepted? ==> r.payload.DeletePayload? && IsUnique(ids, r.payload.ids) && ValidIds(r.payload.ids, 100)
    ensures r.Rejected? ==> forall u | IsUnique(ids, u) :: !ValidIds(u, 100)
  {
    var unique := UniqueInt64(ids);
    forall u | IsUnique(ids, u) ensures u == unique { UniqueIsDetermined(ids, u, unique); }
    if |unique| == 0 || |unique| > 100 {
      return Rejected(InvalidSelection);
    }
    UniqueIdsAreValid(ids, unique);
    return Accepted(DeletePayload(unique));
  }

  /** The two action tables are one: what the handler supports is what the worker allows. */
  lemma SameActions(action: string)
    ensures SupportedDropletAction(action) <==> action in ALLOWED
  {
  }

  // ---- names ----

  /** ^[a-zA-Z0-9][a-zA-Z0-9.-]{0,62}$ */
  predicate NamePattern(name: string) {
    1 <= |name| <= 63 && Alphanumeric(name[0]) && forall i | 1 <= i < |name| :: Alphanumeric(name[i]) || name[i] in ".-"
  }

  predicate Alphanumeric(c: char) {
    'a' <= c <= 'z' || 'A' <= c <= 'Z' || '0' <= c <= '9'
  }

  /** The pattern, character by character. */
  method MatchesPattern(name: string) returns (r: bool)
    ensures r <==> NamePattern(name)
  {
    if |name| == 0 || |name| > 63 {
      return false;
    }
    for i := 0 to |name|
      invariant forall j | 0 <= j < i :: Alphanumeric(name[j]) || (j > 0 && name[j] in ".-")
    {
      var c := name[i];
      var letterOrDigit := ('a' <= c && c <= 'z') || ('A' <= c && c <= 'Z') || ('0' <= c && c <= '9');
      if !letterOrDigit && (i == 0 || (c != '.' && c != '-')) {
        return false;
      }
    }
    return true;
  }

  /** Strictly ascending, and exactly the trimmed non-empty names. */
  ghost predicate IsNormalized(names: seq<string>, r: seq<string>) {
    && Ascending(r)
    && (forall n :: n in r <==> n != "" && exists i :: 0 <= i < |names| && TrimSpace(names[i]) == n)
  }

  method NormalizeNames(names: seq<string>) returns (r: seq<string>)
    ensures IsNormalized(names, r)
  {
    var seen: set<string> := {};
    r := [];
    for k := 0 to |names|
      invariant forall n :: n in seen <==> n in r
      invariant forall n :: n in r <==> n != "" && exists i :: 0 <= i < k && TrimSpace(names[i]) == n
      invariant Distinct(r)
    {
      var name := TrimSpace(names[k]);
      if name != "" && name !in seen {
        seen := seen + {name};
        r := r + [name];
      }
    }
    SortAscends(r);
    r := Sort(r);
  }

  /** normalizeNames has exactly one possible result. */
  lemma NormalizedIsDetermined(names: seq<string>, a: seq<string>, b: seq<string>)
    requires IsNormalized(names, a) && IsNormalized(names, b)
    ensures a == b
  {
    AscendingIsDetermined(a, b);
  }

  /** Normalizing a second time changes nothing. */
  lemma NormalizingTwice(names: seq<string>, r: seq<string>)
    requires IsNormalized(names, r)
    ensures IsNormalized(r, r)
  {
    forall n ensures n in r <==> n != "" && exists i :: 0 <= i < |r| && TrimSpace(r[i]) == n {
      forall i | 0 <= i < |r| ensures TrimSpace(r[i]) == r[i] {
        assert r[i] in r;
        var k :| 0 <= k < |names| && TrimSpace(names[k]) == r[i];
        TrimSpaceTrims(names[k]);
        TrimSpaceTrims(r[i]);
      }
    }
  }

  // ---- creates ----

  datatype CreateInput = CreateInput(
    names: seq<string>, size: string, imageGiven: bool, cloudInitImage: bool, sshKeys: nat, project: string,
    authMode: string)

  /** The worker's own check of a create payload. */
  predicate WorkerAcceptsNames(names: seq<string>) {
    1 <= |names| <= 10
  }

  /** What the handler demands of a create request, its names being normalized to `names`. */
  predicate CreateAllowed(input: CreateInput, names: seq<string>) {
    && WorkerAcceptsNames(names) && (forall n | n in names :: NamePattern(n))
    && input.size != "" && input.imageGiven
    && (input.authMode == "root_password" ==> input.cloudInitImage)
    && (input.authMode != "root_password" ==> input.authMode in {"", "ssh_keys"} && input.sshKeys > 0)
  }

  /** createDroplets of the HTTP API, after the account check: all guards in their order. */
  method EnqueueCreate(input: CreateInput) returns (r: Enqueued)
    ensures r.Accepted? ==> r.payload.CreatePayload? && IsNormalized(input.names, r.payload.names)
                            && CreateAllowed(input, r.payload.names)
                            && (r.payload.rootPassword || 1 <= |r.payload.names| <= 10)
                            && r.payload.size == input.size && r.payload.project == input.project
                            && (r.payload.rootPassword <==> input.authMode == "root_password")
    ensures r.Rejected? ==> forall u | IsNormalized(input.names, u) :: !CreateAllowed(input, u)
    ensures r == Rejected(InvalidNames) <==> exists u :: IsNormalized(input.names, u) && !WorkerAcceptsNames(u)
  {
    var names := NormalizeNames(input.names);
    forall u | IsNormalized(input.names, u) ensures u == names { NormalizedIsDetermined(input.names, u, names); }
    if |names| < 1 || |names| > 10 {
      return Rejected(InvalidNames);
    }
    for i := 0 to |names|
      invariant forall j | 0 <= j < i :: NamePattern(names[j])
    {
      var matches := MatchesPattern(names[i]);
      if !matches {
        return Rejected(InvalidName);
      }
    }
    if input.size == "" || !input.imageGiven {
      return Rejected(CreateFieldsRequired);
    }
    var authMode := if input.authMode == "" then "ssh_keys" else input.authMode;
    if authMode != "ssh_keys" && authMode != "root_password" {
      return Rejected(InvalidAuthMode);
    }
    if authMode == "ssh_keys" && input.sshKeys == 0 {
      return Rejected(SshKeyRequired);
    }
    if authMode == "root_password" && !input.cloudInitImage {
      return Rejected(CloudInitRequired);
    }
    return Accepted(CreatePayload(names, input.size, input.project, authMode == "root_password"));
  }
}
