/** One-time tokens under any interleaving: ReplaceOneTimeToken and ConsumeOneTimeToken, statement by statement. */
module Tokens {
  import opened Common

  type UserId = nat
  type Hash = nat
  type ProcId = nat
  type Time = nat

  /** A token belongs to a user and a purpose. */
  datatype Slot = Slot(user: UserId, purpose: string)

  datatype Row = Row(slot: Slot, expires: Time, consumed: bool)

  /** The two transactions between their statements. `gone` are the rows a transaction has deleted and not yet
      committed; Postgres takes now() from the beginning of a transaction. */
  datatype Pc =
    | Idle
    | Waiting(slot: Slot, hash: Hash, expires: Time)
    | Locked(slot: Slot, hash: Hash, expires: Time)
    | Deleted(slot: Slot, hash: Hash, expires: Time, gone: set<Hash>)
    | Inserted(slot: Slot, hash: Hash, expires: Time, gone: set<Hash>)
    | Seeking(hash: Hash, purpose: string, began: Time)
    | Marked(hash: Hash, slot: Slot, purpose: string, began: Time)
  {
    predicate Replaces() { Waiting? || Locked? || Deleted? || Inserted? }
    predicate HoldsLock() { Locked? || Deleted? || Inserted? }
    predicate HasDeleted() { Deleted? || Inserted? }
  }

  /** What has been committed, in order; a use with the purpose it was asked for. */
  datatype Happening =
    | Issued(slot: Slot, hash: Hash, expires: Time)
    | Used(slot: Slot, hash: Hash, purpose: string, began: Time)

  datatype State = State(rows: map<Hash, Row>, pcs: map<ProcId, Pc>, drawn: set<Hash>, log: seq<Happening>, now: Time) {
    function At(p: ProcId): Pc { if p in pcs then pcs[p] else Idle }
    function Move(p: ProcId, pc: Pc): State { this.(pcs := pcs[p := pc]) }
  }

  datatype Event =
    | BeginReplace(p: ProcId, slot: Slot, hash: Hash, ttl: nat)
    | Lock(p: ProcId)
    | Delete(p: ProcId)
    | Insert(p: ProcId)
    | BeginConsume(p: ProcId, hash: Hash, purpose: string)
    | Update(p: ProcId)
    | Commit(p: ProcId)
    | Abort(p: ProcId)
    | Tick(now: Time)

  /** Row locks: a row deleted or marked by a transaction is locked until that transaction ends. */
  ghost predicate RowLocked(s: State, h: Hash) {
    exists q :: q in s.pcs && LocksRow(s.pcs[q], h)
  }

  predicate LocksRow(pc: Pc, h: Hash) {
    (pc.HasDeleted() && h in pc.gone) || (pc.Marked? && pc.hash == h)
  }

  ghost predicate LockFree(s: State, key: Slot -> int, slot: Slot) {
    forall q | q in s.pcs && s.pcs[q].HoldsLock() :: key(s.pcs[q].slot) != key(slot)
  }

  function RowsOf(s: State, slot: Slot): set<Hash> {
    set h | h in s.rows && s.rows[h].slot == slot
  }

  /** One step, if it is enabled. `key` hashes the lock name and may collide. A token is drawn at random, so its
      hash has not been drawn before. */
  ghost function Next(key: Slot -> int, s: State, e: Event): Option<State> {
    match e
    case BeginReplace(p, slot, hash, ttl) =>
      if s.At(p).Idle? && hash !in s.drawn
      then Some(s.Move(p, Waiting(slot, hash, s.now + ttl)).(drawn := s.drawn + {hash})) else None
    case Lock(p) =>
      var pc := s.At(p);
      if pc.Waiting? && LockFree(s, key, pc.slot) then Some(s.Move(p, Locked(pc.slot, pc.hash, pc.expires))) else None
    case Delete(p) =>
      var pc := s.At(p);
      if pc.Locked? && forall h | h in RowsOf(s, pc.slot) :: !RowLocked(s, h)
      then Some(s.Move(p, Deleted(pc.slot, pc.hash, pc.expires, RowsOf(s, pc.slot)))) else None
    case Insert(p) =>
      var pc := s.At(p);
      if pc.Deleted? then Some(s.Move(p, Inserted(pc.slot, pc.hash, pc.expires, pc.gone))) else None
    case BeginConsume(p, hash, purpose) =>
      if s.At(p).Idle? then Some(s.Move(p, Seeking(hash, purpose, s.now))) else None
    case Update(p) =>
      var pc := s.At(p);
      if !pc.Seeking? || RowLocked(s, pc.hash) then None
      else if pc.hash in s.rows && s.rows[pc.hash].slot.purpose == pc.purpose
              && !s.rows[pc.hash].consumed && s.rows[pc.hash].expires > pc.began
      then Some(s.Move(p, Marked(pc.hash, s.rows[pc.hash].slot, pc.purpose, pc.began)))
      else Some(s.Move(p, Idle))
    case Commit(p) => Committed(s, p)
    case Abort(p) => Some(s.Move(p, Idle))
    case Tick(now) => if now >= s.now then Some(s.(now := now)) else None
  }

  function Committed(s: State, p: ProcId): Option<State> {
    var pc := s.At(p);
    if pc.Inserted? then
      Some(s.Move(p, Idle).(rows := (s.rows - pc.gone)[pc.hash := Row(pc.slot, pc.expires, false)],
                            log := s.log + [Issued(pc.slot, pc.hash, pc.expires)]))
    else if pc.Marked? && pc.hash in s.rows then
      Some(s.Move(p, Idle).(rows := s.rows[pc.hash := s.rows[pc.hash].(consumed := true)],
                            log := s.log + [Used(pc.slot, pc.hash, pc.purpose, pc.began)]))
    else None
  }

  // ---- what the committed history must look like ----

  datatype Token = Token(hash: Hash, expires: Time)

  /** The last token issued for a slot. */
  function Latest(log: seq<Happening>, slot: Slot): Option<Token> {
    if log == [] then None
    else
      var last := log[|log| - 1];
      if last.Issued? && last.slot == slot then Some(Token(last.hash, last.expires)) else Latest(log[..|log| - 1], slot)
  }

  /** A use at `i` was of the latest token of its slot, for the slot's purpose, before the token expired, and the only
      use of this token. */
  ghost predicate GoodUse(log: seq<Happening>, i: nat)
    requires i < |log|
  {
    log[i].Used? ==>
      && log[i].slot.purpose == log[i].purpose
      && Latest(log[..i], log[i].slot).Some?
      && Latest(log[..i], log[i].slot).value.hash == log[i].hash
      && log[i].began < Latest(log[..i], log[i].slot).value.expires
      && forall j | 0 <= j < i :: !(log[j].Used? && log[j].hash == log[i].hash)
  }

  ghost predicate GoodLog(log: seq<Happening>) {
    forall i | 0 <= i < |log| :: GoodUse(log, i)
  }

  // ---- the invariant ----

  /** Every row is the latest token of its slot, so a slot has at most one. */
  ghost predicate RowOk(s: State, h: Hash)
    requires h in s.rows
  {
    && h in s.drawn
    && Latest(s.log, s.rows[h].slot) == Some(Token(h, s.rows[h].expires))
  }

  ghost predicate PcOk(s: State, p: ProcId)
    requires p in s.pcs
  {
    var pc := s.pcs[p];
    && (pc.Replaces() ==> pc.hash in s.drawn && pc.hash !in s.rows)
    && (pc.HasDeleted() ==> pc.gone == RowsOf(s, pc.slot))
    && (pc.Marked? ==>
          pc.hash in s.rows && s.rows[pc.hash].slot == pc.slot && !s.rows[pc.hash].consumed
              && pc.slot.purpose == pc.purpose && pc.began < s.rows[pc.hash].expires)
  }

  ghost predicate Apart(key: Slot -> int, s: State, p: ProcId, q: ProcId)
    requires p in s.pcs && q in s.pcs
  {
    var a, b := s.pcs[p], s.pcs[q];
    && (a.HoldsLock() && b.HoldsLock() ==> key(a.slot) != key(b.slot))
    && (a.Replaces() && b.Replaces() ==> a.hash != b.hash)
    && (a.Marked? && b.Marked? ==> a.hash != b.hash)
    && (a.Marked? && b.HasDeleted() ==> a.hash !in b.gone)
  }

  /** What has happened to a hash lies in the past: it is drawn, no pending transaction is about to issue it, and if it
      was used its row is not usable any more. */
  ghost predicate PastOk(s: State, i: nat)
    requires i < |s.log|
  {
    && s.log[i].hash in s.drawn
    && (forall p | p in s.pcs && s.pcs[p].Replaces() :: s.pcs[p].hash != s.log[i].hash)
    && (s.log[i].Used? && s.log[i].hash in s.rows ==> s.rows[s.log[i].hash].consumed)
  }

  ghost predicate Inv(key: Slot -> int, s: State) {
    && (forall h | h in s.rows :: RowOk(s, h))
    && (forall p | p in s.pcs :: PcOk(s, p))
    && (forall p, q | p in s.pcs && q in s.pcs && p != q :: Apart(key, s, p, q))
    && (forall i | 0 <= i < |s.log| :: PastOk(s, i))
    && GoodLog(s.log)
  }

  lemma LatestSnoc(log: seq<Happening>, x: Happening, slot: Slot)
    ensures Latest(log + [x], slot) == if x.Issued? && x.slot == slot then Some(Token(x.hash, x.expires))
      else Latest(log, slot)
  {
    assert (log + [x])[..|log|] == log;
  }

  lemma GoodLogSnoc(log: seq<Happening>, x: Happening)
    requires GoodLog(log) && GoodUse(log + [x], |log|)
    ensures GoodLog(log + [x])
  {
    forall i | 0 <= i < |log| + 1 ensures GoodUse(log + [x], i) {
      if i < |log| {
        assert GoodUse(log, i);
        assert (log + [x])[..i] == log[..i];
      }
    }
  }

  // ---- every step keeps it ----

  lemma RowStep(key: Slot -> int, s: State, e: Event, h: Hash)
    requires Inv(key, s) && Next(key, s, e).Some? && h in Next(key, s, e).value.rows
    ensures RowOk(Next(key, s, e).value, h)
  {
    var t := Next(key, s, e).value;
    if e.Commit? {
      var pc := s.At(e.p);
      assert PcOk(s, e.p);
      LatestSnoc(s.log, t.log[|s.log|], t.rows[h].slot);
      if h in s.rows {
        assert RowOk(s, h);
      }
    } else {
      assert RowOk(s, h);
    }
  }

  lemma PcStep(key: Slot -> int, s: State, e: Event, p: ProcId)
    requires Inv(key, s) && Next(key, s, e).Some? && p in Next(key, s, e).value.pcs
    ensures PcOk(Next(key, s, e).value, p)
  {
    var t := Next(key, s, e).value;
    if p in s.pcs {
      assert PcOk(s, p);
      if e.Commit? && p != e.p {
        CommitKeepsOthers(key, s, e.p, p);
      }
    }
  }

  /** Locks keep the slot of a pending replacement and the row of a pending use out of other transactions' reach. */
  lemma CommitKeepsOthers(key: Slot -> int, s: State, p: ProcId, q: ProcId)
    requires Inv(key, s) && Committed(s, p).Some? && q in s.pcs && q != p
    ensures PcOk(Committed(s, p).value, q)
  {
    var t := Committed(s, p).value;
    assert PcOk(s, p) && PcOk(s, q) && Apart(key, s, p, q) && Apart(key, s, q, p);
    var a, b := s.pcs[p], s.pcs[q];
    if b.HasDeleted() {
      assert RowsOf(t, b.slot) == RowsOf(s, b.slot);
    }
  }

  lemma ApartStep(key: Slot -> int, s: State, e: Event, p: ProcId, q: ProcId)
    requires Inv(key, s) && Next(key, s, e).Some?
    requires p in Next(key, s, e).value.pcs && q in Next(key, s, e).value.pcs && p != q
    ensures Apart(key, Next(key, s, e).value, p, q)
  {
    var t := Next(key, s, e).value;
    if p in s.pcs && q in s.pcs {
      assert Apart(key, s, p, q) && PcOk(s, p) && PcOk(s, q);
    } else if p in s.pcs {
      assert PcOk(s, p);
    } else if q in s.pcs {
      assert PcOk(s, q);
    }
  }

  lemma PastStep(key: Slot -> int, s: State, e: Event, i: nat)
    requires Inv(key, s) && Next(key, s, e).Some? && i < |Next(key, s, e).value.log|
    ensures PastOk(Next(key, s, e).value, i)
  {
    var t := Next(key, s, e).value;
    if i < |s.log| {
      assert PastOk(s, i) && t.log[i] == s.log[i];
    } else {
      assert e.Commit? && PcOk(s, e.p);
      forall q | q in t.pcs && t.pcs[q].Replaces() ensures t.pcs[q].hash != t.log[i].hash {
        assert Apart(key, s, e.p, q) && PcOk(s, q);
      }
    }
  }

  lemma LogStep(key: Slot -> int, s: State, e: Event)
    requires Inv(key, s) && Next(key, s, e).Some?
    ensures GoodLog(Next(key, s, e).value.log)
  {
    if e.Commit? {
      var t, n := Next(key, s, e).value, |s.log|;
      assert PcOk(s, e.p);
      if s.At(e.p).Marked? {
        assert RowOk(s, s.At(e.p).hash);
        assert t.log[..n] == s.log;
        forall j | 0 <= j < n ensures !(t.log[j].Used? && t.log[j].hash == t.log[n].hash) { assert PastOk(s, j); }
      }
      GoodLogSnoc(s.log, t.log[n]);
    }
  }

  lemma InvStep(key: Slot -> int, s: State, e: Event)
    requires Inv(key, s) && Next(key, s, e).Some?
    ensures Inv(key, Next(key, s, e).value)
  {
    var t := Next(key, s, e).value;
    forall h | h in t.rows ensures RowOk(t, h) { RowStep(key, s, e, h); }
    forall p | p in t.pcs ensures PcOk(t, p) { PcStep(key, s, e, p); }
    forall p, q | p in t.pcs && q in t.pcs && p != q ensures Apart(key, t, p, q) { ApartStep(key, s, e, p, q); }
    forall i | 0 <= i < |t.log| ensures PastOk(t, i) { PastStep(key, s, e, i); }
    LogStep(key, s, e);
  }

  // ---- runs ----

  ghost predicate Run(key: Slot -> int, s: State, es: seq<Event>)
    decreases |es|
  {
    es == [] || (Next(key, s, es[0]).Some? && Run(key, Next(key, s, es[0]).value, es[1..]))
  }

  ghost function After(key: Slot -> int, s: State, es: seq<Event>): State
    requires Run(key, s, es)
    decreases |es|
  {
    if es == [] then s else After(key, Next(key, s, es[0]).value, es[1..])
  }

  lemma {:induction false} InvRun(key: Slot -> int, s: State, es: seq<Event>)
    requires Inv(key, s) && Run(key, s, es)
    ensures Inv(key, After(key, s, es))
    decreases |es|
  {
    if es != [] {
      InvStep(key, s, es[0]);
      InvRun(key, Next(key, s, es[0]).value, es[1..]);
    }
  }

  /** From an empty table, over all interleavings: a slot never has two rows, no token is used twice, and every
      use is of the latest token issued for its slot, by a request for just this purpose made before that token
      expired. */
  lemma TokensAreOneTime(key: Slot -> int, now: Time, es: seq<Event>)
    requires Run(key, State(map[], map[], {}, [], now), es)
    ensures var t := After(key, State(map[], map[], {}, [], now), es);
            && (forall g, h | g in t.rows && h in t.rows && t.rows[g].slot == t.rows[h].slot :: g == h)
            && GoodLog(t.log)
  {
    var s := State(map[], map[], {}, [], now);
    InvRun(key, s, es);
    var t := After(key, s, es);
    forall g, h | g in t.rows && h in t.rows && t.rows[g].slot == t.rows[h].slot ensures g == h {
      assert RowOk(t, g) && RowOk(t, h);
    }
  }

  // ---- what goes through ----

  lemma Then(key: Slot -> int, s: State, e: Event, t: State, rest: seq<Event>)
    requires Next(key, s, e) == Some(t) && Run(key, t, rest)
    ensures Run(key, s, [e] + rest) && After(key, s, [e] + rest) == After(key, t, rest)
  {
    assert ([e] + rest)[1..] == rest;
  }

  /** A request that looks for a token nobody else has locked uses it up exactly if the token is there, was issued for
      the purpose asked for, has not been used, and had not expired when the request began. */
  lemma UseGoesThrough(key: Slot -> int, s: State, p: ProcId)
    requires s.At(p).Seeking? && !RowLocked(s, s.At(p).hash)
    ensures var h, purpose, began := s.At(p).hash, s.At(p).purpose, s.At(p).began;
            var es := [Update(p)] + ([Commit(p)] + []);
            if h in s.rows && s.rows[h].slot.purpose == purpose && !s.rows[h].consumed && began < s.rows[h].expires then
              && Run(key, s, es)
              && After(key, s, es).rows == s.rows[h := s.rows[h].(consumed := true)]
              && After(key, s, es).log == s.log + [Used(s.rows[h].slot, h, purpose, began)]
            else !Run(key, s, es) && Next(key, s, Update(p)) == Some(s.Move(p, Idle))
  {
    var pc := s.At(p);
    var t := Next(key, s, Update(p)).value;
    var es := [Update(p)] + ([Commit(p)] + []);
    assert es[1..] == [Commit(p)] + [] && es[1..][1..] == [];
    if t.At(p).Marked? {
      Then(key, t, Commit(p), Next(key, t, Commit(p)).value, []);
      Then(key, s, Update(p), t, [Commit(p)] + []);
    }
  }

  function IssueEvents(p: ProcId, slot: Slot, hash: Hash, ttl: nat): seq<Event> {
    [BeginReplace(p, slot, hash, ttl)] + ([Lock(p)] + ([Delete(p)] + ([Insert(p)] + ([Commit(p)] + []))))
  }

  /** The first half of this: the old tokens are deleted but not yet gone. */
  lemma DeletesFirst(key: Slot -> int, s: State, p: ProcId, slot: Slot, hash: Hash, ttl: nat)
    requires s.pcs == map[] && hash !in s.drawn
    ensures var u := s.(drawn := s.drawn + {hash});
            && Next(key, s, BeginReplace(p, slot, hash, ttl)) == Some(u.Move(p, Waiting(slot, hash, s.now + ttl)))
            && Next(key, u.Move(p, Waiting(slot, hash, s.now + ttl)), Lock(p))
               == Some(u.Move(p, Locked(slot, hash, s.now + ttl)))
            && Next(key, u.Move(p, Locked(slot, hash, s.now + ttl)), Delete(p))
               == Some(u.Move(p, Deleted(slot, hash, s.now + ttl, RowsOf(s, slot))))
  {
    var u := s.(drawn := s.drawn + {hash});
    var expires := s.now + ttl;
    var s1, s2 := u.Move(p, Waiting(slot, hash, expires)), u.Move(p, Locked(slot, hash, expires));
    assert RowsOf(s2, slot) == RowsOf(s, slot);
    assert s1.Move(p, s2.At(p)) == s2;
    assert s2.Move(p, Deleted(slot, hash, expires, RowsOf(s, slot)))
        == u.Move(p, Deleted(slot, hash, expires, RowsOf(s, slot)));
  }

  /** The state after a token has been issued with nobody else at work. */
  function AfterIssue(s: State, p: ProcId, slot: Slot, hash: Hash, ttl: nat): State {
    State((s.rows - RowsOf(s, slot))[hash := Row(slot, s.now + ttl, false)], map[p := Idle], s.drawn + {hash},
          s.log + [Issued(slot, hash, s.now + ttl)], s.now)
  }

  lemma IssueRuns(key: Slot -> int, s: State, p: ProcId, slot: Slot, hash: Hash, ttl: nat)
    requires s.pcs == map[] && hash !in s.drawn
    ensures Run(key, s, IssueEvents(p, slot, hash, ttl))
    ensures After(key, s, IssueEvents(p, slot, hash, ttl)) == AfterIssue(s, p, slot, hash, ttl)
  {
    var expires, gone := s.now + ttl, RowsOf(s, slot);
    var u := s.(drawn := s.drawn + {hash});
    var s1, s2, s3, s4 := u.Move(p, Waiting(slot, hash, expires)), u.Move(p, Locked(slot, hash, expires)),
                          u.Move(p, Deleted(slot, hash, expires, gone)), u.Move(p, Inserted(slot, hash, expires, gone));
    var t := AfterIssue(s, p, slot, hash, ttl);
    DeletesFirst(key, s, p, slot, hash, ttl);
    assert s3.Move(p, s4.At(p)) == s4 && s4.Move(p, Idle).pcs == t.pcs;
    Then(key, s4, Commit(p), t, []);
    Then(key, s3, Insert(p), s4, [Commit(p)] + []);
    Then(key, s2, Delete(p), s3, [Insert(p)] + ([Commit(p)] + []));
    Then(key, s1, Lock(p), s2, [Delete(p)] + ([Insert(p)] + ([Commit(p)] + [])));
    Then(key, s, BeginReplace(p, slot, hash, ttl), s1, [Lock(p)] + ([Delete(p)] + ([Insert(p)] + ([Commit(p)] + []))));
  }

  /** With nobody else at work a token is issued: it replaces those of its slot, lives for `ttl`, and leaves the tokens
      of other slots alone. */
  lemma IssueGoesThrough(key: Slot -> int, s: State, p: ProcId, slot: Slot, hash: Hash, ttl: nat)
    requires s.pcs == map[] && hash !in s.drawn && hash !in s.rows
    ensures var es := IssueEvents(p, slot, hash, ttl);
            && Run(key, s, es)
            && var t := After(key, s, es);
            && t.pcs == map[p := Idle] && t.now == s.now && t.log == s.log + [Issued(slot, hash, s.now + ttl)]
            && hash in t.rows && t.rows[hash] == Row(slot, s.now + ttl, false)
            && forall h | h != hash ::
                 && (h in t.rows <==> h in s.rows && s.rows[h].slot != slot)
                 && (h in t.rows ==> t.rows[h] == s.rows[h])
  {
    IssueRuns(key, s, p, slot, hash, ttl);
  }

  function UseEvents(q: ProcId, hash: Hash, purpose: string, later: Time): seq<Event> {
    [Tick(later)] + ([BeginConsume(q, hash, purpose)] + ([Update(q)] + ([Commit(q)] + [])))
  }

  /** A token just issued can be used at a later time if and only if that is before its expiry and for its purpose. */
  lemma IssuedCanBeUsed(key: Slot -> int, s: State, p: ProcId, slot: Slot, hash: Hash, ttl: nat, q: ProcId,
                        purpose: string, wait: nat)
    requires s.pcs == map[] && hash !in s.drawn && hash !in s.rows
    requires Run(key, s, IssueEvents(p, slot, hash, ttl))
    ensures Run(key, After(key, s, IssueEvents(p, slot, hash, ttl)), UseEvents(q, hash, purpose, s.now + wait))
       <==> wait < ttl && purpose == slot.purpose
  {
    IssueGoesThrough(key, s, p, slot, hash, ttl);
    var t := After(key, s, IssueEvents(p, slot, hash, ttl));
    var later := s.now + wait;
    var t1 := t.(now := later);
    var t2 := t1.Move(q, Seeking(hash, purpose, later));
    UseGoesThrough(key, t2, q);
    var rest := [Update(q)] + ([Commit(q)] + []);
    var es := UseEvents(q, hash, purpose, later);
    assert es[0] == Tick(later) && es[1..] == [BeginConsume(q, hash, purpose)] + rest;
    assert es[1..][0] == BeginConsume(q, hash, purpose) && es[1..][1..] == rest;
    assert Next(key, t, es[0]) == Some(t1) && Next(key, t1, es[1..][0]) == Some(t2);
  }
}
