/** The fixed-window limiter in front of the public endpoints, and how many requests it lets through. */
module RateLimiter {
  type Instant = nat

  datatype Entry = Entry(count: nat, reset: Instant)

  /** One request that reached the limiter; `window` belongs to the bucket. */
  datatype Hit = Hit(bucket: string, ip: string, window: nat, time: Instant)

  function KeyOf(bucket: string, ip: string): string {
    bucket + ":" + ip
  }

  lemma FirstColon(bucket: string, ip: string)
    requires ':' !in bucket
    ensures var k := KeyOf(bucket, ip);
            k[|bucket|] == ':' && k[..|bucket|] == bucket && k[|bucket| + 1..] == ip
            && forall i | 0 <= i < |bucket| :: k[i] != ':'
  {
    assert forall i | 0 <= i < |bucket| :: KeyOf(bucket, ip)[i] == bucket[i] && bucket[i] in bucket;
  }

  /** Buckets are named without a colon, so the first colon of a key ends the bucket; addresses may contain more. */
  lemma KeysDoNotCollide(b1: string, ip1: string, b2: string, ip2: string)
    requires ':' !in b1 && ':' !in b2
    ensures KeyOf(b1, ip1) == KeyOf(b2, ip2) <==> b1 == b2 && ip1 == ip2
  {
    FirstColon(b1, ip1);
    FirstColon(b2, ip2);
  }

  // ---- one key ----

  /** The counter after one more request. A key without entry has the zero entry, whose reset time is long past. */
  function Counted(e: Entry, window: nat, now: Instant): Entry {
    if now > e.reset then Entry(1, now + window) else Entry(e.count + 1, e.reset)
  }

  function Count(hits: seq<Hit>): Entry {
    if hits == [] then Entry(0, 0)
    else
      var last := hits[|hits| - 1];
      Counted(Count(hits[..|hits| - 1]), last.window, last.time)
  }

  function Of(hits: seq<Hit>, bucket: string, ip: string): seq<Hit> {
    if hits == [] then []
    else
      var last := hits[|hits| - 1];
      Of(hits[..|hits| - 1], bucket, ip) + if last.bucket == bucket && last.ip == ip then [last] else []
  }

  lemma OfSnoc(hits: seq<Hit>, h: Hit, bucket: string, ip: string)
    ensures Of(hits + [h], bucket, ip) == Of(hits, bucket, ip) + if h.bucket == bucket && h.ip == ip then [h] else []
  {
    assert (hits + [h])[..|hits|] == hits;
  }

  lemma CountSnoc(hits: seq<Hit>, h: Hit)
    ensures Count(hits + [h]) == Counted(Count(hits), h.window, h.time)
  {
    assert (hits + [h])[..|hits|] == hits;
  }

  // ---- the limiter ----

  function Find(entries: map<string, Entry>, key: string): Entry {
    if key in entries then entries[key] else Entry(0, 0)
  }

  /** The counter of this bucket and address is what the requests of just this bucket and address make it. */
  ghost predicate Counts(entries: map<string, Entry>, hits: seq<Hit>, bucket: string, ip: string) {
    Find(entries, KeyOf(bucket, ip)) == Count(Of(hits, bucket, ip))
  }

  ghost predicate AllCount(entries: map<string, Entry>, hits: seq<Hit>) {
    forall bucket, ip | ':' !in bucket :: Counts(entries, hits, bucket, ip)
  }

  lemma CountsOneMore(before: map<string, Entry>, hits: seq<Hit>, h: Hit, bucket: string, ip: string)
    requires ':' !in h.bucket && ':' !in bucket && Counts(before, hits, bucket, ip)
    ensures var key := KeyOf(h.bucket, h.ip);
            Counts(before[key := Counted(Find(before, key), h.window, h.time)], hits + [h], bucket, ip)
  {
    KeysDoNotCollide(h.bucket, h.ip, bucket, ip);
    OfSnoc(hits, h, bucket, ip);
    if h.bucket == bucket && h.ip == ip {
      CountSnoc(Of(hits, bucket, ip), h);
    } else {
      assert Of(hits, bucket, ip) + [] == Of(hits, bucket, ip);
    }
  }

  lemma AllCountOneMore(before: map<string, Entry>, hits: seq<Hit>, h: Hit)
    requires AllCount(before, hits) && ':' !in h.bucket
    ensures var key := KeyOf(h.bucket, h.ip);
            AllCount(before[key := Counted(Find(before, key), h.window, h.time)], hits + [h])
  {
    var key := KeyOf(h.bucket, h.ip);
    var after := before[key := Counted(Find(before, key), h.window, h.time)];
    forall bucket, ip | ':' !in bucket ensures Counts(after, hits + [h], bucket, ip) {
      CountsOneMore(before, hits, h, bucket, ip);
    }
  }

  class Limiter {
    var entries: map<string, Entry>
    ghost var hits: seq<Hit>

    ghost predicate Valid()
      reads this
    {
      AllCount(entries, hits)
    }

    constructor ()
      ensures Valid() && hits == []
    {
      entries, hits := map[], [];
    }

    /** What runs under the mutex, and the decision that follows it. */
    method Admit(bucket: string, max: nat, window: nat, ip: string, now: Instant) returns (admitted: bool)
      requires Valid() && ':' !in bucket
      modifies this
      ensures Valid() && hits == old(hits) + [Hit(bucket, ip, window, now)]
      ensures admitted <==> Count(Of(hits, bucket, ip)).count <= max
    {
      var key := KeyOf(bucket, ip);
      AllCountOneMore(entries, hits, Hit(bucket, ip, window, now));
      var entry := Find(entries, key);
      if now > entry.reset {
        entry := Entry(0, now + window);
      }
      entry := entry.(count := entry.count + 1);
      entries := entries[key := entry];
      hits := hits + [Hit(bucket, ip, window, now)];
      assert Counts(entries, hits, bucket, ip);
      admitted := entry.count <= max;
    }
  }

  // ---- how much a key lets through ----

  /** The requests of one key: one window length, and times that do not run backwards. */
  ghost predicate Steady(hits: seq<Hit>, window: nat) {
    && (forall i | 0 <= i < |hits| :: hits[i].window == window && hits[i].time > 0)
    && (forall i, j | 0 <= i < j < |hits| :: hits[i].time <= hits[j].time)
  }

  lemma SteadyPrefix(hits: seq<Hit>, window: nat)
    requires Steady(hits, window) && hits != []
    ensures Steady(hits[..|hits| - 1], window)
  {
  }

  /** A log of the limiter with times that do not run backwards, in which this bucket keeps its window. */
  ghost predicate Orderly(hits: seq<Hit>, bucket: string, window: nat) {
    && (forall i | 0 <= i < |hits| :: hits[i].time > 0 && (hits[i].bucket == bucket ==> hits[i].window == window))
    && (forall i, j | 0 <= i < j < |hits| :: hits[i].time <= hits[j].time)
  }

  lemma {:induction false} OfIsSteady(hits: seq<Hit>, bucket: string, ip: string, window: nat)
    requires Orderly(hits, bucket, window)
    ensures var mine := Of(hits, bucket, ip);
            Steady(mine, window) && (mine != [] ==> hits != [] && mine[|mine| - 1].time <= hits[|hits| - 1].time)
    decreases |hits|
  {
    if hits != [] { OfIsSteady(hits[..|hits| - 1], bucket, ip, window); }
  }

  predicate Admitted(hits: seq<Hit>, max: nat) {
    hits != [] && Count(hits).count <= max
  }

  /** The admitted requests with a time from `lo` to `hi`. */
  function AdmittedBetween(hits: seq<Hit>, max: nat, lo: Instant, hi: Instant): nat {
    if hits == [] then 0
    else
      AdmittedBetween(hits[..|hits| - 1], max, lo, hi)
      + if Admitted(hits, max) && lo <= hits[|hits| - 1].time <= hi then 1 else 0
  }

  /** The admitted requests of the window that ends at `reset`. */
  function AdmittedIn(hits: seq<Hit>, max: nat, reset: Instant): nat {
    if hits == [] then 0
    else
      AdmittedIn(hits[..|hits| - 1], max, reset)
      + if Admitted(hits, max) && Count(hits).reset == reset then 1 else 0
  }

  function Min(a: int, b: int): int {
    if a < b then a else b
  }

  /** The running window was opened by a request, and no request is outside it. */
  lemma {:induction false} WindowSpan(hits: seq<Hit>, window: nat)
    requires Steady(hits, window) && hits != []
    ensures var e := Count(hits); e.count >= 1 && e.reset - window <= hits[|hits| - 1].time <= e.reset
    decreases |hits|
  {
    if |hits| > 1 {
      SteadyPrefix(hits, window);
      WindowSpan(hits[..|hits| - 1], window);
    }
  }

  /** Every window admits its first `max` requests and no more. */
  lemma {:induction false} WindowAdmitsMax(hits: seq<Hit>, window: nat, max: nat, reset: Instant)
    requires Steady(hits, window)
    ensures AdmittedIn(hits, max, reset) <= max
    ensures hits != [] && reset == Count(hits).reset ==> AdmittedIn(hits, max, reset) == Min(Count(hits).count, max)
    ensures hits == [] || reset > Count(hits).reset ==> AdmittedIn(hits, max, reset) == 0
    decreases |hits|
  {
    if hits != [] {
      SteadyPrefix(hits, window);
      WindowAdmitsMax(hits[..|hits| - 1], window, max, reset);
    }
  }

  lemma {:induction false} NothingBefore(hits: seq<Hit>, window: nat, max: nat, lo: Instant, hi: Instant)
    requires Steady(hits, window) && hits != [] && hits[|hits| - 1].time < lo
    ensures AdmittedBetween(hits, max, lo, hi) == 0
    decreases |hits|
  {
    if |hits| > 1 {
      SteadyPrefix(hits, window);
      NothingBefore(hits[..|hits| - 1], window, max, lo, hi);
    }
  }

  /** How much of an interval is used up, by where the running window was opened. */
  lemma {:induction false} IntervalUse(hits: seq<Hit>, window: nat, max: nat, lo: Instant, hi: Instant)
    requires Steady(hits, window) && hits != [] && hi <= lo + window && max >= 1
    ensures var e, a := Count(hits), AdmittedBetween(hits, max, lo, hi);
            && (e.reset - window < lo ==> a <= Min(e.count, max) - 1)
            && (lo <= e.reset - window <= hi ==> a <= max - 1 + Min(e.count, max))
            && (hi < e.reset - window ==> a <= 2 * max - 1)
    decreases |hits|
  {
    var n := |hits| - 1;
    if n > 0 {
      var before := hits[..n];
      SteadyPrefix(hits, window);
      IntervalUse(before, window, max, lo, hi);
      WindowSpan(before, window);
      if hits[n].time < lo {
        NothingBefore(before, window, max, lo, hi);
      }
    }
    WindowSpan(hits, window);
  }

  lemma {:induction false} MaxZeroAdmitsNone(hits: seq<Hit>, window: nat, lo: Instant, hi: Instant)
    requires Steady(hits, window)
    ensures AdmittedBetween(hits, 0, lo, hi) == 0
    decreases |hits|
  {
    if hits != [] {
      SteadyPrefix(hits, window);
      WindowSpan(hits, window);
      MaxZeroAdmitsNone(hits[..|hits| - 1], window, lo, hi);
    }
  }

  /** No closed interval that is not longer than the window sees more than 2 * max - 1 admitted requests: two
      windows at most take part in it, and the first of them was opened before it. */
  lemma IntervalBound(hits: seq<Hit>, window: nat, max: nat, lo: Instant, hi: Instant)
    requires Steady(hits, window) && hi <= lo + window
    ensures AdmittedBetween(hits, max, lo, hi) <= if max == 0 then 0 else 2 * max - 1
  {
    if max == 0 {
      MaxZeroAdmitsNone(hits, window, lo, hi);
    } else if hits != [] {
      IntervalUse(hits, window, max, lo, hi);
    }
  }

  /** What the limiter's own log comes to: whatever else it has served, one address gets at most max requests of a
      bucket through per window and at most 2 * max - 1 in any closed interval not longer than the window. */
  lemma LimiterBound(hits: seq<Hit>, bucket: string, ip: string, window: nat, max: nat, lo: Instant, hi: Instant,
                     reset: Instant)
    requires Orderly(hits, bucket, window) && hi <= lo + window
    ensures AdmittedBetween(Of(hits, bucket, ip), max, lo, hi) <= if max == 0 then 0 else 2 * max - 1
    ensures AdmittedIn(Of(hits, bucket, ip), max, reset) <= max
  {
    OfIsSteady(hits, bucket, ip, window);
    IntervalBound(Of(hits, bucket, ip), window, max, lo, hi);
    WindowAdmitsMax(Of(hits, bucket, ip), window, max, reset);
  }

  // ---- the bound is reached ----

  /** A run of requests that has not gone past `time`. */
  ghost predicate Until(hits: seq<Hit>, window: nat, time: Instant) {
    Steady(hits, window) && (hits != [] ==> hits[|hits| - 1].time <= time)
  }

  lemma OneMoreHit(hits: seq<Hit>, window: nat, time: Instant, max: nat, lo: Instant, hi: Instant)
    returns (all: seq<Hit>)
    requires Until(hits, window, time) && time > 0
    ensures Until(all, window, time) && Count(all) == Counted(Count(hits), window, time)
    ensures AdmittedBetween(all, max, lo, hi)
         == AdmittedBetween(hits, max, lo, hi) + if Count(all).count <= max && lo <= time <= hi then 1 else 0
  {
    var h := Hit("login", "::1", window, time);
    all := hits + [h];
    CountSnoc(hits, h);
    assert all[..|hits|] == hits;
  }

  /** `n` more requests inside the running window. */
  lemma {:induction false} Crowd(hits: seq<Hit>, n: nat, window: nat, time: Instant, max: nat, lo: Instant, hi: Instant)
    returns (all: seq<Hit>)
    requires Until(hits, window, time) && lo <= time <= hi && time > 0
    requires time <= Count(hits).reset && Count(hits).count + n <= max
    ensures Until(all, window, time) && Count(all) == Entry(Count(hits).count + n, Count(hits).reset)
    ensures AdmittedBetween(all, max, lo, hi) == AdmittedBetween(hits, max, lo, hi) + n
    decreases n
  {
    all := hits;
    if n > 0 {
      all := Crowd(hits, n - 1, window, time, max, lo, hi);
      all := OneMoreHit(all, window, time, max, lo, hi);
    }
  }

  /** The bound cannot be improved: one request opens a window, the others wait for its last instant, and in the next
      instant another window is opened and filled. */
  lemma BoundIsReached(window: nat, max: nat) returns (hits: seq<Hit>, lo: Instant, hi: Instant)
    requires window >= 1 && max >= 1
    ensures Steady(hits, window) && hi <= lo + window
    ensures AdmittedBetween(hits, max, lo, hi) == 2 * max - 1
  {
    lo, hi := 1 + window, 2 + window;
    hits := OneMoreHit([], window, 1, max, lo, hi);
    hits := Crowd(hits, max - 1, window, lo, max, lo, hi);
    hits := OneMoreHit(hits, window, hi, max, lo, hi);
    hits := Crowd(hits, max - 1, window, hi, max, lo, hi);
  }
}
