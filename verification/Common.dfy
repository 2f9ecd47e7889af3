/** Shared helpers: optional values and finite sums over tables. */
module Common {

  datatype Option<+T> = None | Some(value: T)

  /** The sum of all values of a table. */
  ghost function Sum<K>(m: map<K, int>): int {
    if m == map[] then 0
    else
      var k :| k in m;
      m[k] + Sum(m - {k})
  }

  lemma {:induction false} SumRemove<K>(m: map<K, int>, k: K)
    requires k in m
    ensures Sum(m) == m[k] + Sum(m - {k})
    decreases |m|
  {
    var j :| j in m && Sum(m) == m[j] + Sum(m - {j});
    if j != k {
      SumRemove(m - {j}, k);
      SumRemove(m - {k}, j);
      assert m - {j} - {k} == m - {k} - {j};
    }
  }

  lemma SumInsert<K>(m: map<K, int>, k: K, v: int)
    requires k !in m
    ensures Sum(m[k := v]) == Sum(m) + v
  {
    SumRemove(m[k := v], k);
    assert m[k := v] - {k} == m;
  }

  lemma {:induction false} SumMonotone<K>(a: map<K, int>, b: map<K, int>)
    requires forall k | k in a :: k in b && a[k] <= b[k]
    requires forall k | k in b :: b[k] >= 0
    ensures Sum(a) <= Sum(b)
    decreases |b|
  {
    if k :| k in b {
      SumRemove(b, k);
      if k in a {
        SumRemove(a, k);
        SumMonotone(a - {k}, b - {k});
      } else {
        SumMonotone(a, b - {k});
      }
    } else {
      assert a == map[];
    }
  }

  lemma {:induction false} SumZero<K>(m: map<K, int>)
    requires forall k | k in m :: m[k] == 0
    ensures Sum(m) == 0
    decreases |m|
  {
    if k :| k in m {
      SumRemove(m, k);
      SumZero(m - {k});
    }
  }

  /** A table that marks the members of a set with one sums up to their number. */
  lemma {:induction false} SumOfMarks<K>(m: map<K, int>, s: set<K>)
    requires s <= m.Keys && forall k | k in m :: m[k] == if k in s then 1 else 0
    ensures Sum(m) == |s|
    decreases |m|
  {
    if k :| k in m {
      SumRemove(m, k);
      SumOfMarks(m - {k}, s - {k});
      assert k in s ==> |s - {k}| == |s| - 1;
      assert k !in s ==> s - {k} == s;
    } else {
      assert s == {};
    }
  }

  function Only<K>(m: map<K, int>, s: set<K>): map<K, int> {
    map k | k in m && k in s :: m[k]
  }

  /** The entries with keys outside `s` and those with keys inside `s` add up to the whole. */
  lemma {:induction false} SumSplit<K>(m: map<K, int>, s: set<K>)
    ensures Sum(m) == Sum(m - s) + Sum(Only(m, s))
    decreases |m|
  {
    if k :| k in m {
      var rest := m - {k};
      SumSplit(rest, s);
      SumRemove(m, k);
      if k in s {
        assert m - s == rest - s;
        SumRemove(Only(m, s), k);
        assert Only(m, s) - {k} == Only(rest, s);
      } else {
        SumRemove(m - s, k);
        assert m - s - {k} == rest - s;
        assert Only(m, s) == Only(rest, s);
      }
    } else {
      assert m - s == map[] && Only(m, s) == map[];
    }
  }

  /** The entries that belong to one user. */
  function Part<K>(m: map<K, int>, owner: map<K, nat>, user: nat): map<K, int>
    requires m.Keys <= owner.Keys
  {
    map k | k in m && owner[k] == user :: m[k]
  }

  ghost function Shares<K>(m: map<K, int>, owner: map<K, nat>, users: set<nat>): map<nat, int>
    requires m.Keys <= owner.Keys
  {
    map u | u in users :: Sum(Part(m, owner, u))
  }

  /** A table summed owner by owner is the table summed as a whole. */
  lemma {:induction false} SumByOwner<K>(m: map<K, int>, owner: map<K, nat>, users: set<nat>)
    requires m.Keys <= owner.Keys && forall k | k in m :: owner[k] in users
    ensures Sum(m) == Sum(Shares(m, owner, users))
    decreases |users|
  {
    if u :| u in users {
      var s := set k | k in m && owner[k] == u;
      SumSplit(m, s);
      assert Only(m, s) == Part(m, owner, u);
      SumByOwner(m - s, owner, users - {u});
      SumRemove(Shares(m, owner, users), u);
      SharesOfRest(m, owner, users, u, s);
    } else {
      assert m == map[];
      assert Shares(m, owner, users) == map[];
    }
  }

  lemma SharesOfRest<K>(m: map<K, int>, owner: map<K, nat>, users: set<nat>, u: nat, s: set<K>)
    requires m.Keys <= owner.Keys && s == set k | k in m && owner[k] == u
    ensures Shares(m, owner, users) - {u} == Shares(m - s, owner, users - {u})
  {
    forall v | v in users && v != u ensures Part(m, owner, v) == Part(m - s, owner, v) {}
  }

  /** Handing the entries of `s` from one user to another moves exactly their sum. */
  lemma Reassign<K>(m: map<K, int>, before: map<K, nat>, after: map<K, nat>, s: set<K>, from: nat, to: nat, user: nat)
    requires m.Keys <= before.Keys && m.Keys <= after.Keys
    requires forall k | k in m :: if k in s then before[k] == from && after[k] == to else before[k] == after[k]
    ensures Sum(Part(m, after, user)) - Sum(Part(m, before, user))
         == (if user == to then Sum(Only(m, s)) else 0) - (if user == from then Sum(Only(m, s)) else 0)
  {
    var b, a := Part(m, before, user), Part(m, after, user);
    SumSplit(b, s);
    SumSplit(a, s);
    assert b - s == a - s;
    assert Only(b, s) == if user == from then Only(m, s) else map[];
    assert Only(a, s) == if user == to then Only(m, s) else map[];
  }

  lemma {:induction false} SumPointwise<K>(a: map<K, int>, b: map<K, int>, c: map<K, int>)
    requires a.Keys == b.Keys == c.Keys && forall k | k in c :: c[k] == a[k] + b[k]
    ensures Sum(c) == Sum(a) + Sum(b)
    decreases |c|
  {
    if k :| k in c {
      SumRemove(a, k);
      SumRemove(b, k);
      SumRemove(c, k);
      SumPointwise(a - {k}, b - {k}, c - {k});
    } else {
      assert a == b == c == map[];
    }
  }
}
