/** The migration loop: it can be stopped anywhere and run again. */
module Migrate {
  import opened Common
  import opened Strings

  // ---- names and versions ----

  predicate IsSql(name: string) {
    |name| >= 4 && name[|name| - 4..] == ".sql"
  }

  /** What precedes the first underscore. */
  function BeforeUnderscore(name: string): Option<string> {
    if name == [] then None
    else if name[0] == '_' then Some("")
    else
      match BeforeUnderscore(name[1..])
      case Some(prefix) => Some([name[0]] + prefix)
      case None => None
  }

  const LIMIT := 0x8000_0000_0000_0000

  /** strconv.ParseInt(s, 10, 64). */
  function ParseInt(s: string): Option<int> {
    match ParseDecimal(s)
    case Some(value) => if -LIMIT <= value < LIMIT then Some(value) else None
    case None => None
  }

  /** The version in a file name. */
  function Version(name: string): Option<int> {
    match BeforeUnderscore(name)
    case Some(prefix) => ParseInt(prefix)
    case None => None
  }

  lemma SqlSuffix(name: string)
    ensures IsSql(name) <==> exists stem: string :: name == stem + ".sql"
  {
    if IsSql(name) { assert name == name[..|name| - 4] + ".sql"; }
  }

  lemma {:induction false} CutAtUnderscore(prefix: string, rest: string)
    requires '_' !in prefix
    ensures BeforeUnderscore(prefix + "_" + rest) == Some(prefix)
  {
    if prefix == [] {
      assert (prefix + "_" + rest)[0] == '_';
    } else {
      CutAtUnderscore(prefix[1..], rest);
      assert prefix == [prefix[0]] + prefix[1..];
      assert (prefix + "_" + rest)[1..] == prefix[1..] + "_" + rest;
      assert prefix[0] in prefix;
    }
  }

  lemma {:induction false} NothingToCut(name: string)
    requires '_' !in name
    ensures BeforeUnderscore(name).None?
  {
    if name != [] { NothingToCut(name[1..]); }
  }

  /** The version of a file is the number in front of the first underscore, read by place value: digits with or without
      a sign, within 64 bits. A name without an underscore has none. */
  lemma VersionIsNumber(digits: string, rest: string)
    requires digits != "" && AllDigits(digits)
    ensures var n := DecimalValue(digits);
            && Version(digits + "_" + rest) == (if n <= 0x7fff_ffff_ffff_ffff then Some(n) else None)
            && Version("-" + digits + "_" + rest) == (if n <= 0x8000_0000_0000_0000 then Some(-n) else None)
  {
    CutAtUnderscore(digits, rest);
    CutAtUnderscore("-" + digits, rest);
    ParsesByPlace(digits);
    DecimalIsNatural(digits);
  }

  lemma NoVersion(name: string, prefix: string, rest: string)
    requires '_' !in prefix && (prefix == "" || exists i :: 0 < i < |prefix| && !('0' <= prefix[i] <= '9'))
    ensures Version(prefix + "_" + rest).None?
    ensures '_' !in name ==> Version(name).None?
  {
    CutAtUnderscore(prefix, rest);
    ParsesNothingElse(prefix);
    if '_' !in name { NothingToCut(name); }
  }

  /** The migrations among the entries of the directory. */
  function Files(entries: seq<string>, dirs: set<string>): seq<string> {
    if entries == [] then []
    else
      var last := entries[|entries| - 1];
      Files(entries[..|entries| - 1], dirs) + if last !in dirs && IsSql(last) then [last] else []
  }

  predicate AllValid(files: seq<string>) {
    forall i | 0 <= i < |files| :: Version(files[i]).Some?
  }

  /** The rows of schema_migrations after these files. */
  function Recorded(files: seq<string>): map<int, string>
    requires AllValid(files)
  {
    if files == [] then map[]
    else
      var n := |files| - 1;
      Recorded(files[..n])[Version(files[n]).value := files[n]]
  }

  /** What a complete run over these files applies, from an empty database: every file up to the first with an
      unreadable version, except those whose version an earlier file has. */
  function Plan(files: seq<string>): (plan: seq<string>)
    ensures AllValid(plan)
  {
    if files == [] then []
    else
      var n := |files| - 1;
      var plan := Plan(files[..n]);
      if AllValid(files) && Version(files[n]).value !in Recorded(plan) then plan + [files[n]] else plan
  }

  lemma {:induction false} PlanOfPrefix(files: seq<string>, i: nat)
    requires i <= |files|
    ensures Plan(files[..i]) <= Plan(files)
    decreases |files|
  {
    if i == |files| {
      assert files[..i] == files;
    } else {
      var n := |files| - 1;
      PlanOfPrefix(files[..n], i);
      assert files[..n][..i] == files[..i];
    }
  }

  ghost predicate DistinctVersions(files: seq<string>) {
    forall i, j | 0 <= i < j < |files| :: Version(files[i]) != Version(files[j])
  }

  lemma {:induction false} RecordedKeys(files: seq<string>, v: int)
    requires AllValid(files)
    ensures v in Recorded(files) <==> exists i :: 0 <= i < |files| && Version(files[i]) == Some(v)
    decreases |files|
  {
    if files != [] {
      var n := |files| - 1;
      RecordedKeys(files[..n], v);
      if i :| 0 <= i < n && Version(files[..n][i]) == Some(v) { assert Version(files[i]) == Some(v); }
      if i :| 0 <= i < n && Version(files[i]) == Some(v) { assert Version(files[..n][i]) == Some(v); }
    }
  }

  lemma {:induction false} PlanIsShorter(files: seq<string>)
    ensures |Plan(files)| <= |files|
    decreases |files|
  {
    if files != [] { PlanIsShorter(files[..|files| - 1]); }
  }

  lemma DistinctSnoc(files: seq<string>, f: string)
    ensures DistinctVersions(files + [f])
       <==> DistinctVersions(files) && forall i | 0 <= i < |files| :: Version(files[i]) != Version(f)
  {
    var all := files + [f];
    assert all[|files|] == f && forall i | 0 <= i < |files| :: all[i] == files[i];
  }

  lemma NewVersion(files: seq<string>, f: string)
    requires AllValid(files) && Version(f).Some?
    ensures Version(f).value !in Recorded(files) <==> forall i | 0 <= i < |files| :: Version(files[i]) != Version(f)
  {
    RecordedKeys(files, Version(f).value);
  }

  /** Nothing is left out exactly if every name has a readable version and no two have the same. */
  lemma {:induction false} PlanIsComplete(files: seq<string>)
    ensures Plan(files) == files <==> AllValid(files) && DistinctVersions(files)
    decreases |files|
  {
    if files != [] {
      var n := |files| - 1;
      var before, f := files[..n], files[n];
      PlanIsComplete(before);
      PlanIsShorter(before);
      DistinctSnoc(before, f);
      assert files == before + [f];
      if AllValid(files) {
        NewVersion(before, f);
      }
    }
  }

  /** Files are applied in the order of their names, and none twice. */
  lemma {:induction false} PlanAscends(files: seq<string>)
    requires Ascending(files)
    ensures Ascending(Plan(files)) && forall p | p in Plan(files) :: p in files
    decreases |files|
  {
    if files != [] {
      var n := |files| - 1;
      PlanAscends(files[..n]);
      assert files == files[..n] + [files[n]];
      forall p | p in Plan(files[..n]) ensures Less(p, files[n]) {
        var i :| 0 <= i < n && files[..n][i] == p;
        assert files[i] == p;
      }
    }
  }

  // ---- the loop ----

  class Database {
    var versions: map<int, string>        // schema_migrations
    ghost var applied: seq<string>        // the scripts whose effects are in the schema, in order

    constructor ()
      ensures versions == map[] && applied == []
    {
      versions, applied := map[], [];
    }
  }

  /** A database that only this loop has written, with these files. */
  ghost predicate Resumable(versions: map<int, string>, applied: seq<string>, files: seq<string>) {
    applied <= Plan(files) && versions == Recorded(applied)
  }

  lemma PrefixOfLonger<T>(a: seq<T>, b: seq<T>, whole: seq<T>)
    requires a <= whole && b <= whole && |a| <= |b|
    ensures a <= b
  {
    assert a == whole[..|a|] == whole[..|b|][..|a|] == b[..|a|];
  }

  /** The plan of one file more: the same, or longer by this file. */
  lemma PlanStep(files: seq<string>, i: nat)
    requires i < |files| && AllValid(files[..i + 1])
    ensures var before := Plan(files[..i]);
            Plan(files[..i + 1]) == if Version(files[i]).value !in Recorded(before) then before + [files[i]] else before
  {
    assert files[..i + 1][..i] == files[..i];
  }

  /** A version that is found is the version of a file already applied: this one or an earlier one. */
  lemma FoundIsApplied(files: seq<string>, i: nat, versions: map<int, string>, applied: seq<string>)
    requires i < |files| && Resumable(versions, applied, files)
    requires Plan(files[..i]) <= applied && AllValid(files[..i + 1]) && Version(files[i]).value in versions
    ensures Plan(files[..i + 1]) <= applied
  {
    PlanStep(files, i);
    if Plan(files[..i + 1]) != Plan(files[..i]) {
      assert applied != Plan(files[..i]);
      PlanOfPrefix(files, i + 1);
      PrefixOfLonger(Plan(files[..i + 1]), applied, Plan(files));
    }
  }

  /** What has been applied beyond a file's predecessors in the plan starts with the file itself. */
  lemma BeyondIsThisFile(files: seq<string>, i: nat, applied: seq<string>)
    requires i < |files| && AllValid(files[..i + 1]) && AllValid(applied)
    requires Version(files[i]).value !in Recorded(Plan(files[..i]))
    requires applied <= Plan(files) && |applied| > |Plan(files[..i])|
    ensures Version(files[i]).value in Recorded(applied)
  {
    var before, after := Plan(files[..i]), Plan(files[..i + 1]);
    PlanStep(files, i);
    PlanOfPrefix(files, i + 1);
    PrefixOfLonger(after, applied, Plan(files));
    assert applied[|before|] == after[|before|];
    RecordedKeys(applied, Version(files[i]).value);
  }

  /** While the version of a file is missing, nothing after the file's predecessors in the plan has been applied. */
  lemma MissingStops(files: seq<string>, i: nat, versions: map<int, string>, applied: seq<string>)
    requires i < |files| && Resumable(versions, applied, files)
    requires Plan(files[..i]) <= applied && AllValid(files[..i + 1]) && Version(files[i]).value !in versions
    ensures applied == Plan(files[..i]) && Plan(files[..i + 1]) == applied + [files[i]]
  {
    RecordedGrows(Plan(files[..i]), applied, Version(files[i]).value);
    PlanStep(files, i);
    if |applied| > |Plan(files[..i])| {
      BeyondIsThisFile(files, i, applied);
    }
  }

  /** A version that is not found makes its file the next of the plan. */
  lemma MissingIsNext(files: seq<string>, i: nat, versions: map<int, string>, applied: seq<string>)
    requires i < |files| && Resumable(versions, applied, files)
    requires Plan(files[..i]) <= applied && AllValid(files[..i + 1]) && Version(files[i]).value !in versions
    ensures Plan(files[..i + 1]) == applied + [files[i]]
    ensures Resumable(versions[Version(files[i]).value := files[i]], applied + [files[i]], files)
  {
    MissingStops(files, i, versions, applied);
    PlanOfPrefix(files, i + 1);
    assert (applied + [files[i]])[..|applied|] == applied;
  }

  lemma RecordedGrows(a: seq<string>, b: seq<string>, v: int)
    requires AllValid(a) && AllValid(b) && a <= b
    ensures v in Recorded(a) ==> v in Recorded(b)
  {
    RecordedKeys(a, v);
    RecordedKeys(b, v);
    if v in Recorded(a) {
      var i :| 0 <= i < |a| && Version(a[i]) == Some(v);
      assert b[i] == a[i];
    }
  }

  lemma {:induction false} FilesOfPrefix(entries: seq<string>, dirs: set<string>, i: nat)
    requires i <= |entries|
    ensures Files(entries[..i], dirs) <= Files(entries, dirs)
    decreases |entries|
  {
    if i == |entries| {
      assert entries[..i] == entries;
    } else {
      FilesOfPrefix(entries[..|entries| - 1], dirs, i);
      assert entries[..|entries| - 1][..i] == entries[..i];
    }
  }

  lemma NextFile(entries: seq<string>, dirs: set<string>, i: nat)
    requires i < |entries|
    ensures var before, after, files := Files(entries[..i], dirs), Files(entries[..i + 1], dirs), Files(entries, dirs);
            if entries[i] in dirs || !IsSql(entries[i]) then after == before
            else after == before + [entries[i]] && |before| < |files| && files[|before|] == entries[i]
                 && files[..|before|] == before && files[..|before| + 1] == after
  {
    assert entries[..i + 1][..i] == entries[..i];
    FilesOfPrefix(entries, dirs, i);
    FilesOfPrefix(entries, dirs, i + 1);
  }

  /** One migration in its transaction: the script and its record together, or neither. A commit may succeed
      although an error is reported. */
  method Apply(db: Database, version: int, name: string) returns (ok: bool, ghost fault: bool)
    requires version !in db.versions
    modifies db
    ensures ok <==> !fault
    ensures || (db.versions == old(db.versions) && db.applied == old(db.applied) && !ok)
            || (db.versions == old(db.versions)[version := name] && db.applied == old(db.applied) + [name])
  {
    var committed: bool := *;
    ok := *;
    ok := ok && committed;
    fault := !ok;
    if committed {
      db.versions := db.versions[version := name];
      db.applied := db.applied + [name];
    }
  }

  /** What one call leaves behind, given the sorted migrations of the directory. */
  ghost predicate Migrated(files: seq<string>, versions0: map<int, string>, applied0: seq<string>,
                           versions: map<int, string>, applied: seq<string>, ok: bool) {
    && (forall v | v in versions0 :: v in versions && versions[v] == versions0[v])
    && applied0 <= applied
    && (ok ==> AllValid(files) && forall f | f in files :: Version(f).value in versions)
    && (Resumable(versions0, applied0, files) ==> Resumable(versions, applied, files)
                                                  && (ok ==> applied == Plan(files)))
  }

  /** The state of the loop once the files before `j` have been dealt with. */
  ghost predicate Upto(files: seq<string>, j: nat, versions0: map<int, string>, applied0: seq<string>,
                       versions: map<int, string>, applied: seq<string>)
    requires j <= |files|
  {
    && Migrated(files, versions0, applied0, versions, applied, false)
    && AllValid(files[..j])
    && (forall m | 0 <= m < j :: Version(files[m]).value in versions)
    && (Resumable(versions0, applied0, files) ==> Plan(files[..j]) <= applied)
  }

  lemma UptoFound(files: seq<string>, j: nat, versions0: map<int, string>, applied0: seq<string>,
                  versions: map<int, string>, applied: seq<string>)
    requires j < |files| && Upto(files, j, versions0, applied0, versions, applied)
    requires Version(files[j]).Some? && Version(files[j]).value in versions
    ensures Upto(files, j + 1, versions0, applied0, versions, applied)
  {
    if Resumable(versions0, applied0, files) {
      FoundIsApplied(files, j, versions, applied);
    }
  }

  lemma UptoApplied(files: seq<string>, j: nat, versions0: map<int, string>, applied0: seq<string>,
                    versions: map<int, string>, applied: seq<string>)
    requires j < |files| && Upto(files, j, versions0, applied0, versions, applied)
    requires Version(files[j]).Some? && Version(files[j]).value !in versions
    ensures Upto(files, j + 1, versions0, applied0, versions[Version(files[j]).value := files[j]], applied + [files[j]])
  {
    if Resumable(versions0, applied0, files) {
      MissingIsNext(files, j, versions, applied);
    }
  }

  /** The body of the loop for one migration file. */
  method BringIn(db: Database, name: string, ghost files: seq<string>, ghost j: nat,
                 ghost versions0: map<int, string>, ghost applied0: seq<string>) returns (ok: bool, ghost fault: bool)
    requires j < |files| && files[j] == name && Upto(files, j, versions0, applied0, db.versions, db.applied)
    modifies db
    ensures ok ==> Upto(files, j + 1, versions0, applied0, db.versions, db.applied)
    ensures ok <==> !fault && Version(name).Some?
    ensures Migrated(files, versions0, applied0, db.versions, db.applied, false)
  {
    var version := Version(name);
    var reached: bool := *;
    if version.None? || !reached {
      return false, !reached;
    }
    if version.value in db.versions {
      UptoFound(files, j, versions0, applied0, db.versions, db.applied);
      return true, false;
    }
    var readable: bool := *;
    if !readable {
      return false, true;
    }
    UptoApplied(files, j, versions0, applied0, db.versions, db.applied);
    ok, fault := Apply(db, version.value, name);
  }

  lemma UptoEnd(files: seq<string>, versions0: map<int, string>, applied0: seq<string>, versions: map<int, string>,
                applied: seq<string>)
    requires Upto(files, |files|, versions0, applied0, versions, applied)
    ensures Migrated(files, versions0, applied0, versions, applied, true)
  {
    assert files[..|files|] == files;
    forall f | f in files ensures Version(f).Some? && Version(f).value in versions {
      var m :| 0 <= m < |files| && files[m] == f;
    }
  }

  /** Migrate. ReadDir gives distinct names; `dirs` are those that are directories. Any statement and any read may
      fail, which is a fault; without one the call succeeds exactly if all versions are readable. */
  method Migrate(db: Database, names: seq<string>, dirs: set<string>) returns (ok: bool, ghost fault: bool)
    requires Distinct(names)
    modifies db
    ensures Migrated(Files(Sort(names), dirs), old(db.versions), old(db.applied), db.versions, db.applied, ok)
    ensures ok <==> !fault && AllValid(Files(Sort(names), dirs))
  {
    ghost var versions0, applied0 := db.versions, db.applied;
    var created: bool := *;
    if !created {
      return false, true;
    }
    var entries := Sort(names);
    ghost var files := Files(entries, dirs);
    FilesOfPrefix(entries, dirs, 0);
    ghost var j := 0;
    for i := 0 to |entries|
      invariant j <= |files| && Files(entries[..i], dirs) == files[..j]
      invariant Upto(files, j, versions0, applied0, db.versions, db.applied)
    {
      NextFile(entries, dirs, i);
      var name := entries[i];
      if name in dirs || !IsSql(name) {
        continue;
      }
      assert files[j] == name;
      var done;
      done, fault := BringIn(db, name, files, j, versions0, applied0);
      if !done {
        return false, fault;
      }
      j := j + 1;
    }
    assert entries[..|entries|] == entries && files[..j] == files;
    UptoEnd(files, versions0, applied0, db.versions, db.applied);
    ok, fault := true, false;
  }

  // ---- runs ----

  /** A database between runs. */
  datatype Snapshot = Snapshot(versions: map<int, string>, applied: seq<string>)

  ghost predicate Runs(files: seq<string>, states: seq<Snapshot>, oks: seq<bool>) {
    && |states| == |oks| + 1
    && states[0] == Snapshot(map[], [])
    && forall i | 0 <= i < |oks| ::
         Migrated(files, states[i].versions, states[i].applied, states[i + 1].versions, states[i + 1].applied, oks[i])
  }

  lemma OneRunMore(files: seq<string>, s: Snapshot, t: Snapshot, ok: bool)
    requires Migrated(files, s.versions, s.applied, t.versions, t.applied, ok)
        && Resumable(s.versions, s.applied, files)
    ensures Resumable(t.versions, t.applied, files)
    ensures ok || s.applied == Plan(files) ==> t.applied == Plan(files)
  {
    if s.applied == Plan(files) {
      PrefixOfLonger(s.applied, t.applied, Plan(files));
    }
  }

  /** Serial runs that may fail anywhere, from an empty database: what is applied is always a prefix of the plan, it is
      only ever extended, and once a run has succeeded the database is the one that a single run would have made;
      later runs, successful or not, leave it as it is. */
  lemma {:induction false} RunsAreResumable(files: seq<string>, states: seq<Snapshot>, oks: seq<bool>)
    requires Runs(files, states, oks)
    ensures var t := states[|oks|];
            && t.applied <= Plan(files) && t.versions == Recorded(t.applied)
            && (true in oks ==> t == Snapshot(Recorded(Plan(files)), Plan(files)))
    decreases |oks|
  {
    var n := |oks|;
    if n > 0 {
      RunsAreResumable(files, states[..n], oks[..n - 1]);
      assert states[..n][n - 1] == states[n - 1] && oks == oks[..n - 1] + [oks[n - 1]];
      OneRunMore(files, states[n - 1], states[n], oks[n - 1]);
    }
  }

  /** With readable and distinct versions, and only then, a successful run from an empty database has applied every
      migration of the directory, in the order of the names. */
  lemma FirstRunIsComplete(names: seq<string>, dirs: set<string>, versions: map<int, string>, applied: seq<string>)
    requires Distinct(names)
    requires var files := Files(Sort(names), dirs); Migrated(files, map[], [], versions, applied, true)
    ensures var files := Files(Sort(names), dirs);
            && Ascending(applied)
            && (applied == files <==> AllValid(files) && DistinctVersions(files))
  {
    var files := Files(Sort(names), dirs);
    SortAscends(names);
    FilesAscend(Sort(names), dirs);
    PlanAscends(files);
    PlanIsComplete(files);
  }

  lemma {:induction false} FilesAre(entries: seq<string>, dirs: set<string>, f: string)
    ensures f in Files(entries, dirs) <==> f in entries && f !in dirs && IsSql(f)
    decreases |entries|
  {
    if entries != [] {
      var n := |entries| - 1;
      FilesAre(entries[..n], dirs, f);
      assert entries == entries[..n] + [entries[n]];
    }
  }

  lemma {:induction false} FilesAscend(entries: seq<string>, dirs: set<string>)
    requires Ascending(entries)
    ensures Ascending(Files(entries, dirs))
    decreases |entries|
  {
    if entries != [] {
      var n := |entries| - 1;
      FilesAscend(entries[..n], dirs);
      forall f | f in Files(entries[..n], dirs) ensures Less(f, entries[n]) {
        FilesAre(entries[..n], dirs, f);
        var i :| 0 <= i < n && entries[..n][i] == f;
        assert entries[i] == f;
      }
    }
  }
}
