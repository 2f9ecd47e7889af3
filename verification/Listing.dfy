/** The filtered, paged lists: the numbered placeholders of ListDroplets and ListJobs, and pagination. */
module Listing {
  import opened Common
  import opened Strings

  // ---- SQL with placeholders ----

  datatype Column = UserColumn | AccountColumn | NameColumn | Ipv4Column | StateColumn

  datatype Value = Null | Id(id: nat) | Text(text: string) | Number(number: int)

  datatype Row = Row(user: Value, account: Value, name: Value, ipv4: Value, state: Value) {
    function Get(column: Column): Value {
      match column
      case UserColumn => user
      case AccountColumn => account
      case NameColumn => name
      case Ipv4Column => ipv4
      case StateColumn => state
    }
  }

  /** `placeholder` is the n of $n. */
  datatype Test = Equals(column: Column, placeholder: nat) | ILike(column: Column, placeholder: nat)

  /** One conjunct: 1=1, or a disjunction of tests. */
  datatype Conjunct = Always | AnyOf(tests: seq<Test>)

  /** ILIKE of the database: value and pattern. */
  type Matcher = (string, string) -> bool

  function Argument(args: seq<Value>, placeholder: nat): Value {
    if 1 <= placeholder <= |args| then args[placeholder - 1] else Null
  }

  /** Whether a test is true, as opposed to false or null. */
  predicate TestHolds(t: Test, args: seq<Value>, like: Matcher, row: Row) {
    var left, right := row.Get(t.column), Argument(args, t.placeholder);
    match t
    case Equals(_, _) => !left.Null? && !right.Null? && left == right
    case ILike(_, _) => left.Text? && right.Text? && like(left.text, right.text)
  }

  predicate ConjunctHolds(c: Conjunct, args: seq<Value>, like: Matcher, row: Row) {
    c.Always? || exists i :: 0 <= i < |c.tests| && TestHolds(c.tests[i], args, like, row)
  }

  predicate Holds(where: seq<Conjunct>, args: seq<Value>, like: Matcher, row: Row) {
    forall i | 0 <= i < |where| :: ConjunctHolds(where[i], args, like, row)
  }

  /** The placeholders of a statement; the driver demands that they are exactly $1 to $n for n arguments. */
  function Placeholders(where: seq<Conjunct>): set<nat> {
    set i, j | 0 <= i < |where| && where[i].AnyOf? && 0 <= j < |where[i].tests| :: where[i].tests[j].placeholder
  }

  ghost predicate Binds(where: seq<Conjunct>, args: seq<Value>) {
    forall n :: n in Placeholders(where) <==> 1 <= n <= |args|
  }

  /** A statement for one page: the filter and the placeholders of LIMIT and OFFSET. */
  datatype PageQuery = PageQuery(where: seq<Conjunct>, limitAt: nat, offsetAt: nat, args: seq<Value>)

  ghost predicate PageBinds(q: PageQuery) {
    forall n :: n in Placeholders(q.where) + {q.limitAt, q.offsetAt} <==> 1 <= n <= |q.args|
  }

  lemma BindsOneMore(where: seq<Conjunct>, args: seq<Value>, c: Conjunct, x: Value)
    requires Binds(where, args) && c.AnyOf? && c.tests != []
    requires forall j | 0 <= j < |c.tests| :: c.tests[j].placeholder == |args| + 1
    ensures Binds(where + [c], args + [x])
  {
    var all := where + [c];
    forall n ensures n in Placeholders(all) <==> n in Placeholders(where) || n == |args| + 1 {
      if n in Placeholders(where) {
        var i, j :| 0 <= i < |where| && where[i].AnyOf? && 0 <= j < |where[i].tests|
            && where[i].tests[j].placeholder == n;
        assert all[i] == where[i];
      }
      assert all[|where|].tests[0].placeholder == |args| + 1;
    }
  }

  /** Appending an argument and the conjunct that uses it: nothing said before changes its meaning. */
  lemma OneMoreConjunct(where: seq<Conjunct>, args: seq<Value>, c: Conjunct, x: Value, like: Matcher, row: Row)
    requires Binds(where, args)
    ensures Holds(where + [c], args + [x], like, row) <==> Holds(where, args, like, row)
                                                           && ConjunctHolds(c, args + [x], like, row)
  {
    ConjunctsKeep(where, args, [x], like, row);
    assert (where + [c])[|where|] == c;
    assert forall i | 0 <= i < |where| :: (where + [c])[i] == where[i];
  }

  /** More arguments at the end do not change what a filter means. */
  lemma ConjunctsKeep(where: seq<Conjunct>, args: seq<Value>, more: seq<Value>, like: Matcher, row: Row)
    requires Binds(where, args)
    ensures Holds(where, args + more, like, row) <==> Holds(where, args, like, row)
  {
    forall i | 0 <= i < |where|
      ensures ConjunctHolds(where[i], args + more, like, row) <==> ConjunctHolds(where[i], args, like, row)
    {
      if where[i].AnyOf? {
        forall j | 0 <= j < |where[i].tests|
          ensures TestHolds(where[i].tests[j], args + more, like, row)
              <==> TestHolds(where[i].tests[j], args, like, row)
        {
          assert where[i].tests[j].placeholder in Placeholders(where);
        }
      }
    }
  }

  // ---- the two filters ----

  predicate Matches(v: Value, pattern: string, like: Matcher) {
    v.Text? && like(v.text, pattern)
  }

  /** What a list of droplets is asked for. */
  predicate WantedDroplet(user: nat, admin: bool, account: Option<nat>, search: string, like: Matcher, row: Row) {
    var pattern := "%" + TrimSpace(search) + "%";
    && (!admin ==> row.user == Id(user))
    && (account.Some? ==> row.account == Id(account.value))
    && (TrimSpace(search) != "" ==> Matches(row.name, pattern, like) || Matches(row.ipv4, pattern, like))
  }

  predicate WantedJob(user: nat, admin: bool, state: string, row: Row) {
    && (!admin ==> row.user == Id(user))
    && (state != "" ==> row.state == Text(state))
  }

  method DropletFilter(user: nat, admin: bool, account: Option<nat>, search: string)
    returns (where: seq<Conjunct>, args: seq<Value>)
    ensures Binds(where, args)
    ensures forall like: Matcher, row: Row ::
              Holds(where, args, like, row) <==> WantedDroplet(user, admin, account, search, like, row)
  {
    where, args := [Always], [];
    var none: Option<nat> := None;
    assert forall like: Matcher, row: Row :: Holds(where, args, like, row)
                                             <==> WantedDroplet(user, true, none, "", like, row);
    if !admin {
      where, args := Narrow(where, args, Id(user), UserColumn);
    }
    assert forall like: Matcher, row: Row :: Holds(where, args, like, row)
                                             <==> WantedDroplet(user, admin, none, "", like, row);
    if account.Some? {
      where, args := Narrow(where, args, Id(account.value), AccountColumn);
    }
    assert forall like: Matcher, row: Row :: Holds(where, args, like, row)
                                             <==> WantedDroplet(user, admin, account, "", like, row);
    if TrimSpace(search) != "" {
      where, args := NarrowBySearch(where, args, "%" + TrimSpace(search) + "%");
    }
  }

  /** Appends the argument first, so that its number is the length of the list. */
  method Narrow(where: seq<Conjunct>, args: seq<Value>, x: Value, column: Column)
    returns (where': seq<Conjunct>, args': seq<Value>)
    requires Binds(where, args) && !x.Null?
    ensures Binds(where', args')
    ensures forall like: Matcher, row: Row ::
              Holds(where', args', like, row) <==> Holds(where, args, like, row) && row.Get(column) == x
  {
    args' := args + [x];
    var c := AnyOf([Equals(column, |args'|)]);
    where' := where + [c];
    BindsOneMore(where, args, c, args'[|args|]);
    forall like: Matcher, row: Row
      ensures Holds(where', args', like, row) <==> Holds(where, args, like, row) && row.Get(column) == x
    {
      OneMoreConjunct(where, args, c, x, like, row);
      assert ConjunctHolds(c, args', like, row) <==> TestHolds(c.tests[0], args', like, row);
    }
  }

  method NarrowBySearch(where: seq<Conjunct>, args: seq<Value>, pattern: string)
    returns (where': seq<Conjunct>, args': seq<Value>)
    requires Binds(where, args)
    ensures Binds(where', args')
    ensures forall like: Matcher, row: Row ::
              Holds(where', args', like, row)
              <==> Holds(where, args, like, row)
                   && (Matches(row.name, pattern, like) || Matches(row.ipv4, pattern, like))
  {
    args' := args + [Text(pattern)];
    var c := AnyOf([ILike(NameColumn, |args'|), ILike(Ipv4Column, |args'|)]);
    where' := where + [c];
    BindsOneMore(where, args, c, args'[|args|]);
    forall like: Matcher, row: Row
      ensures Holds(where', args', like, row)
              <==> Holds(where, args, like, row)
                   && (Matches(row.name, pattern, like) || Matches(row.ipv4, pattern, like))
    {
      OneMoreConjunct(where, args, c, Text(pattern), like, row);
      assert TestHolds(c.tests[0], args', like, row) <==> Matches(row.name, pattern, like);
      assert TestHolds(c.tests[1], args', like, row) <==> Matches(row.ipv4, pattern, like);
    }
  }

  method JobFilter(user: nat, admin: bool, state: string) returns (where: seq<Conjunct>, args: seq<Value>)
    ensures Binds(where, args)
    ensures forall like: Matcher, row: Row :: Holds(where, args, like, row) <==> WantedJob(user, admin, state, row)
  {
    where, args := [], [];
    if !admin {
      where, args := Narrow(where, args, Id(user), UserColumn);
    }
    if state != "" {
      where, args := Narrow(where, args, Text(state), StateColumn);
    }
  }

  // ---- running them ----

  function Filter(rows: seq<Row>, where: seq<Conjunct>, args: seq<Value>, like: Matcher): seq<Row> {
    if rows == [] then []
    else
      var last := rows[|rows| - 1];
      Filter(rows[..|rows| - 1], where, args, like) + if Holds(where, args, like, last) then [last] else []
  }

  /** The wanted rows, in their order. */
  function Select(rows: seq<Row>, wanted: Row -> bool): seq<Row> {
    if rows == [] then []
    else Select(rows[..|rows| - 1], wanted) + if wanted(rows[|rows| - 1]) then [rows[|rows| - 1]] else []
  }

  lemma {:induction false} FilterSelects(rows: seq<Row>, where: seq<Conjunct>, args: seq<Value>, like: Matcher,
                                         wanted: Row -> bool)
    requires forall row: Row :: Holds(where, args, like, row) <==> wanted(row)
    ensures Filter(rows, where, args, like) == Select(rows, wanted)
    decreases |rows|
  {
    if rows != [] { FilterSelects(rows[..|rows| - 1], where, args, like, wanted); }
  }

  lemma {:induction false} FilterIgnoresMore(rows: seq<Row>, where: seq<Conjunct>, args: seq<Value>, more: seq<Value>,
                                             like: Matcher)
    requires Binds(where, args)
    ensures Filter(rows, where, args + more, like) == Filter(rows, where, args, like)
    decreases |rows|
  {
    if rows != [] {
      FilterIgnoresMore(rows[..|rows| - 1], where, args, more, like);
      ConjunctsKeep(where, args, more, like, rows[|rows| - 1]);
    }
  }

  function Least(a: nat, b: nat): nat {
    if a < b then a else b
  }

  /** LIMIT and OFFSET. */
  function Slice<T>(s: seq<T>, limit: nat, offset: nat): seq<T> {
    s[Least(offset, |s|)..Least(offset + limit, |s|)]
  }

  /** The database, on rows in the order of the statement. It may fail, which is a fault; it refuses a wrong number of
      arguments and negative limits and offsets. */
  method CountRows(rows: seq<Row>, where: seq<Conjunct>, args: seq<Value>, like: Matcher)
    returns (r: Option<nat>, ghost fault: bool)
    requires Binds(where, args)
    ensures r.Some? <==> !fault
    ensures r.Some? ==> r.value == |Filter(rows, where, args, like)|
  {
    var reached: bool := *;
    fault := !reached;
    r := if reached then Some(|Filter(rows, where, args, like)|) else None;
  }

  method FetchPage(rows: seq<Row>, q: PageQuery, like: Matcher) returns (r: Option<seq<Row>>, ghost fault: bool)
    requires PageBinds(q)
    ensures r.Some? ==>
              var limit, offset := Argument(q.args, q.limitAt), Argument(q.args, q.offsetAt);
              limit.Number? && offset.Number? && limit.number >= 0 && offset.number >= 0
              && r.value == Slice(Filter(rows, q.where, q.args, like), limit.number, offset.number)
    ensures r.None? && !fault ==>
              var limit, offset := Argument(q.args, q.limitAt), Argument(q.args, q.offsetAt);
              !limit.Number? || !offset.Number? || limit.number < 0 || offset.number < 0
  {
    var reached: bool := *;
    fault := !reached;
    var limit, offset := Argument(q.args, q.limitAt), Argument(q.args, q.offsetAt);
    r := None;
    if reached && limit.Number? && offset.Number? && limit.number >= 0 && offset.number >= 0 {
      r := Some(Slice(Filter(rows, q.where, q.args, like), limit.number, offset.number));
    }
  }

  datatype Page = Page(items: seq<Row>, total: nat)

  /** Count and page with the same filter; limit and offset become the last two arguments. */
  method CountAndFetch(rows: seq<Row>, where: seq<Conjunct>, args: seq<Value>, like: Matcher, limit: int, offset: int)
    returns (r: Option<Page>, ghost fault: bool)
    requires Binds(where, args)
    ensures !fault ==> (r.Some? <==> limit >= 0 && offset >= 0)
    ensures r.Some? ==> limit >= 0 && offset >= 0
                        && r.value
                            == Page(Slice(Filter(rows, where, args, like), limit, offset),
                                    |Filter(rows, where, args, like)|)
  {
    var total;
    total, fault := CountRows(rows, where, args, like);
    if total.None? {
      return None, true;
    }
    var more := args + [Number(limit), Number(offset)];
    var q := PageQuery(where, |more| - 1, |more|, more);
    FilterIgnoresMore(rows, where, args, [Number(limit), Number(offset)], like);
    var items;
    items, fault := FetchPage(rows, q, like);
    r := if items.Some? then Some(Page(items.value, total.value)) else None;
  }

  /** A page of the wanted droplets, and how many there are in all; `rows` is the table, newest first. */
  method ListDroplets(rows: seq<Row>, like: Matcher, user: nat, admin: bool, account: Option<nat>, search: string,
                      limit: int, offset: int)
    returns (r: Option<Page>, ghost fault: bool)
    ensures !fault ==> (r.Some? <==> limit >= 0 && offset >= 0)
    ensures r.Some? ==>
              var wanted := Select(rows, (row: Row) => WantedDroplet(user, admin, account, search, like, row));
              limit >= 0 && offset >= 0 && r.value == Page(Slice(wanted, limit, offset), |wanted|)
  {
    var where, args := DropletFilter(user, admin, account, search);
    FilterSelects(rows, where, args, like, (row: Row) => WantedDroplet(user, admin, account, search, like, row));
    r, fault := CountAndFetch(rows, where, args, like, limit, offset);
  }

  method ListJobs(rows: seq<Row>, like: Matcher, user: nat, admin: bool, state: string, limit: int, offset: int)
    returns (r: Option<Page>, ghost fault: bool)
    ensures !fault ==> (r.Some? <==> limit >= 0 && offset >= 0)
    ensures r.Some? ==>
              var wanted := Select(rows, (row: Row) => WantedJob(user, admin, state, row));
              limit >= 0 && offset >= 0 && r.value == Page(Slice(wanted, limit, offset), |wanted|)
  {
    var where, args := JobFilter(user, admin, state);
    FilterSelects(rows, where, args, like, (row: Row) => WantedJob(user, admin, state, row));
    r, fault := CountAndFetch(rows, where, args, like, limit, offset);
  }

  // ---- pagination ----

  const MAX := 0x7fff_ffff_ffff_ffff

  /** strconv.Atoi with its error ignored: zero for what is not a number, the nearest bound for what is too large. */
  function Atoi(s: string): int {
    match ParseDecimal(s)
    case None => 0
    case Some(value) => if value > MAX then MAX else if value < -MAX - 1 then -MAX - 1 else value
  }

  /** Digits are read by place value, up to the largest 64-bit number; what is not a number counts as zero. */
  lemma AtoiReadsNumbers(digits: string)
    requires digits != "" && AllDigits(digits)
    ensures var n := DecimalValue(digits);
            && Atoi(digits) == (if n <= 0x7fff_ffff_ffff_ffff then n else 0x7fff_ffff_ffff_ffff)
            && Atoi("-" + digits) == (if n <= 0x8000_0000_0000_0000 then -n else -0x8000_0000_0000_0000)
  {
    ParsesByPlace(digits);
    DecimalIsNatural(digits);
  }

  lemma AtoiOfOtherText(text: string)
    requires text == "" || exists i :: 0 < i < |text| && !('0' <= text[i] <= '9')
    ensures Atoi(text) == 0
  {
    ParsesNothingElse(text);
  }

  /** 64-bit arithmetic. */
  function Wrap(x: int): int {
    (x + MAX + 1) % (2 * MAX + 2) - MAX - 1
  }

  /** The page size: 20 unless a positive number is given, and never more than 100. */
  function LimitFor(limitText: string): int {
    if Atoi(limitText) < 1 then 20 else if Atoi(limitText) > 100 then 100 else Atoi(limitText)
  }

  /** Page and limit are clamped; the offset is right exactly if the true product fits. */
  method Pagination(pageText: string, limitText: string) returns (limit: int, offset: int, page: int)
    ensures 1 <= limit <= 100 && page >= 1
    ensures Atoi(pageText) >= 1 ==> page == Atoi(pageText)
    ensures Atoi(pageText) < 1 ==> page == 1
    ensures limit == LimitFor(limitText)
    ensures offset == (page - 1) * limit <==> (page - 1) * limit <= 0x7fff_ffff_ffff_ffff
  {
    page := Atoi(pageText);
    if page < 1 {
      page := 1;
    }
    limit := Atoi(limitText);
    if limit < 1 {
      limit := 20;
    }
    if limit > 100 {
      limit := 100;
    }
    offset := OffsetOf(page - 1, limit);
  }

  method OffsetOf(pages: nat, limit: nat) returns (offset: int)
    ensures offset == Wrap(pages * limit)
    ensures offset == pages * limit <==> pages * limit <= MAX
  {
    offset := Wrap(pages * limit);
    WrapIsExact(pages * limit);
  }

  lemma WrapIsExact(x: int)
    requires x >= 0
    ensures -MAX - 1 <= Wrap(x) <= MAX
    ensures Wrap(x) == x <==> x <= MAX
  {
  }

  /** The largest page that can be asked for, a hundred to a page, comes out as a negative offset. */
  lemma LargestPageIsRefused()
    ensures Wrap((MAX - 1) * 100) == -200
  {
  }

  /** The pages with numbers up to `n`, one after the other. */
  function Pages<T>(s: seq<T>, limit: nat, n: nat): seq<T> {
    if n == 0 then [] else Pages(s, limit, n - 1) + Slice(s, limit, (n - 1) * limit)
  }

  /** Pages follow one another without gap or overlap, and enough of them are the whole list. */
  lemma {:induction false} PagesConcatenate<T>(s: seq<T>, limit: nat, n: nat)
    ensures Pages(s, limit, n) == s[..Least(n * limit, |s|)]
    ensures n * limit >= |s| ==> Pages(s, limit, n) == s
    decreases n
  {
    if n > 0 {
      PagesConcatenate(s, limit, n - 1);
      assert n * limit == (n - 1) * limit + limit;
    }
  }

  lemma ProductFits(i: nat, n: nat, limit: nat)
    requires i < n && limit <= 100 && n * 100 <= MAX
    ensures i * limit <= MAX
  {
    assert i * limit <= n * 100;
  }

  /** The pages 1, 2, 3 and so on, asked for one after the other with one page size over a table that stays as it is:
      together they are the wanted rows, each once and in order, and all of them if the pages are enough. */
  method WalkPages(rows: seq<Row>, like: Matcher, user: nat, admin: bool, account: Option<nat>, search: string,
                   pageTexts: seq<string>, limitText: string)
    returns (r: Option<seq<Row>>, ghost fault: bool)
    requires forall i | 0 <= i < |pageTexts| :: Atoi(pageTexts[i]) == i + 1
    requires |pageTexts| * 100 <= MAX
    ensures !fault ==> r.Some?
    ensures r.Some? ==>
              var wanted := Select(rows, (row: Row) => WantedDroplet(user, admin, account, search, like, row));
              && r.value <= wanted && |r.value| == Least(|pageTexts| * LimitFor(limitText), |wanted|)
  {
    ghost var wanted := Select(rows, (row: Row) => WantedDroplet(user, admin, account, search, like, row));
    var items: seq<Row> := [];
    for i := 0 to |pageTexts|
      invariant items == Pages(wanted, LimitFor(limitText), i)
    {
      var limit, offset, page := Pagination(pageTexts[i], limitText);
      ProductFits(i, |pageTexts|, limit);
      var answer;
      answer, fault := ListDroplets(rows, like, user, admin, account, search, limit, offset);
      if answer.None? {
        return None, fault;
      }
      items := items + answer.value.items;
    }
    PagesConcatenate(wanted, LimitFor(limitText), |pageTexts|);
    r, fault := Some(items), false;
  }
}
