/** The string operations the handlers and the migration loop rely on. */
module Strings {
  import opened Common

  /** unicode.IsSpace. */
  predicate IsSpace(c: char) {
    || c in "\t\n\U{0B}\U{0C}\r \U{85}\U{A0}\U{1680}\U{2028}\U{2029}\U{202F}\U{205F}\U{3000}"
    || '\U{2000}' <= c <= '\U{200A}'
  }

  function TrimLeft(s: string): string {
    if s != [] && IsSpace(s[0]) then TrimLeft(s[1..]) else s
  }

  function TrimRight(s: string): string {
    if s != [] && IsSpace(s[|s| - 1]) then TrimRight(s[..|s| - 1]) else s
  }

  function TrimSpace(s: string): string {
    TrimRight(TrimLeft(s))
  }

  predicate Trimmed(s: string) {
    s == [] || (!IsSpace(s[0]) && !IsSpace(s[|s| - 1]))
  }

  lemma {:induction false} TrimRightEnds(s: string)
    ensures var t := TrimRight(s); t <= s && (t == [] || !IsSpace(t[|t| - 1]))
  {
    if s != [] && IsSpace(s[|s| - 1]) { TrimRightEnds(s[..|s| - 1]); }
  }

  lemma {:induction false} TrimLeftStarts(s: string)
    ensures TrimLeft(s) == [] || !IsSpace(TrimLeft(s)[0])
  {
    if s != [] && IsSpace(s[0]) { TrimLeftStarts(s[1..]); }
  }

  lemma TrimSpaceTrims(s: string)
    ensures Trimmed(TrimSpace(s))
    ensures Trimmed(s) ==> TrimSpace(s) == s
  {
    TrimLeftStarts(s);
    TrimRightEnds(TrimLeft(s));
  }

  /** The spaces by their code points: tab to carriage return, the blank, and those beyond ASCII. */
  lemma SpaceCodes(c: char)
    ensures IsSpace(c) <==> 9 <= c as int <= 13 || 0x2000 <= c as int <= 0x200A
                            || c as int in {0x20, 0x85, 0xA0, 0x1680, 0x2028, 0x2029, 0x202F, 0x205F, 0x3000}
  {
  }

  predicate AllSpaces(s: string) {
    forall i | 0 <= i < |s| :: IsSpace(s[i])
  }

  lemma {:induction false} TrimLeftCuts(s: string) returns (cut: string)
    ensures s == cut + TrimLeft(s) && AllSpaces(cut)
  {
    cut := "";
    if s != [] && IsSpace(s[0]) {
      cut := TrimLeftCuts(s[1..]);
      cut := [s[0]] + cut;
    }
  }

  lemma {:induction false} TrimRightCuts(s: string) returns (cut: string)
    ensures s == TrimRight(s) + cut && AllSpaces(cut)
  {
    cut := "";
    if s != [] && IsSpace(s[|s| - 1]) {
      var last := s[|s| - 1];
      var shorter := TrimRightCuts(s[..|s| - 1]);
      assert s == s[..|s| - 1] + [last];
      cut := shorter + [last];
    }
  }

  /** Trimming cuts spaces off both ends, all of them, and keeps what is between. */
  lemma TrimSpaceCuts(s: string) returns (left: string, right: string)
    ensures s == left + TrimSpace(s) + right && AllSpaces(left) && AllSpaces(right)
    ensures var t := TrimSpace(s); t != "" ==> !IsSpace(t[0]) && !IsSpace(t[|t| - 1])
  {
    left := TrimLeftCuts(s);
    right := TrimRightCuts(TrimLeft(s));
    TrimSpaceTrims(s);
  }

  lemma BlankIsEmpty(s: string)
    ensures TrimSpace(s) == "" <==> AllSpaces(s)
  {
    var left, right := TrimSpaceCuts(s);
    var t := TrimSpace(s);
    if t == "" {
      assert forall i | |left| <= i < |s| :: s[i] == right[i - |left|];
    } else {
      assert s[|left|] == t[0];
    }
  }

  // ---- decimal numbers ----

  function Digits(s: string): Option<int> {
    if s == [] then Some(0)
    else if !('0' <= s[|s| - 1] <= '9') then None
    else
      match Digits(s[..|s| - 1])
      case Some(n) => Some(10 * n + (s[|s| - 1] as int - '0' as int))
      case None => None
  }

  /** An optional sign and at least one digit, whatever the size. */
  function ParseDecimal(s: string): Option<int> {
    var digits := if s != "" && (s[0] == '-' || s[0] == '+') then s[1..] else s;
    if digits == "" then None
    else
      match Digits(digits)
      case Some(n) => Some(if s[0] == '-' then -n else n)
      case None => None
  }

  function Power10(n: nat): nat {
    if n == 0 then 1 else 10 * Power10(n - 1)
  }

  predicate AllDigits(s: string) {
    forall i | 0 <= i < |s| :: '0' <= s[i] <= '9'
  }

  /** The value of decimal digits, each with the weight of its place. */
  function DecimalValue(s: string): int {
    if s == [] then 0 else (s[0] as int - '0' as int) * Power10(|s| - 1) + DecimalValue(s[1..])
  }

  lemma {:induction false} DecimalIsNatural(s: string)
    requires AllDigits(s)
    ensures DecimalValue(s) >= 0
  {
    if s != [] {
      DecimalIsNatural(s[1..]);
      assert (s[0] as int - '0' as int) * Power10(|s| - 1) >= 0;
    }
  }

  lemma {:induction false} DecimalSnoc(s: string, c: char)
    ensures DecimalValue(s + [c]) == 10 * DecimalValue(s) + (c as int - '0' as int)
  {
    if s != [] {
      DecimalSnoc(s[1..], c);
      assert (s + [c])[1..] == s[1..] + [c];
      var d := s[0] as int - '0' as int;
      assert d * Power10(|s|) == d * (10 * Power10(|s| - 1)) == 10 * (d * Power10(|s| - 1));
    } else {
      assert (s + [c])[1..] == [];
    }
  }

  lemma {:induction false} DigitsAreValue(s: string)
    ensures Digits(s) == if AllDigits(s) then Some(DecimalValue(s)) else None
  {
    if s != [] {
      var n := |s| - 1;
      DigitsAreValue(s[..n]);
      DecimalSnoc(s[..n], s[n]);
      assert s == s[..n] + [s[n]];
    }
  }

  /** A number is read by place value, behind its sign; anything but a sign and digits is not a number. */
  lemma ParsesByPlace(s: string)
    requires s != "" && AllDigits(s)
    ensures ParseDecimal(s) == ParseDecimal("+" + s) == Some(DecimalValue(s))
    ensures ParseDecimal("-" + s) == Some(-DecimalValue(s))
  {
    DigitsAreValue(s);
    assert ("+" + s)[1..] == s && ("-" + s)[1..] == s;
  }

  lemma ParsesNothingElse(s: string)
    requires s == "" || s == "+" || s == "-" || exists i :: 0 < i < |s| && !('0' <= s[i] <= '9')
    ensures ParseDecimal(s).None?
  {
    DigitsAreValue(s);
    if s != "" { DigitsAreValue(s[1..]); }
    if i :| 0 < i < |s| && !('0' <= s[i] <= '9') { assert s[1..][i - 1] == s[i]; }
  }

  // ---- the order of sort.Strings ----

  predicate Less(a: string, b: string) {
    b != [] && (a == [] || a[0] < b[0] || (a[0] == b[0] && Less(a[1..], b[1..])))
  }

  lemma {:induction false} LessIsTotal(a: string, b: string)
    ensures Less(a, b) || a == b || Less(b, a)
    ensures !(Less(a, b) && Less(b, a)) && !(a == b && Less(a, b))
    decreases |a|
  {
    if a != [] && b != [] {
      LessIsTotal(a[1..], b[1..]);
      assert a == [a[0]] + a[1..] && b == [b[0]] + b[1..];
    }
  }

  lemma {:induction false} LessIsTransitive(a: string, b: string, c: string)
    requires Less(a, b) && Less(b, c)
    ensures Less(a, c)
    decreases |a|
  {
    if a != [] && a[0] == b[0] == c[0] { LessIsTransitive(a[1..], b[1..], c[1..]); }
  }

  /** The first place where two strings differ decides by code points; a string precedes its continuations. */
  lemma {:induction false} LessByFirstDifference(a: string, b: string, k: nat)
    requires k <= |a| && k <= |b| && a[..k] == b[..k]
    requires k < |a| && k < |b| ==> a[k] != b[k]
    ensures Less(a, b) <==> k < |b| && (k == |a| || a[k] as int < b[k] as int)
    decreases k
  {
    if k > 0 {
      assert a[0] == a[..k][0] == b[..k][0] == b[0];
      assert a[1..][..k - 1] == a[..k][1..] == b[..k][1..] == b[1..][..k - 1];
      LessByFirstDifference(a[1..], b[1..], k - 1);
    }
  }

  predicate Ascending(s: seq<string>) {
    forall i, j | 0 <= i < j < |s| :: Less(s[i], s[j])
  }

  predicate Distinct(s: seq<string>) {
    forall i, j | 0 <= i < j < |s| :: s[i] != s[j]
  }

  function Insert(x: string, s: seq<string>): seq<string> {
    if s == [] || Less(x, s[0]) then [x] + s else [s[0]] + Insert(x, s[1..])
  }

  function Sort(s: seq<string>): seq<string> {
    if s == [] then [] else Insert(s[0], Sort(s[1..]))
  }

  lemma {:induction false} InsertKeepsMembers(x: string, s: seq<string>)
    ensures forall y :: y in Insert(x, s) <==> y in s || y == x
    ensures |Insert(x, s)| == |s| + 1
  {
    if s != [] && !Less(x, s[0]) {
      InsertKeepsMembers(x, s[1..]);
      assert s == [s[0]] + s[1..];
    }
  }

  lemma {:induction false} InsertAscends(x: string, s: seq<string>)
    requires Ascending(s) && x !in s
    ensures Ascending(Insert(x, s))
  {
    if s == [] {
    } else if Less(x, s[0]) {
      forall i | 0 < i < |s| ensures Less(x, s[i]) { LessIsTransitive(x, s[0], s[i]); }
    } else {
      LessIsTotal(x, s[0]);
      InsertAscends(x, s[1..]);
      InsertKeepsMembers(x, s[1..]);
      var t := Insert(x, s[1..]);
      forall i | 0 <= i < |t| ensures Less(s[0], t[i]) {
        assert t[i] in t;
        if t[i] != x {
          var k :| 0 <= k < |s[1..]| && s[1..][k] == t[i];
          assert s[k + 1] == t[i];
        }
      }
    }
  }

  /** Distinct strings are brought into the one ascending order; none is lost, none is added. */
  lemma {:induction false} SortAscends(s: seq<string>)
    requires Distinct(s)
    ensures Ascending(Sort(s)) && |Sort(s)| == |s| && forall y :: y in Sort(s) <==> y in s
  {
    if s != [] {
      SortAscends(s[1..]);
      InsertKeepsMembers(s[0], Sort(s[1..]));
      assert s == [s[0]] + s[1..];
      assert s[0] !in s[1..];
      InsertAscends(s[0], Sort(s[1..]));
    }
  }

  lemma {:induction false} AscendingPrefixAgrees(a: seq<string>, b: seq<string>, n: nat)
    requires Ascending(a) && Ascending(b) && (forall x :: x in a <==> x in b) && n <= |a|
    ensures n <= |b| && a[..n] == b[..n]
  {
    if n > 0 {
      var i := n - 1;
      AscendingPrefixAgrees(a, b, i);
      assert forall k | 0 <= k < i :: a[k] == a[..i][k] == b[..i][k] == b[k];
      LessIsTotal(a[i], a[i]);
      assert a[i] in a && a[i] in b;
      var k :| 0 <= k < |b| && b[k] == a[i];
      assert k >= i;
      LessIsTotal(b[i], b[i]);
      assert b[i] in b && b[i] in a;
      var m :| 0 <= m < |a| && a[m] == b[i];
      assert m >= i;
      LessIsTotal(a[i], b[i]);
      assert a[..n] == a[..i] + [a[i]] && b[..n] == b[..i] + [b[i]];
    }
  }

  /** There is only one ascending arrangement of a set of strings. */
  lemma AscendingIsDetermined(a: seq<string>, b: seq<string>)
    requires Ascending(a) && Ascending(b) && forall x :: x in a <==> x in b
    ensures a == b
  {
    AscendingPrefixAgrees(a, b, |a|);
    AscendingPrefixAgrees(b, a, |b|);
  }
}
