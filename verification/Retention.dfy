/** Snapshot names and which of them are kept (kahyad/internal/backup/backup.go): the date is eight digits inside the
    name, so the plain order of the texts is the order of the dates, and the seven newest stay. */
module Retention {
  import opened Wrappers
  import opened Decimal

  const RETENTION_COUNT := 7

  predicate IsDate(d: string) {
    |d| == 8 && AllDigits(d)
  }

  function SnapName(date: string): string {
    "brain-" + date + ".db"
  }

  // The date in a name of exactly that shape.
  function DateOf(name: string): Option<string> {
    if |name| == 17 && name[..6] == "brain-" && AllDigits(name[6..14]) && name[14..] == ".db" then Some(name[6..14])
    else None
  }

  lemma DateOfSnapName(date: string)
    requires IsDate(date)
    ensures DateOf(SnapName(date)) == Some(date)
  {
    var name := SnapName(date);
    assert name[..6] == "brain-" && name[6..14] == date && name[14..] == ".db";
  }

  lemma SnapNameOfDate(name: string)
    requires DateOf(name).Some?
    ensures IsDate(DateOf(name).value) && name == SnapName(DateOf(name).value)
  {
    assert name == name[..6] + name[6..14] + name[14..];
  }

  // ---- Text order and date order ----

  // The order of Go strings.
  predicate Before(a: string, b: string) {
    b != "" && (a == "" || a[0] < b[0] || (a[0] == b[0] && Before(a[1..], b[1..])))
  }

  function Pow10(n: nat): nat {
    if n == 0 then 1 else 10 * Pow10(n - 1)
  }

  function Digit(c: char): nat
    requires IsDigit(c)
  {
    c as int - '0' as int
  }

  lemma Shift(lead: nat, p: nat, v: nat, d: nat)
    ensures 10 * (lead * p + v) + d == lead * (10 * p) + (10 * v + d)
  {
  }

  lemma {:induction false} ValueFromLeft(s: string)
    requires AllDigits(s)
    ensures Value(s) < Pow10(|s|)
    ensures s != "" ==> Value(s) == Digit(s[0]) * Pow10(|s| - 1) + Value(s[1..])
  {
    if |s| == 1 {
      assert s[..0] == "" && s[1..] == "";
    } else if |s| > 1 {
      var front, d := s[..|s| - 1], Digit(s[|s| - 1]);
      ValueFromLeft(front);
      assert s[1..][..|s| - 2] == front[1..];
      Shift(Digit(s[0]), Pow10(|s| - 2), Value(front[1..]), d);
    }
  }

  lemma {:induction false} BeforeIsLess(a: string, b: string)
    requires AllDigits(a) && AllDigits(b) && |a| == |b|
    ensures Before(a, b) <==> Value(a) < Value(b)
  {
    if a != "" {
      ValueFromLeft(a);
      ValueFromLeft(b);
      BeforeIsLess(a[1..], b[1..]);
      ValueFromLeft(a[1..]);
      ValueFromLeft(b[1..]);
      LeadingDigit(Digit(a[0]), Digit(b[0]), Pow10(|a| - 1), Value(a[1..]), Value(b[1..]));
    }
  }

  lemma LeadingDigit(x: nat, y: nat, p: nat, v: nat, w: nat)
    requires v < p && w < p
    ensures x < y ==> x * p + v < y * p + w
    ensures y < x ==> y * p + w < x * p + v
  {
    if x < y {
      Step(y - x, p);
      assert y * p == x * p + (y - x) * p;
    } else if y < x {
      Step(x - y, p);
      assert x * p == y * p + (x - y) * p;
    }
  }

  lemma Step(d: nat, p: nat)
    requires 0 < d
    ensures p <= d * p
  {
  }

  lemma {:induction false} NeitherBefore(a: string, b: string)
    requires |a| == |b| && !Before(a, b) && !Before(b, a)
    ensures a == b
  {
    if a != "" {
      NeitherBefore(a[1..], b[1..]);
      assert a == [a[0]] + a[1..] && b == [b[0]] + b[1..];
    }
  }

  // ---- Sets of snapshots ----

  predicate AllSnaps(names: set<string>) {
    forall n | n in names :: DateOf(n).Some?
  }

  // The date as a number; other names have none.
  function Key(name: string): (k: nat) {
    if DateOf(name).Some? then Value(DateOf(name).value) else 0
  }

  lemma KeyInjective(m: string, n: string)
    requires DateOf(m).Some? && DateOf(n).Some? && Key(m) == Key(n)
    ensures m == n
  {
    SnapNameOfDate(m);
    SnapNameOfDate(n);
    BeforeIsLess(DateOf(m).value, DateOf(n).value);
    BeforeIsLess(DateOf(n).value, DateOf(m).value);
    NeitherBefore(DateOf(m).value, DateOf(n).value);
  }

  function Newer(names: set<string>, name: string): set<string> {
    set n | n in names && Key(name) < Key(n)
  }

  // A snapshot is kept when fewer than seven are newer.
  function Keep(names: set<string>): set<string> {
    set n | n in names && |Newer(names, n)| < RETENTION_COUNT
  }

  // The specification: as many as allowed, and every one of them newer than every one dropped.
  predicate AreNewest(kept: set<string>, names: set<string>) {
    && kept <= names
    && |kept| == (if |names| < 7 then |names| else 7)
    && forall k, d | k in kept && d in names && d !in kept :: Key(d) < Key(k)
  }

  lemma OneIsNewer(a: set<string>, b: set<string>, names: set<string>, k: string, j: string)
    requires AreNewest(a, names) && AreNewest(b, names)
    requires k in a && k !in b && j in b
    ensures j in a
  {
  }

  // There is only one such choice.
  lemma NewestUnique(a: set<string>, b: set<string>, names: set<string>)
    requires AreNewest(a, names) && AreNewest(b, names)
    ensures a == b
  {
    if a <= b {
      SubsetSize(a, b);
    } else {
      var k :| k in a && k !in b;
      if b <= a {
        SubsetSize(b, a);
      } else {
        var j :| j in b && j !in a;
        OneIsNewer(a, b, names, k, j);
      }
    }
  }

  // ---- Sorted listings ----

  predicate Falling(names: seq<string>) {
    forall i, j | 0 <= i < j < |names| :: Key(names[j]) < Key(names[i])
  }

  function Names(names: seq<string>): (r: set<string>) {
    set i | 0 <= i < |names| :: names[i]
  }

  lemma {:induction false} NamesSize(names: seq<string>)
    requires Falling(names)
    ensures |Names(names)| == |names|
  {
    if names != [] {
      var front, last := names[..|names| - 1], names[|names| - 1];
      NamesSize(front);
      assert Names(names) == Names(front) + {last};
      assert last !in Names(front);
    }
  }

  lemma NewerInListing(names: seq<string>, i: nat)
    requires Falling(names) && i < |names|
    ensures Newer(Names(names), names[i]) == Names(names[..i])
    ensures |Newer(Names(names), names[i])| == i
  {
    NamesSize(names[..i]);
    forall n | n in Newer(Names(names), names[i])
      ensures n in Names(names[..i])
    {
      var j :| 0 <= j < |names| && names[j] == n;
      assert j < i;
      assert names[..i][j] == n;
    }
    forall n | n in Names(names[..i])
      ensures n in Newer(Names(names), names[i])
    {
      var j :| 0 <= j < i && names[..i][j] == n;
      assert names[j] == n;
    }
  }

  function Head(names: seq<string>): seq<string> {
    if |names| < RETENTION_COUNT then names else names[..RETENTION_COUNT]
  }

  // In a listing that is sorted newest first, the first seven are kept.
  lemma HeadName(names: seq<string>, i: nat)
    requires Falling(names) && i < |names|
    ensures names[i] in Names(Head(names)) <==> i < RETENTION_COUNT
  {
    if i < RETENTION_COUNT {
      assert Head(names)[i] == names[i];
    }
  }

  // In a listing that is sorted newest first, the first seven are kept.
  lemma KeepIsHead(names: seq<string>)
    requires Falling(names)
    ensures Keep(Names(names)) == Names(Head(names))
  {
    var all := Names(names);
    forall n | n in all
      ensures n in Keep(all) <==> n in Names(Head(names))
    {
      var i :| 0 <= i < |names| && names[i] == n;
      NewerInListing(names, i);
      HeadName(names, i);
    }
    forall n | n in Names(Head(names))
      ensures n in all
    {
      var j :| 0 <= j < |Head(names)| && Head(names)[j] == n;
      assert names[j] == n;
    }
  }

  function InsertName(n: string, sorted: seq<string>): seq<string> {
    if sorted == [] || Key(sorted[0]) < Key(n) then [n] + sorted else [sorted[0]] + InsertName(n, sorted[1..])
  }

  lemma {:induction false} InsertNameNames(n: string, sorted: seq<string>)
    ensures Names(InsertName(n, sorted)) == Names(sorted) + {n}
  {
    if sorted == [] || Key(sorted[0]) < Key(n) {
      FrontName(n, sorted);
    } else {
      InsertNameNames(n, sorted[1..]);
      FrontName(sorted[0], sorted[1..]);
      FrontName(sorted[0], InsertName(n, sorted[1..]));
      assert sorted == [sorted[0]] + sorted[1..];
    }
  }

  lemma {:induction false} InsertNameFalls(n: string, sorted: seq<string>)
    requires Falling(sorted) && forall m | m in Names(sorted) :: Key(m) != Key(n)
    ensures Falling(InsertName(n, sorted))
  {
    if sorted != [] && Key(n) <= Key(sorted[0]) {
      var tail := sorted[1..];
      var rest := InsertName(n, tail);
      assert sorted[0] in Names(sorted);
      FrontName(sorted[0], tail);
      assert sorted == [sorted[0]] + tail;
      InsertNameFalls(n, tail);
      InsertNameNames(n, tail);
      forall m | m in Names(rest)
        ensures Key(m) < Key(sorted[0])
      {
        assert m in Names(tail) || m == n;
      }
      PutFirst(sorted[0], rest);
    }
  }

  lemma PutFirst(n: string, names: seq<string>)
    requires Falling(names) && forall m | m in Names(names) :: Key(m) < Key(n)
    ensures Falling([n] + names)
  {
    forall j | 0 <= j < |names|
      ensures Key(names[j]) < Key(n)
    {
      assert names[j] in Names(names);
    }
  }

  lemma FrontName(n: string, names: seq<string>)
    ensures Names([n] + names) == {n} + Names(names)
  {
    forall x | x in Names(names)
      ensures x in Names([n] + names)
    {
      var i :| 0 <= i < |names| && names[i] == x;
      assert ([n] + names)[i + 1] == x;
    }
    assert ([n] + names)[0] == n;
  }

  lemma {:induction false} Listing(names: set<string>) returns (sorted: seq<string>)
    requires AllSnaps(names)
    ensures Falling(sorted) && Names(sorted) == names
  {
    if names == {} {
      sorted := [];
    } else {
      var n :| n in names;
      var rest := Listing(names - {n});
      forall m | m in Names(rest)
        ensures Key(m) != Key(n)
      {
        if Key(m) == Key(n) {
          KeyInjective(m, n);
        }
      }
      InsertNameFalls(n, rest);
      InsertNameNames(n, rest);
      sorted := InsertName(n, rest);
    }
  }

  // What is kept are the newest.
  lemma KeepIsNewest(names: set<string>)
    requires AllSnaps(names)
    ensures AreNewest(Keep(names), names)
  {
    var sorted := Listing(names);
    KeepIsHead(sorted);
    NamesSize(sorted);
    NamesSize(Head(sorted));
    forall k, d | k in Keep(names) && d in names && d !in Keep(names)
      ensures Key(d) < Key(k)
    {
      var i :| 0 <= i < |sorted| && sorted[i] == k;
      var j :| 0 <= j < |sorted| && sorted[j] == d;
      HeadName(sorted, i);
      HeadName(sorted, j);
    }
  }

  // ---- Retention over time ----

  // Nothing is lost by having dropped old snapshots earlier: the newest seven of all are the newest seven of what is
  // left, as long as they are all still there.
  lemma KeepOfLess(some: set<string>, all: set<string>)
    requires AllSnaps(all) && Keep(all) <= some <= all
    ensures Keep(some) == Keep(all)
  {
    KeepIsNewest(all);
    forall n | n in some
      ensures n in Keep(some) <==> n in Keep(all)
    {
      SubsetSize(Newer(some, n), Newer(all, n));
      if n !in Keep(all) {
        SubsetSize(Newer(all, n), all);
        assert Keep(all) <= Newer(some, n);
        SubsetSize(Keep(all), Newer(some, n));
      }
    }
  }

  lemma KeepOfMore(all: set<string>, x: string)
    ensures Keep(all + {x}) <= Keep(all) + {x}
  {
    forall n | n in Keep(all + {x}) && n != x
      ensures n in Keep(all)
    {
      SubsetSize(Newer(all, n), Newer(all + {x}, n));
    }
  }
}
