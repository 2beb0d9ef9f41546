/** Sorting by a string key: what Go's sort.Strings and sort.Slice promise, and when that fixes the result. */
module Sorting {
  import opened Strings

  ghost predicate SortedBy<T(!new)>(key: T -> string, s: seq<T>) {
    forall i, j :: 0 <= i < j < |s| ==> !Less(key(s[j]), key(s[i]))
  }

  /** `out` is a possible result of sorting `s`; the library leaves ties in any order. */
  ghost predicate IsSortOf<T(!new)>(key: T -> string, s: seq<T>, out: seq<T>) {
    multiset(out) == multiset(s) && SortedBy(key, out)
  }

  function InsertBy<T>(key: T -> string, x: T, s: seq<T>): seq<T> {
    if s == [] || !Less(key(s[0]), key(x)) then [x] + s
    else [s[0]] + InsertBy(key, x, s[1..])
  }

  function SortBy<T>(key: T -> string, s: seq<T>): seq<T> {
    if s == [] then [] else InsertBy(key, s[0], SortBy(key, s[1..]))
  }

  function Identity(s: string): string { s }

  function SortStrings(s: seq<string>): seq<string> {
    SortBy(Identity, s)
  }

  lemma {:induction false} InsertIsSort<T(!new)>(key: T -> string, x: T, s: seq<T>)
    requires SortedBy(key, s)
    ensures SortedBy(key, InsertBy(key, x, s))
    ensures multiset(InsertBy(key, x, s)) == multiset{x} + multiset(s)
  {
    if s == [] {
    } else if !Less(key(s[0]), key(x)) {
      forall j | 0 <= j < |s| ensures !Less(key(s[j]), key(x)) {
        LessIrreflexive(key(s[0]));
        NotLessTransitive(key(x), key(s[0]), key(s[j]));
      }
    } else {
      var r := InsertBy(key, x, s[1..]);
      InsertIsSort(key, x, s[1..]);
      assert s == [s[0]] + s[1..];
      forall j | 0 <= j < |r| ensures !Less(key(r[j]), key(s[0])) {
        assert r[j] in multiset(r);
        if r[j] == x {
          LessTotal(key(s[0]), key(x));
        } else {
          assert r[j] in s[1..];
        }
      }
    }
  }

  lemma NotLessTransitive(a: string, b: string, c: string)
    requires !Less(b, a) && !Less(c, b)
    ensures !Less(c, a)
  {
    LessTotal(a, b);
    LessTotal(b, c);
    LessTotal(a, c);
    if Less(c, a) {
      if Less(a, b) { LessTransitive(c, a, b); }
    }
  }

  lemma {:induction false} SortByIsSort<T(!new)>(key: T -> string, s: seq<T>)
    ensures IsSortOf(key, s, SortBy(key, s))
  {
    if s != [] {
      SortByIsSort(key, s[1..]);
      InsertIsSort(key, s[0], SortBy(key, s[1..]));
      assert s == [s[0]] + s[1..];
    }
  }

  lemma SortedFirst<T(!new)>(key: T -> string, s: seq<T>, x: T)
    requires SortedBy(key, s) && x in s
    ensures !Less(key(x), key(s[0]))
  {
    LessIrreflexive(key(s[0]));
  }

  lemma DropFirst<T>(s: seq<T>)
    requires s != []
    ensures multiset(s[1..]) == multiset(s) - multiset{s[0]}
  {
    assert s == [s[0]] + s[1..];
  }

  /** Keys that tell elements apart leave the sort no freedom: its result does not depend on the input order. */
  lemma {:induction false} SortUnique<T(!new)>(key: T -> string, a: seq<T>, b: seq<T>)
    requires SortedBy(key, a) && SortedBy(key, b) && multiset(a) == multiset(b)
    requires forall x, y :: x in a && y in a && key(x) == key(y) ==> x == y
    ensures a == b
  {
    assert |a| == |multiset(a)| == |multiset(b)| == |b|;
    if a != [] {
      assert a[0] in multiset(a) && b[0] in multiset(b);
      assert a[0] in b && b[0] in a;
      SortedFirst(key, a, b[0]);
      SortedFirst(key, b, a[0]);
      LessTotal(key(a[0]), key(b[0]));
      assert a[0] == b[0];
      DropFirst(a);
      DropFirst(b);
      SortUnique(key, a[1..], b[1..]);
      assert a == [a[0]] + a[1..] && b == [b[0]] + b[1..];
    }
  }

  // ---------------------------------------------------------------- sets of strings in order

  ghost predicate Distinct<T(!new)>(s: seq<T>) {
    forall i, j :: 0 <= i < j < |s| ==> s[i] != s[j]
  }

  ghost predicate StrictlyAscending(s: seq<string>) {
    forall i, j :: 0 <= i < j < |s| ==> Less(s[i], s[j])
  }

  ghost function Elements<T(!new)>(s: seq<T>): set<T> {
    set x | x in s
  }

  lemma {:induction false} NoDupMultiset<T(!new)>(s: seq<T>)
    requires forall i, j :: 0 <= i < j < |s| ==> s[i] != s[j]
    ensures multiset(s) == multiset(Elements(s))
    ensures |Elements(s)| == |s|
  {
    if s != [] {
      var t := s[..|s| - 1];
      NoDupMultiset(t);
      assert s == t + [s[|s| - 1]];
      assert Elements(s) == Elements(t) + {s[|s| - 1]};
    }
  }

  /** A set of strings has exactly one ascending enumeration. */
  lemma {:induction false} AscendingUnique(a: seq<string>, b: seq<string>)
    requires StrictlyAscending(a) && StrictlyAscending(b) && Elements(a) == Elements(b)
    ensures a == b
  {
    forall i, j | 0 <= i < j < |a| ensures a[i] != a[j] && !Less(a[j], a[i]) {
      LessIrreflexive(a[i]);
      LessTotal(a[i], a[j]);
    }
    forall i, j | 0 <= i < j < |b| ensures b[i] != b[j] && !Less(b[j], b[i]) {
      LessIrreflexive(b[i]);
      LessTotal(b[i], b[j]);
    }
    NoDupMultiset(a);
    NoDupMultiset(b);
    SortUnique(Identity, a, b);
  }

  lemma SortStringsAscending(s: seq<string>)
    requires forall i, j :: 0 <= i < j < |s| ==> s[i] != s[j]
    ensures StrictlyAscending(SortStrings(s))
    ensures Elements(SortStrings(s)) == Elements(s)
    ensures |SortStrings(s)| == |s|
  {
    var r := SortStrings(s);
    SortByIsSort(Identity, s);
    NoDupMultiset(s);
    assert |multiset(r)| == |multiset(s)|;
    forall i, j | 0 <= i < j < |r| ensures Less(r[i], r[j]) {
      SplitCount(r, i, j);
      LessTotal(r[i], r[j]);
    }
    forall x ensures x in r <==> x in s {
      assert x in r <==> x in multiset(r);
      assert x in s <==> x in multiset(s);
    }
  }

  lemma SplitCount<T>(r: seq<T>, i: int, j: int)
    requires 0 <= i < j < |r|
    ensures multiset(r)[r[i]] >= if r[i] == r[j] then 2 else 1
  {
    assert r == r[..i] + [r[i]] + r[i + 1..j] + [r[j]] + r[j + 1..];
  }

  ghost function AnyOrder(S: set<string>): (s: seq<string>)
    ensures Elements(s) == S && Distinct(s)
    decreases S
  {
    if S == {} then []
    else
      var x :| x in S;
      var rest := AnyOrder(S - {x});
      assert x !in Elements(rest);
      assert Elements([x] + rest) == {x} + Elements(rest);
      [x] + rest
  }

  /** The elements of a set in ascending order. */
  ghost function Enumerate(S: set<string>): (s: seq<string>)
    ensures StrictlyAscending(s) && Elements(s) == S && |s| == |S|
  {
    AscendingExists(S);
    var s :| StrictlyAscending(s) && Elements(s) == S && |s| == |S|;
    s
  }

  lemma AscendingExists(S: set<string>)
    ensures exists s :: StrictlyAscending(s) && Elements(s) == S && |s| == |S|
  {
    var s := AnyOrder(S);
    SortStringsAscending(s);
    NoDupMultiset(s);
    assert StrictlyAscending(SortStrings(s));
  }
}
