/** Byte strings as the Go code uses them: one `char` per byte, ordered lexicographically. */
module Strings {

  datatype Option<+T> = None | Some(value: T)

  /** Go's `a < b` on strings. */
  predicate Less(a: string, b: string) {
    if b == "" then false
    else if a == "" then true
    else a[0] < b[0] || (a[0] == b[0] && Less(a[1..], b[1..]))
  }

  lemma ConcatAssociates(a: string, b: string, c: string)
    ensures a + (b + c) == (a + b) + c
  {
  }

  predicate HasPrefix(s: string, prefix: string) {
    prefix <= s
  }

  lemma LessIrreflexive(a: string)
    ensures !Less(a, a)
  {
  }

  lemma {:induction false} LessTransitive(a: string, b: string, c: string)
    requires Less(a, b) && Less(b, c)
    ensures Less(a, c)
  {
    if a != "" && a[0] == b[0] && b[0] == c[0] {
      LessTransitive(a[1..], b[1..], c[1..]);
    }
  }

  lemma {:induction false} LessTotal(a: string, b: string)
    ensures a == b || Less(a, b) || Less(b, a)
    ensures !(Less(a, b) && Less(b, a))
  {
    if a != "" && b != "" {
      LessTotal(a[1..], b[1..]);
      if a[0] == b[0] && a[1..] == b[1..] {
        assert a == [a[0]] + a[1..] == b;
      }
    }
  }

  lemma {:induction false} PrefixLess(p: string, s: string)
    requires p <= s && p != s
    ensures Less(p, s)
  {
    if p != "" {
      assert p == [p[0]] + p[1..] && s == [s[0]] + s[1..];
      assert p[1..] <= s[1..];
      PrefixLess(p[1..], s[1..]);
    }
  }

  /** Byte-wise lexicographic order: the first difference decides, and a proper prefix comes first. */
  lemma {:induction false} LessMeaning(a: string, b: string)
    ensures Less(a, b) <==>
              exists i :: 0 <= i <= |a| && i < |b| && a[..i] == b[..i] && (i == |a| || a[i] < b[i])
  {
    if a == "" || b == "" {
      assert b != "" ==> a[..0] == b[..0];
    } else {
      LessMeaning(a[1..], b[1..]);
      if Less(a, b) {
        if a[0] < b[0] {
          assert a[..0] == b[..0];
        } else {
          var i :| 0 <= i <= |a| - 1 && i < |b| - 1 && a[1..][..i] == b[1..][..i] && (i == |a| - 1 || a[1..][i] < b[1..][i]);
          assert a[..i + 1] == [a[0]] + a[1..][..i] && b[..i + 1] == [b[0]] + b[1..][..i];
        }
      }
      if i :| 0 <= i <= |a| && i < |b| && a[..i] == b[..i] && (i == |a| || a[i] < b[i]) {
        if i > 0 {
          assert a[0] == a[..i][0] && b[0] == b[..i][0];
          assert a[1..][..i - 1] == a[..i][1..] && b[1..][..i - 1] == b[..i][1..];
        }
      }
    }
  }

  /** `c` occurs nowhere in `s`. */
  predicate Lacks(s: string, c: char) {
    c !in s
  }

  predicate OccursAt(s: string, sub: string, i: int) {
    0 <= i <= |s| - |sub| && s[i..i + |sub|] == sub
  }

  /** Position of the first occurrence of `sub` at or after `from`: Go's strings.Index, with -1 for none. */
  function IndexFrom(s: string, sub: string, from: nat): (i: int)
    requires from <= |s|
    ensures i == -1 || (from <= i && OccursAt(s, sub, i))
    ensures forall j :: from <= j && (i == -1 || j < i) ==> !OccursAt(s, sub, j)
    decreases |s| - from
  {
    if OccursAt(s, sub, from) then from
    else if from == |s| then -1
    else IndexFrom(s, sub, from + 1)
  }

  function Index(s: string, sub: string): (i: int)
    ensures i == -1 || OccursAt(s, sub, i)
    ensures forall j :: 0 <= j && (i == -1 || j < i) ==> !OccursAt(s, sub, j)
  {
    IndexFrom(s, sub, 0)
  }

  lemma OccursInPrefix(s: string, t: string, sub: string, i: int)
    requires 0 <= i <= |s| - |sub|
    ensures OccursAt(s + t, sub, i) == OccursAt(s, sub, i)
  {
    assert (s + t)[i..i + |sub|] == s[i..i + |sub|];
  }

  /** Appending text after an occurrence does not move the first occurrence. */
  lemma IndexStable(s: string, t: string, sub: string)
    requires Index(s, sub) >= 0
    ensures Index(s + t, sub) == Index(s, sub)
  {
    var i := Index(s, sub);
    OccursInPrefix(s, t, sub, i);
    forall j | 0 <= j < i ensures !OccursAt(s + t, sub, j) {
      OccursInPrefix(s, t, sub, j);
    }
  }

  // ---------------------------------------------------------------- splitting

  /** Go's strings.Split for a one-byte separator. */
  function Split(s: string, sep: char): (parts: seq<string>)
    ensures |parts| >= 1
    ensures forall i :: 0 <= i < |parts| ==> Lacks(parts[i], sep)
  {
    if s == "" then [""]
    else
      var rest := Split(s[1..], sep);
      if s[0] == sep then [""] + rest
      else [[s[0]] + rest[0]] + rest[1..]
  }

  /** Go's strings.Join. */
  function Join(parts: seq<string>, sep: char): string {
    if parts == [] then ""
    else if |parts| == 1 then parts[0]
    else parts[0] + [sep] + Join(parts[1..], sep)
  }

  lemma {:induction false} JoinSplit(s: string, sep: char)
    ensures Join(Split(s, sep), sep) == s
  {
    if s != "" {
      JoinSplit(s[1..], sep);
      var rest := Split(s[1..], sep);
      if s[0] == sep {
        assert ([""] + rest)[1..] == rest;
      } else {
        assert ([[s[0]] + rest[0]] + rest[1..])[1..] == rest[1..];
      }
    }
  }

  lemma {:induction false} SplitLacking(s: string, sep: char)
    requires Lacks(s, sep)
    ensures Split(s, sep) == [s]
  {
    if s != "" {
      SplitLacking(s[1..], sep);
      assert s == [s[0]] + s[1..];
    }
  }

  /** Splitting distributes over a separator. */
  lemma {:induction false} SplitConcat(a: string, b: string, sep: char)
    ensures Split(a + [sep] + b, sep) == Split(a, sep) + Split(b, sep)
  {
    if a == "" {
      assert a + [sep] + b == [sep] + b;
      assert ([sep] + b)[1..] == b;
    } else {
      var s := a + [sep] + b;
      assert s[1..] == a[1..] + [sep] + b;
      SplitConcat(a[1..], b, sep);
    }
  }

  lemma {:induction false} SplitJoin(parts: seq<string>, sep: char)
    requires |parts| >= 1
    requires forall i :: 0 <= i < |parts| ==> Lacks(parts[i], sep)
    ensures Split(Join(parts, sep), sep) == parts
  {
    SplitLacking(parts[0], sep);
    if |parts| > 1 {
      SplitJoin(parts[1..], sep);
      SplitConcat(parts[0], Join(parts[1..], sep), sep);
      assert parts == [parts[0]] + parts[1..];
    } else {
      assert parts == [parts[0]];
    }
  }

  /** Joining loses nothing when the parts are non-empty and hold no separator. */
  lemma JoinInjective(a: seq<string>, b: seq<string>, sep: char)
    requires Join(a, sep) == Join(b, sep)
    requires forall i :: 0 <= i < |a| ==> Lacks(a[i], sep) && a[i] != ""
    requires forall i :: 0 <= i < |b| ==> Lacks(b[i], sep) && b[i] != ""
    ensures a == b
  {
    if a != [] && b != [] {
      SplitJoin(a, sep);
      SplitJoin(b, sep);
    }
  }

  /** A separator-free head and the text after the first separator are what a split finds first. */
  lemma SplitFirst(head: string, rest: string, sep: char)
    requires Lacks(head, sep)
    ensures var parts := Split(head + [sep] + rest, sep);
            |parts| >= 2 && parts[0] == head && Join(parts[1..], sep) == rest
  {
    SplitConcat(head, rest, sep);
    SplitLacking(head, sep);
    JoinSplit(rest, sep);
    assert ([head] + Split(rest, sep))[1..] == Split(rest, sep);
  }

  /** What stands before the first separator does not depend on what follows it. */
  lemma SplitTwoHead(head: string, rest: string, sep: char)
    requires Lacks(head, sep)
    ensures SplitTwo(head + [sep] + rest, sep)[0] == head && SplitTwo(head, sep)[0] == head
  {
    SplitFirst(head, rest, sep);
    SplitLacking(head, sep);
  }

  /** strings.SplitN(s, sep, 2). */
  function SplitTwo(s: string, sep: char): (parts: seq<string>)
    ensures |parts| >= 1
  {
    var parts := Split(s, sep);
    if |parts| == 1 then [s] else [parts[0], Join(parts[1..], sep)]
  }

  lemma {:induction false} JoinConcat(a: seq<string>, b: seq<string>, sep: char)
    requires a != [] && b != []
    ensures Join(a + b, sep) == Join(a, sep) + [sep] + Join(b, sep)
  {
    assert (a + b)[1..] == a[1..] + b;
    if |a| == 1 {
      assert a[1..] + b == b;
    } else {
      JoinConcat(a[1..], b, sep);
    }
  }

  /** Text up to a separator that it does not contain is recoverable. */
  lemma {:induction false} CutAt(a: string, x: string, b: string, y: string, sep: char)
    requires Lacks(a, sep) && Lacks(b, sep)
    requires a + [sep] + x == b + [sep] + y
    ensures a == b && x == y
  {
    if a == "" || b == "" {
      assert (a + [sep] + x)[0] == (b + [sep] + y)[0];
      assert (a + [sep] + x)[1..] == (b + [sep] + y)[1..];
      assert ([sep] + x)[1..] == x && ([sep] + y)[1..] == y;
    } else {
      assert (a + [sep] + x)[0] == a[0] && (b + [sep] + y)[0] == b[0];
      assert (a + [sep] + x)[1..] == a[1..] + [sep] + x;
      assert (b + [sep] + y)[1..] == b[1..] + [sep] + y;
      CutAt(a[1..], x, b[1..], y, sep);
      assert a == [a[0]] + a[1..] && b == [b[0]] + b[1..];
    }
  }

  // ---------------------------------------------------------------- decimal numbers

  predicate IsDigit(c: char) {
    '0' <= c <= '9'
  }

  /** strconv.Itoa on a non-negative number. */
  function Itoa(n: nat): (s: string)
    ensures s != "" && forall i :: 0 <= i < |s| ==> IsDigit(s[i])
  {
    var d := [('0' as int + n % 10) as char];
    if n < 10 then d else Itoa(n / 10) + d
  }

  function ParseDigits(s: string): Option<nat> {
    if s == "" then Some(0)
    else if !IsDigit(s[|s| - 1]) then None
    else match ParseDigits(s[..|s| - 1])
      case None => None
      case Some(v) => Some(10 * v + (s[|s| - 1] as int - '0' as int))
  }

  const MAX_INT64: int := 0x7FFF_FFFF_FFFF_FFFF

  function InInt64(n: int): Option<int> {
    if -MAX_INT64 - 1 <= n <= MAX_INT64 then Some(n) else None
  }

  /** strconv.ParseInt(s, 10, 64): optional sign, at least one digit, value in range. */
  function ParseInt64(s: string): (r: Option<int>)
    ensures r.Some? ==> -MAX_INT64 - 1 <= r.value <= MAX_INT64
  {
    if s == "" then None
    else
      var neg := s[0] == '-';
      var body := if s[0] == '-' || s[0] == '+' then s[1..] else s;
      if body == "" then None
      else match ParseDigits(body)
        case None => None
        case Some(v) =>
          InInt64(if neg then 0 - v as int else v as int)
  }

  lemma {:induction false} ParseItoa(n: nat)
    ensures ParseDigits(Itoa(n)) == Some(n)
  {
    var s := Itoa(n);
    if n >= 10 {
      ParseItoa(n / 10);
      assert s[..|s| - 1] == Itoa(n / 10);
    } else {
      assert s[..0] == "";
    }
  }

  /** A printed number parses back, unless it is too large for an int64. */
  lemma ParseInt64Itoa(n: nat)
    ensures ParseInt64(Itoa(n)) == if n <= MAX_INT64 then Some(n) else None
  {
    ParseItoa(n);
    assert IsDigit(Itoa(n)[0]);
  }

  lemma ItoaInjective(m: nat, n: nat)
    requires Itoa(m) == Itoa(n)
    ensures m == n
  {
    ParseItoa(m);
    ParseItoa(n);
  }

  // ---------------------------------------------------------------- white space and case

  /** The UTF-8 encodings of the characters unicode.IsSpace accepts. */
  predicate IsSpace(w: string) {
    || (|w| == 1 && ('\t' <= w[0] <= '\r' || w[0] == ' '))
    || (|w| == 2 && w[0] == '\U{00C2}' && (w[1] == '\U{0085}' || w[1] == '\U{00A0}'))
    || (|w| == 3 && w[0] == '\U{00E1}' && w[1] == '\U{009A}' && w[2] == '\U{0080}')
    || (|w| == 3 && w[0] == '\U{00E2}' && w[1] == '\U{0080}' && IsGeneralSpace(w[2]))
    || (|w| == 3 && w[0] == '\U{00E2}' && w[1] == '\U{0081}' && w[2] == '\U{009F}')
    || (|w| == 3 && w[0] == '\U{00E3}' && w[1] == '\U{0080}' && w[2] == '\U{0080}')
  }

  /** The last bytes of U+2000 to U+200A, U+2028, U+2029 and U+202F. */
  predicate IsGeneralSpace(c: char) {
    '\U{0080}' <= c <= '\U{008A}' || c == '\U{00A8}' || c == '\U{00A9}' || c == '\U{00AF}'
  }

  /** How many bytes of white space a text starts with: the first character, if it is one. */
  function SpaceAtStart(s: string): (n: nat)
    ensures n <= |s|
  {
    if |s| >= 1 && IsSpace(s[..1]) then 1
    else if |s| >= 2 && IsSpace(s[..2]) then 2
    else if |s| >= 3 && IsSpace(s[..3]) then 3
    else 0
  }

  function SpaceAtEnd(s: string): (n: nat)
    ensures n <= |s|
  {
    if |s| >= 1 && IsSpace(s[|s| - 1..]) then 1
    else if |s| >= 2 && IsSpace(s[|s| - 2..]) then 2
    else if |s| >= 3 && IsSpace(s[|s| - 3..]) then 3
    else 0
  }

  function TrimLeft(s: string): string {
    if SpaceAtStart(s) > 0 then TrimLeft(s[SpaceAtStart(s)..]) else s
  }

  function TrimRight(s: string): string {
    if SpaceAtEnd(s) > 0 then TrimRight(s[..|s| - SpaceAtEnd(s)]) else s
  }

  /** strings.TrimSpace. */
  function TrimSpace(s: string): string {
    TrimRight(TrimLeft(s))
  }

  lemma TrimBlank(s: string)
    ensures TrimSpace([' '] + s) == TrimSpace(s)
  {
    var b := [' '] + s;
    assert b[..1] == [' '] && IsSpace(b[..1]) && b[1..] == s;
  }

  lemma NotSpace(w: string)
    requires w != "" && ('!' <= w[0] <= '~' || '!' <= w[|w| - 1] <= '~')
    ensures !IsSpace(w)
  {
  }

  lemma PlainStart(s: string)
    requires s != "" && '!' <= s[0] <= '~'
    ensures SpaceAtStart(s) == 0
  {
    NotSpace(s[..1]);
    if |s| >= 2 { NotSpace(s[..2]); }
    if |s| >= 3 { NotSpace(s[..3]); }
  }

  lemma PlainSuffix(s: string, n: nat)
    requires 1 <= n <= |s| && '!' <= s[|s| - 1] <= '~'
    ensures !IsSpace(s[|s| - n..])
  {
    var w := s[|s| - n..];
    assert w[n - 1] == s[|s| - 1];
    NotSpace(w);
  }

  lemma PlainEnd(s: string)
    requires s != "" && '!' <= s[|s| - 1] <= '~'
    ensures SpaceAtEnd(s) == 0
  {
    PlainSuffix(s, 1);
    if |s| >= 2 { PlainSuffix(s, 2); }
    if |s| >= 3 { PlainSuffix(s, 3); }
  }

  /** Text between ASCII characters that are not blank stays as it is. */
  lemma TrimNothing(s: string)
    requires s != "" ==> '!' <= s[0] <= '~' && '!' <= s[|s| - 1] <= '~'
    ensures TrimSpace(s) == s
  {
    if s != "" {
      PlainStart(s);
      PlainEnd(s);
    }
  }

  function LowerChar(c: char): char {
    if 'A' <= c <= 'Z' then (c as int + 32) as char else c
  }

  /** strings.ToLower on ASCII. */
  function Lower(s: string): (r: string)
    ensures |r| == |s|
    ensures forall i :: 0 <= i < |s| ==> r[i] == LowerChar(s[i])
  {
    seq(|s|, i requires 0 <= i < |s| => LowerChar(s[i]))
  }
}
