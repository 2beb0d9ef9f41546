/**
 * UTF-8 as Go ranges over a string: bytes that are no valid encoding are read one at a time as U+FFFD.
 * A `char` is a byte.
 */
module Runes {
  import opened Strings

  /** U+FFFD as bytes. */
  const REPLACEMENT := "\U{00EF}\U{00BF}\U{00BD}"
  const RUNE_ERROR := 0xFFFD

  predicate Continuation(c: char) {
    0x80 <= c as int <= 0xBF
  }

  /** Which second bytes a lead byte allows: no overlong forms, no surrogates, nothing above U+10FFFF. */
  predicate SecondFits(lead: char, c: char) {
    match lead as int
    case 0xE0 => 0xA0 <= c as int <= 0xBF
    case 0xED => 0x80 <= c as int <= 0x9F
    case 0xF0 => 0x90 <= c as int <= 0xBF
    case 0xF4 => 0x80 <= c as int <= 0x8F
    case _ => Continuation(c)
  }

  /** Length of the valid encoding a text starts with, 0 if there is none. */
  function Width(s: string): (w: nat)
    requires s != ""
    ensures w <= 4 && w <= |s|
  {
    var b := s[0] as int;
    if b < 0x80 then 1
    else if 0xC2 <= b <= 0xDF then (if |s| >= 2 && Continuation(s[1]) then 2 else 0)
    else if 0xE0 <= b <= 0xEF then (if |s| >= 3 && SecondFits(s[0], s[1]) && Continuation(s[2]) then 3 else 0)
    else if 0xF0 <= b <= 0xF4 then
      (if |s| >= 4 && SecondFits(s[0], s[1]) && Continuation(s[2]) && Continuation(s[3]) then 4 else 0)
    else 0
  }

  function Bits(c: char): int { c as int % 64 }

  /** utf8.DecodeRuneInString: the first character and how many bytes it takes. */
  function DecodeRune(s: string): (r: (int, nat))
    requires s != ""
    ensures 1 <= r.1 <= |s|
  {
    match Width(s)
    case 0 => (RUNE_ERROR, 1)
    case 1 => (s[0] as int, 1)
    case 2 => ((s[0] as int - 0xC0) * 64 + Bits(s[1]), 2)
    case 3 => ((s[0] as int - 0xE0) * 4096 + Bits(s[1]) * 64 + Bits(s[2]), 3)
    case _ => ((s[0] as int - 0xF0) * 262144 + Bits(s[1]) * 4096 + Bits(s[2]) * 64 + Bits(s[3]), 4)
  }

  function Byte(n: int): char
    requires 0 <= n < 256
  {
    n as char
  }

  /** utf8.AppendRune, which is what WriteRune appends. */
  function EncodeRune(r: int): string {
    if 0 <= r < 0x80 then [Byte(r)]
    else if 0x80 <= r < 0x800 then [Byte(0xC0 + r / 64), Byte(0x80 + r % 64)]
    else if r < 0 || r > 0x10FFFF || 0xD800 <= r <= 0xDFFF then REPLACEMENT
    else if r < 0x10000 then [Byte(0xE0 + r / 4096), Byte(0x80 + r / 64 % 64), Byte(0x80 + r % 64)]
    else [Byte(0xF0 + r / 262144), Byte(0x80 + r / 4096 % 64), Byte(0x80 + r / 64 % 64), Byte(0x80 + r % 64)]
  }

  /** What reading one character and writing it back leaves of the text's start. */
  function Written(s: string): (w: string)
    requires s != ""
  {
    if Width(s) == 0 then REPLACEMENT else s[..Width(s)]
  }

  lemma TwoBytes(a: char, b: char)
    requires 0xC2 <= a as int <= 0xDF && Continuation(b)
    ensures EncodeRune((a as int - 0xC0) * 64 + Bits(b)) == [a, b]
  {
  }

  lemma Digits64(q: int, u: int)
    requires q >= 0 && 0 <= u < 64
    ensures (q * 64 + u) / 64 == q && (q * 64 + u) % 64 == u
  {
  }

  lemma ThreeDigits(x: int, y: int, z: int)
    requires x >= 0 && 0 <= y < 64 && 0 <= z < 64
    ensures var r := x * 4096 + y * 64 + z;
            r / 4096 == x && r / 64 % 64 == y && r % 64 == z
  {
    Digits64(x * 64 + y, z);
    Digits64(x, y);
    assert (x * 4096 + y * 64 + z) / 64 == x * 64 + y;
  }

  lemma ThreeBytes(a: char, b: char, c: char)
    requires 0xE0 <= a as int <= 0xEF && SecondFits(a, b) && Continuation(c)
    ensures EncodeRune((a as int - 0xE0) * 4096 + Bits(b) * 64 + Bits(c)) == [a, b, c]
  {
    assert Continuation(b);
    ThreeDigits(a as int - 0xE0, Bits(b), Bits(c));
  }

  lemma FourDigits(x: int, y: int, z: int, u: int)
    requires x >= 0 && 0 <= y < 64 && 0 <= z < 64 && 0 <= u < 64
    ensures var r := x * 262144 + y * 4096 + z * 64 + u;
            r / 262144 == x && r / 4096 % 64 == y && r / 64 % 64 == z && r % 64 == u
  {
    var r := x * 262144 + y * 4096 + z * 64 + u;
    Digits64(x * 4096 + y * 64 + z, u);
    Digits64(x * 64 + y, z);
    Digits64(x, y);
    assert r / 64 == x * 4096 + y * 64 + z;
    assert r / 4096 == x * 64 + y;
    assert r / 262144 == x;
  }

  lemma FourBytes(a: char, b: char, c: char, d: char)
    requires 0xF0 <= a as int <= 0xF4 && SecondFits(a, b) && Continuation(c) && Continuation(d)
    ensures EncodeRune((a as int - 0xF0) * 262144 + Bits(b) * 4096 + Bits(c) * 64 + Bits(d)) == [a, b, c, d]
  {
    assert Continuation(b);
    FourDigits(a as int - 0xF0, Bits(b), Bits(c), Bits(d));
  }

  /** Writing back a decoded character restores its bytes when they were valid, and leaves U+FFFD for one that were not. */
  lemma EncodeDecoded(s: string)
    requires s != ""
    ensures EncodeRune(DecodeRune(s).0) == Written(s)
    ensures DecodeRune(s).1 == if Width(s) == 0 then 1 else Width(s)
  {
    match Width(s)
    case 0 =>
    case 1 => assert s[..1] == [s[0]];
    case 2 =>
      TwoBytes(s[0], s[1]);
      assert s[..2] == [s[0], s[1]];
    case 3 =>
      ThreeBytes(s[0], s[1], s[2]);
      assert s[..3] == [s[0], s[1], s[2]];
    case _ =>
      FourBytes(s[0], s[1], s[2], s[3]);
      assert s[..4] == [s[0], s[1], s[2], s[3]];
  }

  // ---------------------------------------------------------------- whole texts

  function Step(s: string): (n: nat)
    requires s != ""
    ensures 1 <= n <= |s|
  {
    if Width(s) == 0 then 1 else Width(s)
  }

  /** A text read character by character and written back. */
  function ReplaceInvalid(s: string): string {
    if s == "" then "" else Written(s) + ReplaceInvalid(s[Step(s)..])
  }

  predicate ValidUtf8(s: string) {
    s == "" || (Width(s) > 0 && ValidUtf8(s[Width(s)..]))
  }

  /** Valid text is kept; every invalid byte makes it two bytes longer, so other text never is. */
  lemma {:induction false} KeptIffValid(s: string)
    ensures |ReplaceInvalid(s)| >= |s|
    ensures |ReplaceInvalid(s)| == |s| <==> ValidUtf8(s)
    ensures ReplaceInvalid(s) == s <==> ValidUtf8(s)
  {
    if s != "" {
      KeptIffValid(s[Step(s)..]);
      if ValidUtf8(s) { assert s == s[..Width(s)] + s[Width(s)..]; }
    }
  }

  lemma WidthOfPrefix(p: string, rest: string)
    requires p != "" && Width(p) == |p|
    ensures Width(p + rest) == |p|
  {
  }

  lemma ValidStart(s: string)
    requires s != ""
    ensures Written(s) != "" && Width(Written(s)) == |Written(s)| && !Continuation(Written(s)[0])
  {
  }

  /** What is written back is valid. */
  lemma {:induction false} ReplacedIsValid(s: string)
    ensures ValidUtf8(ReplaceInvalid(s))
    ensures s != "" ==> ReplaceInvalid(s) != "" && !Continuation(ReplaceInvalid(s)[0])
  {
    if s != "" {
      var w, rest := Written(s), ReplaceInvalid(s[Step(s)..]);
      ReplacedIsValid(s[Step(s)..]);
      ValidStart(s);
      WidthOfPrefix(w, rest);
      assert (w + rest)[|w|..] == rest;
    }
  }

  // ---------------------------------------------------------------- trimming

  lemma StartOfPrefix(p: string, s: string)
    requires p <= s && SpaceAtStart(s) == 0
    ensures SpaceAtStart(p) == 0
  {
    assert |p| >= 1 ==> p[..1] == s[..1];
    assert |p| >= 2 ==> p[..2] == s[..2];
    assert |p| >= 3 ==> p[..3] == s[..3];
  }

  lemma EndOfSuffix(p: string, rest: string)
    requires SpaceAtEnd(rest) > 0
    ensures SpaceAtEnd(p + rest) > 0
  {
    var n := SpaceAtEnd(rest);
    EndSpace(rest);
    SuffixOfConcat(p, rest, n);
    HasEndSpace(p + rest, n);
  }

  lemma {:induction false} TrimmedStart(s: string)
    ensures SpaceAtStart(TrimLeft(s)) == 0
  {
    if SpaceAtStart(s) > 0 { TrimmedStart(s[SpaceAtStart(s)..]); }
  }

  lemma {:induction false} TrimmedEnd(s: string)
    ensures SpaceAtEnd(TrimRight(s)) == 0
  {
    if SpaceAtEnd(s) > 0 { TrimmedEnd(s[..|s| - SpaceAtEnd(s)]); }
  }

  lemma {:induction false} TrimmedFront(s: string)
    ensures TrimRight(s) <= s
  {
    if SpaceAtEnd(s) > 0 {
      var front := s[..|s| - SpaceAtEnd(s)];
      TrimmedFront(front);
      PrefixOfPrefix(TrimRight(front), front, s);
    }
  }

  lemma PrefixOfPrefix(a: string, b: string, c: string)
    requires a <= b <= c
    ensures a <= c
  {
  }

  /** Trimmed text neither starts nor ends with white space. */
  lemma TrimmedEnds(s: string)
    ensures SpaceAtStart(TrimSpace(s)) == 0 && SpaceAtEnd(TrimSpace(s)) == 0
  {
    TrimmedStart(s);
    TrimmedEnd(TrimLeft(s));
    TrimmedFront(TrimLeft(s));
    StartOfPrefix(TrimSpace(s), TrimLeft(s));
  }

  lemma TrimmedStays(s: string)
    requires SpaceAtStart(s) == 0 && SpaceAtEnd(s) == 0
    ensures TrimSpace(s) == s
  {
  }

  /** The bytes of white space: ASCII, or a lead byte and continuation bytes. */
  lemma SpaceBytes(w: string)
    requires IsSpace(w)
    ensures 1 <= |w| <= 3
    ensures |w| == 1 ==> w[0] as int < 0x80
    ensures |w| == 2 ==> w[0] as int == 0xC2 && Continuation(w[1])
    ensures |w| == 3 ==> 0xE1 <= w[0] as int <= 0xE3 && Continuation(w[1]) && Continuation(w[2])
  {
  }

  /** White space is one character of its text. */
  lemma SpaceIsOneRune(s: string, n: nat)
    requires 1 <= n <= |s| && IsSpace(s[..n])
    ensures Width(s) == n
  {
    SpaceBytes(s[..n]);
    assert s[..n][0] == s[0];
    if n >= 2 { assert s[..n][1] == s[1]; }
    if n >= 3 { assert s[..n][2] == s[2]; }
  }

  lemma ReplacedStart(s: string)
    requires SpaceAtStart(s) == 0
    ensures SpaceAtStart(ReplaceInvalid(s)) == 0
  {
    var r := ReplaceInvalid(s);
    if s != "" && SpaceAtStart(r) > 0 {
      var n := SpaceAtStart(r);
      SpaceIsOneRune(r, n);
      ValidStart(s);
      WidthOfPrefix(Written(s), ReplaceInvalid(s[Step(s)..]));
    }
  }

  lemma EndSpace(s: string)
    requires SpaceAtEnd(s) > 0
    ensures SpaceAtEnd(s) <= 3 && IsSpace(s[|s| - SpaceAtEnd(s)..])
  {
  }

  lemma HasEndSpace(s: string, n: nat)
    requires 1 <= n <= |s| && n <= 3 && IsSpace(s[|s| - n..])
    ensures SpaceAtEnd(s) > 0
  {
  }

  lemma SuffixOfConcat(w: string, rest: string, n: nat)
    requires n <= |w| + |rest|
    ensures n <= |rest| ==> (w + rest)[|w| + |rest| - n..] == rest[|rest| - n..]
    ensures n > |rest| && rest != "" ==> (w + rest)[|w| + |rest| - n..][n - |rest|] == rest[0]
  {
  }

  /** White space at the end of a text is not cut in two where a character starts. */
  lemma EndsInside(w: string, rest: string)
    requires rest != "" && !Continuation(rest[0]) && SpaceAtEnd(w + rest) > 0
    ensures SpaceAtEnd(rest) > 0
  {
    var n := SpaceAtEnd(w + rest);
    EndSpace(w + rest);
    SpaceBytes((w + rest)[|w + rest| - n..]);
    SuffixOfConcat(w, rest, n);
    if n <= |rest| { HasEndSpace(rest, n); }
  }

  lemma {:induction false} ReplacedEnd(s: string)
    requires SpaceAtEnd(ReplaceInvalid(s)) > 0
    ensures SpaceAtEnd(s) > 0
  {
    if s != "" {
      var tail := s[Step(s)..];
      if tail == "" {
        LastWritten(s);
      } else {
        LaterWritten(s);
        ReplacedEnd(tail);
        LaterEnd(s, Step(s));
      }
    }
  }

  lemma LaterWritten(s: string)
    requires s != "" && s[Step(s)..] != "" && SpaceAtEnd(ReplaceInvalid(s)) > 0
    ensures SpaceAtEnd(ReplaceInvalid(s[Step(s)..])) > 0
  {
    var tail := s[Step(s)..];
    ReplacedIsValid(tail);
    assert ReplaceInvalid(s) == Written(s) + ReplaceInvalid(tail);
    EndsInside(Written(s), ReplaceInvalid(tail));
  }

  lemma LaterEnd(s: string, n: nat)
    requires n <= |s| && SpaceAtEnd(s[n..]) > 0
    ensures SpaceAtEnd(s) > 0
  {
    EndOfSuffix(s[..n], s[n..]);
    assert s == s[..n] + s[n..];
  }

  lemma LastWritten(s: string)
    requires s != "" && s[Step(s)..] == "" && SpaceAtEnd(ReplaceInvalid(s)) > 0
    ensures SpaceAtEnd(s) > 0
  {
    assert Written(s) + "" == Written(s);
    assert s[..|s|] == s;
    ReplacementEnds();
  }

  lemma ReplacementEnds()
    ensures SpaceAtEnd(REPLACEMENT) == 0
  {
    var r := REPLACEMENT;
    assert r[|r| - 1..][0] == '\U{00BD}' && r[|r| - 2..][0] == '\U{00BF}' && r[|r| - 3..][0] == '\U{00EF}';
  }

  /** Replacing invalid bytes of a trimmed text gives a trimmed text, and doing so again changes nothing. */
  lemma ReplacedIsTrimmed(s: string)
    ensures var t := ReplaceInvalid(TrimSpace(s)); TrimSpace(t) == t && ReplaceInvalid(t) == t
  {
    var t := TrimSpace(s);
    TrimmedEnds(s);
    ReplacedStart(t);
    if SpaceAtEnd(ReplaceInvalid(t)) > 0 { ReplacedEnd(t); }
    TrimmedStays(ReplaceInvalid(t));
    ReplacedIsValid(t);
    KeptIffValid(ReplaceInvalid(t));
  }
}
