/** How signed header values are normalised (pkg/security/sigv4/verify.go, trimSpaces), and what the result still tells. */
module HeaderValues {
  import opened Strings
  import opened Runes

  predicate Blank(c: char) {
    c == ' ' || c == '\t' || c == '\n' || c == '\r'
  }

  /** Runs of blanks become one space. */
  function Collapse(s: string): string {
    if s == "" then ""
    else
      var front, c := s[..|s| - 1], s[|s| - 1];
      if !Blank(c) then Collapse(front) + [c]
      else if front != "" && Blank(front[|front| - 1]) then Collapse(front)
      else Collapse(front) + " "
  }

  /** trimSpaces reads the trimmed value character by character, so bytes that are no UTF-8 become U+FFFD. */
  function Normalize(s: string): string {
    Collapse(ReplaceInvalid(TrimSpace(s)))
  }

  predicate NoBlanks(s: string) {
    forall i :: 0 <= i < |s| ==> !Blank(s[i])
  }

  lemma {:induction false} CollapseKeeps(s: string, w: string)
    requires NoBlanks(w)
    ensures Collapse(s + w) == Collapse(s) + w
  {
    if w == "" {
      assert s + w == s && Collapse(s) + w == Collapse(s);
    } else {
      var front := w[..|w| - 1];
      CollapseKeeps(s, front);
      assert (s + w)[..|s + w| - 1] == s + front;
      assert Collapse(s) + w == (Collapse(s) + front) + [w[|w| - 1]];
    }
  }

  /** The characters read are blanks, or hold no blank byte. */
  lemma WrittenBlanks(s: string)
    requires s != ""
    ensures Blank(s[0]) ==> Written(s) == [s[0]]
    ensures !Blank(s[0]) ==> NoBlanks(Written(s)) && Written(s) != ""
    ensures Blank(s[0]) <==> DecodeRune(s).0 in {0x20, 0x09, 0x0A, 0x0D}
  {
  }

  /** The first blank of a run adds a space. */
  method AddBlank(b: string, space: bool, c: char, ghost read: string) returns (b': string, space': bool)
    requires Blank(c) && b == Collapse(read) && space == (read != "" && Blank(read[|read| - 1]))
    ensures b' == Collapse(read + [c]) && space'
  {
    assert (read + [c])[..|read|] == read;
    b', space' := b, true;
    if !space { b' := b + " "; }
  }

  lemma ReadOn(all: string, read: string, rest: string)
    requires rest != "" && all == read + ReplaceInvalid(rest)
    ensures all == (read + Written(rest)) + ReplaceInvalid(rest[Step(rest)..])
  {
    ConcatAssociates(read, Written(rest), ReplaceInvalid(rest[Step(rest)..]));
  }

  /** One turn of the loop over the characters of a value. */
  method ReadRune(t: string, b: string, space: bool, ghost read: string) returns (b': string, space': bool, n: nat)
    requires t != "" && b == Collapse(read) && space == (read != "" && Blank(read[|read| - 1]))
    ensures n == Step(t) && b' == Collapse(read + Written(t))
    ensures var r := read + Written(t); space' == (r != "" && Blank(r[|r| - 1]))
  {
    var (r, width) := DecodeRune(t);
    n := width;
    EncodeDecoded(t);
    WrittenBlanks(t);
    if r == 0x20 || r == 0x09 || r == 0x0A || r == 0x0D {
      b', space' := AddBlank(b, space, t[0], read);
    } else {
      CollapseKeeps(read, EncodeRune(r));
      b', space' := b + EncodeRune(r), false;
      LastOfConcat(read, Written(t));
    }
  }

  lemma LastOfConcat(s: string, w: string)
    requires w != ""
    ensures (s + w)[|s + w| - 1] == w[|w| - 1]
  {
  }

  method TrimSpaces(s: string) returns (b: string)
    ensures b == Normalize(s)
  {
    var rest := TrimSpace(s);
    ghost var all, read := ReplaceInvalid(rest), "";
    b := "";
    var space := false;
    assert "" + ReplaceInvalid(rest) == ReplaceInvalid(rest);
    while rest != ""
      invariant all == read + ReplaceInvalid(rest)
      invariant b == Collapse(read) && space == (read != "" && Blank(read[|read| - 1]))
      decreases |rest|
    {
      var n;
      ReadOn(all, read, rest);
      b, space, n := ReadRune(rest, b, space, read);
      read := read + Written(rest);
      rest := rest[n..];
    }
    assert read + "" == read;
  }

  /** The maximal runs of characters that are not blank. */
  function Words(s: string): (ws: seq<string>)
    ensures s != "" && !Blank(s[|s| - 1]) ==> ws != []
  {
    if s == "" then []
    else
      var front, c := s[..|s| - 1], s[|s| - 1];
      var ws := Words(front);
      if Blank(c) then ws
      else if front == "" || Blank(front[|front| - 1]) then ws + [[c]]
      else ws[..|ws| - 1] + [ws[|ws| - 1] + [c]]
  }

  /** `w` appended to already joined words. */
  function Append(joined: string, first: bool, w: string): string {
    if first then w else joined + " " + w
  }

  lemma JoinOneMore(ws: seq<string>, w: string)
    ensures Join(ws + [w], ' ') == Append(Join(ws, ' '), ws == [], w)
  {
    if ws != [] { JoinConcat(ws, [w], ' '); }
  }

  lemma JoinLastLonger(init: seq<string>, w: string, c: char)
    ensures Join(init + [w + [c]], ' ') == Join(init + [w], ' ') + [c]
  {
    JoinOneMore(init, w);
    JoinOneMore(init, w + [c]);
    AppendLonger(Join(init, ' '), init == [], w, c);
  }

  lemma AppendLonger(joined: string, first: bool, w: string, c: char)
    ensures Append(joined, first, w + [c]) == Append(joined, first, w) + [c]
  {
    OneCharMore(joined, w, c);
  }

  lemma OneCharMore(j: string, w: string, c: char)
    ensures j + " " + (w + [c]) == (j + " " + w) + [c]
  {
  }

  lemma {:induction false} CollapseIsWords(s: string)
    requires s != "" ==> !Blank(s[0])
    ensures s != "" ==> Words(s) != []
    ensures Collapse(s) == Join(Words(s), ' ') + (if s != "" && Blank(s[|s| - 1]) then " " else "")
  {
    if s != "" {
      var front, c := s[..|s| - 1], s[|s| - 1];
      CollapseIsWords(front);
      var ws := Words(front);
      if !Blank(c) {
        if front == "" || Blank(front[|front| - 1]) {
          JoinOneMore(ws, [c]);
        } else {
          assert ws == ws[..|ws| - 1] + [ws[|ws| - 1]];
          JoinLastLonger(ws[..|ws| - 1], ws[|ws| - 1], c);
        }
      }
    }
  }

  /** The words a value has once bytes that are no UTF-8 are replaced. */
  function ReadWords(s: string): seq<string> {
    Words(ReplaceInvalid(TrimSpace(s)))
  }

  lemma BlankEnds(s: string)
    requires s != "" && SpaceAtStart(s) == 0 && SpaceAtEnd(s) == 0
    ensures !Blank(s[0]) && !Blank(s[|s| - 1])
  {
    assert s[..1] == [s[0]] && s[|s| - 1..] == [s[|s| - 1]];
  }

  /** A normalised value is the words of the trimmed value with single spaces between them. */
  lemma NormalizeIsWords(s: string)
    ensures Normalize(s) == Join(ReadWords(s), ' ')
  {
    var t := ReplaceInvalid(TrimSpace(s));
    TrimmedEnds(s);
    ReplacedStart(TrimSpace(s));
    if SpaceAtEnd(t) > 0 { ReplacedEnd(TrimSpace(s)); }
    if t != "" { BlankEnds(t); }
    CollapseIsWords(t);
  }

  lemma {:induction false} WordsLackSpace(s: string)
    ensures forall i :: 0 <= i < |Words(s)| ==> Lacks(Words(s)[i], ' ') && Words(s)[i] != ""
  {
    if s != "" { WordsLackSpace(s[..|s| - 1]); }
  }

  /** Two values normalise to the same text exactly when they read as the same words. */
  lemma SameWords(s: string, t: string)
    ensures Normalize(s) == Normalize(t) <==> ReadWords(s) == ReadWords(t)
  {
    NormalizeIsWords(s);
    NormalizeIsWords(t);
    WordsLackSpace(ReplaceInvalid(TrimSpace(s)));
    WordsLackSpace(ReplaceInvalid(TrimSpace(t)));
    if Normalize(s) == Normalize(t) { JoinInjective(ReadWords(s), ReadWords(t), ' '); }
  }

  /** Among values in valid UTF-8 the normalised text determines the words themselves. */
  lemma SameWordsIfValid(s: string, t: string)
    requires ValidUtf8(TrimSpace(s)) && ValidUtf8(TrimSpace(t))
    ensures Normalize(s) == Normalize(t) <==> Words(TrimSpace(s)) == Words(TrimSpace(t))
  {
    KeptIffValid(TrimSpace(s));
    KeptIffValid(TrimSpace(t));
    SameWords(s, t);
  }

  /** How many bytes of a text are not blank. */
  function NonBlanks(s: string): nat {
    if s == "" then 0 else NonBlanks(s[..|s| - 1]) + (if Blank(s[|s| - 1]) then 0 else 1)
  }

  function TotalLength(ws: seq<string>): nat {
    if ws == [] then 0 else TotalLength(ws[..|ws| - 1]) + |ws[|ws| - 1]|
  }

  lemma TotalLengthAdds(ws: seq<string>, w: string)
    ensures TotalLength(ws + [w]) == TotalLength(ws) + |w|
  {
    assert (ws + [w])[..|ws + [w]| - 1] == ws;
  }

  /** A character that is not blank makes one word longer by one, or is a new one. */
  lemma {:induction false} LengthOfWords(s: string)
    requires s != ""
    ensures TotalLength(Words(s)) == TotalLength(Words(s[..|s| - 1])) + (if Blank(s[|s| - 1]) then 0 else 1)
  {
    var front, c := s[..|s| - 1], s[|s| - 1];
    var ws := Words(front);
    if !Blank(c) {
      if front == "" || Blank(front[|front| - 1]) {
        TotalLengthAdds(ws, [c]);
      } else {
        var init, last := ws[..|ws| - 1], ws[|ws| - 1];
        assert ws == init + [last];
        TotalLengthAdds(init, last);
        TotalLengthAdds(init, last + [c]);
      }
    }
  }

  lemma {:induction false} WordsHoldNonBlanks(s: string)
    ensures TotalLength(Words(s)) == NonBlanks(s)
  {
    if s != "" {
      LengthOfWords(s);
      WordsHoldNonBlanks(s[..|s| - 1]);
    }
  }

  lemma {:induction false} NonBlanksAdd(s: string, t: string)
    ensures NonBlanks(s + t) == NonBlanks(s) + NonBlanks(t)
  {
    if t == "" {
      assert s + t == s;
    } else {
      assert (s + t)[..|s + t| - 1] == s + t[..|t| - 1];
      NonBlanksAdd(s, t[..|t| - 1]);
    }
  }

  lemma {:induction false} AllNonBlank(s: string)
    requires NoBlanks(s)
    ensures NonBlanks(s) == |s|
  {
    if s != "" { AllNonBlank(s[..|s| - 1]); }
  }

  lemma WrittenNonBlanks(s: string)
    requires s != ""
    ensures NonBlanks(Written(s)) == NonBlanks(s[..Step(s)]) + (if Width(s) == 0 then 2 else 0)
  {
    if Width(s) == 0 {
      AllNonBlank(REPLACEMENT);
      assert s[..1] == [s[0]];
      AllNonBlank(s[..1]);
    }
  }

  /** Every invalid byte that is replaced adds bytes to a word. */
  lemma {:induction false} ReplacingAdds(s: string)
    ensures NonBlanks(ReplaceInvalid(s)) >= NonBlanks(s)
    ensures NonBlanks(ReplaceInvalid(s)) == NonBlanks(s) <==> ValidUtf8(s)
  {
    if s != "" {
      var tail := s[Step(s)..];
      ReplacingAdds(tail);
      WrittenNonBlanks(s);
      NonBlanksAdd(Written(s), ReplaceInvalid(tail));
      NonBlanksAdd(s[..Step(s)], tail);
      assert s == s[..Step(s)] + tail;
    }
  }

  /**
   * A value and its reading with U+FFFD for invalid bytes normalise alike; they have the same words
   * exactly when the trimmed value is valid UTF-8.
   */
  lemma InvalidBytesUnsigned(s: string)
    ensures var t := ReplaceInvalid(TrimSpace(s));
            && Normalize(t) == Normalize(s)
            && (Words(TrimSpace(t)) == Words(TrimSpace(s)) <==> ValidUtf8(TrimSpace(s)))
  {
    var t := ReplaceInvalid(TrimSpace(s));
    ReplacedIsTrimmed(s);
    KeptIffValid(TrimSpace(s));
    ReplacingAdds(TrimSpace(s));
    WordsHoldNonBlanks(t);
    WordsHoldNonBlanks(TrimSpace(s));
  }

  lemma {:induction false} CollapseLacksNewline(s: string)
    ensures Lacks(Collapse(s), '\n')
  {
    if s != "" { CollapseLacksNewline(s[..|s| - 1]); }
  }

  lemma NormalizedLacksNewline(s: string)
    ensures Lacks(Normalize(s), '\n')
  {
    CollapseLacksNewline(ReplaceInvalid(TrimSpace(s)));
  }
}
