/** Single byte ranges (pkg/api/s3/server.go): the header parser and the ranged GET. Compare section 14.1.2 of RFC 9110. */
module ByteRange {
  import opened Strings
  import opened Encoding
  import opened Streams
  import opened ShardCodec
  import opened SealedStore

  /** parseRange: inclusive start and end, or nothing. */
  function ParseRange(hdr: string, total: int): Option<(int, int)> {
    if !HasPrefix(hdr, "bytes=") then None
    else ParseSegment(TrimSpace(SplitTwo(hdr[6..], ',')[0]), total)
  }

  function ParseSegment(seg: string, total: int): Option<(int, int)> {
    var se := SplitTwo(seg, '-');
    if |se| != 2 then None
    else if se[0] == "" then
      var suf := ParseInt64(se[1]);
      if suf.None? || suf.value <= 0 then None
      else
        var n := if suf.value > total then total else suf.value;
        Some((total - n, total - 1))
    else
      var start := ParseInt64(se[0]);
      if start.None? || start.value < 0 || start.value >= total then None
      else if se[1] == "" then Some((start.value, total - 1))
      else
        var end := ParseInt64(se[1]);
        if end.None? || end.value < start.value || end.value >= total then None
        else Some((start.value, end.value))
  }

  predicate ValidRange(r: (int, int), total: int) {
    0 <= r.0 <= r.1 < total
  }

  /** An accepted range lies inside the object exactly when the announced size is positive. */
  lemma AcceptedRange(hdr: string, total: int)
    requires ParseRange(hdr, total).Some?
    ensures ValidRange(ParseRange(hdr, total).value, total) <==> total > 0
    ensures total <= 0 ==> ParseRange(hdr, total).value == (0, total - 1)
  {
  }

  lemma EmptyObjectSuffix()
    ensures ParseRange("bytes=-1", 0) == Some((0, -1))
  {
    assert Itoa(1) == "1";
    SuffixRange(1, 0);
    assert "bytes=-1" == "bytes=" + ("-" + "1");
  }

  lemma ItoaLacks(n: nat, c: char)
    requires !IsDigit(c)
    ensures Lacks(Itoa(n), c)
  {
  }

  /** The parser's pieces of a printed segment. */
  lemma Segment(first: string, second: string)
    requires Lacks(first, '-') && Lacks(first, ',') && Lacks(second, ',')
    requires var seg := first + "-" + second; '!' <= seg[0] <= '~' && '!' <= seg[|seg| - 1] <= '~'
    ensures var hdr := "bytes=" + (first + "-" + second);
            && HasPrefix(hdr, "bytes=")
            && SplitTwo(TrimSpace(SplitTwo(hdr[6..], ',')[0]), '-') == [first, second]
  {
    var seg := first + "-" + second;
    var hdr := "bytes=" + seg;
    assert hdr[6..] == seg;
    assert Lacks(seg, ',');
    SplitLacking(seg, ',');
    TrimNothing(seg);
    assert seg == first + ['-'] + second;
    SplitFirst(first, second, '-');
  }

  /** A printed range parses back to itself when it lies inside the object, and is refused otherwise. */
  lemma PrintedRange(a: nat, b: nat, total: int)
    requires total <= MAX_INT64
    ensures ParseRange("bytes=" + (Itoa(a) + "-" + Itoa(b)), total) == if a <= b < total then Some((a, b)) else None
  {
    ItoaLacks(a, '-'); ItoaLacks(a, ','); ItoaLacks(b, ',');
    assert IsDigit(Itoa(a)[0]) && IsDigit(Itoa(b)[|Itoa(b)| - 1]);
    Segment(Itoa(a), Itoa(b));
    ParseInt64Itoa(a);
    ParseInt64Itoa(b);
  }

  /** The last position is never clamped: a range reaching past the end is refused as a whole. */
  lemma RangePastEndRefused(a: nat, b: nat, total: int)
    requires total <= b && total <= MAX_INT64
    ensures ParseRange("bytes=" + (Itoa(a) + "-" + Itoa(b)), total) == None
  {
    PrintedRange(a, b, total);
  }

  /** A range without a last position ends at the last byte. */
  lemma OpenRange(a: nat, total: int)
    requires total <= MAX_INT64
    ensures ParseRange("bytes=" + (Itoa(a) + "-" + ""), total) == if a < total then Some((a, total - 1)) else None
  {
    ItoaLacks(a, '-'); ItoaLacks(a, ',');
    assert IsDigit(Itoa(a)[0]);
    Segment(Itoa(a), "");
    ParseInt64Itoa(a);
  }

  /** Without the unit, or with a single number, there is no range. */
  lemma NoRange(hdr: string, a: nat, total: int)
    ensures !HasPrefix(hdr, "bytes=") ==> ParseRange(hdr, total) == None
    ensures ParseRange("bytes=" + Itoa(a), total) == None
  {
    var one := Itoa(a);
    ItoaLacks(a, '-'); ItoaLacks(a, ',');
    assert IsDigit(one[0]) && IsDigit(one[|one| - 1]);
    TrimNothing(one);
    SplitLacking(one, ',');
    SplitLacking(one, '-');
    assert ("bytes=" + one)[6..] == one;
  }

  /** Of several ranges only the first is looked at. */
  lemma FirstRangeOnly(seg: string, more: string, total: int)
    requires Lacks(seg, ',')
    ensures ParseRange("bytes=" + (seg + [','] + more), total) == ParseRange("bytes=" + seg, total)
  {
    SplitTwoHead(seg, more, ',');
    Unit(seg + [','] + more);
    Unit(seg);
  }

  /** A blank in front of the range is ignored. */
  lemma BlankIgnored(seg: string, total: int)
    requires Lacks(seg, ',')
    ensures ParseRange("bytes=" + ([' '] + seg), total) == ParseRange("bytes=" + seg, total)
  {
    var s := [' '] + seg;
    Unit(s);
    Unit(seg);
    SplitLacking(s, ',');
    SplitLacking(seg, ',');
    TrimBlank(seg);
  }

  lemma Unit(rest: string)
    ensures HasPrefix("bytes=" + rest, "bytes=") && ("bytes=" + rest)[6..] == rest
  {
  }

  lemma SuffixParts(n: nat)
    ensures var hdr := "bytes=" + ("-" + Itoa(n));
            && HasPrefix(hdr, "bytes=")
            && SplitTwo(TrimSpace(SplitTwo(hdr[6..], ',')[0]), '-') == ["", Itoa(n)]
  {
    ItoaLacks(n, ',');
    assert IsDigit(Itoa(n)[|Itoa(n)| - 1]);
    assert "" + "-" + Itoa(n) == "-" + Itoa(n);
    Segment("", Itoa(n));
  }

  /** A suffix range gives the last min(n, total) bytes; one of no bytes, or of too many for an int64, is refused. */
  lemma SuffixRange(n: nat, total: nat)
    ensures ParseRange("bytes=" + ("-" + Itoa(n)), total) ==
            if n == 0 || n > MAX_INT64 then None else Some((total - (if n > total then total else n), total - 1))
  {
    SuffixParts(n);
    ParseInt64Itoa(n);
  }

  // ---------------------------------------------------------------- the ranged GET

  lemma SliceOfSlice(data: Bytes, lo: nat, hi: nat, pos: nat, to: nat)
    requires lo + pos <= to <= hi <= |data|
    ensures data[lo..hi][pos..] == data[lo + pos..hi] && data[lo + pos..hi][..to - lo - pos] == data[lo + pos..to]
  {
  }

  /** io.SectionReader: reads stop at the end of the section or of the file. */
  class SectionReader {
    const data: Bytes
    const base: nat
    const size: int
    var pos: nat

    constructor (data: Bytes, base: nat, size: int)
      ensures this.data == data && this.base == base && this.size == size && pos == 0
    {
      this.data, this.base, this.size, pos := data, base, size, 0;
    }

    method Seek(off: nat)
      modifies this
      ensures pos == off
    {
      pos := off;
    }

    /** io.CopyN onto the response: as many of the next `n` bytes as there are. */
    method CopyN(n: int) returns (out: Bytes)
      modifies this
      ensures out == Limit(Tail(Section(data, base, size), old(pos)), n)
      ensures pos == old(pos) + |out|
    {
      var limit := if size >= 0 && base + size <= |data| then base + size else |data|;
      var from := base + pos;
      if from >= limit || n <= 0 { return []; }
      var to := if from + n <= limit then from + n else limit;
      out := data[from..to];
      assert Section(data, base, size) == data[base..limit];
      SliceOfSlice(data, base, limit, pos, to);
      pos := pos + (to - from);
    }
  }

  datatype RangeResponse = NotSatisfiable(total: int) | Partial(start: int, end: int, total: int, length: int, body: Bytes)

  /**
   * The ranged branch of GET over what the store returned. An empty object answers a suffix range
   * with "bytes 0--1/0" and no bytes.
   */
  method ServeRange(sr: SectionReader, hdr: string) returns (r: RangeResponse)
    modifies sr
    ensures ParseRange(hdr, sr.size).None? ==> r == NotSatisfiable(sr.size)
    ensures ParseRange(hdr, sr.size).Some? && sr.size > 0 ==>
              var (start, end) := ParseRange(hdr, sr.size).value;
              && 0 <= start <= end < sr.size
              && r == Partial(start, end, sr.size, end - start + 1,
                              Limit(Tail(Section(sr.data, sr.base, sr.size), start), end - start + 1))
    ensures ParseRange(hdr, sr.size).Some? && sr.size <= 0 ==> r == Partial(0, sr.size - 1, sr.size, sr.size, [])
  {
    var parsed := ParseRange(hdr, sr.size);
    if parsed.None? { return NotSatisfiable(sr.size); }
    AcceptedRange(hdr, sr.size);
    var (start, end) := parsed.value;
    sr.Seek(start);
    var remain := end - start + 1;
    var body := sr.CopyN(remain);
    return Partial(start, end, sr.size, remain, body);
  }

  /** Over an intact sealed file the ranged body is exactly the requested slice of the payload, of the announced length. */
  lemma RangeOfPayload(hs: Hashes, data: Bytes, hashHex: string, h: ShardHeader, start: nat, end: nat)
    requires IntactWith(hs, data, hashHex, h)
    requires start <= end < ToI64(h.payloadLength)
    ensures var payload := PayloadAt(data, h).value;
            var body := Limit(Tail(Section(data, h.headerSize, ToI64(h.payloadLength)), start), end - start + 1);
            && |payload| == h.payloadLength
            && body == payload[start..end + 1] && |body| == end - start + 1
  {
    var payload := PayloadAt(data, h).value;
    SectionIsCopy(data, h.headerSize, ToI64(h.payloadLength));
    assert payload[start..][..end - start + 1] == payload[start..end + 1];
  }
}
