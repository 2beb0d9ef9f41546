/** The SigV4 canonical request (pkg/security/sigv4/verify.go): printed field by field, and read back. */
module CanonicalRequest {
  import opened Strings
  import opened Encoding
  import opened Sorting
  import opened HeaderValues
  import opened Runes

  // ---------------------------------------------------------------- percent-encoding

  /** Go strings are bytes: one `char` below 256 each. */
  predicate IsBytes(s: string) {
    forall i :: 0 <= i < |s| ==> s[i] as int < 256
  }

  /** The unreserved characters of section 2.3 of RFC 3986. */
  predicate Unreserved(c: char) {
    'A' <= c <= 'Z' || 'a' <= c <= 'z' || '0' <= c <= '9' || c == '-' || c == '_' || c == '.' || c == '~'
  }

  function EncodeChar(c: char, encodeSlash: bool): string {
    if Unreserved(c) || (c == '/' && !encodeSlash) then [c]
    else ['%', HexDigit(c as int / 16 % 16, true), HexDigit(c as int % 16, true)]
  }

  function Encode(s: string, encodeSlash: bool): string {
    if s == "" then "" else Encode(s[..|s| - 1], encodeSlash) + EncodeChar(s[|s| - 1], encodeSlash)
  }

  method UriEncode(s: string, encodeSlash: bool) returns (b: string)
    ensures b == Encode(s, encodeSlash)
  {
    b := "";
    for i := 0 to |s|
      invariant b == Encode(s[..i], encodeSlash)
    {
      assert s[..i + 1][..i] == s[..i];
      var c := s[i];
      if Unreserved(c) {
        b := b + [c];
      } else if c == '/' && !encodeSlash {
        b := b + [c];
      } else {
        b := b + "%";
        b := b + [HexDigit(c as int / 16 % 16, true), HexDigit(c as int % 16, true)];
      }
    }
    assert s[..|s|] == s;
  }

  method UriEncodePath(path: string) returns (b: string)
    ensures b == if path == "" then "/" else Encode(path, false)
  {
    if path == "" { return "/"; }
    b := "";
    for i := 0 to |path|
      invariant b == Encode(path[..i], false)
    {
      assert path[..i + 1][..i] == path[..i];
      var c := path[i];
      if c == '/' {
        b := b + "/";
        continue;
      }
      if Unreserved(c) {
        b := b + [c];
      } else {
        b := b + "%";
        b := b + [HexDigit(c as int / 16 % 16, true), HexDigit(c as int % 16, true)];
      }
    }
    assert path[..|path|] == path;
  }

  /** Percent-decoding, the reader of what `Encode` prints. */
  function Decode(s: string): Option<string> {
    if s == "" then Some("")
    else if s[0] != '%' then
      match Decode(s[1..])
      case None => None
      case Some(rest) => Some([s[0]] + rest)
    else if |s| < 3 then None
    else match (HexValue(s[1]), HexValue(s[2]), Decode(s[3..]))
      case (Some(hi), Some(lo), Some(rest)) =>
        assert 0 <= hi < 16 && 0 <= lo < 16;
        Some([(16 * hi + lo) as char] + rest)
      case _ => None
  }

  lemma DecodeChar(c: char, encodeSlash: bool, rest: string, r: string)
    requires c as int < 256 && Decode(rest) == Some(r)
    ensures Decode(EncodeChar(c, encodeSlash) + rest) == Some([c] + r)
  {
    var e := EncodeChar(c, encodeSlash);
    var s := e + rest;
    if |e| == 1 {
      assert s[1..] == rest;
    } else {
      HexDigitRoundTrip(c as int / 16, true);
      HexDigitRoundTrip(c as int % 16, true);
      assert s[3..] == rest;
    }
  }

  lemma {:induction false} DecodeEncode(s: string, encodeSlash: bool, rest: string, r: string)
    requires IsBytes(s) && Decode(rest) == Some(r)
    ensures Decode(Encode(s, encodeSlash) + rest) == Some(s + r)
  {
    if s == "" {
      assert "" + rest == rest && "" + r == r;
    } else {
      var front, c := s[..|s| - 1], s[|s| - 1];
      DecodeChar(c, encodeSlash, rest, r);
      DecodeEncode(front, encodeSlash, EncodeChar(c, encodeSlash) + rest, [c] + r);
      EncodeSplit(s, encodeSlash, rest);
      assert s == front + [c];
      ConcatAssociates(front, [c], r);
    }
  }

  lemma EncodeSplit(s: string, encodeSlash: bool, rest: string)
    requires s != ""
    ensures Encode(s, encodeSlash) + rest ==
            Encode(s[..|s| - 1], encodeSlash) + (EncodeChar(s[|s| - 1], encodeSlash) + rest)
  {
  }

  /** Decoding undoes encoding, for every byte string and either treatment of the slash. */
  lemma EncodeRoundTrip(s: string, encodeSlash: bool)
    requires IsBytes(s)
    ensures Decode(Encode(s, encodeSlash)) == Some(s)
  {
    DecodeEncode(s, encodeSlash, "", "");
    assert Encode(s, encodeSlash) + "" == Encode(s, encodeSlash);
    assert s + "" == s;
  }

  /** Encoded text has only unreserved characters, slashes, and percent signs. */
  lemma {:induction false} EncodedChars(s: string, encodeSlash: bool)
    ensures forall i :: 0 <= i < |Encode(s, encodeSlash)| ==>
              var c := Encode(s, encodeSlash)[i]; Unreserved(c) || c == '%' || (c == '/' && !encodeSlash)
  {
    if s != "" { EncodedChars(s[..|s| - 1], encodeSlash); }
  }

  predicate UpperHex(c: char) {
    '0' <= c <= '9' || 'A' <= c <= 'F'
  }

  /** Whether a byte stands for itself. */
  predicate Kept(c: char, encodeSlash: bool) {
    Unreserved(c) || (c == '/' && !encodeSlash)
  }

  /** At every percent sign an encoded text has two hexadecimal digits, in upper case. */
  predicate UpperEscapes(e: string) {
    forall i :: 0 <= i < |e| && e[i] == '%' ==> i + 2 < |e| && UpperHex(e[i + 1]) && UpperHex(e[i + 2])
  }

  /** One byte: kept, or a percent sign and the two upper-case digits of its value. */
  lemma EncodeOne(c: char, encodeSlash: bool)
    requires c as int < 256
    ensures var e := Encode([c], encodeSlash);
            if Kept(c, encodeSlash) then e == [c]
            else && |e| == 3 && e[0] == '%' && UpperHex(e[1]) && UpperHex(e[2])
                 && HexValue(e[1]) == Some(c as int / 16) && HexValue(e[2]) == Some(c as int % 16)
  {
    assert [c][..0] == "" && "" + EncodeChar(c, encodeSlash) == EncodeChar(c, encodeSlash);
    assert Encode([c], encodeSlash) == EncodeChar(c, encodeSlash);
    DigitIsUpper(c as int / 16);
    DigitIsUpper(c as int % 16);
  }

  lemma DigitIsUpper(n: int)
    requires 0 <= n < 16
    ensures UpperHex(HexDigit(n, true)) && HexValue(HexDigit(n, true)) == Some(n)
  {
  }

  /** Bytes are encoded one by one: with `EncodeOne` this leaves one encoding only. */
  lemma {:induction false} EncodeConcat(a: string, b: string, encodeSlash: bool)
    ensures Encode(a + b, encodeSlash) == Encode(a, encodeSlash) + Encode(b, encodeSlash)
  {
    if b == "" {
      assert a + b == a;
    } else {
      var front, c := b[..|b| - 1], b[|b| - 1];
      EncodeConcat(a, front, encodeSlash);
      assert (a + b)[..|a + b| - 1] == a + front;
      ConcatAssociates(Encode(a, encodeSlash), Encode(front, encodeSlash), EncodeChar(c, encodeSlash));
    }
  }

  lemma {:induction false} EncodedEscapes(s: string, encodeSlash: bool)
    requires IsBytes(s)
    ensures UpperEscapes(Encode(s, encodeSlash))
  {
    if s != "" {
      var front, c := s[..|s| - 1], s[|s| - 1];
      EncodedEscapes(front, encodeSlash);
      DigitIsUpper(c as int / 16 % 16);
      DigitIsUpper(c as int % 16);
      EscapesConcat(Encode(front, encodeSlash), EncodeChar(c, encodeSlash));
    }
  }

  lemma EscapesConcat(a: string, b: string)
    requires UpperEscapes(a) && UpperEscapes(b)
    ensures UpperEscapes(a + b)
  {
    var e := a + b;
    forall i | 0 <= i < |e| && e[i] == '%' ensures i + 2 < |e| && UpperHex(e[i + 1]) && UpperHex(e[i + 2]) {
      if i < |a| {
        assert a[i] == '%';
      } else {
        assert b[i - |a|] == '%';
      }
    }
  }

  /**
   * Text is printed as it is exactly when every byte stands for itself. A path that is escaped already
   * holds percent signs and is escaped once more.
   */
  lemma {:induction false} UnchangedIffKept(s: string, encodeSlash: bool)
    ensures |Encode(s, encodeSlash)| >= |s|
    ensures Encode(s, encodeSlash) == s <==> forall c :: c in s ==> Kept(c, encodeSlash)
  {
    if s != "" {
      var front, c := s[..|s| - 1], s[|s| - 1];
      UnchangedIffKept(front, encodeSlash);
      assert s == front + [c];
      if Kept(c, encodeSlash) {
        assert Encode(s, encodeSlash) == Encode(front, encodeSlash) + [c];
        assert (Encode(front, encodeSlash) + [c])[..|Encode(front, encodeSlash)|] == Encode(front, encodeSlash);
      } else {
        assert |Encode(s, encodeSlash)| > |s|;
      }
    }
  }

  lemma EncodedLacks(s: string, c: char)
    requires !Unreserved(c) && c != '%' && c != '/'
    ensures Lacks(Encode(s, false), c)
  {
    EncodedChars(s, false);
  }

  // ---------------------------------------------------------------- the request

  /** strings.ToLower and strings.EqualFold, which follow Unicode's tables. */
  datatype Casing = Casing(lower: string -> string, equalFold: (string, string) -> bool)

  /** What this model needs of strings.ToLower: doing it twice is doing it once, and separators stay. */
  ghost predicate LowersSoundly(fold: Casing) {
    && (forall s :: fold.lower(fold.lower(s)) == fold.lower(s))
    && forall s, c :: c in s && c in "\n:" ==> c in fold.lower(s)
  }

  /** `path` is already escaped; `headers` is keyed by canonical name; `host` is kept apart. */
  datatype Request = Request(verb: string, path: string, query: map<string, seq<string>>, host: string,
                             headers: map<string, seq<string>>)

  /** What HTTP parsing guarantees: bytes in the URL, no line breaks in the method, tokens as header names. */
  ghost predicate Parsed(r: Request) {
    Lacks(r.verb, '\n') && IsBytes(r.path) && ByteQuery(r.query) && forall n :: n in r.headers ==> HeaderName(n)
  }

  /** Every key has a value, and all are bytes. */
  ghost predicate ByteQuery(query: map<string, seq<string>>) {
    forall k :: k in query ==> IsBytes(k) && query[k] != [] && forall v :: v in query[k] ==> IsBytes(v)
  }

  predicate HeaderName(n: string) {
    Lacks(n, '\n') && Lacks(n, ':')
  }

  const SIGNATURE := "X-Amz-Signature"

  /** The query keys that are signed: all, without the signature of a presigned URL. */
  ghost function QueryKeys(fold: Casing, query: map<string, seq<string>>, presigned: bool): set<string> {
    set k | k in query && !(presigned && fold.equalFold(k, SIGNATURE))
  }

  /** A possible result of sorting the keys: sort.Slice leaves keys equal up to case in any order. */
  ghost predicate SortedKeys(fold: Casing, keys: seq<string>, S: set<string>) {
    Distinct(keys) && Elements(keys) == S && SortedBy(fold.lower, keys)
  }

  function PartText(k: string, v: string): string {
    Encode(k, false) + "=" + Encode(v, false)
  }

  // ---------------------------------------------------------------- the query string

  function KeyParts(k: string, vs: seq<string>): seq<string> {
    if vs == [] then [] else KeyParts(k, vs[..|vs| - 1]) + [PartText(k, vs[|vs| - 1])]
  }

  function Values(query: map<string, seq<string>>, k: string): seq<string> {
    if k in query then SortStrings(query[k]) else []
  }

  function QueryParts(query: map<string, seq<string>>, keys: seq<string>): seq<string> {
    if keys == [] then []
    else QueryParts(query, keys[..|keys| - 1]) + KeyParts(keys[|keys| - 1], Values(query, keys[|keys| - 1]))
  }

  function QueryText(query: map<string, seq<string>>, keys: seq<string>): string {
    Join(QueryParts(query, keys), '&')
  }

  lemma SortKeys(fold: Casing, keys: seq<string>)
    requires Distinct(keys)
    ensures SortedKeys(fold, SortBy(fold.lower, keys), Elements(keys))
  {
    var out := SortBy(fold.lower, keys);
    SortByIsSort(fold.lower, keys);
    forall x ensures x in out <==> x in keys {
      assert x in out <==> x in multiset(out);
      assert x in keys <==> x in multiset(keys);
    }
    NoDupMultiset(keys);
    forall i, j | 0 <= i < j < |out| ensures out[i] != out[j] {
      SplitCount(out, i, j);
    }
  }

  method SignedKeys(fold: Casing, query: map<string, seq<string>>, presigned: bool) returns (keys: seq<string>)
    ensures Distinct(keys) && Elements(keys) == QueryKeys(fold, query, presigned)
  {
    keys := [];
    var todo := query.Keys;
    while todo != {}
      invariant todo <= query.Keys
      invariant Distinct(keys) && Elements(keys) == QueryKeys(fold, query, presigned) - todo
      decreases todo
    {
      var k :| k in todo;
      todo := todo - {k};
      if !(presigned && fold.equalFold(k, SIGNATURE)) {
        assert k !in Elements(keys);
        assert Elements(keys + [k]) == Elements(keys) + {k};
        keys := keys + [k];
      }
    }
  }

  method AppendParts(before: seq<string>, k: string, vs: seq<string>) returns (parts: seq<string>)
    ensures parts == before + KeyParts(k, vs)
  {
    parts := before;
    for j := 0 to |vs|
      invariant parts == before + KeyParts(k, vs[..j])
    {
      assert vs[..j + 1][..j] == vs[..j];
      var ek := UriEncode(k, false);
      var ev := UriEncode(vs[j], false);
      parts := parts + [ek + "=" + ev];
    }
    assert vs[..|vs|] == vs;
  }

  /** The range over the map yields the keys in any order; the sort settles all but ties. */
  method CanonicalQueryString(fold: Casing, query: map<string, seq<string>>, presigned: bool) returns (text: string, keys: seq<string>)
    ensures SortedKeys(fold, keys, QueryKeys(fold, query, presigned))
    ensures text == QueryText(query, keys)
  {
    var found := SignedKeys(fold, query, presigned);
    SortKeys(fold, found);
    keys := SortBy(fold.lower, found);
    var parts: seq<string> := [];
    for i := 0 to |keys|
      invariant parts == QueryParts(query, keys[..i])
    {
      assert keys[..i + 1][..i] == keys[..i];
      var k := keys[i];
      assert k in Elements(keys);
      var vs := SortStrings(query[k]);
      parts := AppendParts(parts, k, vs);
    }
    assert keys[..|keys|] == keys;
    text := Join(parts, '&');
  }

  // ---------------------------------------------------------------- reading the query string back

  type Pair = (string, string)

  function KeyPairs(k: string, vs: seq<string>): seq<Pair> {
    if vs == [] then [] else KeyPairs(k, vs[..|vs| - 1]) + [(k, vs[|vs| - 1])]
  }

  /** The key-value pairs in the order in which they are printed. */
  function QueryPairs(query: map<string, seq<string>>, keys: seq<string>): seq<Pair> {
    if keys == [] then []
    else QueryPairs(query, keys[..|keys| - 1]) + KeyPairs(keys[|keys| - 1], Values(query, keys[|keys| - 1]))
  }

  predicate BytePair(p: Pair) {
    IsBytes(p.0) && IsBytes(p.1)
  }

  /** `parts` is what printing `pairs` one by one gives. */
  ghost predicate Prints(parts: seq<string>, pairs: seq<Pair>) {
    |parts| == |pairs| && forall i :: 0 <= i < |pairs| ==> parts[i] == PartText(pairs[i].0, pairs[i].1)
  }

  lemma {:induction false} KeyPartsPrint(k: string, vs: seq<string>)
    ensures Prints(KeyParts(k, vs), KeyPairs(k, vs))
  {
    if vs != [] { KeyPartsPrint(k, vs[..|vs| - 1]); }
  }

  lemma {:induction false} QueryPartsPrint(query: map<string, seq<string>>, keys: seq<string>)
    ensures Prints(QueryParts(query, keys), QueryPairs(query, keys))
  {
    if keys != [] {
      QueryPartsPrint(query, keys[..|keys| - 1]);
      KeyPartsPrint(keys[|keys| - 1], Values(query, keys[|keys| - 1]));
    }
  }

  lemma PartInjective(p: Pair, q: Pair)
    requires BytePair(p) && BytePair(q) && PartText(p.0, p.1) == PartText(q.0, q.1)
    ensures p == q
  {
    EncodedLacks(p.0, '=');
    EncodedLacks(q.0, '=');
    CutAt(Encode(p.0, false), Encode(p.1, false), Encode(q.0, false), Encode(q.1, false), '=');
    EncodeRoundTrip(p.0, false);
    EncodeRoundTrip(p.1, false);
    EncodeRoundTrip(q.0, false);
    EncodeRoundTrip(q.1, false);
  }

  lemma PrintedLack(parts: seq<string>, pairs: seq<Pair>)
    requires Prints(parts, pairs)
    ensures forall i :: 0 <= i < |parts| ==> Lacks(parts[i], '&') && parts[i] != ""
  {
    forall i | 0 <= i < |parts| ensures Lacks(parts[i], '&') && parts[i] != "" {
      EncodedLacks(pairs[i].0, '&');
      EncodedLacks(pairs[i].1, '&');
    }
  }

  /** Printed pairs, joined, can be told apart: the text determines the sequence of pairs. */
  lemma PairsFromText(parts: seq<string>, pairs: seq<Pair>, parts': seq<string>, pairs': seq<Pair>)
    requires Prints(parts, pairs) && Prints(parts', pairs') && Join(parts, '&') == Join(parts', '&')
    requires (forall p :: p in pairs ==> BytePair(p)) && (forall p :: p in pairs' ==> BytePair(p))
    ensures pairs == pairs'
  {
    PrintedLack(parts, pairs);
    PrintedLack(parts', pairs');
    JoinInjective(parts, parts', '&');
    forall i | 0 <= i < |pairs| ensures pairs[i] == pairs'[i] {
      PartInjective(pairs[i], pairs'[i]);
    }
  }

  lemma {:induction false} CountInKey(k: string, vs: seq<string>, p: Pair)
    ensures multiset(KeyPairs(k, vs))[p] == if p.0 == k then multiset(vs)[p.1] else 0
  {
    if vs != [] {
      var front, v := vs[..|vs| - 1], vs[|vs| - 1];
      CountInKey(k, front, p);
      assert vs == front + [v];
    }
  }

  function Times(query: map<string, seq<string>>, p: Pair): nat {
    if p.0 in query then multiset(query[p.0])[p.1] else 0
  }

  lemma CountConcat(a: seq<Pair>, b: seq<Pair>, p: Pair)
    ensures multiset(a + b)[p] == multiset(a)[p] + multiset(b)[p]
  {
  }

  lemma CountValues(query: map<string, seq<string>>, k: string, p: Pair)
    ensures multiset(KeyPairs(k, Values(query, k)))[p] == if p.0 == k then Times(query, p) else 0
  {
    CountInKey(k, Values(query, k), p);
    if k in query { SortByIsSort(Identity, query[k]); }
  }

  /** The printed pairs are the request's pairs, each as often as it occurs there. */
  lemma {:induction false} CountInQuery(query: map<string, seq<string>>, keys: seq<string>, p: Pair)
    requires Distinct(keys)
    ensures multiset(QueryPairs(query, keys))[p] == if p.0 in keys then Times(query, p) else 0
  {
    if keys != [] {
      var front, k := keys[..|keys| - 1], keys[|keys| - 1];
      CountInQuery(query, front, p);
      CountValues(query, k, p);
      CountConcat(QueryPairs(query, front), KeyPairs(k, Values(query, k)), p);
      assert keys == front + [k];
    }
  }

  lemma PairsAreBytes(query: map<string, seq<string>>, keys: seq<string>)
    requires Distinct(keys) && ByteQuery(query)
    ensures forall p :: p in QueryPairs(query, keys) ==> BytePair(p)
  {
    forall p | p in QueryPairs(query, keys) ensures BytePair(p) {
      CountInQuery(query, keys, p);
      assert p in multiset(QueryPairs(query, keys));
      assert p.1 in multiset(query[p.0]);
    }
  }

  /** The same signed keys with the same values, each as often. */
  ghost predicate SameQuery(fold: Casing, q: map<string, seq<string>>, presigned: bool, q': map<string, seq<string>>, presigned': bool) {
    && QueryKeys(fold, q, presigned) == QueryKeys(fold, q', presigned')
    && forall k :: k in QueryKeys(fold, q, presigned) ==> multiset(q[k]) == multiset(q'[k])
  }

  lemma SamePairs(q: map<string, seq<string>>, keys: seq<string>, q': map<string, seq<string>>, keys': seq<string>)
    requires ByteQuery(q) && ByteQuery(q') && Distinct(keys) && Distinct(keys')
    requires QueryText(q, keys) == QueryText(q', keys')
    ensures QueryPairs(q, keys) == QueryPairs(q', keys')
  {
    QueryPartsPrint(q, keys);
    QueryPartsPrint(q', keys');
    PairsAreBytes(q, keys);
    PairsAreBytes(q', keys');
    PairsFromText(QueryParts(q, keys), QueryPairs(q, keys), QueryParts(q', keys'), QueryPairs(q', keys'));
  }

  ghost predicate EqualCounts(q: map<string, seq<string>>, keys: seq<string>, q': map<string, seq<string>>, keys': seq<string>) {
    forall p: Pair :: (if p.0 in keys then Times(q, p) else 0) == (if p.0 in keys' then Times(q', p) else 0)
  }

  lemma SamePairCounts(q: map<string, seq<string>>, keys: seq<string>, q': map<string, seq<string>>, keys': seq<string>)
    requires Distinct(keys) && Distinct(keys') && QueryPairs(q, keys) == QueryPairs(q', keys')
    ensures EqualCounts(q, keys, q', keys') && EqualCounts(q', keys', q, keys)
  {
    forall p: Pair
      ensures (if p.0 in keys then Times(q, p) else 0) == (if p.0 in keys' then Times(q', p) else 0)
    {
      CountInQuery(q, keys, p);
      CountInQuery(q', keys', p);
    }
  }

  lemma SameCounts(q: map<string, seq<string>>, keys: seq<string>, q': map<string, seq<string>>, keys': seq<string>, k: string)
    requires ByteQuery(q) && k in keys && k in q && (forall k :: k in keys' ==> k in q')
    requires EqualCounts(q, keys, q', keys')
    ensures k in keys' && multiset(q[k]) == multiset(q'[k])
  {
    var v := q[k][0];
    assert v in multiset(q[k]);
    assert Times(q, (k, v)) > 0;
    forall w ensures multiset(q[k])[w] == multiset(q'[k])[w] {
      assert Times(q, (k, w)) == Times(q', (k, w));
    }
  }

  lemma KeysAre(fold: Casing, keys: seq<string>, q: map<string, seq<string>>, presigned: bool)
    requires SortedKeys(fold, keys, QueryKeys(fold, q, presigned))
    ensures forall k :: (k in keys <==> k in QueryKeys(fold, q, presigned)) && (k in keys ==> k in q)
  {
    forall k ensures k in keys <==> k in QueryKeys(fold, q, presigned) {
      assert k in Elements(keys) <==> k in keys;
    }
  }

  lemma SamePairsSameQuery(fold: Casing, q: map<string, seq<string>>, presigned: bool, keys: seq<string>,
                           q': map<string, seq<string>>, presigned': bool, keys': seq<string>)
    requires ByteQuery(q) && ByteQuery(q')
    requires SortedKeys(fold, keys, QueryKeys(fold, q, presigned)) && SortedKeys(fold, keys', QueryKeys(fold, q', presigned'))
    requires EqualCounts(q, keys, q', keys') && EqualCounts(q', keys', q, keys)
    ensures SameQuery(fold, q, presigned, q', presigned')
  {
    KeysAre(fold, keys, q, presigned);
    KeysAre(fold, keys', q', presigned');
    forall k | k in keys ensures k in keys' && multiset(q[k]) == multiset(q'[k]) {
      SameCounts(q, keys, q', keys', k);
    }
    forall k | k in keys' ensures k in keys {
      SameCounts(q', keys', q, keys, k);
    }
  }

  /** The canonical query string determines the multiset of signed key-value pairs. */
  lemma QueryDetermines(fold: Casing, q: map<string, seq<string>>, presigned: bool, keys: seq<string>,
                        q': map<string, seq<string>>, presigned': bool, keys': seq<string>)
    requires ByteQuery(q) && ByteQuery(q')
    requires SortedKeys(fold, keys, QueryKeys(fold, q, presigned)) && SortedKeys(fold, keys', QueryKeys(fold, q', presigned'))
    requires QueryText(q, keys) == QueryText(q', keys')
    ensures SameQuery(fold, q, presigned, q', presigned')
  {
    SamePairs(q, keys, q', keys');
    SamePairCounts(q, keys, q', keys');
    SamePairsSameQuery(fold, q, presigned, keys, q', presigned', keys');
  }

  /**
   * Every parameter counts but the signature of a presigned URL: queries that differ in a key, or in how
   * often a key has some value, print different texts.
   */
  lemma DifferentQueriesDiffer(fold: Casing, q: map<string, seq<string>>, q': map<string, seq<string>>, presigned: bool,
                               keys: seq<string>, keys': seq<string>, k: string)
    requires ByteQuery(q) && ByteQuery(q')
    requires SortedKeys(fold, keys, QueryKeys(fold, q, presigned)) && SortedKeys(fold, keys', QueryKeys(fold, q', presigned))
    requires presigned ==> !fold.equalFold(k, SIGNATURE)
    requires exists v :: Times(q, (k, v)) != Times(q', (k, v))
    ensures QueryText(q, keys) != QueryText(q', keys')
  {
    if QueryText(q, keys) == QueryText(q', keys') {
      QueryDetermines(fold, q, presigned, keys, q', presigned, keys');
      SameTimes(fold, q, q', presigned, k);
    }
  }

  lemma SameTimes(fold: Casing, q: map<string, seq<string>>, q': map<string, seq<string>>, presigned: bool, k: string)
    requires SameQuery(fold, q, presigned, q', presigned) && (presigned ==> !fold.equalFold(k, SIGNATURE))
    ensures forall v :: Times(q, (k, v)) == Times(q', (k, v))
  {
    assert k in q <==> k in QueryKeys(fold, q, presigned);
    assert k in q' <==> k in QueryKeys(fold, q', presigned);
  }

  // ---------------------------------------------------------------- when the text does not depend on the order

  /** No two signed keys are equal up to case. */
  ghost predicate CaseDistinct(fold: Casing, S: set<string>) {
    forall k, k' :: k in S && k' in S && fold.lower(k) == fold.lower(k') ==> k == k'
  }

  lemma OneSortOnly(fold: Casing, keys: seq<string>, keys': seq<string>, S: set<string>)
    requires SortedKeys(fold, keys, S) && SortedKeys(fold, keys', S) && CaseDistinct(fold, S)
    ensures keys == keys'
  {
    NoDupMultiset(keys);
    NoDupMultiset(keys');
    forall k | k in keys || k in keys' ensures k in S {
      assert k in Elements(keys) || k in Elements(keys');
    }
    SortUnique(fold.lower, keys, keys');
  }

  lemma SameValues(q: map<string, seq<string>>, q': map<string, seq<string>>, k: string)
    requires k in q && k in q' && multiset(q[k]) == multiset(q'[k])
    ensures Values(q, k) == Values(q', k)
  {
    SortByIsSort(Identity, q[k]);
    SortByIsSort(Identity, q'[k]);
    SortUnique(Identity, SortStrings(q[k]), SortStrings(q'[k]));
  }

  lemma {:induction false} SameParts(q: map<string, seq<string>>, q': map<string, seq<string>>, keys: seq<string>)
    requires forall k :: k in keys ==> Values(q, k) == Values(q', k)
    ensures QueryParts(q, keys) == QueryParts(q', keys)
  {
    if keys != [] { SameParts(q, q', keys[..|keys| - 1]); }
  }

  /** Conversely the pairs determine the text, whatever order they came in, when no two keys differ only by case. */
  lemma QueryDetermined(fold: Casing, q: map<string, seq<string>>, presigned: bool, keys: seq<string>,
                        q': map<string, seq<string>>, presigned': bool, keys': seq<string>)
    requires SortedKeys(fold, keys, QueryKeys(fold, q, presigned)) && SortedKeys(fold, keys', QueryKeys(fold, q', presigned'))
    requires SameQuery(fold, q, presigned, q', presigned') && CaseDistinct(fold, QueryKeys(fold, q, presigned))
    ensures QueryText(q, keys) == QueryText(q', keys')
  {
    OneSortOnly(fold, keys, keys', QueryKeys(fold, q, presigned));
    KeysAre(fold, keys, q, presigned);
    forall k | k in keys ensures Values(q, k) == Values(q', k) {
      SameValues(q, q', k);
    }
    SameParts(q, q', keys);
  }

  /** Sorting may leave only one canonical query string. */
  ghost predicate OneText(fold: Casing, q: map<string, seq<string>>, presigned: bool) {
    forall keys, keys' :: SortedKeys(fold, keys, QueryKeys(fold, q, presigned)) && SortedKeys(fold, keys', QueryKeys(fold, q, presigned)) ==>
      QueryText(q, keys) == QueryText(q, keys')
  }

  lemma {:induction false} PairsStart(q: map<string, seq<string>>, keys: seq<string>)
    requires keys != [] && ByteQuery(q) && (forall k :: k in keys ==> k in q)
    ensures QueryPairs(q, keys) != [] && QueryPairs(q, keys)[0].0 == keys[0]
  {
    var front, k := keys[..|keys| - 1], keys[|keys| - 1];
    SortByIsSort(Identity, q[k]);
    assert |Values(q, k)| == |multiset(Values(q, k))| == |multiset(q[k])| == |q[k]|;
    if front != [] {
      assert front[0] == keys[0];
      PairsStart(q, front);
    } else {
      AllOneKey(k, Values(q, k));
      assert QueryPairs(q, front) == [];
    }
  }

  lemma {:induction false} AllOneKey(k: string, vs: seq<string>)
    ensures |KeyPairs(k, vs)| == |vs| && forall i :: 0 <= i < |vs| ==> KeyPairs(k, vs)[i] == (k, vs[i])
  {
    if vs != [] { AllOneKey(k, vs[..|vs| - 1]); }
  }

  function ConcatAll<T>(f: string -> seq<T>, keys: seq<string>): seq<T> {
    if keys == [] then [] else ConcatAll(f, keys[..|keys| - 1]) + f(keys[|keys| - 1])
  }

  function PairsFor(q: map<string, seq<string>>): string -> seq<Pair> {
    k => KeyPairs(k, Values(q, k))
  }

  lemma {:induction false} PairsAreConcat(q: map<string, seq<string>>, keys: seq<string>)
    ensures QueryPairs(q, keys) == ConcatAll(PairsFor(q), keys)
  {
    if keys != [] { PairsAreConcat(q, keys[..|keys| - 1]); }
  }

  lemma ConcatSnoc<T>(f: string -> seq<T>, keys: seq<string>, k: string)
    ensures ConcatAll(f, keys + [k]) == ConcatAll(f, keys) + f(k)
  {
    assert (keys + [k])[..|keys + [k]| - 1] == keys;
  }

  lemma {:induction false} ConcatAppend<T>(f: string -> seq<T>, a: seq<string>, b: seq<string>)
    ensures ConcatAll(f, a + b) == ConcatAll(f, a) + ConcatAll(f, b)
  {
    if b == [] {
      assert a + b == a;
    } else {
      var front, k := b[..|b| - 1], b[|b| - 1];
      ConcatAppend(f, a, front);
      ConcatSnoc(f, a + front, k);
      ConcatSnoc(f, front, k);
      assert b == front + [k];
      Associates(a, front, [k]);
      Associates(ConcatAll(f, a), ConcatAll(f, front), f(k));
    }
  }

  lemma PairsAppend(q: map<string, seq<string>>, a: seq<string>, b: seq<string>)
    ensures QueryPairs(q, a + b) == QueryPairs(q, a) + QueryPairs(q, b)
  {
    PairsAreConcat(q, a);
    PairsAreConcat(q, b);
    PairsAreConcat(q, a + b);
    ConcatAppend(PairsFor(q), a, b);
  }

  lemma Associates<T>(a: seq<T>, b: seq<T>, c: seq<T>)
    ensures (a + b) + c == a + (b + c)
  {
  }

  /** Key orders that part ways print different texts. */
  lemma TextsDiffer(q: map<string, seq<string>>, front: seq<string>, rest: seq<string>, rest': seq<string>)
    requires ByteQuery(q) && Distinct(front + rest) && Distinct(front + rest')
    requires (forall k :: k in rest ==> k in q) && (forall k :: k in rest' ==> k in q)
    requires rest != [] && rest' != [] && rest[0] != rest'[0]
    ensures QueryText(q, front + rest) != QueryText(q, front + rest')
  {
    if QueryText(q, front + rest) == QueryText(q, front + rest') {
      SamePairs(q, front + rest, q, front + rest');
      PairsAppend(q, front, rest);
      PairsAppend(q, front, rest');
      PairsStart(q, rest);
      PairsStart(q, rest');
      SameHead(QueryPairs(q, front), QueryPairs(q, rest), QueryPairs(q, rest'));
    }
  }

  lemma SameHead<T>(front: seq<T>, a: seq<T>, b: seq<T>)
    requires a != [] && b != [] && front + a == front + b
    ensures a[0] == b[0]
  {
    assert (front + a)[|front|] == a[0] && (front + b)[|front|] == b[0];
  }

  lemma SwapText(q: map<string, seq<string>>, keys: seq<string>, keys': seq<string>, i: nat, j: nat)
    requires ByteQuery(q) && Distinct(keys) && Distinct(keys')
    requires (forall k :: k in keys ==> k in q) && (forall k :: k in keys' ==> k in q)
    requires i < j < |keys| && keys' == keys[i := keys[j]][j := keys[i]]
    ensures QueryText(q, keys) != QueryText(q, keys')
  {
    var front, rest, rest' := keys[..i], keys[i..], keys'[i..];
    assert keys == front + rest && keys' == front + rest';
    assert rest[0] == keys[i] && rest'[0] == keys[j];
    TextsDiffer(q, front, rest, rest');
  }

  /** Swapping two keys that tie is another valid sort, and it prints the pairs in another order. */
  lemma SwapTie(fold: Casing, q: map<string, seq<string>>, presigned: bool, keys: seq<string>, i: nat, j: nat)
    requires ByteQuery(q) && SortedKeys(fold, keys, QueryKeys(fold, q, presigned))
    requires i < j < |keys| && fold.lower(keys[i]) == fold.lower(keys[j])
    ensures !OneText(fold, q, presigned)
  {
    var keys' := keys[i := keys[j]][j := keys[i]];
    SwapStillSorted(fold, keys, i, j, QueryKeys(fold, q, presigned));
    KeysAre(fold, keys, q, presigned);
    KeysAre(fold, keys', q, presigned);
    SwapText(q, keys, keys', i, j);
  }

  lemma SwapStillSorted(fold: Casing, keys: seq<string>, i: nat, j: nat, S: set<string>)
    requires SortedKeys(fold, keys, S) && i < j < |keys| && fold.lower(keys[i]) == fold.lower(keys[j])
    ensures SortedKeys(fold, keys[i := keys[j]][j := keys[i]], S)
  {
    SwapSorted(fold, keys, i, j);
    SwapElements(keys, i, j);
  }

  lemma SwapSorted(fold: Casing, keys: seq<string>, i: nat, j: nat)
    requires SortedBy(fold.lower, keys) && i < j < |keys| && fold.lower(keys[i]) == fold.lower(keys[j])
    ensures SortedBy(fold.lower, keys[i := keys[j]][j := keys[i]])
  {
  }

  lemma SwapElements(keys: seq<string>, i: nat, j: nat)
    requires Distinct(keys) && i < j < |keys|
    ensures Distinct(keys[i := keys[j]][j := keys[i]])
    ensures Elements(keys[i := keys[j]][j := keys[i]]) == Elements(keys)
  {
    var keys' := keys[i := keys[j]][j := keys[i]];
    forall x ensures x in keys <==> x in keys' {
      if x in keys {
        var n :| 0 <= n < |keys| && keys[n] == x;
        assert keys'[if n == i then j else if n == j then i else n] == x;
      }
      if x in keys' {
        var n :| 0 <= n < |keys| && keys'[n] == x;
      }
    }
  }

  /** The canonical query string is well defined exactly when no two signed keys are equal up to case. */
  lemma OneTextIffCaseDistinct(fold: Casing, q: map<string, seq<string>>, presigned: bool)
    requires ByteQuery(q)
    ensures OneText(fold, q, presigned) <==> CaseDistinct(fold, QueryKeys(fold, q, presigned))
  {
    var S := QueryKeys(fold, q, presigned);
    if CaseDistinct(fold, S) {
      forall keys, keys' | SortedKeys(fold, keys, S) && SortedKeys(fold, keys', S) ensures QueryText(q, keys) == QueryText(q, keys') {
        QueryDetermined(fold, q, presigned, keys, q, presigned, keys');
      }
    } else {
      var k, k' :| k in S && k' in S && fold.lower(k) == fold.lower(k') && k != k';
      TieIsSeen(fold, q, presigned, k, k');
    }
  }

  lemma TieIsSeen(fold: Casing, q: map<string, seq<string>>, presigned: bool, k: string, k': string)
    requires ByteQuery(q) && k in QueryKeys(fold, q, presigned) && k' in QueryKeys(fold, q, presigned)
    requires fold.lower(k) == fold.lower(k') && k != k'
    ensures !OneText(fold, q, presigned)
  {
    var any := AnyOrder(QueryKeys(fold, q, presigned));
    SortKeys(fold, any);
    var keys := SortBy(fold.lower, any);
    KeysAre(fold, keys, q, presigned);
    var i :| 0 <= i < |keys| && keys[i] == k;
    var j :| 0 <= j < |keys| && keys[j] == k';
    SwapTie(fold, q, presigned, keys, if i < j then i else j, if i < j then j else i);
  }

  // ---------------------------------------------------------------- the signed headers

  /** The characters of a header name, the tokens of section 5.6.2 of RFC 9110. */
  predicate IsToken(c: char) {
    || 'a' <= c <= 'z' || 'A' <= c <= 'Z' || '0' <= c <= '9'
    || c == '!' || '#' <= c <= '\'' || c == '*' || c == '+' || c == '-' || c == '.' || '^' <= c <= '`' || c == '|' || c == '~'
  }

  predicate Token(name: string) {
    forall i :: 0 <= i < |name| ==> IsToken(name[i])
  }

  /** textproto.CanonicalMIMEHeaderKey: capitals at the start and behind hyphens; other text is left alone. */
  function CanonicalKey(name: string): (k: string)
    ensures |k| == |name|
  {
    if !Token(name) then name
    else Capitals(name)
  }

  function Capitals(name: string): (k: string)
    ensures |k| == |name|
    ensures forall i :: 0 <= i < |name| ==> k[i] == Capital(name[i], i == 0 || name[i - 1] == '-')
  {
    seq(|name|, i requires 0 <= i < |name| => Capital(name[i], i == 0 || name[i - 1] == '-'))
  }

  function Capital(c: char, upper: bool): char {
    if upper && 'a' <= c <= 'z' then (c as int - 32) as char
    else if !upper && 'A' <= c <= 'Z' then (c as int + 32) as char
    else c
  }

  /** All values of a header, in order. */
  function Field(r: Request, name: string): seq<string> {
    if CanonicalKey(name) in r.headers then r.headers[CanonicalKey(name)] else []
  }

  function FirstOf(values: seq<string>): string {
    if values == [] then "" else values[0]
  }

  /** headerCanonicalCase. */
  function CommonCase(fold: Casing, name: string): string {
    var l := fold.lower(name);
    if l == "content-type" then "Content-Type"
    else if l == "x-amz-content-sha256" then "X-Amz-Content-Sha256"
    else if l == "x-amz-date" then "X-Amz-Date"
    else if l == "host" then "Host"
    else name
  }

  /** The values behind a signed name; the host comes from the request itself when it is there. */
  function SignedField(fold: Casing, r: Request, name: string): seq<string> {
    if name == "host" then (if r.host != "" then [r.host] else Field(r, "Host"))
    else if FirstOf(Field(r, name)) != "" then Field(r, name)
    else Field(r, CommonCase(fold, name))
  }

  /** The normalised value a signed header contributes: its first; absent headers and empty first values contribute nothing. */
  function HeaderValue(fold: Casing, r: Request, name: string): Option<string> {
    var val := FirstOf(SignedField(fold, r, name));
    if val == "" then None else Some(Normalize(val))
  }

  /** The host that is signed is the request's own, whatever a Host header says. */
  lemma HostIsTheRequests(fold: Casing, r: Request)
    ensures r.host != "" ==> HeaderValue(fold, r, "host") == Some(Normalize(r.host))
    ensures r.host == "" && "Host" in r.headers && FirstOf(r.headers["Host"]) != "" ==>
              HeaderValue(fold, r, "host") == Some(Normalize(r.headers["Host"][0]))
  {
    assert "Host"[0] == 'H' && "Host"[1] == 'o' && "Host"[2] == 's' && "Host"[3] == 't';
    assert CanonicalKey("Host") == "Host";
  }

  /** A header is found under its canonical name, in whatever case its name is listed. */
  lemma NamedHeader(fold: Casing, r: Request, n: string, values: seq<string>)
    requires n != "host" && Token(n)
    requires CanonicalKey(n) in r.headers && r.headers[CanonicalKey(n)] == values && FirstOf(values) != ""
    ensures CanonicalKey(Lower(n)) == CanonicalKey(n)
    ensures HeaderValue(fold, r, n) == Some(Normalize(values[0]))
    ensures Lower(n) != "host" ==> HeaderValue(fold, r, Lower(n)) == Some(Normalize(values[0]))
  {
    KeyIgnoresCase(n);
  }

  lemma TokenCase(c: char, upper: bool)
    ensures IsToken(c) ==> IsToken(LowerChar(c))
    ensures Capital(LowerChar(c), upper) == Capital(c, upper) && LowerChar(Capital(c, upper)) == LowerChar(c)
    ensures 'A' <= Capital(c, upper) <= 'Z' ==> upper
    ensures 'a' <= Capital(c, upper) <= 'z' ==> !upper
    ensures LowerChar(c) == '-' <==> c == '-'
  {
  }

  lemma LowerToken(n: string)
    requires Token(n)
    ensures Token(Lower(n))
  {
    forall i | 0 <= i < |n| ensures IsToken(Lower(n)[i]) {
      TokenCase(n[i], true);
    }
  }

  lemma KeyAt(n: string, i: nat)
    requires Token(n) && i < |n|
    ensures CanonicalKey(n)[i] == Capital(n[i], i == 0 || n[i - 1] == '-')
  {
  }

  lemma LowerKeyAt(n: string, i: nat)
    requires Token(n) && i < |n|
    ensures CanonicalKey(Lower(n))[i] == CanonicalKey(n)[i] && Lower(CanonicalKey(n))[i] == Lower(n)[i]
    ensures 'A' <= CanonicalKey(n)[i] <= 'Z' ==> i == 0 || n[i - 1] == '-'
    ensures 'a' <= CanonicalKey(n)[i] <= 'z' ==> i > 0 && n[i - 1] != '-'
  {
    LowerToken(n);
    KeyAt(n, i);
    KeyAt(Lower(n), i);
    TokenCase(n[i], i == 0 || n[i - 1] == '-');
    if i > 0 { TokenCase(n[i - 1], true); }
  }

  /** Canonical names start with a capital, have one behind every hyphen, and nowhere else. */
  lemma KeyIgnoresCase(n: string)
    requires Token(n)
    ensures CanonicalKey(Lower(n)) == CanonicalKey(n) && Lower(CanonicalKey(n)) == Lower(n)
    ensures forall i :: 0 <= i < |n| && 'A' <= CanonicalKey(n)[i] <= 'Z' ==> i == 0 || n[i - 1] == '-'
    ensures forall i :: 0 <= i < |n| && 'a' <= CanonicalKey(n)[i] <= 'z' ==> i > 0 && n[i - 1] != '-'
  {
    forall i: nat | i < |n|
      ensures CanonicalKey(Lower(n))[i] == CanonicalKey(n)[i] && Lower(CanonicalKey(n))[i] == Lower(n)[i]
      ensures 'A' <= CanonicalKey(n)[i] <= 'Z' ==> i == 0 || n[i - 1] == '-'
      ensures 'a' <= CanonicalKey(n)[i] <= 'z' ==> i > 0 && n[i - 1] != '-'
    {
      LowerKeyAt(n, i);
    }
  }

  /** The headers actually signed: those listed, in lower case, that the request has. */
  ghost function SignedNames(fold: Casing, r: Request, signedHeaders: seq<string>): set<string> {
    set h | h in signedHeaders && HeaderValue(fold, r, fold.lower(h)).Some? :: fold.lower(h)
  }

  function First(p: Pair): string { p.0 }

  function NamesOf(hdrs: seq<Pair>): (names: seq<string>)
    ensures |names| == |hdrs| && forall i :: 0 <= i < |hdrs| ==> names[i] == hdrs[i].0
  {
    seq(|hdrs|, i requires 0 <= i < |hdrs| => hdrs[i].0)
  }

  /** Each name with its value. */
  ghost predicate HasValues(fold: Casing, r: Request, hdrs: seq<Pair>) {
    forall h :: h in hdrs ==> HeaderValue(fold, r, h.0) == Some(h.1)
  }

  /** The signed headers as the request has them, in ascending order of their names. */
  ghost predicate IsSigned(fold: Casing, r: Request, signedHeaders: seq<string>, hdrs: seq<Pair>) {
    NamesOf(hdrs) == Enumerate(SignedNames(fold, r, signedHeaders)) && HasValues(fold, r, hdrs)
  }

  function HeaderText(hdrs: seq<Pair>): string {
    if hdrs == [] then "" else hdrs[0].0 + ":" + (hdrs[0].1 + "\n" + HeaderText(hdrs[1..]))
  }

  /** The value a signed name is looked up to, empty when there is none. */
  method LookUp(fold: Casing, r: Request, name: string) returns (val: string)
    ensures val == FirstOf(SignedField(fold, r, name))
  {
    if name == "host" {
      val := r.host;
      if val == "" { val := FirstOf(Field(r, "Host")); }
    } else {
      val := FirstOf(Field(r, name));
      if val == "" { val := FirstOf(Field(r, CommonCase(fold, name))); }
    }
  }

  /** The headers of `done` that are present, each once. */
  ghost predicate Present(fold: Casing, r: Request, done: set<string>, hdrs: seq<Pair>) {
    && Distinct(NamesOf(hdrs)) && HasValues(fold, r, hdrs)
    && forall n :: n in NamesOf(hdrs) <==> n in done && HeaderValue(fold, r, n).Some?
  }

  lemma OneMoreHeader(fold: Casing, r: Request, done: set<string>, hdrs: seq<Pair>, name: string)
    requires Present(fold, r, done, hdrs) && name !in done
    ensures var v := HeaderValue(fold, r, name);
            Present(fold, r, done + {name}, if v.Some? then hdrs + [(name, v.value)] else hdrs)
  {
    var v := HeaderValue(fold, r, name);
    if v.Some? { assert NamesOf(hdrs + [(name, v.value)]) == NamesOf(hdrs) + [name]; }
  }

  method PresentHeaders(fold: Casing, r: Request, need: set<string>) returns (hdrs: seq<Pair>)
    requires forall n :: n in need ==> fold.lower(n) == n
    ensures Present(fold, r, need, hdrs)
  {
    hdrs := [];
    var todo := need;
    while todo != {}
      invariant todo <= need && Present(fold, r, need - todo, hdrs)
      decreases todo
    {
      var name :| name in todo;
      OneMoreHeader(fold, r, need - todo, hdrs, name);
      assert need - (todo - {name}) == need - todo + {name};
      todo := todo - {name};
      var val := LookUp(fold, r, name);
      if val != "" {
        var v := TrimSpaces(val);
        hdrs := hdrs + [(fold.lower(name), v)];
      }
    }
    assert need - {} == need;
  }

  lemma SortHeaders(fold: Casing, r: Request, hdrs: seq<Pair>, S: set<string>)
    requires Distinct(NamesOf(hdrs)) && HasValues(fold, r, hdrs) && Elements(NamesOf(hdrs)) == S
    ensures NamesOf(SortBy(First, hdrs)) == Enumerate(S) && HasValues(fold, r, SortBy(First, hdrs))
  {
    var out := SortBy(First, hdrs);
    SortByIsSort(First, hdrs);
    forall h ensures h in out <==> h in hdrs {
      assert h in out <==> h in multiset(out);
      assert h in hdrs <==> h in multiset(hdrs);
    }
    SortedNames(hdrs, out);
    AscendingUnique(NamesOf(out), Enumerate(S));
  }

  lemma NamesDistinct(hdrs: seq<Pair>)
    requires Distinct(NamesOf(hdrs))
    ensures Distinct(hdrs) && forall h, h' :: h in hdrs && h' in hdrs && h.0 == h'.0 ==> h == h'
  {
    forall h, h' | h in hdrs && h' in hdrs && h.0 == h'.0 ensures h == h' {
      var i :| 0 <= i < |hdrs| && hdrs[i] == h;
      var j :| 0 <= j < |hdrs| && hdrs[j] == h';
      assert NamesOf(hdrs)[i] == NamesOf(hdrs)[j];
    }
    forall i, j | 0 <= i < j < |hdrs| ensures hdrs[i] != hdrs[j] {
      assert NamesOf(hdrs)[i] != NamesOf(hdrs)[j];
    }
  }

  lemma SortedNames(hdrs: seq<Pair>, out: seq<Pair>)
    requires Distinct(NamesOf(hdrs)) && IsSortOf(First, hdrs, out) && (forall h :: h in out <==> h in hdrs)
    ensures StrictlyAscending(NamesOf(out)) && Elements(NamesOf(out)) == Elements(NamesOf(hdrs))
  {
    NamesDistinct(hdrs);
    NoDupMultiset(hdrs);
    var names := NamesOf(out);
    forall i, j | 0 <= i < j < |out| ensures Less(names[i], names[j]) {
      SplitCount(out, i, j);
      assert out[i] in hdrs && out[j] in hdrs;
      assert out[i] != out[j];
      LessTotal(names[i], names[j]);
      assert !Less(First(out[j]), First(out[i]));
    }
    forall n ensures n in names <==> n in NamesOf(hdrs) {
      if n in names {
        var i :| 0 <= i < |out| && names[i] == n;
        assert out[i] in hdrs;
        var j :| 0 <= j < |hdrs| && hdrs[j] == out[i];
        assert NamesOf(hdrs)[j] == n;
      }
      if n in NamesOf(hdrs) {
        var i :| 0 <= i < |hdrs| && NamesOf(hdrs)[i] == n;
        assert hdrs[i] in out;
        var j :| 0 <= j < |out| && out[j] == hdrs[i];
        assert names[j] == n;
      }
    }
  }

  method LowerAll(fold: Casing, signedHeaders: seq<string>) returns (need: set<string>)
    ensures need == set h | h in signedHeaders :: fold.lower(h)
  {
    need := {};
    for i := 0 to |signedHeaders|
      invariant need == set h | h in signedHeaders[..i] :: fold.lower(h)
    {
      assert signedHeaders[..i + 1] == signedHeaders[..i] + [signedHeaders[i]];
      need := need + {fold.lower(signedHeaders[i])};
    }
    assert signedHeaders[..|signedHeaders|] == signedHeaders;
  }

  method PrintHeaders(sorted: seq<Pair>) returns (text: string, actual: seq<string>)
    ensures text == HeaderText(sorted) && actual == NamesOf(sorted)
  {
    text, actual := "", [];
    for i := 0 to |sorted|
      invariant text + HeaderText(sorted[i..]) == HeaderText(sorted)
      invariant actual == NamesOf(sorted)[..i]
    {
      var h := sorted[i];
      assert sorted[i..][1..] == sorted[i + 1..];
      NextLine(text, h, sorted[i..]);
      text := text + h.0 + ":" + h.1 + "\n";
      actual := actual + [h.0];
    }
    assert sorted[|sorted|..] == [];
  }

  method CanonicalHeadersAndList(fold: Casing, r: Request, signedHeaders: seq<string>)
    returns (text: string, actual: seq<string>, ghost hdrs: seq<Pair>)
    requires LowersSoundly(fold)
    ensures actual == Enumerate(SignedNames(fold, r, signedHeaders))
    ensures IsSigned(fold, r, signedHeaders, hdrs) && actual == NamesOf(hdrs) && text == HeaderText(hdrs)
  {
    var need := LowerAll(fold, signedHeaders);
    var found := PresentHeaders(fold, r, need);
    assert Elements(NamesOf(found)) == SignedNames(fold, r, signedHeaders);
    SortHeaders(fold, r, found, SignedNames(fold, r, signedHeaders));
    var sorted := SortBy(First, found);
    hdrs := sorted;
    text, actual := PrintHeaders(sorted);
  }

  lemma NextLine(text: string, h: Pair, rest: seq<Pair>)
    requires rest != [] && rest[0] == h
    ensures text + HeaderText(rest) == text + h.0 + ":" + h.1 + "\n" + HeaderText(rest[1..])
  {
  }

  // ---------------------------------------------------------------- reading the headers back

  ghost predicate CleanHeaders(hdrs: seq<Pair>) {
    forall h :: h in hdrs ==> Lacks(h.0, '\n') && Lacks(h.0, ':') && Lacks(h.1, '\n')
  }

  /** Header lines end at the first empty line: the block determines the headers and what follows them. */
  lemma {:induction false} HeadersFromText(a: seq<Pair>, x: string, b: seq<Pair>, y: string)
    requires CleanHeaders(a) && CleanHeaders(b)
    requires HeaderText(a) + "\n" + x == HeaderText(b) + "\n" + y
    ensures a == b && x == y
  {
    LineStart(a, x);
    LineStart(b, y);
    if a == [] {
      assert ("\n" + x)[1..] == x && ("\n" + y)[1..] == y;
      assert "" + "\n" + x == "\n" + x && "" + "\n" + y == "\n" + y;
    } else {
      FirstLine(a, x);
      FirstLine(b, y);
      CutAt(a[0].0, a[0].1 + ['\n'] + (HeaderText(a[1..]) + "\n" + x),
            b[0].0, b[0].1 + ['\n'] + (HeaderText(b[1..]) + "\n" + y), ':');
      CutAt(a[0].1, HeaderText(a[1..]) + "\n" + x, b[0].1, HeaderText(b[1..]) + "\n" + y, '\n');
      HeadersFromText(a[1..], x, b[1..], y);
      assert a == [a[0]] + a[1..] && b == [b[0]] + b[1..];
    }
  }

  lemma FirstLine(a: seq<Pair>, x: string)
    requires a != []
    ensures HeaderText(a) + "\n" + x == a[0].0 + [':'] + (a[0].1 + ['\n'] + (HeaderText(a[1..]) + "\n" + x))
  {
  }

  lemma LineStart(a: seq<Pair>, x: string)
    requires CleanHeaders(a)
    ensures (HeaderText(a) + "\n" + x)[0] == '\n' <==> a == []
  {
    if a != [] {
      assert a[0] in a;
      assert (HeaderText(a) + "\n" + x)[0] == if a[0].0 == "" then ':' else a[0].0[0];
    }
  }

  // ---------------------------------------------------------------- the canonical request

  function SlashPath(path: string): string {
    if path == "" || path[0] != '/' then "/" + path else path
  }

  function Text(r: Request, keys: seq<string>, hdrs: seq<Pair>, payloadHash: string): string {
    r.verb + "\n" + (Encode(SlashPath(r.path), false) + "\n" + (QueryText(r.query, keys) + "\n" +
      (HeaderText(hdrs) + "\n" + (Join(NamesOf(hdrs), ';') + "\n" + payloadHash))))
  }

  /** Refused when no listed header is present; otherwise the fields, one after the other. */
  method BuildCanonicalRequest(fold: Casing, r: Request, signedHeaders: seq<string>, payloadHash: string, presigned: bool)
    returns (text: Option<string>, keys: seq<string>, ghost hdrs: seq<Pair>)
    requires LowersSoundly(fold)
    ensures text.None? <==> SignedNames(fold, r, signedHeaders) == {}
    ensures text.Some? ==>
              && SortedKeys(fold, keys, QueryKeys(fold, r.query, presigned)) && IsSigned(fold, r, signedHeaders, hdrs)
              && text.value == Text(r, keys, hdrs, payloadHash)
  {
    var canonURI := r.path;
    if canonURI == "" || canonURI[0] != '/' { canonURI := "/" + canonURI; }
    canonURI := UriEncodePath(canonURI);
    var canonQuery;
    canonQuery, keys := CanonicalQueryString(fold, r.query, presigned);
    var canonHeaders, signed;
    canonHeaders, signed, hdrs := CanonicalHeadersAndList(fold, r, signedHeaders);
    assert Elements(signed) == SignedNames(fold, r, signedHeaders);
    if |signed| == 0 { return None, keys, hdrs; }
    assert signed[0] in Elements(signed);
    var signedCSV := Join(signed, ';');
    text := Some(r.verb + "\n" + (canonURI + "\n" + (canonQuery + "\n" + (canonHeaders + "\n" + (signedCSV + "\n" + payloadHash)))));
  }

  predicate KeptText(s: string) {
    forall c :: c in s ==> Kept(c, false)
  }

  /** The whole text of a request with one parameter of two values and two signed headers. */
  lemma SmallText(verb: string, path: string, k: string, v: string, v': string, a: Pair, b: Pair, hash: string)
    requires KeptText(k) && KeptText(v) && KeptText(v') && Less(v, v')
    ensures var r := Request(verb, "/" + path, map[k := [v', v]], "", map[]);
            Text(r, [k], [a, b], hash) ==
            verb + "\n" + (Encode("/" + path, false) + "\n" +
              ((k + "=" + v + "&" + (k + "=" + v')) + "\n" +
                ((a.0 + ":" + (a.1 + "\n" + (b.0 + ":" + (b.1 + "\n")))) + "\n" +
                  ((a.0 + ";" + b.0) + "\n" + hash))))
  {
    SmallQuery(k, v, v');
    SmallHeaders(a, b);
  }

  lemma SmallQuery(k: string, v: string, v': string)
    requires KeptText(k) && KeptText(v) && KeptText(v') && Less(v, v')
    ensures QueryText(map[k := [v', v]], [k]) == k + "=" + v + "&" + (k + "=" + v')
  {
    var q := map[k := [v', v]];
    SmallSort(v, v');
    TwoParts(k, v, v');
    KeptPart(k, v);
    KeptPart(k, v');
    assert QueryParts(q, []) == [] && [k][..0] == [];
    assert Values(q, k) == [v, v'];
    assert QueryParts(q, [k]) == [] + KeyParts(k, Values(q, k)) == [k + "=" + v, k + "=" + v'];
    JoinTwo(k + "=" + v, k + "=" + v', '&');
  }

  lemma KeptPart(k: string, v: string)
    requires KeptText(k) && KeptText(v)
    ensures PartText(k, v) == k + "=" + v
  {
    UnchangedIffKept(k, false);
    UnchangedIffKept(v, false);
  }

  lemma JoinTwo(a: string, b: string, sep: char)
    ensures Join([a, b], sep) == a + [sep] + b
  {
    assert [a, b][1..] == [b];
  }

  lemma TwoParts(k: string, v: string, v': string)
    ensures KeyParts(k, [v, v']) == [PartText(k, v), PartText(k, v')]
  {
    assert [v, v'][..1] == [v] && [v][..0] == [];
    assert KeyParts(k, [v]) == [] + [PartText(k, v)];
    assert KeyParts(k, [v, v']) == KeyParts(k, [v]) + [PartText(k, v')];
  }

  lemma SmallSort(v: string, v': string)
    requires Less(v, v')
    ensures SortStrings([v', v]) == [v, v']
  {
    assert [v', v][1..] == [v] && [v][1..] == [];
    assert SortBy(Identity, [v]) == [v];
    assert InsertBy(Identity, v', []) == [v'];
  }

  lemma SmallHeaders(a: Pair, b: Pair)
    ensures HeaderText([a, b]) == a.0 + ":" + (a.1 + "\n" + (b.0 + ":" + (b.1 + "\n")))
    ensures Join(NamesOf([a, b]), ';') == a.0 + ";" + b.0
  {
    assert [a, b][1..] == [b] && [b][1..] == [];
    assert b.1 + "\n" + "" == b.1 + "\n";
    assert HeaderText([b]) == b.0 + ":" + (b.1 + "\n" + "");
    assert NamesOf([a, b]) == [a.0, b.0] && [a.0, b.0][1..] == [b.0];
  }

  // ---------------------------------------------------------------- the canonical request determines the request

  /** The same request, as far as it is signed. */
  ghost predicate SameSigned(fold: Casing, r: Request, signedHeaders: seq<string>, presigned: bool, payloadHash: string,
                             r': Request, signedHeaders': seq<string>, presigned': bool, payloadHash': string) {
    && r.verb == r'.verb && SlashPath(r.path) == SlashPath(r'.path) && payloadHash == payloadHash'
    && SameQuery(fold, r.query, presigned, r'.query, presigned')
    && SignedNames(fold, r, signedHeaders) == SignedNames(fold, r', signedHeaders')
    && forall n :: n in SignedNames(fold, r, signedHeaders) ==> HeaderValue(fold, r, n) == HeaderValue(fold, r', n)
  }

  lemma Separators(c: char)
    requires c in "\n:"
    ensures !IsToken(c)
    ensures c !in "content-type" && c !in "x-amz-content-sha256" && c !in "x-amz-date" && c !in "host"
  {
  }

  lemma KeptKey(name: string, c: char)
    requires c in name && !IsToken(c)
    ensures CanonicalKey(name) == name
  {
    var i :| 0 <= i < |name| && name[i] == c;
    assert !IsToken(name[i]);
  }

  lemma UncommonName(fold: Casing, name: string, c: char)
    requires LowersSoundly(fold) && c in name && c in "\n:"
    ensures CommonCase(fold, name) == name
  {
    Separators(c);
    assert c in fold.lower(name);
  }

  /** A name that is found in the request's headers, or stands for one that is, holds no separator. */
  lemma CleanName(fold: Casing, r: Request, name: string, c: char)
    requires LowersSoundly(fold) && (forall n :: n in r.headers ==> HeaderName(n))
    requires HeaderValue(fold, r, name).Some? && c in "\n:"
    ensures Lacks(name, c)
  {
    Separators(c);
    if name != "host" && c in name {
      KeptKey(name, c);
      UncommonName(fold, name, c);
    }
  }

  lemma SignedAreClean(fold: Casing, r: Request, signedHeaders: seq<string>, hdrs: seq<Pair>)
    requires LowersSoundly(fold) && Parsed(r) && IsSigned(fold, r, signedHeaders, hdrs)
    ensures CleanHeaders(hdrs)
  {
    forall h | h in hdrs ensures Lacks(h.0, '\n') && Lacks(h.0, ':') && Lacks(h.1, '\n') {
      assert HeaderValue(fold, r, h.0) == Some(h.1);
      CleanName(fold, r, h.0, '\n');
      CleanName(fold, r, h.0, ':');
      NormalizedLacksNewline(FirstOf(SignedField(fold, r, h.0)));
    }
  }

  lemma {:induction false} JoinLacks(parts: seq<string>, sep: char, c: char)
    requires c != sep && forall i :: 0 <= i < |parts| ==> Lacks(parts[i], c)
    ensures Lacks(Join(parts, sep), c)
  {
    if |parts| > 1 { JoinLacks(parts[1..], sep, c); }
  }

  lemma QueryLacksNewline(q: map<string, seq<string>>, keys: seq<string>)
    ensures Lacks(QueryText(q, keys), '\n')
  {
    var parts, pairs := QueryParts(q, keys), QueryPairs(q, keys);
    QueryPartsPrint(q, keys);
    forall i | 0 <= i < |parts| ensures Lacks(parts[i], '\n') {
      EncodedLacks(pairs[i].0, '\n');
      EncodedLacks(pairs[i].1, '\n');
    }
    JoinLacks(parts, '&', '\n');
  }

  lemma SamePath(p: string, p': string)
    requires IsBytes(p) && IsBytes(p') && Encode(SlashPath(p), false) == Encode(SlashPath(p'), false)
    ensures SlashPath(p) == SlashPath(p')
  {
    EncodeRoundTrip(SlashPath(p), false);
    EncodeRoundTrip(SlashPath(p'), false);
  }

  /** Equal texts are equal field by field. */
  lemma FieldsFromText(r: Request, keys: seq<string>, hdrs: seq<Pair>, payloadHash: string,
                       r': Request, keys': seq<string>, hdrs': seq<Pair>, payloadHash': string)
    requires Lacks(r.verb, '\n') && Lacks(r'.verb, '\n') && CleanHeaders(hdrs) && CleanHeaders(hdrs')
    requires Text(r, keys, hdrs, payloadHash) == Text(r', keys', hdrs', payloadHash')
    ensures r.verb == r'.verb && Encode(SlashPath(r.path), false) == Encode(SlashPath(r'.path), false)
    ensures QueryText(r.query, keys) == QueryText(r'.query, keys') && hdrs == hdrs' && payloadHash == payloadHash'
  {
    var e, e' := Join(NamesOf(hdrs), ';') + "\n" + payloadHash, Join(NamesOf(hdrs'), ';') + "\n" + payloadHash';
    var d, d' := HeaderText(hdrs) + "\n" + e, HeaderText(hdrs') + "\n" + e';
    var c, c' := QueryText(r.query, keys) + "\n" + d, QueryText(r'.query, keys') + "\n" + d';
    var b, b' := Encode(SlashPath(r.path), false) + "\n" + c, Encode(SlashPath(r'.path), false) + "\n" + c';
    CutAt(r.verb, b, r'.verb, b', '\n');
    EncodedLacks(SlashPath(r.path), '\n');
    EncodedLacks(SlashPath(r'.path), '\n');
    CutAt(Encode(SlashPath(r.path), false), c, Encode(SlashPath(r'.path), false), c', '\n');
    QueryLacksNewline(r.query, keys);
    QueryLacksNewline(r'.query, keys');
    CutAt(QueryText(r.query, keys), d, QueryText(r'.query, keys'), d', '\n');
    HeadersFromText(hdrs, e, hdrs', e');
    SamePrefix(Join(NamesOf(hdrs), ';') + "\n", payloadHash, payloadHash');
  }

  lemma SamePrefix(p: string, x: string, y: string)
    requires p + x == p + y
    ensures x == y
  {
    assert (p + x)[|p|..] == x && (p + y)[|p|..] == y;
  }

  lemma NamesAreSigned(fold: Casing, r: Request, signedHeaders: seq<string>, hdrs: seq<Pair>, n: string)
    requires IsSigned(fold, r, signedHeaders, hdrs)
    ensures n in SignedNames(fold, r, signedHeaders) <==> n in NamesOf(hdrs)
  {
    assert n in Elements(NamesOf(hdrs)) <==> n in NamesOf(hdrs);
  }

  lemma HeadersTell(fold: Casing, r: Request, signedHeaders: seq<string>, r': Request, signedHeaders': seq<string>, hdrs: seq<Pair>)
    requires IsSigned(fold, r, signedHeaders, hdrs) && IsSigned(fold, r', signedHeaders', hdrs)
    ensures SignedNames(fold, r, signedHeaders) == SignedNames(fold, r', signedHeaders')
    ensures forall n :: n in SignedNames(fold, r, signedHeaders) ==> HeaderValue(fold, r, n) == HeaderValue(fold, r', n)
  {
    assert Elements(NamesOf(hdrs)) == SignedNames(fold, r, signedHeaders);
    assert Elements(NamesOf(hdrs)) == SignedNames(fold, r', signedHeaders');
    forall n | n in SignedNames(fold, r, signedHeaders) ensures HeaderValue(fold, r, n) == HeaderValue(fold, r', n) {
      NamesAreSigned(fold, r, signedHeaders, hdrs, n);
      var i :| 0 <= i < |hdrs| && NamesOf(hdrs)[i] == n;
      assert hdrs[i] in hdrs;
    }
  }

  lemma HeadersFollow(fold: Casing, r: Request, signedHeaders: seq<string>, r': Request, signedHeaders': seq<string>,
                      hdrs: seq<Pair>, hdrs': seq<Pair>)
    requires IsSigned(fold, r, signedHeaders, hdrs) && IsSigned(fold, r', signedHeaders', hdrs')
    requires SignedNames(fold, r, signedHeaders) == SignedNames(fold, r', signedHeaders')
    requires forall n :: n in SignedNames(fold, r, signedHeaders) ==> HeaderValue(fold, r, n) == HeaderValue(fold, r', n)
    ensures hdrs == hdrs'
  {
    var names := NamesOf(hdrs);
    assert names == NamesOf(hdrs');
    forall i | 0 <= i < |hdrs| ensures hdrs[i] == hdrs'[i] {
      assert names[i] == hdrs[i].0 && names[i] == hdrs'[i].0;
      assert hdrs[i] in hdrs && hdrs'[i] in hdrs' && names[i] in names;
      NamesAreSigned(fold, r, signedHeaders, hdrs, names[i]);
    }
  }

  /** Equal canonical requests come from the same signed request. */
  lemma CanonicalDetermines(fold: Casing, r: Request, signedHeaders: seq<string>, presigned: bool, payloadHash: string,
                            keys: seq<string>, hdrs: seq<Pair>,
                            r': Request, signedHeaders': seq<string>, presigned': bool, payloadHash': string,
                            keys': seq<string>, hdrs': seq<Pair>)
    requires LowersSoundly(fold)
    requires Parsed(r) && SortedKeys(fold, keys, QueryKeys(fold, r.query, presigned)) && IsSigned(fold, r, signedHeaders, hdrs)
    requires Parsed(r') && SortedKeys(fold, keys', QueryKeys(fold, r'.query, presigned')) && IsSigned(fold, r', signedHeaders', hdrs')
    requires Text(r, keys, hdrs, payloadHash) == Text(r', keys', hdrs', payloadHash')
    ensures SameSigned(fold, r, signedHeaders, presigned, payloadHash, r', signedHeaders', presigned', payloadHash')
  {
    SignedAreClean(fold, r, signedHeaders, hdrs);
    SignedAreClean(fold, r', signedHeaders', hdrs');
    FieldsFromText(r, keys, hdrs, payloadHash, r', keys', hdrs', payloadHash');
    SamePath(r.path, r'.path);
    QueryDetermines(fold, r.query, presigned, keys, r'.query, presigned', keys');
    HeadersTell(fold, r, signedHeaders, r', signedHeaders', hdrs);
  }

  /**
   * Conversely the same signed request gives the same text, in whatever order parameters and signed
   * headers were listed, provided no two signed query keys are equal up to case.
   */
  lemma CanonicalDetermined(fold: Casing, r: Request, signedHeaders: seq<string>, presigned: bool, payloadHash: string,
                            keys: seq<string>, hdrs: seq<Pair>,
                            r': Request, signedHeaders': seq<string>, presigned': bool, payloadHash': string,
                            keys': seq<string>, hdrs': seq<Pair>)
    requires SortedKeys(fold, keys, QueryKeys(fold, r.query, presigned)) && IsSigned(fold, r, signedHeaders, hdrs)
    requires SortedKeys(fold, keys', QueryKeys(fold, r'.query, presigned')) && IsSigned(fold, r', signedHeaders', hdrs')
    requires SameSigned(fold, r, signedHeaders, presigned, payloadHash, r', signedHeaders', presigned', payloadHash')
    requires CaseDistinct(fold, QueryKeys(fold, r.query, presigned))
    ensures Text(r, keys, hdrs, payloadHash) == Text(r', keys', hdrs', payloadHash')
  {
    QueryDetermined(fold, r.query, presigned, keys, r'.query, presigned', keys');
    HeadersFollow(fold, r, signedHeaders, r', signedHeaders', hdrs, hdrs');
  }

  /** The signature itself is not part of what a presigned URL signs: adding or changing it changes nothing. */
  lemma SignatureNotSigned(fold: Casing, q: map<string, seq<string>>, k: string, vs: seq<string>, keys: seq<string>)
    requires fold.equalFold(k, SIGNATURE) && SortedKeys(fold, keys, QueryKeys(fold, q, true))
    ensures SortedKeys(fold, keys, QueryKeys(fold, q[k := vs], true)) && QueryText(q[k := vs], keys) == QueryText(q, keys)
  {
    assert QueryKeys(fold, q[k := vs], true) == QueryKeys(fold, q, true);
    KeysAre(fold, keys, q, true);
    SameParts(q, q[k := vs], keys);
  }

  // ---------------------------------------------------------------- what the text leaves open

  /** Every signed header has one value, so that reading only the first leaves nothing out. */
  ghost predicate SingleValued(fold: Casing, r: Request, signedHeaders: seq<string>) {
    forall n :: n in SignedNames(fold, r, signedHeaders) ==> |SignedField(fold, r, n)| == 1
  }

  ghost predicate ValidValues(fold: Casing, r: Request, signedHeaders: seq<string>) {
    forall n, v :: n in SignedNames(fold, r, signedHeaders) && v in SignedField(fold, r, n) ==> ValidUtf8(TrimSpace(v))
  }

  function MapAll<T>(f: string -> T, values: seq<string>): (out: seq<T>)
    ensures |out| == |values| && forall i :: 0 <= i < |out| ==> out[i] == f(values[i])
  {
    seq(|values|, i requires 0 <= i < |values| => f(values[i]))
  }

  lemma MapOne<T>(f: string -> T, a: seq<string>, b: seq<string>)
    requires |a| == |b| == 1 && f(a[0]) == f(b[0])
    ensures MapAll(f, a) == MapAll(f, b)
  {
  }

  function TrimmedWords(v: string): seq<string> {
    Words(TrimSpace(v))
  }

  function WordsOf(values: seq<string>): seq<seq<string>> {
    MapAll(TrimmedWords, values)
  }

  /** The same request with all but the first value of each header dropped. */
  function FirstValuesOnly(r: Request): Request {
    r.(headers := map k | k in r.headers :: if |r.headers[k]| > 1 then r.headers[k][..1] else r.headers[k])
  }

  lemma SignedIsNonEmpty(fold: Casing, r: Request, signedHeaders: seq<string>, n: string)
    requires n in SignedNames(fold, r, signedHeaders)
    ensures SignedField(fold, r, n) != [] && HeaderValue(fold, r, n) == Some(Normalize(SignedField(fold, r, n)[0]))
  {
  }

  /**
   * Between requests whose signed headers have one value each, in UTF-8, equal canonical requests mean
   * equal words in every signed header: nothing of it is left out.
   */
  lemma CanonicalDeterminesValues(fold: Casing, r: Request, signedHeaders: seq<string>, presigned: bool, payloadHash: string,
                                  keys: seq<string>, hdrs: seq<Pair>,
                                  r': Request, signedHeaders': seq<string>, presigned': bool, payloadHash': string,
                                  keys': seq<string>, hdrs': seq<Pair>)
    requires LowersSoundly(fold)
    requires Parsed(r) && SortedKeys(fold, keys, QueryKeys(fold, r.query, presigned)) && IsSigned(fold, r, signedHeaders, hdrs)
    requires Parsed(r') && SortedKeys(fold, keys', QueryKeys(fold, r'.query, presigned')) && IsSigned(fold, r', signedHeaders', hdrs')
    requires Text(r, keys, hdrs, payloadHash) == Text(r', keys', hdrs', payloadHash')
    requires SingleValued(fold, r, signedHeaders) && ValidValues(fold, r, signedHeaders)
    requires SingleValued(fold, r', signedHeaders') && ValidValues(fold, r', signedHeaders')
    ensures SignedNames(fold, r, signedHeaders) == SignedNames(fold, r', signedHeaders')
    ensures forall n :: n in SignedNames(fold, r, signedHeaders) ==>
              WordsOf(SignedField(fold, r, n)) == WordsOf(SignedField(fold, r', n))
  {
    CanonicalDetermines(fold, r, signedHeaders, presigned, payloadHash, keys, hdrs,
                        r', signedHeaders', presigned', payloadHash', keys', hdrs');
    forall n | n in SignedNames(fold, r, signedHeaders)
      ensures WordsOf(SignedField(fold, r, n)) == WordsOf(SignedField(fold, r', n))
    {
      SignedIsNonEmpty(fold, r, signedHeaders, n);
      SignedIsNonEmpty(fold, r', signedHeaders', n);
      SameOneValue(SignedField(fold, r, n), SignedField(fold, r', n));
    }
  }

  lemma SameOneValue(a: seq<string>, b: seq<string>)
    requires |a| == |b| == 1 && Normalize(a[0]) == Normalize(b[0])
    requires (forall v :: v in a ==> ValidUtf8(TrimSpace(v))) && (forall v :: v in b ==> ValidUtf8(TrimSpace(v)))
    ensures WordsOf(a) == WordsOf(b)
  {
    assert a[0] in a && b[0] in b;
    SameWordsIfValid(a[0], b[0]);
    MapOne(TrimmedWords, a, b);
  }

  lemma FirstIsKept(r: Request, name: string)
    ensures FirstOf(Field(FirstValuesOnly(r), name)) == FirstOf(Field(r, name))
    ensures Field(FirstValuesOnly(r), name) == (if |Field(r, name)| > 1 then Field(r, name)[..1] else Field(r, name))
  {
  }

  lemma FieldWithoutRest(fold: Casing, r: Request, n: string)
    ensures HeaderValue(fold, FirstValuesOnly(r), n) == HeaderValue(fold, r, n)
    ensures var f := SignedField(fold, r, n); SignedField(fold, FirstValuesOnly(r), n) == if |f| > 1 then f[..1] else f
  {
    FirstIsKept(r, "Host");
    FirstIsKept(r, n);
    FirstIsKept(r, CommonCase(fold, n));
  }

  /**
   * Only first values are signed. Every request has the canonical request of the one with the other
   * values dropped, and the two agree on all values of the signed headers exactly when no signed header
   * has more than one.
   */
  lemma LaterValuesUnsigned(fold: Casing, r: Request, signedHeaders: seq<string>, presigned: bool, payloadHash: string,
                            keys: seq<string>, hdrs: seq<Pair>)
    requires IsSigned(fold, r, signedHeaders, hdrs)
    ensures var f := FirstValuesOnly(r);
            && IsSigned(fold, f, signedHeaders, hdrs) && Text(f, keys, hdrs, payloadHash) == Text(r, keys, hdrs, payloadHash)
            && SameSigned(fold, r, signedHeaders, presigned, payloadHash, f, signedHeaders, presigned, payloadHash)
            && ((forall n :: n in SignedNames(fold, r, signedHeaders) ==> SignedField(fold, f, n) == SignedField(fold, r, n))
                  <==> SingleValued(fold, r, signedHeaders))
  {
    var f := FirstValuesOnly(r);
    forall n ensures HeaderValue(fold, f, n) == HeaderValue(fold, r, n) {
      FieldWithoutRest(fold, r, n);
    }
    SameSignedHeaders(fold, r, f, signedHeaders, hdrs);
    forall n | n in SignedNames(fold, r, signedHeaders)
      ensures SignedField(fold, f, n) == SignedField(fold, r, n) <==> |SignedField(fold, r, n)| == 1
    {
      SignedIsNonEmpty(fold, r, signedHeaders, n);
      FieldWithoutRest(fold, r, n);
    }
  }

  /** A header contributes by the first values only. */
  lemma ValueFromFirsts(fold: Casing, r: Request, r': Request, n: string)
    requires r'.host == r.host
    requires forall x :: x in {"Host", n, CommonCase(fold, n)} ==> FirstOf(Field(r', x)) == FirstOf(Field(r, x))
    ensures HeaderValue(fold, r', n) == HeaderValue(fold, r, n)
  {
    assert "Host" in {"Host", n, CommonCase(fold, n)} && n in {"Host", n, CommonCase(fold, n)};
    assert FirstOf(SignedField(fold, r', n)) == FirstOf(SignedField(fold, r, n));
  }

  lemma FirstOfLonger(values: seq<string>, more: seq<string>)
    requires values != []
    ensures FirstOf(values + more) == FirstOf(values)
  {
  }

  /** The failing pair: whatever values are added behind the first of a header, the canonical request stays the same. */
  lemma AddedValuesUnsigned(fold: Casing, r: Request, signedHeaders: seq<string>, k: string, more: seq<string>,
                            presigned: bool, payloadHash: string, keys: seq<string>, hdrs: seq<Pair>)
    requires IsSigned(fold, r, signedHeaders, hdrs) && k in r.headers && r.headers[k] != []
    ensures var r' := r.(headers := r.headers[k := r.headers[k] + more]);
            IsSigned(fold, r', signedHeaders, hdrs) && Text(r', keys, hdrs, payloadHash) == Text(r, keys, hdrs, payloadHash)
  {
    var r' := r.(headers := r.headers[k := r.headers[k] + more]);
    FirstOfLonger(r.headers[k], more);
    forall n ensures HeaderValue(fold, r', n) == HeaderValue(fold, r, n) {
      ValueFromFirsts(fold, r, r', n);
    }
    SameSignedHeaders(fold, r, r', signedHeaders, hdrs);
  }

  lemma SameSignedHeaders(fold: Casing, r: Request, r': Request, signedHeaders: seq<string>, hdrs: seq<Pair>)
    requires IsSigned(fold, r, signedHeaders, hdrs)
    requires forall n :: HeaderValue(fold, r', n) == HeaderValue(fold, r, n)
    ensures SignedNames(fold, r', signedHeaders) == SignedNames(fold, r, signedHeaders) && IsSigned(fold, r', signedHeaders, hdrs)
  {
    assert SignedNames(fold, r', signedHeaders) == SignedNames(fold, r, signedHeaders);
  }

  /** A value as it is read: trimmed, with U+FFFD for bytes that are no UTF-8. Values of white space stay as they are. */
  function AsRead(v: string): string {
    if TrimSpace(v) == "" then v else ReplaceInvalid(TrimSpace(v))
  }

  lemma AsReadSameText(v: string)
    ensures AsRead(v) == "" <==> v == ""
    ensures Normalize(AsRead(v)) == Normalize(v)
    ensures Words(TrimSpace(AsRead(v))) == Words(TrimSpace(v)) <==> ValidUtf8(TrimSpace(v))
  {
    InvalidBytesUnsigned(v);
    KeptIffValid(TrimSpace(v));
  }

  function AllAsRead(values: seq<string>): seq<string> {
    MapAll(AsRead, values)
  }

  /** The same request with its values as they are read. */
  function ValuesAsRead(r: Request): Request {
    r.(host := AsRead(r.host), headers := map k | k in r.headers :: AllAsRead(r.headers[k]))
  }

  lemma FieldAsRead(r: Request, name: string)
    ensures Field(ValuesAsRead(r), name) == AllAsRead(Field(r, name))
    ensures FirstOf(Field(ValuesAsRead(r), name)) == AsRead(FirstOf(Field(r, name)))
    ensures FirstOf(Field(ValuesAsRead(r), name)) == "" <==> FirstOf(Field(r, name)) == ""
  {
    AsReadSameText(FirstOf(Field(r, name)));
  }

  lemma SignedFieldAsRead(fold: Casing, r: Request, n: string)
    ensures SignedField(fold, ValuesAsRead(r), n) == AllAsRead(SignedField(fold, r, n))
  {
    FieldAsRead(r, "Host");
    FieldAsRead(r, n);
    FieldAsRead(r, CommonCase(fold, n));
    AsReadSameText(r.host);
    assert AllAsRead([r.host]) == [AsRead(r.host)];
  }

  lemma HeaderValueAsRead(fold: Casing, r: Request, n: string)
    ensures HeaderValue(fold, ValuesAsRead(r), n) == HeaderValue(fold, r, n)
  {
    SignedFieldAsRead(fold, r, n);
    FirstAsRead(SignedField(fold, r, n));
    AsReadSameText(FirstOf(SignedField(fold, r, n)));
  }

  lemma FirstAsRead(values: seq<string>)
    ensures FirstOf(AllAsRead(values)) == AsRead(FirstOf(values))
  {
    AsReadSameText("");
  }

  lemma WordsAsRead(values: seq<string>)
    ensures WordsOf(AllAsRead(values)) == WordsOf(values) <==> forall v :: v in values ==> ValidUtf8(TrimSpace(v))
  {
    forall i | 0 <= i < |values|
      ensures WordsOf(AllAsRead(values))[i] == WordsOf(values)[i] <==> ValidUtf8(TrimSpace(values[i]))
    {
      AsReadSameText(values[i]);
    }
    if forall v :: v in values ==> ValidUtf8(TrimSpace(v)) {
      forall i | 0 <= i < |values| ensures WordsOf(AllAsRead(values))[i] == WordsOf(values)[i] {
        assert values[i] in values;
      }
    }
  }

  /**
   * Bytes that are no UTF-8 are not told apart. Every request has the canonical request of the one with
   * its values as they are read, and the two have the same words in all signed headers exactly when all
   * their values are valid UTF-8.
   */
  lemma InvalidValuesUnsigned(fold: Casing, r: Request, signedHeaders: seq<string>, presigned: bool, payloadHash: string,
                              keys: seq<string>, hdrs: seq<Pair>)
    requires IsSigned(fold, r, signedHeaders, hdrs)
    ensures var f := ValuesAsRead(r);
            && IsSigned(fold, f, signedHeaders, hdrs) && Text(f, keys, hdrs, payloadHash) == Text(r, keys, hdrs, payloadHash)
            && SameSigned(fold, r, signedHeaders, presigned, payloadHash, f, signedHeaders, presigned, payloadHash)
            && ((forall n :: n in SignedNames(fold, r, signedHeaders) ==>
                   WordsOf(SignedField(fold, f, n)) == WordsOf(SignedField(fold, r, n)))
                  <==> ValidValues(fold, r, signedHeaders))
  {
    var f := ValuesAsRead(r);
    forall n ensures HeaderValue(fold, f, n) == HeaderValue(fold, r, n) {
      HeaderValueAsRead(fold, r, n);
    }
    SameSignedHeaders(fold, r, f, signedHeaders, hdrs);
    forall n | n in SignedNames(fold, r, signedHeaders)
      ensures WordsOf(SignedField(fold, f, n)) == WordsOf(SignedField(fold, r, n)) <==>
              forall v :: v in SignedField(fold, r, n) ==> ValidUtf8(TrimSpace(v))
    {
      SignedFieldAsRead(fold, r, n);
      WordsAsRead(SignedField(fold, r, n));
    }
  }
}
