/** The S3 handlers that change or list the stores (pkg/api/s3/server.go), against the model of both stores. */
module S3Server {
  import opened Strings
  import opened Encoding
  import opened FileTree
  import opened Listing
  import opened ListReference
  import opened Pagination
  import opened Sorting
  import opened MultipartModel
  import LocalFS
  import MetadataStore
  import CappedCopy

  datatype ErrorCode =
    | NoSuchBucket | NoSuchKey | BucketNotEmpty | BucketAlreadyOwnedByYou | InvalidBucketName | InternalError
    | InvalidArgument | NoSuchUpload | InvalidPart | MalformedXML | EntityTooLarge | EntityTooSmall

  datatype Response = Ok(etag: string) | Error(code: ErrorCode)

  datatype ListResponse = Listing(objects: seq<ObjectMeta>, prefixes: seq<string>, truncated: bool, nextToken: string)
                        | ListError(code: ErrorCode)

  /** One entry of a completion request. */
  datatype PartRef = PartRef(number: int, etag: string)

  function IsBucketNameChar(c: char): bool {
    'a' <= c <= 'z' || '0' <= c <= '9' || c == '-' || c == '.'
  }

  function IsAlphanumeric(c: char): bool {
    'a' <= c <= 'z' || '0' <= c <= '9'
  }

  /** 3 to 63 characters, of the allowed ones, the first and last a letter or a digit. */
  predicate AllowedName(name: string) {
    && 3 <= |name| <= 63 && (forall i :: 0 <= i < |name| ==> IsBucketNameChar(name[i]))
    && IsAlphanumeric(name[0]) && IsAlphanumeric(name[|name| - 1])
  }

  method IsValidBucketName(name: string) returns (ok: bool)
    ensures ok <==> AllowedName(name)
    ensures ok ==> BucketName(name)
  {
    if |name| < 3 || |name| > 63 { return false; }
    var i := 0;
    while i < |name|
      invariant 0 <= i <= |name|
      invariant forall j :: 0 <= j < i ==> IsBucketNameChar(name[j])
    {
      if !IsBucketNameChar(name[i]) { return false; }
      i := i + 1;
    }
    ok := IsAlphanumeric(name[0]) && IsAlphanumeric(name[|name| - 1]);
    assert STAGING[0] == '.';
  }

  /** strings.Trim(s, "\""). */
  function TrimQuotes(s: string): string {
    if s != "" && s[0] == '\"' then TrimQuotes(s[1..])
    else if s != "" && s[|s| - 1] == '\"' then TrimQuotes(s[..|s| - 1])
    else s
  }

  predicate Quotes(s: string) {
    forall c :: c in s ==> c == '\"'
  }

  /** Trimming takes quotes off both ends until none is left there. */
  lemma {:induction false} TrimQuotesMeaning(s: string) returns (front: string, back: string)
    ensures s == front + TrimQuotes(s) + back && Quotes(front) && Quotes(back)
    ensures var r := TrimQuotes(s); r != "" ==> r[0] != '\"' && r[|r| - 1] != '\"'
  {
    if s != "" && s[0] == '\"' {
      var front', back' := TrimQuotesMeaning(s[1..]);
      front, back := ['\"'] + front', back';
      assert s == ['\"'] + s[1..] == ['\"'] + (front' + TrimQuotes(s) + back');
    } else if s != "" && s[|s| - 1] == '\"' {
      var front', back' := TrimQuotesMeaning(s[..|s| - 1]);
      front, back := front', back' + ['\"'];
      assert s == s[..|s| - 1] + ['\"'] == (front' + TrimQuotes(s) + back') + ['\"'];
    } else {
      front, back := "", "";
    }
  }

  /** An ETag counts the same with its quotes and without. */
  lemma QuotedETag(s: string)
    requires Lacks(s, '\"')
    ensures TrimQuotes(s) == s && TrimQuotes(['\"'] + s + ['\"']) == s
  {
    var q := ['\"'] + s + ['\"'];
    assert q[1..] == s + ['\"'] && (s + ['\"'])[..|s|] == s;
    if s == "" {
      assert q[1..][1..] == "";
    } else {
      assert s[0] in s && (s + ['\"'])[0] == s[0];
      assert TrimQuotes(s + ['\"']) == TrimQuotes(s);
    }
  }

  // ---------------------------------------------------------------- the checks of a completion request

  predicate Matches(u: Upload, r: PartRef) {
    r.number >= 0 && r.number in u.parts && u.parts[r.number].etag == TrimQuotes(r.etag)
  }

  function TotalSize(u: Upload, req: seq<PartRef>): nat
    requires forall i :: 0 <= i < |req| ==> Matches(u, req[i])
  {
    if req == [] then 0
    else
      var last := req[|req| - 1];
      assert Matches(u, last);
      TotalSize(u, req[..|req| - 1]) + u.parts[last.number].size
  }

  /** The listed parts count one by one, repetitions included. */
  lemma {:induction false} TotalSizeAdds(u: Upload, a: seq<PartRef>, b: seq<PartRef>)
    requires (forall i :: 0 <= i < |a| ==> Matches(u, a[i])) && (forall i :: 0 <= i < |b| ==> Matches(u, b[i]))
    ensures TotalSize(u, a + b) == TotalSize(u, a) + TotalSize(u, b)
    ensures |b| == 1 ==> TotalSize(u, b) == u.parts[b[0].number].size
  {
    if b == [] {
      assert a + b == a;
    } else {
      var front := b[..|b| - 1];
      TotalSizeAdds(u, a, front);
      assert (a + b)[..|a + b| - 1] == a + front;
      assert |b| == 1 ==> front == [];
    }
  }

  /** Every listed part but the one with the highest number reaches the minimum. */
  predicate LargeEnough(u: Upload, req: seq<PartRef>, min: nat)
    requires forall i :: 0 <= i < |req| ==> Matches(u, req[i])
  {
    forall i :: 0 <= i < |req| ==>
      assert Matches(u, req[i]);
      u.parts[req[i].number].size >= min || forall j :: 0 <= j < |req| ==> req[j].number <= req[i].number
  }

  /**
   * A completion request passes when its parts exist with these ETags and, in a large object, are large
   * enough. The sizes are summed in an int64, so a sum of 2^63 bytes or more may wrap below the threshold.
   */
  predicate Acceptable(u: Upload, req: seq<PartRef>, min: nat) {
    && (forall i :: 0 <= i < |req| ==> Matches(u, req[i]))
    && (|req| > 1 && Wrap64(TotalSize(u, req)) >= min ==> LargeEnough(u, req, min))
  }

  /**
   * A request is accepted exactly when each listed part is on record with the listed ETag and, where the
   * size rule applies, only a part with the highest listed number is below the minimum.
   */
  lemma AcceptableMeaning(u: Upload, req: seq<PartRef>, min: nat)
    ensures Acceptable(u, req, min) <==>
              && (forall i :: 0 <= i < |req| ==>
                    req[i].number >= 0 && req[i].number in u.parts && u.parts[req[i].number].etag == TrimQuotes(req[i].etag))
              && (|| |req| <= 1 || Wrap64(TotalSize(u, req)) < min
                  || forall i, j :: 0 <= i < |req| && 0 <= j < |req| && req[i].number < req[j].number ==>
                       u.parts[req[i].number].size >= min)
  {
    if forall i :: 0 <= i < |req| ==>
         req[i].number >= 0 && req[i].number in u.parts && u.parts[req[i].number].etag == TrimQuotes(req[i].etag)
    {
      forall i | 0 <= i < |req| ensures Matches(u, req[i]) {
      }
    }
  }

  /** Below 2^63 bytes the threshold means what it says; a listing past that whose sum wraps escapes the size check. */
  lemma SizeCheck(u: Upload, req: seq<PartRef>, min: nat)
    requires (forall i :: 0 <= i < |req| ==> Matches(u, req[i])) && |req| > 1
    ensures TotalSize(u, req) < 0x8000_0000_0000_0000 ==>
              (Acceptable(u, req, min) <==> (TotalSize(u, req) >= min ==> LargeEnough(u, req, min)))
    ensures 0x8000_0000_0000_0000 <= TotalSize(u, req) < 0x1_0000_0000_0000_0000 ==> Acceptable(u, req, min)
  {
    WrapAdds(TotalSize(u, req), 0);
  }

  method CheckParts(u: Upload, req: seq<PartRef>, min: nat) returns (problem: Option<ErrorCode>)
    ensures problem.None? <==> Acceptable(u, req, min)
    ensures problem.Some? ==>
              problem.value == (if forall i :: 0 <= i < |req| ==> Matches(u, req[i]) then EntityTooSmall else InvalidPart)
  {
    var i := 0;
    while i < |req|
      invariant 0 <= i <= |req|
      invariant forall j :: 0 <= j < i ==> Matches(u, req[j])
    {
      if req[i].number < 0 || req[i].number !in u.parts { return Some(InvalidPart); }
      if u.parts[req[i].number].etag != TrimQuotes(req[i].etag) { return Some(InvalidPart); }
      i := i + 1;
    }
    if |req| <= 1 { return None; }
    var totalSize: i64 := 0;
    i := 0;
    while i < |req|
      invariant 0 <= i <= |req|
      invariant totalSize == Wrap64(TotalSize(u, req[..i]))
    {
      assert req[..i + 1][..i] == req[..i];
      WrapAdds(TotalSize(u, req[..i]), u.parts[req[i].number].size);
      totalSize := Wrap64(totalSize + u.parts[req[i].number].size);
      i := i + 1;
    }
    assert req[..|req|] == req;
    if totalSize < min { return None; }
    var lastNum := HighestNumber(req);
    i := 0;
    while i < |req|
      invariant 0 <= i <= |req|
      invariant forall j :: 0 <= j < i ==> req[j].number == lastNum || u.parts[req[j].number].size >= min
    {
      if req[i].number != lastNum {
        if u.parts[req[i].number].size < min { return Some(EntityTooSmall); }
      }
      i := i + 1;
    }
    return None;
  }

  method HighestNumber(req: seq<PartRef>) returns (lastNum: int)
    requires req != [] && forall i :: 0 <= i < |req| ==> req[i].number >= 0
    ensures forall i :: 0 <= i < |req| ==> req[i].number <= lastNum
    ensures exists i :: 0 <= i < |req| && req[i].number == lastNum
  {
    lastNum := 0;
    var i := 0;
    while i < |req|
      invariant 0 <= i <= |req|
      invariant forall j :: 0 <= j < i ==> req[j].number <= lastNum
      invariant lastNum == 0 || exists j :: 0 <= j < i && req[j].number == lastNum
    {
      if req[i].number > lastNum { lastNum := req[i].number; }
      i := i + 1;
    }
    assert lastNum == 0 ==> req[0].number == lastNum;
  }

  // ---------------------------------------------------------------- facts about the staged files

  /** The request names the upload's own bucket and key. */
  predicate Owns(uploads: map<string, Upload>, id: string, bucket: string, key: string) {
    id in uploads && uploads[id].bucket == bucket && uploads[id].key == key
  }

  ghost function PartPaths(bucket: string, key: string, id: string, ns: set<nat>): set<Path> {
    set n | n in ns :: StagedPath(bucket, key, id, n)
  }

  /** How many entries a page may have: the parameter if it is a positive number, else 1000. */
  function MaxKeys(s: string): nat {
    var mk := ParseInt64(s);
    if mk.Some? && mk.value > 0 then mk.value else 1000
  }

  /** A positive decimal number counts; without one, or with zero or a negative one, a page has 1000 entries. */
  lemma MaxKeysMeaning(n: nat, s: string)
    requires n <= MAX_INT64
    ensures MaxKeys(Itoa(n)) == if n > 0 then n else 1000
    ensures s == "" || s[0] == '-' || !IsDigit(s[|s| - 1]) ==> MaxKeys(s) == 1000
  {
    ParseInt64Itoa(n);
  }

  /** One page of the listing of a query, and the token that continues it. */
  ghost predicate IsListing(t: Tree, q: Query, env: Env, maxKeys: nat, r: ListResponse)
    requires r.Listing?
  {
    var page := PageOf(Enumerate(Entries(t, q, env)), maxKeys);
    && r.truncated == page.truncated
    && Splits(page, r.objects, r.prefixes, WalkedKeys(t, q, env), WalkedPrefixes(t, q))
    && (page.truncated ==> page.entries != [] && r.nextToken == page.entries[|page.entries| - 1])
    && (!page.truncated ==> r.nextToken == "")
    && forall o :: o in r.objects ==> Reported(Files(t), env, q.bucket, o)
  }

  /** NextContinuationToken of a page: its last entry, or nothing when the listing ends there. */
  method TokenAfter(ghost t: Tree, ghost q: Query, ghost env: Env, ghost maxKeys: nat,
                    objects: seq<ObjectMeta>, prefixes: seq<string>, truncated: bool) returns (next: string)
    requires maxKeys > 0
    requires var page := PageOf(Enumerate(Entries(t, q, env)), maxKeys);
             truncated == page.truncated && Splits(page, objects, prefixes, WalkedKeys(t, q, env), WalkedPrefixes(t, q))
    ensures var page := PageOf(Enumerate(Entries(t, q, env)), maxKeys);
            && (truncated ==> page.entries != [] && next == page.entries[|page.entries| - 1])
            && (!truncated ==> next == "")
  {
    next := "";
    if truncated {
      ghost var full := Enumerate(Entries(t, q, env));
      FirstEntries(full, maxKeys);
      next := NextToken(objects, prefixes, PageOf(full, maxKeys), WalkedKeys(t, q, env), WalkedPrefixes(t, q));
    }
  }

  lemma FirstEntries(full: seq<string>, n: nat)
    requires StrictlyAscending(full) && n < |full|
    ensures StrictlyAscending(full[..n]) && Elements(full[..n]) <= Elements(full)
  {
  }

  ghost function StagedUpTo(bucket: string, key: string, id: string, n: nat): set<Path> {
    set i | 1 <= i <= n :: StagedPath(bucket, key, id, i)
  }

  lemma GaplessStaged(id: string, u: Upload)
    requires Gapless(u)
    ensures StagedUpTo(u.bucket, u.key, id, |u.parts|) == StagedPaths(id, u)
  {
    forall p ensures p in StagedUpTo(u.bucket, u.key, id, |u.parts|) <==> p in StagedPaths(id, u) {
      if p in StagedPaths(id, u) {
        var n :| n in u.parts && p == StagedPath(u.bucket, u.key, id, n);
        assert 1 <= n <= |u.parts|;
      }
      if p in StagedUpTo(u.bucket, u.key, id, |u.parts|) {
        var n: nat :| 1 <= n <= |u.parts| && p == StagedPath(u.bucket, u.key, id, n);
        assert n in u.parts;
      }
    }
  }

  ghost predicate AllStaged(files: map<Path, Bytes>, bucket: string, key: string, id: string, n: nat) {
    forall i :: 1 <= i <= n ==> StagedPath(bucket, key, id, i) in files
  }

  /** Reader `i` delivers part `i + 1`. */
  ghost predicate Opened(files: map<Path, Bytes>, bucket: string, key: string, id: string, readers: seq<Bytes>) {
    forall i :: 0 <= i < |readers| ==> Delivers(files, StagedPath(bucket, key, id, i + 1), readers[i])
  }

  ghost predicate Delivers(files: map<Path, Bytes>, p: Path, data: Bytes) {
    p in files && files[p] == data
  }

  /** io.MultiReader. */
  function MultiReader(readers: seq<Bytes>): Bytes {
    if readers == [] then [] else MultiReader(readers[..|readers| - 1]) + readers[|readers| - 1]
  }

  lemma {:induction false} OpenedConcat(files: map<Path, Bytes>, bucket: string, key: string, id: string, readers: seq<Bytes>)
    requires Opened(files, bucket, key, id, readers)
    ensures AllStaged(files, bucket, key, id, |readers|)
    ensures MultiReader(readers) == Concat(files, bucket, key, id, |readers|)
  {
    if readers != [] {
      var n := |readers| - 1;
      assert Delivers(files, StagedPath(bucket, key, id, n + 1), readers[n]);
      assert forall i :: 0 <= i < n ==> readers[..n][i] == readers[i];
      OpenedConcat(files, bucket, key, id, readers[..n]);
    }
  }

  lemma GaplessAllStaged(w: World, md5Hex: Bytes -> string, id: string)
    requires Inv(w, md5Hex) && id in w.uploads && Gapless(w.uploads[id])
    ensures AllStaged(w.files, w.uploads[id].bucket, w.uploads[id].key, id, |w.uploads[id].parts|)
  {
    var u := w.uploads[id];
    forall i | 1 <= i <= |u.parts| ensures StagedPath(u.bucket, u.key, id, i) in w.files {
      assert UploadOk(w, md5Hex, id) && i in u.parts;
      assert PartStaged(w, md5Hex, id, i);
    }
  }

  /** What the completion handler leaves on a working disk is what completing the upload means. */
  lemma CompleteIsApply(w: World, md5Hex: Bytes -> string, id: string)
    requires Inv(w, md5Hex) && id in w.uploads
    requires var u := w.uploads[id]; AllStaged(w.files, u.bucket, u.key, id, |u.parts|)
    ensures Fits(w, Complete(id))
    ensures var u := w.uploads[id];
            var whole := Concat(w.files, u.bucket, u.key, id, |u.parts|);
            Apply(w, md5Hex, Complete(id)) ==
              World(w.buckets, w.uploads - {id},
                    w.files[ObjPath(u.bucket, u.key) := whole] - StagedUpTo(u.bucket, u.key, id, |u.parts|))
  {
    var u := w.uploads[id];
    assert UploadOk(w, md5Hex, id) && BucketName(u.bucket);
    StagedThroughCount(w, md5Hex, id);
    GaplessStaged(id, u);
    var target := ObjPath(u.bucket, u.key);
    forall p | p in StagedPaths(id, u) ensures p != target {
      assert p[0] == STAGING && target[0] == u.bucket;
    }
    RemoveThenAdd(w.files, StagedPaths(id, u), target, Concat(w.files, u.bucket, u.key, id, |u.parts|));
  }

  lemma RemoveThenAdd<K, V>(m: map<K, V>, gone: set<K>, k: K, v: V)
    requires k !in gone
    ensures (m - gone)[k := v] == m[k := v] - gone
  {
  }

  // ---------------------------------------------------------------- the ETag of a completed upload

  /** The decoded ETags of the parts 1..n, one after the other; a missing or malformed one adds nothing. */
  function ETagBytes(u: Upload, n: nat): Bytes {
    if n == 0 then []
    else ETagBytes(u, n - 1) +
         (if n in u.parts && HexDecode(TrimQuotes(u.parts[n].etag)).Some?
          then HexDecode(TrimQuotes(u.parts[n].etag)).value else [])
  }

  method FinalETag(u: Upload, md5Hex: Bytes -> string) returns (etag: string)
    ensures etag == md5Hex(ETagBytes(u, |u.parts|)) + "-" + Itoa(|u.parts|)
  {
    var h: Bytes := [];
    var i := 1;
    while i <= |u.parts|
      invariant 1 <= i <= |u.parts| + 1
      invariant h == ETagBytes(u, i - 1)
    {
      if i in u.parts {
        var sum := HexDecode(TrimQuotes(u.parts[i].etag));
        if sum.Some? { h := h + sum.value; }
      }
      i := i + 1;
    }
    etag := md5Hex(h) + "-" + Itoa(|u.parts|);
  }

  /** The md5 digests of the staged parts 1..n, one after the other. */
  function PartDigests(files: map<Path, Bytes>, md5: Bytes -> Bytes, bucket: string, key: string, id: string, n: nat): Bytes
    requires forall i :: 1 <= i <= n ==> StagedPath(bucket, key, id, i) in files
  {
    if n == 0 then []
    else PartDigests(files, md5, bucket, key, id, n - 1) + md5(files[StagedPath(bucket, key, id, n)])
  }

  lemma {:induction false} HexLacksQuotes(b: Bytes)
    ensures Lacks(HexEncode(b), '\"')
  {
    if b != [] { HexLacksQuotes(b[1..]); }
  }

  lemma ETagOfPart(w: World, md5: Bytes -> Bytes, md5Hex: Bytes -> string, id: string, n: nat)
    requires forall b :: md5Hex(b) == HexEncode(md5(b))
    requires Inv(w, md5Hex) && id in w.uploads && n in w.uploads[id].parts
    ensures var u := w.uploads[id];
            var p := StagedPath(u.bucket, u.key, id, n);
            p in w.files && HexDecode(TrimQuotes(u.parts[n].etag)) == Some(md5(w.files[p]))
  {
    var u := w.uploads[id];
    assert UploadOk(w, md5Hex, id);
    assert PartStaged(w, md5Hex, id, n);
    var sum := md5(w.files[StagedPath(u.bucket, u.key, id, n)]);
    HexLacksQuotes(sum);
    HexRoundTrip(sum);
    assert TrimQuotes(HexEncode(sum)) == HexEncode(sum);
  }

  ghost predicate Decodes(u: Upload, files: map<Path, Bytes>, md5: Bytes -> Bytes, id: string, n: nat) {
    var p := StagedPath(u.bucket, u.key, id, n);
    n in u.parts && p in files && HexDecode(TrimQuotes(u.parts[n].etag)) == Some(md5(files[p]))
  }

  lemma {:induction false} ETagFromDigests(u: Upload, files: map<Path, Bytes>, md5: Bytes -> Bytes, id: string, n: nat)
    requires forall i: nat :: 1 <= i <= n ==> Decodes(u, files, md5, id, i)
    ensures forall i :: 1 <= i <= n ==> StagedPath(u.bucket, u.key, id, i) in files
    ensures ETagBytes(u, n) == PartDigests(files, md5, u.bucket, u.key, id, n)
  {
    forall i | 1 <= i <= n ensures StagedPath(u.bucket, u.key, id, i) in files {
      assert Decodes(u, files, md5, id, i);
    }
    if n > 0 {
      ETagFromDigests(u, files, md5, id, n - 1);
      assert Decodes(u, files, md5, id, n);
    }
  }

  /** The final ETag is the S3 one: computed from the digests of the staged parts, in part order. */
  lemma ETagOfParts(w: World, md5: Bytes -> Bytes, md5Hex: Bytes -> string, id: string)
    requires forall b :: md5Hex(b) == HexEncode(md5(b))
    requires Inv(w, md5Hex) && id in w.uploads && Gapless(w.uploads[id])
    ensures var u := w.uploads[id];
            && AllStaged(w.files, u.bucket, u.key, id, |u.parts|)
            && ETagBytes(u, |u.parts|) == PartDigests(w.files, md5, u.bucket, u.key, id, |u.parts|)
  {
    var u := w.uploads[id];
    forall i: nat | 1 <= i <= |u.parts| ensures Decodes(u, w.files, md5, id, i) {
      ETagOfPart(w, md5, md5Hex, id, i);
    }
    ETagFromDigests(u, w.files, md5, id, |u.parts|);
  }

  /** Of `before` at most `gone` is missing, and on a working disk exactly that. */
  ghost predicate Lost(reliable: bool, before: map<Path, Bytes>, now: map<Path, Bytes>, gone: set<Path>) {
    LocalFS.LosesAtMost(before, now, gone) && (reliable ==> now == before - gone)
  }

  lemma LostMore(reliable: bool, before: map<Path, Bytes>, mid: map<Path, Bytes>, now: map<Path, Bytes>,
                 gone: set<Path>, p: Path, all: set<Path>)
    requires Lost(reliable, before, mid, gone) && Lost(reliable, mid, now, {p}) && all == gone + {p}
    ensures Lost(reliable, before, now, all)
  {
    if reliable { assert before - gone - {p} == before - all; }
  }

  /** Of a vacant bucket every file is under its .multipart directory. */
  lemma VacantFiles(t: Tree, after: Tree, name: string)
    requires WellFormed(t) && LocalFS.Vacant(t, name)
    requires after == map p | p in t && !([name] <= p) :: t[p]
    ensures forall p :: p in Files(t) && p != [] && p[0] == name ==> |p| > 1 && p[1] == STAGING
    ensures Files(after) == FilesOutside(Files(t), name)
  {
    forall p | p in Files(t) && p != [] && p[0] == name ensures |p| > 1 && p[1] == STAGING {
      assert IsFile(t, p) && Placed(t, p);
      assert |p| > 1;
      assert [name] < p;
    }
  }

  // ---------------------------------------------------------------- the server

  class Server {
    const meta: MetadataStore.MemoryStore
    const objs: LocalFS.LocalFS
    const singlePutMax: nat
    const minPartSize: nat

    constructor (meta: MetadataStore.MemoryStore, objs: LocalFS.LocalFS, singlePutMax: nat, minPartSize: nat)
      requires singlePutMax > 0
      ensures this.meta == meta && this.objs == objs
      ensures this.singlePutMax == singlePutMax && this.minPartSize == minPartSize
    {
      this.meta, this.objs, this.singlePutMax, this.minPartSize := meta, objs, singlePutMax, minPartSize;
    }

    ghost function View(): World
      reads meta, objs
    {
      World(meta.buckets, meta.uploads, Files(objs.t))
    }

    /** The store holds plain objects under clean keys. */
    ghost predicate Ready()
      reads meta, objs
    {
      objs.Valid() && LocalFS.PlainFiles(Files(objs.t))
    }

    ghost predicate Consistent()
      reads meta, objs
    {
      Inv(View(), objs.env.md5Hex)
    }

    /** An operation that fits a consistent state leads to a consistent state. */
    lemma StepKeeps(w: World, op: Op)
      requires Fits(w, op) && View() == Apply(w, objs.env.md5Hex, op)
      ensures Inv(w, objs.env.md5Hex) ==> Consistent()
    {
      if Inv(w, objs.env.md5Hex) { StepKeepsInv(w, objs.env.md5Hex, op); }
    }

    method CreateBucket(name: string) returns (r: Response)
      requires Ready()
      modifies meta
      ensures Ready()
      ensures r.Ok? ==> Fits(old(View()), Op.CreateBucket(name))
                        && View() == Apply(old(View()), objs.env.md5Hex, Op.CreateBucket(name))
      ensures r.Error? ==> View() == old(View())
      ensures r == if !AllowedName(name) then Error(InvalidBucketName)
                   else if name in old(meta.buckets) then Error(BucketAlreadyOwnedByYou) else Ok("")
      ensures old(Consistent()) ==> Consistent()
    {
      ghost var w := View();
      var valid := IsValidBucketName(name);
      if !valid { return Error(InvalidBucketName); }
      if name in meta.buckets { return Error(BucketAlreadyOwnedByYou); }
      var created := meta.CreateBucket(name);
      StepKeeps(w, Op.CreateBucket(name));
      return Ok("");
    }

    /**
     * DELETE on a bucket: refused while uploads are active or any object is stored; otherwise the
     * directory and the entry go.
     */
    method DeleteBucket(name: string) returns (r: Response)
      requires Ready() && GoodName(name)
      modifies meta, objs
      ensures Ready()
      ensures r.Ok? ==>
                && Fits(old(View()), Op.DeleteBucket(name)) && LocalFS.Vacant(old(objs.t), name)
                && View() == Apply(old(View()), objs.env.md5Hex, Op.DeleteBucket(name))
      ensures r.Error? ==> View() == old(View())
      ensures r.Ok? && !IsFile(old(objs.t), [name, STAGING]) ==> KeysIn(old(objs.t), objs.env, name) == {}
      ensures old(Consistent()) ==> Consistent()
      ensures name !in old(meta.buckets) ==> r == Error(NoSuchBucket)
      ensures name in old(meta.buckets) ==>
                var inUse := !LocalFS.Vacant(old(objs.t), name) || exists id :: id in old(meta.uploads) && old(meta.uploads)[id].bucket == name;
                && (inUse ==> r == Error(BucketNotEmpty))
                && (!inUse && objs.reliable ==> r == Ok(""))
    {
      ghost var w := View();
      if name !in meta.buckets { return Error(NoSuchBucket); }
      var active := meta.ActiveMultipartCount(name);
      if active > 0 { return Error(BucketNotEmpty); }
      var empty := objs.IsBucketEmpty(name);
      if !empty { return Error(BucketNotEmpty); }
      ghost var t := objs.t;
      var removed := objs.RemoveBucket(name);
      if !removed { return Error(InternalError); }
      VacantFiles(t, objs.t, name);
      LocalFS.VacantListsNothing(t, objs.env, name);
      var _ := meta.DeleteBucket(name);
      StepKeeps(w, Op.DeleteBucket(name));
      return Ok("");
    }

    /**
     * PUT of an object: refused early by its announced length, otherwise copied under the size cap. On a
     * working disk and a steady connection, where the file can be put, the outcome is decided by sizes.
     */
    method PutObject(bucket: string, key: string, contentLength: Option<int>, body: CappedCopy.BodyReader) returns (r: Response)
      requires Ready() && GoodName(bucket) && PlainKey(key) && singlePutMax > 0
      requires body.Valid() && body.pos == 0
      modifies objs, body
      ensures Ready()
      ensures r.Ok? ==>
                && |body.body| <= singlePutMax
                && Fits(old(View()), Op.PutObject(bucket, key, body.body))
                && View() == Apply(old(View()), objs.env.md5Hex, Op.PutObject(bucket, key, body.body))
                && r.etag == objs.env.md5Hex(body.body)
      ensures r.Error? ==> View() == old(View())
      ensures old(Consistent()) ==> Consistent()
      ensures |body.body| > singlePutMax ==> r.Error?
      ensures r == Error(EntityTooLarge) ==>
                || |body.body| >= singlePutMax
                || (contentLength.Some? && contentLength.value > singlePutMax)
      ensures bucket !in meta.buckets ==> r == Error(NoSuchBucket)
      ensures && objs.reliable && body.steady && bucket in meta.buckets && CanPut(old(objs.t), ObjPath(bucket, key)) ==>
                var fits := && (contentLength.None? || contentLength.value <= singlePutMax)
                            && (|body.body| < singlePutMax || (|body.body| == singlePutMax && body.eofWithData));
                r == if fits then Ok(objs.env.md5Hex(body.body)) else Error(EntityTooLarge)
    {
      ghost var w := View();
      if bucket !in meta.buckets { return Error(NoSuchBucket); }
      if contentLength.Some? && contentLength.value > singlePutMax { return Error(EntityTooLarge); }
      var capped := new CappedCopy.CapReader(body, singlePutMax);
      var delivered, st := CappedCopy.CopyAll(capped, 32768);
      GoodObjPath(bucket, key);
      var put := objs.Put(bucket, key, delivered, st != CappedCopy.Eof);
      match put
      case PutOk(etag, _) =>
        StepKeeps(w, Op.PutObject(bucket, key, delivered));
        return Ok(etag);
      case CopyFailed => return if st == CappedCopy.TooLarge then Error(EntityTooLarge) else Error(InternalError);
      case PutFailed => return Error(InternalError);
    }

    /** DELETE of an object. No bucket is checked, so the path may lie in the staging bucket. */
    method DeleteObject(bucket: string, key: string) returns (r: Response)
      requires Ready() && GoodName(bucket) && PlainKey(key)
      modifies objs
      ensures Ready()
      ensures r.Ok? ==> View() == old(View()).(files := old(View()).files - {ObjPath(bucket, key)})
      ensures r.Ok? && Fits(old(View()), Op.DeleteObject(bucket, key)) ==>
                View() == Apply(old(View()), objs.env.md5Hex, Op.DeleteObject(bucket, key))
      ensures r.Error? ==> View() == old(View())
      ensures old(Consistent()) ==>
                (Consistent() <==> r.Error? || bucket != STAGING || ObjPath(bucket, key) !in old(View()).files)
      ensures objs.reliable && ObjPath(bucket, key) in old(View()).files ==> r.Ok?
      ensures ObjPath(bucket, key) !in old(objs.t) ==> r.Error?
      ensures r.Error? ==> r == Error(NoSuchKey)
    {
      ghost var w := View();
      ghost var p := ObjPath(bucket, key);
      LocalFS.NoManifest(objs.t, objs.env, p);
      var deleted := objs.Delete(bucket, key);
      if deleted != LocalFS.Deleted { return Error(NoSuchKey); }
      assert View() == w.(files := w.files - {p});
      if Fits(w, Op.DeleteObject(bucket, key)) {
        StepKeeps(w, Op.DeleteObject(bucket, key));
      } else if Inv(w, objs.env.md5Hex) {
        DeleteUnderStaging(w, objs.env.md5Hex, p);
      }
      return Ok("");
    }

    method InitiateMultipartUpload(bucket: string, key: string, id: string, now: int) returns (r: Response)
      requires Ready() && PlainKey(key) && GoodName(id) && id !in meta.uploads
      modifies meta
      ensures Ready()
      ensures r == if bucket in meta.buckets then Ok(id) else Error(NoSuchBucket)
      ensures r.Ok? ==> Fits(old(View()), Initiate(bucket, key, id, now))
                        && View() == Apply(old(View()), objs.env.md5Hex, Initiate(bucket, key, id, now))
      ensures r.Error? ==> View() == old(View())
      ensures old(Consistent()) ==> Consistent()
    {
      ghost var w := View();
      if bucket !in meta.buckets { return Error(NoSuchBucket); }
      meta.InitiateMultipartUpload(bucket, key, id, now);
      StepKeeps(w, Initiate(bucket, key, id, now));
      return Ok(id);
    }

    /** Upload one part; `readFails` is whether the request body ends in an error. */
    method UploadPart(bucket: string, key: string, id: string, partNum: int, data: Bytes, readFails: bool) returns (r: Response)
      requires Ready() && GoodName(bucket) && PlainKey(key) && GoodName(id)
      modifies meta, objs
      ensures Ready()
      ensures r.Ok? ==>
                && 1 <= partNum <= 10000 && id in old(meta.uploads)
                && meta.buckets == old(meta.buckets)
                && Files(objs.t) == Files(old(objs.t))[StagedPath(bucket, key, id, partNum) := data]
                && meta.uploads == old(meta.uploads)[id := old(meta.uploads)[id].(
                     parts := old(meta.uploads)[id].parts[partNum := Part(objs.env.md5Hex(data), |data|)])]
                && r.etag == objs.env.md5Hex(data)
      ensures r.Ok? && Owns(old(meta.uploads), id, bucket, key) ==>
                && Fits(old(View()), Op.UploadPart(id, partNum, data))
                && View() == Apply(old(View()), objs.env.md5Hex, Op.UploadPart(id, partNum, data))
      ensures r.Error? ==> View() == old(View())
      ensures !(1 <= partNum <= 10000) ==> r == Error(InvalidArgument)
      ensures 1 <= partNum <= 10000 && id !in old(meta.uploads) ==> r == Error(NoSuchUpload)
      ensures && 1 <= partNum <= 10000 && id in old(meta.uploads) && !readFails && objs.reliable
              && CanPut(old(objs.t), StagedPath(bucket, key, id, partNum)) ==>
                r == Ok(objs.env.md5Hex(data))
      ensures old(Consistent()) && (id in old(meta.uploads) ==> Owns(old(meta.uploads), id, bucket, key)) ==> Consistent()
    {
      ghost var w := View();
      if partNum < 1 || partNum > 10000 { return Error(InvalidArgument); }
      var found := meta.GetMultipartUpload(id);
      if !found.Ok? { return Error(NoSuchUpload); }
      GoodStagedPath(bucket, key, id, partNum);
      StagedPathIsPartKey(bucket, key, id, partNum);
      var put := objs.Put(STAGING, PartKey(bucket, key, id, partNum), data, readFails);
      if !put.PutOk? { return Error(InternalError); }
      var recorded := meta.PutPart(id, partNum, put.etag, put.size);
      if Owns(w.uploads, id, bucket, key) { StepKeeps(w, Op.UploadPart(id, partNum, data)); }
      return Ok(put.etag);
    }

    /** Open the parts 1..n one after the other. */
    method GatherParts(bucket: string, key: string, id: string, n: nat) returns (ok: bool, readers: seq<Bytes>)
      requires Ready() && GoodName(bucket) && PlainKey(key) && GoodName(id)
      ensures ok ==> |readers| == n && Opened(Files(objs.t), bucket, key, id, readers)
      ensures !ok && objs.reliable ==> !AllStaged(Files(objs.t), bucket, key, id, n)
    {
      ghost var files := Files(objs.t);
      readers := [];
      var i := 1;
      while i <= n
        invariant 1 <= i <= n + 1 && |readers| == i - 1
        invariant Opened(files, bucket, key, id, readers)
      {
        var part := GetPart(bucket, key, id, i);
        if part.None? { return false, []; }
        readers := readers + [part.value];
        i := i + 1;
      }
      ok := true;
    }

    method GetPart(bucket: string, key: string, id: string, n: nat) returns (part: Option<Bytes>)
      requires Ready() && GoodName(bucket) && PlainKey(key) && GoodName(id)
      ensures var p := StagedPath(bucket, key, id, n);
              && (part.Some? ==> Delivers(Files(objs.t), p, part.value))
              && (objs.reliable && p in Files(objs.t) ==> part.Some?)
    {
      GoodStagedPath(bucket, key, id, n);
      StagedPathIsPartKey(bucket, key, id, n);
      LocalFS.NoManifest(objs.t, objs.env, StagedPath(bucket, key, id, n));
      var got := objs.Get(STAGING, PartKey(bucket, key, id, n));
      return if got.Found? then Some(got.data) else None;
    }

    /** Delete the staged files 1..n; failures are ignored. */
    method CleanParts(bucket: string, key: string, id: string, n: nat)
      requires Ready() && GoodName(bucket) && PlainKey(key) && GoodName(id)
      modifies objs
      ensures Ready()
      ensures Lost(objs.reliable, Files(old(objs.t)), Files(objs.t), StagedUpTo(bucket, key, id, n))
    {
      ghost var before := Files(objs.t);
      var i := 1;
      assert StagedUpTo(bucket, key, id, 0) == {};
      while i <= n
        invariant 1 <= i <= n + 1 && Ready()
        invariant Lost(objs.reliable, before, Files(objs.t), StagedUpTo(bucket, key, id, i - 1))
      {
        ghost var mid := Files(objs.t);
        DeletePart(bucket, key, id, i);
        assert StagedUpTo(bucket, key, id, i) == StagedUpTo(bucket, key, id, i - 1) + {StagedPath(bucket, key, id, i)};
        LostMore(objs.reliable, before, mid, Files(objs.t), StagedUpTo(bucket, key, id, i - 1),
                 StagedPath(bucket, key, id, i), StagedUpTo(bucket, key, id, i));
        i := i + 1;
      }
    }

    method DeletePart(bucket: string, key: string, id: string, n: nat)
      requires Ready() && GoodName(bucket) && PlainKey(key) && GoodName(id)
      modifies objs
      ensures Ready()
      ensures Lost(objs.reliable, Files(old(objs.t)), Files(objs.t), {StagedPath(bucket, key, id, n)})
    {
      GoodStagedPath(bucket, key, id, n);
      StagedPathIsPartKey(bucket, key, id, n);
      LocalFS.NoManifest(objs.t, objs.env, StagedPath(bucket, key, id, n));
      var deleted := objs.Delete(STAGING, PartKey(bucket, key, id, n));
    }

    /** Open the staged parts and put them as one object. */
    method Assemble(bucket: string, key: string, id: string, n: nat) returns (ok: bool)
      requires Ready() && GoodName(bucket) && PlainKey(key) && GoodName(id)
      modifies objs
      ensures Ready()
      ensures ok ==>
                && AllStaged(Files(old(objs.t)), bucket, key, id, n)
                && Files(objs.t) == Files(old(objs.t))[ObjPath(bucket, key) := Concat(Files(old(objs.t)), bucket, key, id, n)]
      ensures !ok ==> Files(objs.t) == Files(old(objs.t))
      ensures objs.reliable && AllStaged(Files(old(objs.t)), bucket, key, id, n) && CanPut(old(objs.t), ObjPath(bucket, key)) ==> ok
    {
      var readers;
      ok, readers := GatherParts(bucket, key, id, n);
      if !ok { return false; }
      OpenedConcat(Files(objs.t), bucket, key, id, readers);
      GoodObjPath(bucket, key);
      var put := objs.Put(bucket, key, MultiReader(readers), false);
      ok := put.PutOk?;
    }

    /** The end of a completion: the ETag, the clean-up, the metadata. */
    method FinishUpload(bucket: string, key: string, id: string, u: Upload) returns (etag: string)
      requires Ready() && GoodName(bucket) && PlainKey(key) && GoodName(id)
      modifies meta, objs
      ensures Ready()
      ensures Lost(objs.reliable, Files(old(objs.t)), Files(objs.t), StagedUpTo(bucket, key, id, |u.parts|))
      ensures meta.buckets == old(meta.buckets) && meta.uploads == old(meta.uploads) - {id}
      ensures etag == objs.env.md5Hex(ETagBytes(u, |u.parts|)) + "-" + Itoa(|u.parts|)
    {
      etag := FinalETag(u, objs.env.md5Hex);
      CleanParts(bucket, key, id, |u.parts|);
      var _ := meta.CompleteMultipartUpload(id);
    }

    /** Everything a completion does once its request has been checked. */
    method CompleteChecked(bucket: string, key: string, id: string, u: Upload) returns (r: Response)
      requires Ready() && GoodName(bucket) && PlainKey(key) && GoodName(id)
      modifies meta, objs
      ensures Ready()
      ensures r.Error? ==> r == Error(InternalError) && View() == old(View())
      ensures r.Ok? ==>
                && AllStaged(Files(old(objs.t)), bucket, key, id, |u.parts|)
                && meta.buckets == old(meta.buckets) && meta.uploads == old(meta.uploads) - {id}
                && Lost(objs.reliable,
                        Files(old(objs.t))[ObjPath(bucket, key) := Concat(Files(old(objs.t)), bucket, key, id, |u.parts|)],
                        Files(objs.t), StagedUpTo(bucket, key, id, |u.parts|))
                && r.etag == objs.env.md5Hex(ETagBytes(u, |u.parts|)) + "-" + Itoa(|u.parts|)
      ensures && objs.reliable && AllStaged(Files(old(objs.t)), bucket, key, id, |u.parts|)
              && CanPut(old(objs.t), ObjPath(bucket, key))
              ==> r.Ok?
    {
      var ok := Assemble(bucket, key, id, |u.parts|);
      if !ok { return Error(InternalError); }
      var etag := FinishUpload(bucket, key, id, u);
      return Ok(etag);
    }

    /**
     * Complete an upload: check the listed parts, assemble ALL uploaded parts 1..N, remove them and
     * forget the upload. `body` is the decoded request, if it could be decoded.
     */
    method CompleteMultipartUpload(bucket: string, key: string, id: string, body: Option<seq<PartRef>>) returns (r: Response)
      requires Ready() && GoodName(bucket) && PlainKey(key) && GoodName(id)
      modifies meta, objs
      ensures Ready()
      ensures body.None? ==> r == Error(MalformedXML)
      ensures body.Some? && id !in old(meta.uploads) ==> r == Error(NoSuchUpload)
      ensures body.Some? && id in old(meta.uploads) && !Acceptable(old(meta.uploads)[id], body.value, minPartSize) ==>
                r == Error(if forall i :: 0 <= i < |body.value| ==> Matches(old(meta.uploads)[id], body.value[i])
                           then EntityTooSmall else InvalidPart)
      ensures body.Some? && id in old(meta.uploads) && Acceptable(old(meta.uploads)[id], body.value, minPartSize) ==>
                r.Ok? || r == Error(InternalError)
      ensures r.Error? ==> View() == old(View())
      ensures r.Ok? ==>
                && body.Some? && id in old(meta.uploads)
                && var u := old(meta.uploads)[id];
                && Acceptable(u, body.value, minPartSize)
                && AllStaged(old(View()).files, bucket, key, id, |u.parts|)
                && meta.buckets == old(meta.buckets) && meta.uploads == old(meta.uploads) - {id}
                && LocalFS.LosesAtMost(old(View()).files[ObjPath(bucket, key) := Concat(old(View()).files, bucket, key, id, |u.parts|)],
                               View().files, StagedUpTo(bucket, key, id, |u.parts|))
                && r.etag == objs.env.md5Hex(ETagBytes(u, |u.parts|)) + "-" + Itoa(|u.parts|)
      ensures old(Consistent()) && Owns(old(meta.uploads), id, bucket, key) && r.Ok? ==>
                && Gapless(old(meta.uploads)[id]) && Fits(old(View()), Complete(id))
                && (objs.reliable ==> View() == Apply(old(View()), objs.env.md5Hex, Complete(id)) && Consistent())
      ensures && old(Consistent()) && Owns(old(meta.uploads), id, bucket, key) && objs.reliable
              && body.Some? && Acceptable(old(meta.uploads)[id], body.value, minPartSize)
              && CanPut(old(objs.t), ObjPath(bucket, key)) && Gapless(old(meta.uploads)[id])
              ==> r.Ok?
    {
      if body.None? { return Error(MalformedXML); }
      var found := meta.GetMultipartUpload(id);
      if !found.Ok? { return Error(NoSuchUpload); }
      var u := found.value;
      var problem := CheckParts(u, body.value, minPartSize);
      if problem.Some? { return Error(problem.value); }
      ghost var w := View();
      ghost var own := Consistent() && Owns(meta.uploads, id, bucket, key);
      if own && Gapless(u) { GaplessAllStaged(w, objs.env.md5Hex, id); }
      r := CompleteChecked(bucket, key, id, u);
      if r.Ok? && own {
        CompleteIsApply(w, objs.env.md5Hex, id);
        if objs.reliable { StepKeeps(w, Complete(id)); }
      }
    }

    method DropParts(bucket: string, key: string, id: string, ns: set<nat>)
      requires Ready() && GoodName(bucket) && PlainKey(key) && GoodName(id)
      modifies objs
      ensures Ready()
      ensures Lost(objs.reliable, Files(old(objs.t)), Files(objs.t), PartPaths(bucket, key, id, ns))
    {
      ghost var before := Files(objs.t);
      var todo := ns;
      ghost var done: set<nat> := {};
      assert PartPaths(bucket, key, id, {}) == {};
      while todo != {}
        invariant Ready() && done + todo == ns
        invariant Lost(objs.reliable, before, Files(objs.t), PartPaths(bucket, key, id, done))
        decreases todo
      {
        var n :| n in todo;
        ghost var mid := Files(objs.t);
        DeletePart(bucket, key, id, n);
        todo := todo - {n};
        assert PartPaths(bucket, key, id, done + {n}) == PartPaths(bucket, key, id, done) + {StagedPath(bucket, key, id, n)};
        LostMore(objs.reliable, before, mid, Files(objs.t), PartPaths(bucket, key, id, done),
                 StagedPath(bucket, key, id, n), PartPaths(bucket, key, id, done + {n}));
        done := done + {n};
      }
      assert done == ns;
    }

    /** Abort an upload: remove its staged parts, in any order, and forget it. */
    method AbortMultipartUpload(bucket: string, key: string, id: string) returns (r: Response)
      requires Ready() && GoodName(bucket) && PlainKey(key) && GoodName(id)
      modifies meta, objs
      ensures Ready()
      ensures r == if id in old(meta.uploads) then Ok("") else Error(NoSuchUpload)
      ensures r.Error? ==> View() == old(View())
      ensures r.Ok? ==>
                && meta.buckets == old(meta.buckets) && meta.uploads == old(meta.uploads) - {id}
                && LocalFS.LosesAtMost(old(View()).files, View().files,
                               PartPaths(bucket, key, id, old(meta.uploads)[id].parts.Keys))
      ensures Owns(old(meta.uploads), id, bucket, key) && objs.reliable ==>
                View() == Apply(old(View()), objs.env.md5Hex, Abort(id)) && (old(Consistent()) ==> Consistent())
    {
      var found := meta.GetMultipartUpload(id);
      if !found.Ok? { return Error(NoSuchUpload); }
      ghost var w := View();
      DropParts(bucket, key, id, found.value.parts.Keys);
      var _ := meta.AbortMultipartUpload(id);
      if Owns(w.uploads, id, bucket, key) && objs.reliable { StepKeeps(w, Abort(id)); }
      return Ok("");
    }

    /** GET on a bucket: one page of its listing, and the token that continues it. */
    method ListObjectsV2(bucket: string, prefix: string, delimiter: string, token: string, startAfter: string,
                         maxKeysStr: string) returns (r: ListResponse)
      requires objs.Valid()
      ensures bucket !in meta.buckets <==> r == ListError(NoSuchBucket)
      ensures objs.reliable && bucket in meta.buckets ==> r.Listing?
      ensures r.Listing? ==> IsListing(objs.t, Query(bucket, prefix, if token != "" then token else startAfter, delimiter),
                                       objs.env, MaxKeys(maxKeysStr), r)
    {
      if bucket !in meta.buckets { return ListError(NoSuchBucket); }
      var maxKeys := 1000;
      var mk := ParseInt64(maxKeysStr);
      if mk.Some? && mk.value > 0 { maxKeys := mk.value; }
      var from := startAfter;
      if token != "" { from := token; }
      r := ListPage(Query(bucket, prefix, from, delimiter), maxKeys);
    }

    method ListPage(q: Query, maxKeys: nat) returns (r: ListResponse)
      requires objs.Valid() && maxKeys > 0
      ensures r.Listing? ==> IsListing(objs.t, q, objs.env, maxKeys, r)
      ensures r.ListError? ==> !objs.reliable && r == ListError(InternalError)
    {
      var listed := objs.List(q, maxKeys);
      if !listed.Listed? { return ListError(InternalError); }
      var next := TokenAfter(objs.t, q, objs.env, maxKeys, listed.objects, listed.prefixes, listed.truncated);
      return Listing(listed.objects, listed.prefixes, listed.truncated, next);
    }
  }
}
