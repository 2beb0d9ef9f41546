/**
 * Buckets, objects and multipart uploads as one state over the two stores: which operations there
 * are, what they do, and what every run of them keeps.
 */
module MultipartModel {
  import opened Strings
  import opened Encoding
  import opened FileTree

  datatype Part = Part(etag: string, size: nat)

  datatype Upload = Upload(bucket: string, key: string, initiated: int, parts: map<nat, Part>)

  /** The metadata store's buckets and uploads, and the object store's files (staged parts included). */
  datatype World = World(buckets: set<string>, uploads: map<string, Upload>, files: map<Path, Bytes>)

  // ---------------------------------------------------------------- staged parts

  /** "<bucket>/<key>/<uploadID>/part.<N>" */
  function PartKey(bucket: string, key: string, id: string, n: nat): string {
    bucket + "/" + key + "/" + id + "/part." + Itoa(n)
  }

  /** Where the part's bytes are staged; `StagedPathIsPartKey` ties it to the key the handlers build. */
  function StagedPath(bucket: string, key: string, id: string, n: nat): Path {
    [STAGING, bucket] + Split(key, '/') + [id, "part." + Itoa(n)]
  }

  lemma PartNameLacks(n: nat)
    ensures Lacks("part." + Itoa(n), '/') && GoodName("part." + Itoa(n))
  {
    var s := "part." + Itoa(n);
    forall i | 0 <= i < |s| ensures s[i] != '/' {
      if i >= 5 { assert s[i] == Itoa(n)[i - 5]; assert IsDigit(Itoa(n)[i - 5]); }
    }
    assert |s| > 5;
  }

  lemma StagedPathIsPartKey(bucket: string, key: string, id: string, n: nat)
    requires Lacks(bucket, '/') && Lacks(id, '/')
    ensures ObjPath(STAGING, PartKey(bucket, key, id, n)) == StagedPath(bucket, key, id, n)
  {
    var name := "part." + Itoa(n);
    PartNameLacks(n);
    assert PartKey(bucket, key, id, n) == bucket + ['/'] + (key + ['/'] + (id + ['/'] + name));
    SplitFour(bucket, key, id, name);
  }

  lemma SplitFour(bucket: string, key: string, id: string, name: string)
    requires Lacks(bucket, '/') && Lacks(id, '/') && Lacks(name, '/')
    ensures Split(bucket + ['/'] + (key + ['/'] + (id + ['/'] + name)), '/') == [bucket] + Split(key, '/') + [id, name]
  {
    var inner := id + ['/'] + name;
    SplitHead(id, name);
    SplitLacking(name, '/');
    SplitConcat(key, inner, '/');
    SplitHead(bucket, key + ['/'] + inner);
    Regroup(bucket, Split(key, '/'), id, name);
  }

  lemma SplitHead(head: string, rest: string)
    requires Lacks(head, '/')
    ensures Split(head + ['/'] + rest, '/') == [head] + Split(rest, '/')
  {
    SplitConcat(head, rest, '/');
    SplitLacking(head, '/');
  }

  lemma Regroup(a: string, middle: seq<string>, b: string, c: string)
    ensures [a] + (middle + ([b] + [c])) == [a] + middle + [b, c]
  {
  }

  /** Bucket, key, upload and part number can all be read off a staged path: no two parts share a file. */
  lemma StagedPathInjective(b: string, k: string, id: string, n: nat, b': string, k': string, id': string, n': nat)
    requires StagedPath(b, k, id, n) == StagedPath(b', k', id', n')
    ensures b == b' && k == k' && id == id' && n == n'
  {
    var p, p' := StagedPath(b, k, id, n), StagedPath(b', k', id', n');
    var s, s' := Split(k, '/'), Split(k', '/');
    assert |p| == |s| + 4 && |p'| == |s'| + 4;
    assert p[1] == b && p'[1] == b';
    assert p[2..|p| - 2] == s && p'[2..|p'| - 2] == s';
    assert p[|p| - 2] == id && p'[|p'| - 2] == id';
    var name, name' := "part." + Itoa(n), "part." + Itoa(n');
    assert p[|p| - 1] == name && p'[|p'| - 1] == name';
    assert name[5..] == Itoa(n) && name'[5..] == Itoa(n');
    JoinSplit(k, '/');
    JoinSplit(k', '/');
    ItoaInjective(n, n');
  }

  /** The parts 1..n of an upload, one after the other. */
  function Concat(files: map<Path, Bytes>, bucket: string, key: string, id: string, n: nat): Bytes
    requires forall i :: 1 <= i <= n ==> StagedPath(bucket, key, id, i) in files
  {
    if n == 0 then [] else Concat(files, bucket, key, id, n - 1) + files[StagedPath(bucket, key, id, n)]
  }

  /** Part `i` stands in the whole right behind the parts before it. */
  lemma {:induction false} PartInPlace(files: map<Path, Bytes>, bucket: string, key: string, id: string, i: nat, n: nat)
    requires 1 <= i <= n && forall j :: 1 <= j <= n ==> StagedPath(bucket, key, id, j) in files
    ensures Concat(files, bucket, key, id, i - 1) + files[StagedPath(bucket, key, id, i)] <= Concat(files, bucket, key, id, n)
    ensures n == i == 1 ==> Concat(files, bucket, key, id, n) == files[StagedPath(bucket, key, id, 1)]
  {
    if i < n { PartInPlace(files, bucket, key, id, i, n - 1); }
  }

  ghost function StagedPaths(id: string, u: Upload): set<Path> {
    set n | n in u.parts :: StagedPath(u.bucket, u.key, id, n)
  }

  // ---------------------------------------------------------------- the invariant

  /** Keys a client may use: clean, and not naming the store's own files. */
  predicate PlainKey(key: string) {
    CanonicalKey(key) && Base(Split(key, '/')) != SHARD_NAME && Base(Split(key, '/')) != MANIFEST_NAME
  }

  predicate BucketName(b: string) {
    GoodName(b) && b != STAGING
  }

  /** A recorded part has its bytes staged, with the size and ETag on record. */
  ghost predicate PartStaged(w: World, md5Hex: Bytes -> string, id: string, n: nat) {
    && id in w.uploads && n in w.uploads[id].parts
    && var u := w.uploads[id];
    && var p := StagedPath(u.bucket, u.key, id, n);
    && 1 <= n <= 10000
    && p in w.files
    && u.parts[n] == Part(md5Hex(w.files[p]), |w.files[p]|)
  }

  ghost predicate UploadOk(w: World, md5Hex: Bytes -> string, id: string) {
    && id in w.uploads && GoodName(id)
    && w.uploads[id].bucket in w.buckets && PlainKey(w.uploads[id].key)
    && forall n :: n in w.uploads[id].parts ==> PartStaged(w, md5Hex, id, n)
  }

  ghost predicate StagedFor(w: World, p: Path, id: string, n: nat) {
    && id in w.uploads && n in w.uploads[id].parts
    && p == StagedPath(w.uploads[id].bucket, w.uploads[id].key, id, n)
  }

  /** Every staged file is a recorded part of an active upload; every other file is in an existing bucket. */
  ghost predicate FileOk(w: World, p: Path) {
    && GoodPath(p) && |p| >= 2 && Base(p) != SHARD_NAME && Base(p) != MANIFEST_NAME
    && if p[0] == STAGING then exists id, n :: StagedFor(w, p, id, n) else p[0] in w.buckets
  }

  ghost predicate Inv(w: World, md5Hex: Bytes -> string) {
    && (forall b :: b in w.buckets ==> BucketName(b))
    && (forall id :: id in w.uploads ==> UploadOk(w, md5Hex, id))
    && (forall p :: p in w.files ==> FileOk(w, p))
  }

  // ---------------------------------------------------------------- the operations

  datatype Op =
    | CreateBucket(b: string)
    | DeleteBucket(b: string)
    | PutObject(b: string, k: string, data: Bytes)
    | DeleteObject(b: string, k: string)
    | Initiate(b: string, k: string, id: string, now: int)
    | UploadPart(id: string, n: nat, data: Bytes)
    | Complete(id: string)
    | Abort(id: string)

  /** The upload's recorded part numbers are exactly 1..N. */
  ghost predicate Gapless(u: Upload) {
    forall n: nat :: n in u.parts <==> 1 <= n <= |u.parts|
  }

  ghost predicate Fits(w: World, op: Op) {
    match op
    case CreateBucket(b) => BucketName(b) && b !in w.buckets
    case DeleteBucket(b) =>
      && b in w.buckets
      && (forall id :: id in w.uploads ==> w.uploads[id].bucket != b)
      && (forall p :: p in w.files && p != [] && p[0] == b ==> |p| > 1 && p[1] == STAGING)
    case PutObject(b, k, _) => b in w.buckets && PlainKey(k)
    case DeleteObject(b, k) => GoodName(b) && PlainKey(k) && (b == STAGING ==> ObjPath(b, k) !in w.files)
    case Initiate(b, k, id, _) => b in w.buckets && PlainKey(k) && GoodName(id) && id !in w.uploads
    case UploadPart(id, n, _) => id in w.uploads && 1 <= n <= 10000
    case Complete(id) =>
      && id in w.uploads && Gapless(w.uploads[id])
      && forall i :: 1 <= i <= |w.uploads[id].parts| ==> StagedPath(w.uploads[id].bucket, w.uploads[id].key, id, i) in w.files
    case Abort(id) => id in w.uploads
  }

  function FilesOutside(files: map<Path, Bytes>, b: string): map<Path, Bytes> {
    map p | p in files && !([b] <= p) :: files[p]
  }

  ghost function Apply(w: World, md5Hex: Bytes -> string, op: Op): World
    requires Fits(w, op)
  {
    match op
    case CreateBucket(b) => w.(buckets := w.buckets + {b})
    case DeleteBucket(b) => w.(buckets := w.buckets - {b}, files := FilesOutside(w.files, b))
    case PutObject(b, k, data) => w.(files := w.files[ObjPath(b, k) := data])
    case DeleteObject(b, k) => w.(files := w.files - {ObjPath(b, k)})
    case Initiate(b, k, id, now) => w.(uploads := w.uploads[id := Upload(b, k, now, map[])])
    case UploadPart(id, n, data) =>
      var u := w.uploads[id];
      w.(files := w.files[StagedPath(u.bucket, u.key, id, n) := data],
         uploads := w.uploads[id := u.(parts := u.parts[n := Part(md5Hex(data), |data|)])])
    case Complete(id) =>
      var u := w.uploads[id];
      var whole := Concat(w.files, u.bucket, u.key, id, |u.parts|);
      w.(files := (w.files - StagedPaths(id, u))[ObjPath(u.bucket, u.key) := whole], uploads := w.uploads - {id})
    case Abort(id) =>
      w.(files := w.files - StagedPaths(id, w.uploads[id]), uploads := w.uploads - {id})
  }

  // ---------------------------------------------------------------- every operation keeps the invariant

  lemma GoodObjPath(b: string, k: string)
    requires GoodName(b) && PlainKey(k)
    ensures var p := ObjPath(b, k); GoodPath(p) && |p| >= 2 && p[0] == b && Base(p) != SHARD_NAME && Base(p) != MANIFEST_NAME
  {
    assert Base(ObjPath(b, k)) == Base(Split(k, '/'));
  }

  lemma GoodStagedPath(b: string, k: string, id: string, n: nat)
    requires GoodName(b) && GoodName(id) && PlainKey(k)
    ensures var p := StagedPath(b, k, id, n);
            && GoodPath(p) && |p| >= 2 && p[0] == STAGING && Base(p) != SHARD_NAME && Base(p) != MANIFEST_NAME
            && CanonicalKey(PartKey(b, k, id, n))
  {
    StagedPathIsPartKey(b, k, id, n);
    PartNameLacks(n);
    var p := StagedPath(b, k, id, n);
    assert GoodName(STAGING);
    forall i | 0 <= i < |p| ensures GoodName(p[i]) {
    }
    assert Base(p) == "part." + Itoa(n);
    assert Base(p)[0] == 'p';
    assert SHARD_NAME[0] == 'd' && MANIFEST_NAME[0] == 'o';
    assert p[1..] == Split(PartKey(b, k, id, n), '/');
  }

  /** Parts of different uploads, or different parts, are staged in different files. */
  lemma Apart(w: World, md5Hex: Bytes -> string, id: string, n: nat, id': string, n': nat)
    requires Inv(w, md5Hex) && id in w.uploads && id' in w.uploads
    requires id != id' || n != n'
    ensures StagedPath(w.uploads[id].bucket, w.uploads[id].key, id, n)
         != StagedPath(w.uploads[id'].bucket, w.uploads[id'].key, id', n')
  {
    var u, u' := w.uploads[id], w.uploads[id'];
    assert UploadOk(w, md5Hex, id) && UploadOk(w, md5Hex, id');
    if StagedPath(u.bucket, u.key, id, n) == StagedPath(u'.bucket, u'.key, id', n') {
      StagedPathInjective(u.bucket, u.key, id, n, u'.bucket, u'.key, id', n');
    }
  }

  lemma UploadPartKeepsUpload(w: World, md5Hex: Bytes -> string, id: string, n: nat, data: Bytes, id': string)
    requires Inv(w, md5Hex) && Fits(w, UploadPart(id, n, data)) && id' in w.uploads
    ensures UploadOk(Apply(w, md5Hex, UploadPart(id, n, data)), md5Hex, id')
  {
    var w' := Apply(w, md5Hex, UploadPart(id, n, data));
    assert UploadOk(w, md5Hex, id');
    forall n' | n' in w'.uploads[id'].parts ensures PartStaged(w', md5Hex, id', n') {
      if id' != id || n' != n {
        assert PartStaged(w, md5Hex, id', n');
        Apart(w, md5Hex, id, n, id', n');
      }
    }
  }

  lemma UploadPartKeepsInv(w: World, md5Hex: Bytes -> string, id: string, n: nat, data: Bytes)
    requires Inv(w, md5Hex) && Fits(w, UploadPart(id, n, data))
    ensures Inv(Apply(w, md5Hex, UploadPart(id, n, data)), md5Hex)
  {
    var w' := Apply(w, md5Hex, UploadPart(id, n, data));
    var u := w.uploads[id];
    var p := StagedPath(u.bucket, u.key, id, n);
    assert UploadOk(w, md5Hex, id);
    GoodStagedPath(u.bucket, u.key, id, n);
    forall id' | id' in w'.uploads ensures UploadOk(w', md5Hex, id') {
      UploadPartKeepsUpload(w, md5Hex, id, n, data, id');
    }
    forall q | q in w'.files ensures FileOk(w', q) {
      if q == p {
        assert StagedFor(w', p, id, n);
      } else {
        assert FileOk(w, q);
        if q[0] == STAGING {
          var id', n' :| StagedFor(w, q, id', n');
          assert StagedFor(w', q, id', n');
        }
      }
    }
  }

  lemma OtherUploadStays(w: World, md5Hex: Bytes -> string, id: string, id': string)
    requires Inv(w, md5Hex) && id in w.uploads && id' in w.uploads && id' != id
    ensures UploadOk(Apply(w, md5Hex, Abort(id)), md5Hex, id')
  {
    var w' := Apply(w, md5Hex, Abort(id));
    assert UploadOk(w, md5Hex, id');
    forall n' | n' in w'.uploads[id'].parts ensures PartStaged(w', md5Hex, id', n') {
      assert PartStaged(w, md5Hex, id', n');
      forall n | n in w.uploads[id].parts
        ensures StagedPath(w.uploads[id].bucket, w.uploads[id].key, id, n)
             != StagedPath(w.uploads[id'].bucket, w.uploads[id'].key, id', n')
      {
        Apart(w, md5Hex, id, n, id', n');
      }
    }
  }

  lemma OtherFileStays(w: World, md5Hex: Bytes -> string, id: string, q: Path)
    requires Inv(w, md5Hex) && id in w.uploads && q in w.files && q !in StagedPaths(id, w.uploads[id])
    ensures FileOk(Apply(w, md5Hex, Abort(id)), q)
  {
    var w' := Apply(w, md5Hex, Abort(id));
    assert FileOk(w, q);
    if q[0] == STAGING {
      var id', n' :| StagedFor(w, q, id', n');
      assert id' != id;
      assert StagedFor(w', q, id', n');
    }
  }

  /** Removing an upload together with all its staged files. */
  lemma DropUploadKeepsInv(w: World, md5Hex: Bytes -> string, id: string)
    requires Inv(w, md5Hex) && id in w.uploads
    ensures Inv(Apply(w, md5Hex, Abort(id)), md5Hex)
  {
    var w' := Apply(w, md5Hex, Abort(id));
    forall id' | id' in w'.uploads ensures UploadOk(w', md5Hex, id') {
      OtherUploadStays(w, md5Hex, id, id');
    }
    forall q | q in w'.files ensures FileOk(w', q) {
      OtherFileStays(w, md5Hex, id, q);
    }
  }

  /** Of an active upload exactly the recorded parts are staged. */
  lemma StagedIffRecorded(w: World, md5Hex: Bytes -> string, id: string, n: nat)
    requires Inv(w, md5Hex) && id in w.uploads
    ensures StagedPath(w.uploads[id].bucket, w.uploads[id].key, id, n) in w.files <==> n in w.uploads[id].parts
  {
    var u := w.uploads[id];
    var q := StagedPath(u.bucket, u.key, id, n);
    assert UploadOk(w, md5Hex, id);
    if n in u.parts { assert PartStaged(w, md5Hex, id, n); }
    if q in w.files {
      assert FileOk(w, q);
      var id', n' :| StagedFor(w, q, id', n');
      StagedPathInjective(u.bucket, u.key, id, n, w.uploads[id'].bucket, w.uploads[id'].key, id', n');
    }
  }

  lemma NothingStagedAfterDrop(w: World, md5Hex: Bytes -> string, id: string, n: nat)
    requires Inv(w, md5Hex) && id in w.uploads
    ensures StagedPath(w.uploads[id].bucket, w.uploads[id].key, id, n) !in w.files - StagedPaths(id, w.uploads[id])
  {
    StagedIffRecorded(w, md5Hex, id, n);
  }

  lemma PutObjectKeepsInv(w: World, md5Hex: Bytes -> string, b: string, k: string, data: Bytes)
    requires Inv(w, md5Hex) && Fits(w, PutObject(b, k, data))
    ensures Inv(Apply(w, md5Hex, PutObject(b, k, data)), md5Hex)
  {
    var w' := Apply(w, md5Hex, PutObject(b, k, data));
    GoodObjPath(b, k);
    forall id | id in w'.uploads ensures UploadOk(w', md5Hex, id) {
      SameUpload(w, w', md5Hex, id);
    }
    forall q | q in w'.files ensures FileOk(w', q) {
      if q != ObjPath(b, k) { SameFile(w, w', q); }
    }
  }

  /** An upload stays in order while its bucket exists and its staged files are left alone. */
  lemma SameUpload(w: World, w': World, md5Hex: Bytes -> string, id: string)
    requires Inv(w, md5Hex) && id in w.uploads && id in w'.uploads && w'.uploads[id] == w.uploads[id]
    requires w.uploads[id].bucket in w'.buckets
    requires forall q :: q in w.files && q != [] && q[0] == STAGING ==> q in w'.files && w'.files[q] == w.files[q]
    ensures UploadOk(w', md5Hex, id)
  {
    var u := w.uploads[id];
    assert UploadOk(w, md5Hex, id);
    forall n | n in u.parts ensures PartStaged(w', md5Hex, id, n) {
      assert PartStaged(w, md5Hex, id, n);
    }
  }

  lemma SameFile(w: World, w': World, q: Path)
    requires FileOk(w, q)
    requires forall id :: id in w.uploads ==> id in w'.uploads && w'.uploads[id] == w.uploads[id]
    requires q[0] in w.buckets ==> q[0] in w'.buckets
    ensures FileOk(w', q)
  {
    if q[0] == STAGING {
      var id, n :| StagedFor(w, q, id, n);
      assert StagedFor(w', q, id, n);
    }
  }

  lemma CompleteKeepsInv(w: World, md5Hex: Bytes -> string, id: string)
    requires Inv(w, md5Hex) && Fits(w, Complete(id))
    ensures Inv(Apply(w, md5Hex, Complete(id)), md5Hex)
  {
    var u := w.uploads[id];
    assert UploadOk(w, md5Hex, id);
    DropUploadKeepsInv(w, md5Hex, id);
    PutObjectKeepsInv(Apply(w, md5Hex, Abort(id)), md5Hex, u.bucket, u.key, Concat(w.files, u.bucket, u.key, id, |u.parts|));
  }

  lemma GrowKeepsInv(w: World, md5Hex: Bytes -> string, op: Op)
    requires Inv(w, md5Hex) && Fits(w, op) && (op.CreateBucket? || op.Initiate?)
    ensures Inv(Apply(w, md5Hex, op), md5Hex)
  {
    var w' := Apply(w, md5Hex, op);
    forall id | id in w'.uploads ensures UploadOk(w', md5Hex, id) {
      if id in w.uploads {
        assert UploadOk(w, md5Hex, id);
        SameUpload(w, w', md5Hex, id);
      }
    }
    forall q | q in w'.files ensures FileOk(w', q) {
      assert FileOk(w, q);
      SameFile(w, w', q);
    }
  }

  lemma DeleteBucketKeepsInv(w: World, md5Hex: Bytes -> string, b: string)
    requires Inv(w, md5Hex) && Fits(w, DeleteBucket(b))
    ensures Inv(Apply(w, md5Hex, DeleteBucket(b)), md5Hex)
  {
    var w' := Apply(w, md5Hex, DeleteBucket(b));
    assert BucketName(b);
    forall id | id in w'.uploads ensures UploadOk(w', md5Hex, id) {
      assert UploadOk(w, md5Hex, id);
      SameUpload(w, w', md5Hex, id);
    }
    forall q | q in w'.files ensures FileOk(w', q) {
      assert FileOk(w, q);
      SameFile(w, w', q);
    }
  }

  lemma DeleteObjectKeepsInv(w: World, md5Hex: Bytes -> string, b: string, k: string)
    requires Inv(w, md5Hex) && Fits(w, DeleteObject(b, k))
    ensures Inv(Apply(w, md5Hex, DeleteObject(b, k)), md5Hex)
  {
    var w' := Apply(w, md5Hex, DeleteObject(b, k));
    assert ObjPath(b, k)[0] == b;
    forall id | id in w'.uploads ensures UploadOk(w', md5Hex, id) {
      assert UploadOk(w, md5Hex, id);
      SameUpload(w, w', md5Hex, id);
    }
    forall q | q in w'.files ensures FileOk(w', q) {
      assert FileOk(w, q);
      SameFile(w, w', q);
    }
  }

  lemma StepKeepsInv(w: World, md5Hex: Bytes -> string, op: Op)
    requires Inv(w, md5Hex) && Fits(w, op)
    ensures Inv(Apply(w, md5Hex, op), md5Hex)
  {
    match op
    case UploadPart(id, n, data) => UploadPartKeepsInv(w, md5Hex, id, n, data);
    case Complete(id) => CompleteKeepsInv(w, md5Hex, id);
    case Abort(id) => DropUploadKeepsInv(w, md5Hex, id);
    case PutObject(b, k, data) => PutObjectKeepsInv(w, md5Hex, b, k, data);
    case DeleteBucket(b) => DeleteBucketKeepsInv(w, md5Hex, b);
    case DeleteObject(b, k) => DeleteObjectKeepsInv(w, md5Hex, b, k);
    case _ => GrowKeepsInv(w, md5Hex, op);
  }

  ghost predicate RunFits(w: World, md5Hex: Bytes -> string, ops: seq<Op>)
    decreases |ops|
  {
    ops == [] || (Fits(w, ops[0]) && RunFits(Apply(w, md5Hex, ops[0]), md5Hex, ops[1..]))
  }

  ghost function Run(w: World, md5Hex: Bytes -> string, ops: seq<Op>): World
    requires RunFits(w, md5Hex, ops)
    decreases |ops|
  {
    if ops == [] then w else Run(Apply(w, md5Hex, ops[0]), md5Hex, ops[1..])
  }

  /**
   * Over every run from the empty store: uploads and objects lie in existing buckets, and staged
   * files and recorded parts correspond one to one, with matching size and ETag.
   */
  lemma {:induction false} RunKeepsInv(w: World, md5Hex: Bytes -> string, ops: seq<Op>)
    requires Inv(w, md5Hex) && RunFits(w, md5Hex, ops)
    ensures Inv(Run(w, md5Hex, ops), md5Hex)
    decreases |ops|
  {
    if ops != [] {
      StepKeepsInv(w, md5Hex, ops[0]);
      RunKeepsInv(Apply(w, md5Hex, ops[0]), md5Hex, ops[1..]);
    }
  }

  lemma EmptyWorldInv(md5Hex: Bytes -> string)
    ensures Inv(World({}, map[], map[]), md5Hex)
  {
  }

  /**
   * The upload handler trusts the bucket and key of its URL. A part sent under another name is staged
   * where its upload will not look for it, and the correspondence is gone.
   */
  lemma ForeignPartBreaksInv(w: World, md5Hex: Bytes -> string, b: string, k: string, id: string, n: nat, data: Bytes)
    requires Inv(w, md5Hex) && Fits(w, UploadPart(id, n, data))
    requires b != w.uploads[id].bucket || k != w.uploads[id].key
    ensures var u := w.uploads[id];
            !Inv(w.(files := w.files[StagedPath(b, k, id, n) := data],
                    uploads := w.uploads[id := u.(parts := u.parts[n := Part(md5Hex(data), |data|)])]), md5Hex)
  {
    var u := w.uploads[id];
    var q := StagedPath(b, k, id, n);
    var w' := w.(files := w.files[q := data], uploads := w.uploads[id := u.(parts := u.parts[n := Part(md5Hex(data), |data|)])]);
    forall id', n' ensures !StagedFor(w', q, id', n') {
      if id' in w'.uploads && q == StagedPath(w'.uploads[id'].bucket, w'.uploads[id'].key, id', n') {
        StagedPathInjective(b, k, id, n, w'.uploads[id'].bucket, w'.uploads[id'].key, id', n');
      }
    }
    assert !FileOk(w', q);
    assert q in w'.files;
  }

  /**
   * A DELETE may name the staging bucket. Taking a path below it away keeps the stores consistent
   * exactly when nothing is staged there.
   */
  lemma DeleteUnderStaging(w: World, md5Hex: Bytes -> string, p: Path)
    requires Inv(w, md5Hex) && p != [] && p[0] == STAGING
    ensures Inv(w.(files := w.files - {p}), md5Hex) <==> p !in w.files
  {
    var w' := w.(files := w.files - {p});
    if p in w.files {
      assert FileOk(w, p);
      var id, n :| StagedFor(w, p, id, n);
      assert !PartStaged(w', md5Hex, id, n);
      assert !UploadOk(w', md5Hex, id);
      assert id in w'.uploads;
    } else {
      assert w' == w;
    }
  }

  // ---------------------------------------------------------------- completion

  function Numbers(n: nat): set<nat> {
    if n == 0 then {} else Numbers(n - 1) + {n}
  }

  lemma {:induction false} NumbersAre(n: nat)
    ensures forall i: nat :: i in Numbers(n) <==> 1 <= i <= n
    ensures |Numbers(n)| == n
  {
    if n > 0 { NumbersAre(n - 1); }
  }

  lemma SubsetOfSameSize(a: set<nat>, b: set<nat>)
    requires a <= b && |a| == |b|
    ensures a == b
  {
    assert |b - a| == |b| - |a|;
  }

  /** If the staged files of parts 1..N all exist, N being how many parts are recorded, the recorded numbers are exactly 1..N. */
  lemma StagedThroughCount(w: World, md5Hex: Bytes -> string, id: string)
    requires Inv(w, md5Hex) && id in w.uploads
    requires var u := w.uploads[id]; forall i :: 1 <= i <= |u.parts| ==> StagedPath(u.bucket, u.key, id, i) in w.files
    ensures Gapless(w.uploads[id])
  {
    var u := w.uploads[id];
    assert UploadOk(w, md5Hex, id);
    forall i: nat | 1 <= i <= |u.parts| ensures i in u.parts {
      var q := StagedPath(u.bucket, u.key, id, i);
      StagedIffRecorded(w, md5Hex, id, i);
    }
    NumbersAre(|u.parts|);
    SubsetOfSameSize(Numbers(|u.parts|), u.parts.Keys);
  }

  /** After completion nothing staged and no upload is left for that id, and the object is the parts in order. */
  lemma CompleteLeavesNothing(w: World, md5Hex: Bytes -> string, id: string)
    requires Inv(w, md5Hex) && Fits(w, Complete(id))
    ensures var w', u := Apply(w, md5Hex, Complete(id)), w.uploads[id];
            && id !in w'.uploads
            && (forall n :: StagedPath(u.bucket, u.key, id, n) !in w'.files)
            && ObjPath(u.bucket, u.key) in w'.files
            && w'.files[ObjPath(u.bucket, u.key)] == Concat(w.files, u.bucket, u.key, id, |u.parts|)
  {
    var u := w.uploads[id];
    var w' := Apply(w, md5Hex, Complete(id));
    assert UploadOk(w, md5Hex, id) && BucketName(u.bucket);
    forall n ensures StagedPath(u.bucket, u.key, id, n) !in w'.files {
      NothingStagedAfterDrop(w, md5Hex, id, n);
      assert StagedPath(u.bucket, u.key, id, n)[0] != ObjPath(u.bucket, u.key)[0];
    }
  }
}
