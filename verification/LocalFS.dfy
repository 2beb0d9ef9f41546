/** The local file-system store in its plain form (pkg/storage/localfs.go): Put, Get, Head, Delete, List and the bucket operations. */
module LocalFS {
  import opened Strings
  import opened Encoding
  import opened Sorting
  import opened FileTree
  import opened Listing
  import opened ListReference
  import opened Pagination

  datatype PlainPut = PutOk(etag: string, size: nat) | CopyFailed | PutFailed
  datatype PlainGet = Found(data: Bytes, etag: string) | Missing | SealedObject
  datatype DeleteResult = Deleted | NotFound | DeleteFailed
  datatype ListResult = Listed(objects: seq<ObjectMeta>, prefixes: seq<string>, truncated: bool) | ListFailed

  /** A readable manifest that lists a shard makes the object a sealed one. */
  predicate HasManifest(t: Tree, env: Env, p: Path) {
    && IsFile(t, p + [MANIFEST_NAME])
    && env.manifest(t[p + [MANIFEST_NAME]].data).Some?
    && env.manifest(t[p + [MANIFEST_NAME]].data).value.shard.Some?
  }

  /** Where the manifest says the shard is. */
  function ShardOf(t: Tree, env: Env, p: Path): Path
    requires HasManifest(t, env, p)
  {
    env.manifest(t[p + [MANIFEST_NAME]].data).value.shard.value
  }

  /** Only plain objects: no file has the name of a shard or a manifest. */
  ghost predicate PlainFiles(files: map<Path, Bytes>) {
    forall p :: p in files ==> p != [] && Base(p) != SHARD_NAME && Base(p) != MANIFEST_NAME
  }

  lemma NoManifest(t: Tree, env: Env, p: Path)
    requires PlainFiles(Files(t))
    ensures !HasManifest(t, env, p)
  {
    var m := p + [MANIFEST_NAME];
    assert Base(m) == MANIFEST_NAME;
    assert m !in Files(t);
  }

  /** A Delete of a sealed object: shard and manifest go, then the directories this empties. */
  ghost function DeleteSealedTree(t: Tree, p: Path, shard: Path): Tree {
    Prune(Removed(Removed(t, shard), p + [MANIFEST_NAME]), p)
  }

  /** No regular file in the bucket outside its .multipart directory. */
  ghost predicate Vacant(t: Tree, bucket: string) {
    forall p :: IsFile(t, p) && [bucket] < p ==> p[1] == STAGING
  }

  lemma ClearStep(t: Tree, q: Path)
    requires q != [] && Clear(t, Parent(q)) && !IsFile(t, q)
    ensures Clear(t, q)
  {
    forall x | IsFile(t, x) ensures !(x <= q) {
      assert !(x <= Parent(q)) && x != q;
    }
  }

  /** os.Remove: a file or an empty directory goes, anything else stays. */
  ghost function Removed(t: Tree, p: Path): Tree {
    if p != [] && p in t && !HasChild(t, p) then t - {p} else t
  }

  lemma RemovedKeepsTree(t: Tree, p: Path)
    requires WellFormed(t)
    ensures WellFormed(Removed(t, p)) && Files(Removed(t, p)) == Files(t) - {p}
    ensures p != [] && OnlyEmpty(t, Parent(p)) ==> OnlyEmpty(Removed(t, p), Parent(p))
    ensures p != [] && NoEmptyDirs(t) ==> OnlyEmpty(Removed(t, p), Parent(p))
  {
    if IsFile(t, p) { FileHasNoChild(t, p); }
    assert p in t ==> Placed(t, p);
    if p in t && !HasChild(t, p) {
      RemoveNode(t, p);
      if OnlyEmpty(t, Parent(p)) {
        forall e | IsDir(t - {p}, e) && |e| >= 2 && e != Parent(p) ensures HasChild(t - {p}, e) {
          assert HasChild(t, e);
          var c :| IsChild(t, e, c);
          assert IsChild(t - {p}, e, c);
        }
      }
    } else {
      assert Files(t) - {p} == Files(t);
    }
  }

  /** Exactly the two files go; when the shard stands beside its manifest no empty directory is left. */
  lemma DeleteSealedKeepsTree(t: Tree, p: Path, shard: Path)
    requires WellFormed(t) && |p| >= 2
    ensures WellFormed(DeleteSealedTree(t, p, shard))
    ensures Files(DeleteSealedTree(t, p, shard)) == Files(t) - {shard, p + [MANIFEST_NAME]}
    ensures NoEmptyDirs(t) && shard != [] && Parent(shard) == p ==> NoEmptyDirs(DeleteSealedTree(t, p, shard))
  {
    var meta := p + [MANIFEST_NAME];
    assert Parent(meta) == p;
    RemovedKeepsTree(t, shard);
    var t1 := Removed(t, shard);
    RemovedKeepsTree(t1, meta);
    PruneRestores(Removed(t1, meta), p);
    RemoveTwo(Files(t), shard, meta);
    if NoEmptyDirs(t) && shard != [] && Parent(shard) == p { assert OnlyEmpty(t, p); }
  }

  /** Nothing but (some of) `gone` is missing, and nothing changed. */
  ghost predicate LosesAtMost(before: map<Path, Bytes>, after: map<Path, Bytes>, gone: set<Path>) {
    && after.Keys <= before.Keys && before.Keys - gone <= after.Keys
    && forall q :: q in after ==> after[q] == before[q]
  }

  lemma RemoveTwo<K, V>(m: map<K, V>, a: K, b: K)
    ensures m - {a} - {b} == m - {a, b}
  {
  }

  // ---------------------------------------------------------------- the search of IsBucketEmpty

  /** The nodes at or below some path on the stack. */
  ghost function CoveredBy(t: Tree, stack: seq<Path>): set<Path> {
    set q | q in t && exists i :: 0 <= i < |stack| && stack[i] <= q
  }

  /** Stacked paths exist, and none is at or below another. */
  ghost predicate Pending(t: Tree, stack: seq<Path>) {
    && (forall i :: 0 <= i < |stack| ==> stack[i] in t && stack[i] != [])
    && (forall i, j :: 0 <= i < |stack| && 0 <= j < |stack| && i != j ==> !(stack[i] <= stack[j]))
  }

  ghost predicate VacantUnder(t: Tree, stack: seq<Path>) {
    forall q :: q in CoveredBy(t, stack) ==> t[q].Directory?
  }

  /** Push the children of `d`, leaving out the .multipart directory when `top` is set. */
  function Children(d: Path, names: seq<string>, top: bool): seq<Path> {
    if names == [] then []
    else Children(d, names[..|names| - 1], top) +
         (if top && names[|names| - 1] == STAGING then [] else [d + [names[|names| - 1]]])
  }

  method PushAll(t: Tree, stack: seq<Path>, d: Path, names: seq<string>, top: bool) returns (out: seq<Path>)
    ensures out == stack + Children(d, names, top)
  {
    out := stack;
    for i := 0 to |names|
      invariant out == stack + Children(d, names[..i], top)
    {
      assert names[..i + 1][..i] == names[..i];
      if !(top && names[i] == STAGING) {
        out := out + [d + [names[i]]];
      }
    }
    assert names[..|names|] == names;
  }

  lemma {:induction false} ChildrenAre(d: Path, names: seq<string>, top: bool, c: Path)
    ensures c in Children(d, names, top) <==>
            c != [] && Parent(c) == d && Base(c) in names && !(top && Base(c) == STAGING)
  {
    if names != [] {
      var n := names[|names| - 1];
      ChildrenAre(d, names[..|names| - 1], top, c);
      assert names == names[..|names| - 1] + [n];
      assert c != [] ==> c == Parent(c) + [Base(c)];
      assert Parent(d + [n]) == d && Base(d + [n]) == n;
    }
  }

  lemma {:induction false} ChildrenDistinct(d: Path, names: seq<string>, top: bool)
    requires StrictlyAscending(names)
    ensures Distinct(Children(d, names, top))
  {
    if names != [] {
      var front, n := names[..|names| - 1], names[|names| - 1];
      ChildrenDistinct(d, front, top);
      ChildrenAre(d, front, top, d + [n]);
      forall i | 0 <= i < |front| ensures front[i] != n { LessIrreflexive(n); }
    }
  }

  lemma ChildrenExact(t: Tree, d: Path, names: seq<string>, top: bool, c: Path)
    requires Elements(names) == ChildNames(t, d)
    ensures c in Children(d, names, top) <==> IsChild(t, d, c) && !(top && Base(c) == STAGING)
  {
    ChildrenAre(d, names, top, c);
    if c in Children(d, names, top) {
      assert Base(c) in Elements(names);
      var p :| p in t && IsChild(t, d, p) && Base(p) == Base(c);
      assert p == Parent(p) + [Base(p)] && c == Parent(c) + [Base(c)];
    }
    if IsChild(t, d, c) {
      assert Base(c) in ChildNames(t, d);
      assert Base(c) in Elements(names);
    }
  }

  lemma ChildrenPending(t: Tree, d: Path, names: seq<string>, top: bool)
    requires StrictlyAscending(names) && Elements(names) == ChildNames(t, d) && d != []
    ensures Pending(t, Children(d, names, top))
    ensures forall c :: c in Children(d, names, top) <==> IsChild(t, d, c) && !(top && Base(c) == STAGING)
  {
    var kids := Children(d, names, top);
    forall c ensures c in kids <==> IsChild(t, d, c) && !(top && Base(c) == STAGING) {
      ChildrenExact(t, d, names, top, c);
    }
    ChildrenDistinct(d, names, top);
    SiblingsPending(t, d, kids);
  }

  lemma SiblingsPending(t: Tree, d: Path, kids: seq<Path>)
    requires Distinct(kids) && forall c :: c in kids ==> IsChild(t, d, c)
    ensures Pending(t, kids)
  {
    forall i | 0 <= i < |kids| ensures IsChild(t, d, kids[i]) {
      assert kids[i] in kids;
    }
    forall i, j | 0 <= i < |kids| && 0 <= j < |kids| && i != j ensures !(kids[i] <= kids[j]) {
      assert |kids[i]| == |d| + 1 == |kids[j]|;
      assert kids[i] != kids[j];
    }
  }

  /** The nodes strictly below a directory are those at or below its children. */
  lemma BelowIsChildren(t: Tree, d: Path, q: Path) returns (c: Path)
    requires WellFormed(t) && d != [] && q in t && d < q
    ensures IsChild(t, d, c) && c <= q && Base(c) == q[|d|]
  {
    c := q[..|d| + 1];
    if c != q { AncestorIsDir(t, c, q); }
  }

  lemma FirstCovers(t: Tree, d: Path, stack: seq<Path>, q: Path)
    requires WellFormed(t) && |d| == 1 && q in t
    requires forall c :: c in stack <==> IsChild(t, d, c) && Base(c) != STAGING
    ensures q in CoveredBy(t, stack) <==> d < q && q[1] != STAGING
  {
    if d < q && q[1] != STAGING {
      var c := BelowIsChildren(t, d, q);
      assert c in stack;
      var i :| 0 <= i < |stack| && stack[i] == c;
    }
    if q in CoveredBy(t, stack) {
      var i :| 0 <= i < |stack| && stack[i] <= q;
      var c := stack[i];
      assert c in stack;
      assert |c| == 2 && c[1] == q[1] && c[..1] == d;
    }
  }

  lemma FirstStack(t: Tree, bucket: string, names: seq<string>, stack: seq<Path>)
    requires WellFormed(t) && stack == Children([bucket], names, true)
    requires StrictlyAscending(names) && Elements(names) == ChildNames(t, [bucket])
    ensures Pending(t, stack)
    ensures Vacant(t, bucket) <==> VacantUnder(t, stack)
  {
    ChildrenPending(t, [bucket], names, true);
    forall q | q in t ensures q in CoveredBy(t, stack) <==> [bucket] < q && q[1] != STAGING {
      FirstCovers(t, [bucket], stack, q);
    }
  }

  lemma StillPending(t: Tree, rest: seq<Path>, p: Path, kids: seq<Path>)
    requires Pending(t, rest + [p]) && Pending(t, kids)
    requires forall c :: c in kids ==> IsChild(t, p, c)
    ensures Pending(t, rest + kids)
    ensures forall i :: 0 <= i < |rest| ==> !(rest[i] <= p) && !(p <= rest[i])
  {
    var stack, next := rest + [p], rest + kids;
    assert stack[|rest|] == p;
    forall i | 0 <= i < |rest| ensures !(rest[i] <= p) && !(p <= rest[i]) && rest[i] in t && rest[i] != [] {
      assert stack[i] == rest[i];
    }
    forall i, k | 0 <= i < |rest| && 0 <= k < |kids| ensures !(rest[i] <= kids[k]) && !(kids[k] <= rest[i]) {
      assert kids[k] in kids;
      Incomparable(rest[i], p, kids[k]);
    }
    forall i, j | 0 <= i < |next| && 0 <= j < |next| && i != j ensures !(next[i] <= next[j]) {
      if i < |rest| && j < |rest| {
        assert stack[i] == next[i] && stack[j] == next[j];
      } else if i >= |rest| && j >= |rest| {
        assert kids[i - |rest|] == next[i] && kids[j - |rest|] == next[j];
      }
    }
  }

  /** A path unrelated to a directory is unrelated to its children. */
  lemma Incomparable(a: Path, p: Path, c: Path)
    requires !(a <= p) && !(p <= a) && c != [] && Parent(c) == p
    ensures !(a <= c) && !(c <= a)
  {
    assert p <= c;
    assert a <= c ==> a == c || a <= p;
  }

  /** Replacing a directory on top of the stack by its children uncovers only the directory itself. */
  lemma PopPush(t: Tree, rest: seq<Path>, p: Path, names: seq<string>, stack: seq<Path>, next: seq<Path>)
    requires WellFormed(t) && IsDir(t, p) && stack == rest + [p] && Pending(t, stack)
    requires StrictlyAscending(names) && Elements(names) == ChildNames(t, p)
    requires next == rest + Children(p, names, false)
    ensures Pending(t, next)
    ensures CoveredBy(t, next) == CoveredBy(t, stack) - {p}
    ensures p in CoveredBy(t, stack)
    ensures VacantUnder(t, stack) <==> VacantUnder(t, next)
  {
    assert stack[|rest|] == p && p != [];
    ChildrenPending(t, p, names, false);
    StillPending(t, rest, p, Children(p, names, false));
    CoverAfterPop(t, rest, p, Children(p, names, false), stack, next);
  }

  lemma CoverAfterPop(t: Tree, rest: seq<Path>, p: Path, kids: seq<Path>, stack: seq<Path>, next: seq<Path>)
    requires WellFormed(t) && IsDir(t, p) && stack == rest + [p] && next == rest + kids && p != []
    requires forall c :: c in kids <==> IsChild(t, p, c)
    requires forall i :: 0 <= i < |rest| ==> !(rest[i] <= p)
    ensures CoveredBy(t, next) == CoveredBy(t, stack) - {p} && p in CoveredBy(t, stack)
  {
    assert stack[|rest|] == p;
    forall q | q in t ensures q in CoveredBy(t, next) <==> q in CoveredBy(t, stack) && q != p {
      if q in CoveredBy(t, next) {
        var i :| 0 <= i < |next| && next[i] <= q;
        if i < |rest| { assert stack[i] <= q; } else { assert kids[i - |rest|] in kids; assert p < q; }
      }
      if q in CoveredBy(t, stack) && q != p {
        var i :| 0 <= i < |stack| && stack[i] <= q;
        if i < |rest| {
          assert next[i] <= q;
        } else {
          var c := BelowIsChildren(t, p, q);
          var k :| 0 <= k < |kids| && kids[k] == c;
          assert next[|rest| + k] <= q;
        }
      }
    }
  }

  lemma BucketRemoved(t: Tree, bucket: string)
    requires WellFormed(t)
    ensures var t' := map p | p in t && !([bucket] <= p) :: t[p];
            WellFormed(t') && (NoEmptyDirs(t) ==> NoEmptyDirs(t'))
  {
    var t' := map p | p in t && !([bucket] <= p) :: t[p];
    forall p | p in t' ensures Placed(t', p) {
      assert Placed(t, p);
    }
    if NoEmptyDirs(t) {
      forall d | IsDir(t', d) && |d| >= 2 ensures HasChild(t', d) {
        assert HasChild(t, d);
        var c :| IsChild(t, d, c);
        assert IsChild(t', d, c);
      }
    }
  }

  /** Deleting a vacant bucket loses an object exactly when a plain file is named .multipart itself. */
  lemma VacantListsNothing(t: Tree, env: Env, bucket: string)
    requires WellFormed(t) && Vacant(t, bucket)
    ensures KeysIn(t, env, bucket) == {} <==> !IsFile(t, [bucket, STAGING])
    ensures forall q: Query :: q.bucket == bucket && !IsFile(t, [bucket, STAGING]) ==> WalkedKeys(t, q, env) == {}
  {
    var odd := [bucket, STAGING];
    if IsFile(t, odd) {
      assert odd[1..] == [STAGING] && Key(odd) == STAGING;
      assert odd in ObjectsIn(t, env, bucket);
      assert ObjKey(odd) in KeysIn(t, env, bucket);
    } else {
      forall p | p in Below(t, [bucket]) && t[p].File? ensures !Visible(p) {
        assert IsFile(t, p);
        assert p[1] == STAGING;
        assert p != odd;
        assert Placed(t, p) && |p| > 2;
        assert p[1..] == [STAGING] + p[2..];
        JoinConcat([STAGING], p[2..], '/');
      }
    }
  }

  lemma ManifestAbove(t: Tree, p: Path)
    requires WellFormed(t) && p != [] && IsFile(t, p + [MANIFEST_NAME])
    ensures IsDir(t, p)
  {
    var meta := p + [MANIFEST_NAME];
    assert Parent(meta) == p && Placed(t, meta);
  }

  class LocalFS {
    const env: Env
    /** When false, any disk operation may fail. */
    const reliable: bool
    var t: Tree

    constructor (env: Env, reliable: bool)
      ensures this.env == env && this.reliable == reliable && t == map[] && Valid()
    {
      this.env, this.reliable, t := env, reliable, map[];
    }

    ghost predicate Valid()
      reads this
    {
      WellFormed(t)
    }

    /** Does the disk fail this time? */
    method Fault() returns (fault: bool)
      ensures reliable ==> !fault
    {
      fault := *;
      if reliable { fault := false; }
    }

    method MkdirAll(d: Path) returns (ok: bool)
      requires Valid() && GoodPath(d)
      modifies this
      ensures Valid() && Files(t) == Files(old(t))
      ensures ok ==> t == Mkdirs(old(t), d) && Clear(old(t), d)
      ensures reliable && Clear(old(t), d) ==> ok
    {
      ghost var t0 := t;
      var i := 0;
      assert d[..0] == [];
      while i < |d|
        invariant 0 <= i <= |d| && Valid()
        invariant Clear(t0, d[..i])
        invariant t == Mkdirs(t0, d[..i]) && Files(t) == Files(t0)
      {
        var q := d[..i + 1];
        assert Parent(q) == d[..i];
        MkdirsNodes(t0, d[..i], q);
        if q in t && t[q].File? {
          assert IsFile(t0, q) && q <= d;
          return false;
        }
        ClearStep(t0, q);
        MkdirsKeeps(t0, q);
        if q !in t {
          var fault := Fault();
          if fault { return false; }
          t := t[q := Directory];
        }
        i := i + 1;
      }
      assert d[..|d|] == d;
      ok := true;
    }

    /**
     * Plain Put: make the directories, write a temporary file, rename it into place. `delivered` is
     * what the reader yields, `copyFails` whether it ends in an error.
     */
    method Put(bucket: string, key: string, delivered: Bytes, copyFails: bool) returns (r: PlainPut)
      requires Valid() && CanonicalKey(key) && (bucket == "" || GoodName(bucket))
      modifies this
      ensures Valid()
      ensures r.PutOk? ==>
                && bucket != "" && !copyFails && CanPut(old(t), ObjPath(bucket, key))
                && t == PutTree(old(t), ObjPath(bucket, key), delivered)
                && Files(t) == Files(old(t))[ObjPath(bucket, key) := delivered]
                && r == PutOk(env.md5Hex(delivered), |delivered|)
                && (NoEmptyDirs(old(t)) ==> NoEmptyDirs(t))
      ensures !r.PutOk? ==> Files(t) == Files(old(t))
      ensures r.CopyFailed? ==> copyFails
      ensures reliable && bucket != "" && copyFails && Clear(old(t), Parent(ObjPath(bucket, key))) ==> r.CopyFailed?
      ensures reliable && bucket != "" && !copyFails && CanPut(old(t), ObjPath(bucket, key)) ==> r.PutOk?
    {
      if bucket == "" { return PutFailed; }
      var path := ObjPath(bucket, key);
      assert GoodPath(path) && |path| >= 2;
      ghost var t0 := t;
      var ok := MkdirAll(Parent(path));
      if !ok { return PutFailed; }
      var fault := Fault();
      if fault { return PutFailed; }
      if copyFails { return CopyFailed; }
      MkdirsNodes(t0, Parent(path), path);
      fault := Fault();
      if fault || (path in t && t[path].Directory?) { return PutFailed; }
      PutKeepsTree(t0, path, delivered);
      t := t[path := File(delivered)];
      return PutOk(env.md5Hex(delivered), |delivered|);
    }

    method Get(bucket: string, key: string) returns (r: PlainGet)
      requires Valid() && GoodName(bucket) && CanonicalKey(key)
      ensures var p := ObjPath(bucket, key);
              && (r.SealedObject? <==> HasManifest(t, env, p))
              && (r.Found? ==> p in Files(t) && r == Found(Files(t)[p], env.md5Hex(Files(t)[p])))
              && (p in Files(t) && reliable ==> r.Found?)
    {
      var p := ObjPath(bucket, key);
      if HasManifest(t, env, p) {
        ghost var meta := p + [MANIFEST_NAME];
        assert Parent(meta) == p && Placed(t, meta);
        return SealedObject;
      }
      if p !in t || t[p].Directory? { return Missing; }
      var fault := Fault();
      if fault { return Missing; }
      return Found(t[p].data, env.md5Hex(t[p].data));
    }

    /** os.Remove; the result says whether something was removed. */
    method Remove(p: Path) returns (ok: bool)
      requires Valid()
      modifies this
      ensures Valid()
      ensures ok ==> p in old(t) && !HasChild(old(t), p) && t == old(t) - {p}
      ensures !ok ==> t == old(t)
      ensures reliable ==> t == Removed(old(t), p) && (ok <==> p in old(t) && !HasChild(old(t), p))
    {
      if p !in t { return false; }
      assert Placed(t, p);
      if t[p].Directory? {
        var kids := ReadDir(t, p);
        if |kids| > 0 { return false; }
      } else {
        FileHasNoChild(t, p);
      }
      var fault := Fault();
      if fault { return false; }
      RemoveNode(t, p);
      t := t - {p};
      return true;
    }

    /** os.Remove on a directory found empty. */
    method RemoveEmptyDir(d: Path) returns (ok: bool)
      requires Valid() && IsDir(t, d) && |d| >= 2 && !HasChild(t, d)
      modifies this
      ensures Valid() && Files(t) == Files(old(t))
      ensures t == if ok then old(t) - {d} else old(t)
      ensures ok ==> Prune(old(t), d) == Prune(t, Parent(d))
      ensures reliable ==> ok
    {
      RemoveNode(t, d);
      assert Files(t) - {d} == Files(t);
      ok := Remove(d);
    }

    /** removeEmptyParents: climb from `dir`, removing empty directories, and stop at the bucket. */
    method RemoveEmptyParents(dir: Path, stop: Path)
      requires Valid() && |stop| == 1 && stop <= dir
      modifies this
      ensures Valid() && Files(t) == Files(old(t))
      ensures reliable ==> t == Prune(old(t), dir)
      ensures forall q :: q in old(t) && q !in t ==> IsDir(old(t), q) && |q| >= 2 && q <= dir
    {
      ghost var t0 := t;
      ghost var removed: set<Path> := {};
      var d := dir;
      while true
        invariant Valid() && Files(t) == Files(t0)
        invariant stop <= d && d <= dir
        invariant reliable ==> Prune(t, d) == Prune(t0, dir)
        invariant t == t0 - removed
        invariant forall q :: q in removed ==> IsDir(t0, q) && |q| >= 2 && q <= dir
        decreases |d|
      {
        if d == stop { return; }
        if d !in t || t[d].File? { return; }
        var kids := ReadDir(t, d);
        if |kids| > 0 { return; }
        var ok := RemoveEmptyDir(d);
        if !ok { return; }
        removed := removed + {d};
        d := Parent(d);
      }
    }

    /** Delete: a sealed object goes by its manifest, anything else by its own path; then the emptied directories go. */
    method Delete(bucket: string, key: string) returns (r: DeleteResult)
      requires Valid() && GoodName(bucket) && CanonicalKey(key)
      modifies this
      ensures Valid()
      ensures var p := ObjPath(bucket, key);
              var gone := if HasManifest(old(t), env, p) then {ShardOf(old(t), env, p), p + [MANIFEST_NAME]} else {p};
              && LosesAtMost(Files(old(t)), Files(t), gone)
              && (r == Deleted && (reliable || !HasManifest(old(t), env, p)) ==> Files(t) == Files(old(t)) - gone)
              && (r != Deleted ==> t == old(t))
              && (r == NotFound <==> p !in old(t) && !HasManifest(old(t), env, p))
              && (reliable && IsFile(old(t), p) ==> r == Deleted && t == DeleteTree(old(t), p))
              && (reliable && HasManifest(old(t), env, p) ==>
                    r == Deleted && t == DeleteSealedTree(old(t), p, ShardOf(old(t), env, p)))
      ensures var p := ObjPath(bucket, key);
              && reliable && NoEmptyDirs(old(t))
              && (HasManifest(old(t), env, p) ==>
                    ShardOf(old(t), env, p) != [] && Parent(ShardOf(old(t), env, p)) == p)
              ==> NoEmptyDirs(t)
    {
      var p := ObjPath(bucket, key);
      assert |p| >= 2;
      ghost var t0 := t;
      if HasManifest(t, env, p) {
        ManifestAbove(t, p);
        var shard := ShardOf(t, env, p);
        DeleteSealedKeepsTree(t, p, shard);
        r := DeleteSealed(bucket, p, shard);
        return;
      }
      if p !in t { return NotFound; }
      var ok := Remove(p);
      if !ok { return DeleteFailed; }
      RemovedKeepsTree(t0, p);
      PruneRestores(t0 - {p}, Parent(p));
      RemoveEmptyParents(Parent(p), [bucket]);
      return Deleted;
    }

    /** The sealed branch of Delete; failures to remove either file are ignored. */
    method DeleteSealed(bucket: string, p: Path, shard: Path) returns (r: DeleteResult)
      requires Valid() && |p| >= 2 && p[0] == bucket
      modifies this
      ensures Valid() && r == Deleted
      ensures LosesAtMost(Files(old(t)), Files(t), {shard, p + [MANIFEST_NAME]})
      ensures reliable ==> t == DeleteSealedTree(old(t), p, shard)
    {
      var meta := p + [MANIFEST_NAME];
      ghost var t0 := t;
      RemovedKeepsTree(t, shard);
      var _ := Remove(shard);
      ghost var t1 := t;
      assert LosesAtMost(Files(t0), Files(t1), {shard});
      RemovedKeepsTree(t, meta);
      var _ := Remove(meta);
      assert LosesAtMost(Files(t1), Files(t), {meta});
      RemoveEmptyParents(p, [bucket]);
      return Deleted;
    }

    /** Head of a plain object. */
    method Head(bucket: string, key: string) returns (r: PlainGet)
      requires Valid() && GoodName(bucket) && CanonicalKey(key)
      ensures r.Found? ==> ObjPath(bucket, key) in Files(t) && r.data == Files(t)[ObjPath(bucket, key)] && r.etag == env.md5Hex(r.data)
      ensures reliable && ObjPath(bucket, key) in Files(t) ==> r.Found?
      ensures ObjPath(bucket, key) !in t ==> !r.Found?
    {
      r := Get(bucket, key);
    }

    /** List; a missing bucket directory lists as empty. */
    method List(q: Query, maxKeys: nat) returns (r: ListResult)
      requires Valid()
      ensures r.ListFailed? ==> !reliable
      ensures r.Listed? ==>
                var page := PageOf(Enumerate(Entries(t, q, env)), maxKeys);
                && r.truncated == page.truncated
                && Splits(page, r.objects, r.prefixes, WalkedKeys(t, q, env), WalkedPrefixes(t, q))
                && forall o :: o in r.objects ==> Reported(Files(t), env, q.bucket, o)
    {
      var fault := Fault();
      if fault { return ListFailed; }
      var objects, prefixes, truncated := ListBucket(t, q, env, maxKeys);
      return Listed(objects, prefixes, truncated);
    }

    /** IsBucketEmpty: an explicit stack of paths still to look at. */
    method IsBucketEmpty(bucket: string) returns (empty: bool)
      requires Valid()
      ensures empty <==> Vacant(t, bucket)
    {
      var bdir: Path := [bucket];
      if bdir !in t {
        forall p | p in t ensures !(bdir < p) {
          if bdir < p { AncestorIsDir(t, bdir, p); }
        }
        return true;
      }
      assert Placed(t, bdir);
      var entries := ReadDir(t, bdir);
      var stack: seq<Path> := PushAll(t, [], bdir, entries, true);
      assert stack == Children(bdir, entries, true);
      FirstStack(t, bucket, entries, stack);
      while stack != []
        invariant Pending(t, stack)
        invariant Vacant(t, bucket) <==> VacantUnder(t, stack)
        decreases CoveredBy(t, stack)
      {
        var p := stack[|stack| - 1];
        var rest := stack[..|stack| - 1];
        if t[p].File? {
          assert p in CoveredBy(t, stack);
          return false;
        }
        var kids := ReadDir(t, p);
        var next := PushAll(t, rest, p, kids, false);
        PopPush(t, rest, p, kids, stack, next);
        stack := next;
      }
      empty := true;
    }

    method RemoveBucket(bucket: string) returns (ok: bool)
      requires Valid()
      modifies this
      ensures Valid()
      ensures ok ==> Vacant(old(t), bucket) && t == map p | p in old(t) && !([bucket] <= p) :: old(t)[p]
      ensures ok && NoEmptyDirs(old(t)) ==> NoEmptyDirs(t)
      ensures !ok ==> t == old(t)
      ensures reliable && Vacant(old(t), bucket) ==> ok
    {
      var empty := IsBucketEmpty(bucket);
      if !empty { return false; }
      var fault := Fault();
      if fault { return false; }
      BucketRemoved(t, bucket);
      t := map p | p in t && !([bucket] <= p) :: t[p];
      return true;
    }
  }
}
