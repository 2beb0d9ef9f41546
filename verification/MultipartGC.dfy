/** Collecting stale multipart uploads (pkg/admin/gc.go). */
module MultipartGC {
  import opened Strings
  import opened Encoding
  import opened Sorting
  import opened FileTree
  import opened Listing
  import opened ListReference
  import opened Pagination
  import opened MultipartModel
  import LocalFS
  import MetadataStore

  datatype Stats = Stats(scanned: nat, aborted: nat, deleted: nat)

  /** "<bucket>/<key>/<uploadID>/" */
  function StagingPrefix(u: Upload, id: string): string {
    u.bucket + "/" + u.key + "/" + id + "/"
  }

  predicate Stale(u: Upload, now: int, olderThan: int) {
    now - u.initiated >= olderThan
  }

  ghost function StaleIds(uploads: map<string, Upload>, now: int, olderThan: int): set<string> {
    set id | id in uploads && Stale(uploads[id], now, olderThan)
  }

  /** A listable staged file whose key has the prefix. */
  predicate StagedUnder(p: Path, prefix: string) {
    |p| >= 2 && p[0] == STAGING && Visible(p) && HasPrefix(Key(p), prefix)
  }

  ghost function Under(files: map<Path, Bytes>, prefix: string): set<Path> {
    set p | p in files && StagedUnder(p, prefix)
  }

  ghost function UnderAny(files: map<Path, Bytes>, uploads: map<string, Upload>, ids: set<string>): set<Path> {
    set p | p in files && exists id :: id in ids && id in uploads && StagedUnder(p, StagingPrefix(uploads[id], id))
  }

  // ---------------------------------------------------------------- one page of a sweep

  function PartQuery(prefix: string, startAfter: string): Query {
    Query(STAGING, prefix, startAfter, "")
  }

  /** What is still ahead of a listing that starts after `startAfter`. */
  ghost function Ahead(files: map<Path, Bytes>, prefix: string, startAfter: string): set<Path> {
    set p | p in Under(files, prefix) && Past(PartQuery(prefix, startAfter), Key(p))
  }

  ghost function PathsOf(objects: seq<ObjectMeta>): set<Path> {
    set o | o in objects :: ObjPath(STAGING, o.key)
  }

  lemma PlainStaged(t: Tree, env: Env, prefix: string, startAfter: string, p: Path)
    requires WellFormed(t) && LocalFS.PlainFiles(Files(t)) && |p| >= 2
    ensures p in Ahead(Files(t), prefix, startAfter) <==>
            p in ListedOf(t, PartQuery(prefix, startAfter), env, Below(t, [STAGING]))
    ensures p in Files(t) ==> ObjKey(p) == Key(p) && GoodPath(p)
    ensures p in Files(t) && p[0] == STAGING ==> ObjPath(STAGING, Key(p)) == p && CanonicalKey(Key(p))
  {
    if p in Files(t) {
      assert Placed(t, p);
      if p[0] == STAGING { ObjPathOfKey(p); }
    }
    assert [STAGING] < p <==> p[0] == STAGING;
  }

  /** Without a delimiter the entries of a staging listing are exactly the keys ahead. */
  lemma StagedEntries(t: Tree, env: Env, prefix: string, startAfter: string)
    requires WellFormed(t) && LocalFS.PlainFiles(Files(t))
    ensures var q := PartQuery(prefix, startAfter);
            && WalkedPrefixes(t, q) == {}
            && WalkedKeys(t, q, env) == set p | p in Ahead(Files(t), prefix, startAfter) :: Key(p)
  {
    var q := PartQuery(prefix, startAfter);
    UndelimitedListingExact(t, q, env);
    forall k ensures k in WalkedKeys(t, q, env) <==> k in set p | p in Ahead(Files(t), prefix, startAfter) :: Key(p) {
      if k in WalkedKeys(t, q, env) {
        var p :| p in ListedOf(t, q, env, Below(t, [STAGING])) && ObjKey(p) == k;
        PlainStaged(t, env, prefix, startAfter, p);
      }
      if p :| p in Ahead(Files(t), prefix, startAfter) && Key(p) == k {
        PlainStaged(t, env, prefix, startAfter, p);
      }
    }
  }

  /** The objects are the first keys ahead; when the page is truncated there is a last one and more behind it. */
  ghost predicate IsPage(files: map<Path, Bytes>, prefix: string, startAfter: string, objects: seq<ObjectMeta>, truncated: bool) {
    && StrictlyAscending(KeysOf(objects))
    && (forall o :: o in objects ==> CanonicalKey(o.key) && Key(ObjPath(STAGING, o.key)) == o.key)
    && (truncated ==> objects != [])
    && forall p :: p in PathsOf(objects) <==>
         p in Ahead(files, prefix, startAfter) && (truncated ==> !Less(objects[|objects| - 1].key, Key(p)))
  }

  lemma ListedIsPage(t: Tree, env: Env, prefix: string, startAfter: string, n: nat,
                     objects: seq<ObjectMeta>, prefixes: seq<string>, truncated: bool)
    requires WellFormed(t) && LocalFS.PlainFiles(Files(t)) && n > 0
    requires var q := PartQuery(prefix, startAfter);
             var page := PageOf(Enumerate(Entries(t, q, env)), n);
             truncated == page.truncated && Splits(page, objects, prefixes, WalkedKeys(t, q, env), WalkedPrefixes(t, q))
    ensures IsPage(Files(t), prefix, startAfter, objects, truncated)
  {
    var q := PartQuery(prefix, startAfter);
    var full := Enumerate(Entries(t, q, env));
    StagedEntries(t, env, prefix, startAfter);
    assert Entries(t, q, env) == WalkedKeys(t, q, env);
    AheadIsGood(t, env, prefix, startAfter);
    FirstKeysArePage(full, n, Ahead(Files(t), prefix, startAfter), objects, truncated);
  }

  lemma AheadIsGood(t: Tree, env: Env, prefix: string, startAfter: string)
    requires WellFormed(t) && LocalFS.PlainFiles(Files(t))
    ensures forall p :: p in Ahead(Files(t), prefix, startAfter) ==>
              p != [] && ObjPath(STAGING, Key(p)) == p && CanonicalKey(Key(p))
  {
    forall p | p in Ahead(Files(t), prefix, startAfter) ensures ObjPath(STAGING, Key(p)) == p && CanonicalKey(Key(p)) {
      PlainStaged(t, env, prefix, startAfter, p);
    }
  }

  lemma FirstKeysArePage(full: seq<string>, n: nat, ahead: set<Path>, objects: seq<ObjectMeta>, truncated: bool)
    requires forall p :: p in ahead ==> p != [] && ObjPath(STAGING, Key(p)) == p && CanonicalKey(Key(p))
    requires StrictlyAscending(full) && Elements(full) == set p | p in ahead :: Key(p)
    requires n > 0 && truncated == (|full| > n) && StrictlyAscending(KeysOf(objects))
    requires Elements(KeysOf(objects)) == Elements(PageOf(full, n).entries) * Elements(full)
    ensures truncated ==> objects != []
    ensures forall p :: p in PathsOf(objects) <==> p in ahead && (truncated ==> !Less(objects[|objects| - 1].key, Key(p)))
    ensures forall o :: o in objects ==> CanonicalKey(o.key) && Key(ObjPath(STAGING, o.key)) == o.key
  {
    assert Elements(full[..if |full| > n then n else |full|]) <= Elements(full);
    ObjectsAreFirst(full, n, objects, truncated);
    var last := if truncated then Some(objects[|objects| - 1].key) else None;
    KeysToPaths(ahead, objects, last);
  }

  /** Keys stand for paths one to one, so a statement about the keys of a page is one about its paths. */
  lemma KeysToPaths(ahead: set<Path>, objects: seq<ObjectMeta>, last: Option<string>)
    requires forall p :: p in ahead ==> p != [] && ObjPath(STAGING, Key(p)) == p && CanonicalKey(Key(p))
    requires forall k :: k in Elements(KeysOf(objects)) <==>
                         (exists p :: p in ahead && Key(p) == k) && (last.Some? ==> !Less(last.value, k))
    ensures forall p :: p in PathsOf(objects) <==> p in ahead && (last.Some? ==> !Less(last.value, Key(p)))
    ensures forall o :: o in objects ==> CanonicalKey(o.key) && Key(ObjPath(STAGING, o.key)) == o.key
  {
    forall o | o in objects ensures CanonicalKey(o.key) && Key(ObjPath(STAGING, o.key)) == o.key {
      KeyInElements(objects, o.key);
      assert o in Elements(objects);
      var p :| p in ahead && Key(p) == o.key;
    }
    forall p ensures p in PathsOf(objects) <==> p in ahead && (last.Some? ==> !Less(last.value, Key(p))) {
      if p in ahead && (last.Some? ==> !Less(last.value, Key(p))) {
        assert Key(p) in Elements(KeysOf(objects));
        KeyInElements(objects, Key(p));
        var o :| o in Elements(objects) && o.key == Key(p);
        assert o in objects;
      }
      if p in PathsOf(objects) {
        var o :| o in objects && p == ObjPath(STAGING, o.key);
        assert o in Elements(objects);
        KeyInElements(objects, o.key);
      }
    }
  }

  lemma ObjectsAreFirst(full: seq<string>, n: nat, objects: seq<ObjectMeta>, truncated: bool)
    requires StrictlyAscending(full) && n > 0 && truncated == (|full| > n) && StrictlyAscending(KeysOf(objects))
    requires Elements(KeysOf(objects)) == Elements(PageOf(full, n).entries)
    ensures truncated ==> objects != []
    ensures forall k :: k in Elements(KeysOf(objects)) <==>
              k in Elements(full) && (truncated ==> !Less(objects[|objects| - 1].key, k))
  {
    if truncated {
      assert StrictlyAscending(full[..n]);
      AscendingUnique(KeysOf(objects), full[..n]);
      var last := full[n - 1];
      assert KeysOf(objects)[|objects| - 1] == last;
      forall k ensures k in Elements(full[..n]) <==> k in Elements(full) && !Less(last, k) {
        UpToLast(full, n, k);
      }
    }
  }

  lemma UpToLast(full: seq<string>, n: nat, k: string)
    requires StrictlyAscending(full) && 0 < n < |full|
    ensures k in full[..n] <==> k in full && !Less(full[n - 1], k)
  {
    if k in full {
      var i :| 0 <= i < |full| && full[i] == k;
      LessTotal(k, full[n - 1]);
      LessIrreflexive(k);
      assert i < n ==> full[..n][i] == k;
    }
    if k in full[..n] {
      var i :| 0 <= i < n && full[..n][i] == k;
      assert full[i] == k;
    }
  }

  // ---------------------------------------------------------------- the sweep of one prefix

  /** `removed` files are gone from `before`, `n` of them, and nothing else changed. */
  ghost predicate Removed(before: map<Path, Bytes>, now: map<Path, Bytes>, removed: set<Path>, n: nat) {
    removed <= before.Keys && now == before - removed && |removed| == n
  }

  lemma RemovedMore(before: map<Path, Bytes>, mid: map<Path, Bytes>, now: map<Path, Bytes>,
                    first: set<Path>, n: nat, second: set<Path>, m: nat)
    requires Removed(before, mid, first, n) && Removed(mid, now, second, m)
    ensures Removed(before, now, first + second, n + m)
  {
    assert first !! second;
  }

  lemma CanonicalNonEmpty(key: string)
    requires CanonicalKey(key)
    ensures key != ""
  {
    assert Split("", '/')[0] == "";
  }

  /** After a truncated page exactly its files are no longer ahead. */
  lemma PageAdvances(files: map<Path, Bytes>, prefix: string, startAfter: string, objects: seq<ObjectMeta>)
    requires IsPage(files, prefix, startAfter, objects, true)
    ensures PathsOf(objects) <= Ahead(files, prefix, startAfter)
    ensures var last := objects[|objects| - 1].key;
            && Ahead(files, prefix, last) == Ahead(files, prefix, startAfter) - PathsOf(objects)
            && Ahead(files, prefix, last) < Ahead(files, prefix, startAfter)
  {
    var o := objects[|objects| - 1];
    var last := o.key;
    assert o in objects;
    CanonicalNonEmpty(last);
    LessIrreflexive(last);
    forall p | p in Under(files, prefix)
      ensures p in Ahead(files, prefix, last) <==> p in Ahead(files, prefix, startAfter) && p !in PathsOf(objects)
    {
      if Less(last, Key(p)) && startAfter != "" { LessTransitive(startAfter, last, Key(p)); }
    }
    assert ObjPath(STAGING, last) in PathsOf(objects);
  }

  /** With everything not ahead removed, a page of what is left is a page of the original files. */
  lemma SamePage(before: map<Path, Bytes>, now: map<Path, Bytes>, prefix: string, startAfter: string)
    requires now.Keys <= before.Keys && (before.Keys - now.Keys) !! Ahead(before, prefix, startAfter)
    ensures Ahead(now, prefix, startAfter) == Ahead(before, prefix, startAfter)
  {
  }

  /** Delete the listed parts one by one, counting the deletions that succeed. */
  method DeletePage(objs: LocalFS.LocalFS, objects: seq<ObjectMeta>) returns (deleted: nat, ghost removed: set<Path>)
    requires objs.Valid() && LocalFS.PlainFiles(Files(objs.t))
    requires StrictlyAscending(KeysOf(objects)) && PathsOf(objects) <= Files(objs.t).Keys
    requires forall o :: o in objects ==> CanonicalKey(o.key) && Key(ObjPath(STAGING, o.key)) == o.key
    modifies objs
    ensures objs.Valid() && LocalFS.PlainFiles(Files(objs.t))
    ensures Removed(Files(old(objs.t)), Files(objs.t), removed, deleted) && removed <= PathsOf(objects)
    ensures objs.reliable ==> removed == PathsOf(objects)
  {
    ghost var before := Files(objs.t);
    deleted, removed := 0, {};
    for i := 0 to |objects|
      invariant objs.Valid() && LocalFS.PlainFiles(Files(objs.t))
      invariant Removed(before, Files(objs.t), removed, deleted) && removed <= PathsOf(objects[..i])
      invariant objs.reliable ==> removed == PathsOf(objects[..i])
    {
      ghost var mid := Files(objs.t);
      NotYet(objects, i, removed);
      assert objects[i] in objects;
      var ok := DeletePart(objs, objects[i].key);
      if ok {
        RemovedMore(before, mid, Files(objs.t), removed, deleted, {ObjPath(STAGING, objects[i].key)}, 1);
        removed := removed + {ObjPath(STAGING, objects[i].key)};
        deleted := deleted + 1;
      }
    }
    assert objects[..|objects|] == objects;
  }

  lemma NotYet(objects: seq<ObjectMeta>, i: nat, removed: set<Path>)
    requires i < |objects| && StrictlyAscending(KeysOf(objects)) && removed <= PathsOf(objects[..i])
    requires forall o :: o in objects ==> Key(ObjPath(STAGING, o.key)) == o.key
    ensures ObjPath(STAGING, objects[i].key) !in removed
    ensures PathsOf(objects[..i + 1]) == PathsOf(objects[..i]) + {ObjPath(STAGING, objects[i].key)}
  {
    var p := ObjPath(STAGING, objects[i].key);
    if p in PathsOf(objects[..i]) {
      var o :| o in objects[..i] && p == ObjPath(STAGING, o.key);
      var j :| 0 <= j < i && objects[..i][j] == o;
      assert objects[j] in objects && objects[i] in objects;
      assert Less(KeysOf(objects)[j], KeysOf(objects)[i]);
      LessIrreflexive(o.key);
    }
    assert objects[..i + 1] == objects[..i] + [objects[i]];
  }

  method DeletePart(objs: LocalFS.LocalFS, key: string) returns (ok: bool)
    requires objs.Valid() && LocalFS.PlainFiles(Files(objs.t)) && CanonicalKey(key)
    requires ObjPath(STAGING, key) in Files(objs.t)
    modifies objs
    ensures objs.Valid() && LocalFS.PlainFiles(Files(objs.t))
    ensures objs.reliable ==> ok
    ensures ok ==> Removed(Files(old(objs.t)), Files(objs.t), {ObjPath(STAGING, key)}, 1)
    ensures !ok ==> Files(objs.t) == Files(old(objs.t))
  {
    LocalFS.NoManifest(objs.t, objs.env, ObjPath(STAGING, key));
    var r := objs.Delete(STAGING, key);
    ok := r == LocalFS.Deleted;
  }

  /** The sweep so far: only files under the prefix are gone, none that is still ahead, and on a working disk all others. */
  ghost predicate Swept(reliable: bool, before: map<Path, Bytes>, now: map<Path, Bytes>, prefix: string,
                        ahead: set<Path>, removed: set<Path>, deleted: nat) {
    && Removed(before, now, removed, deleted) && removed <= Under(before, prefix) && removed !! ahead
    && (reliable ==> removed == Under(before, prefix) - ahead)
  }

  function LastKey(objects: seq<ObjectMeta>): string
    requires objects != []
  {
    objects[|objects| - 1].key
  }

  lemma SweepPage(reliable: bool, before: map<Path, Bytes>, mid: map<Path, Bytes>, now: map<Path, Bytes>, prefix: string,
                  startAfter: string, objects: seq<ObjectMeta>, truncated: bool,
                  removed: set<Path>, deleted: nat, gone: set<Path>, n: nat)
    requires Swept(reliable, before, mid, prefix, Ahead(before, prefix, startAfter), removed, deleted)
    requires IsPage(mid, prefix, startAfter, objects, truncated)
    requires Removed(mid, now, gone, n) && gone <= PathsOf(objects) && (reliable ==> gone == PathsOf(objects))
    ensures truncated ==>
              && objects != []
              && Ahead(before, prefix, LastKey(objects)) < Ahead(before, prefix, startAfter)
              && Swept(reliable, before, now, prefix, Ahead(before, prefix, LastKey(objects)), removed + gone, deleted + n)
    ensures !truncated ==> Swept(reliable, before, now, prefix, {}, removed + gone, deleted + n)
  {
    SamePage(before, mid, prefix, startAfter);
    RemovedMore(before, mid, now, removed, deleted, gone, n);
    if truncated {
      PageAdvances(before, prefix, startAfter, objects);
      SweptMore(reliable, Under(before, prefix), Ahead(before, prefix, startAfter), PathsOf(objects), removed, gone);
    } else {
      PageEnds(before, prefix, startAfter, objects);
      SweptMore(reliable, Under(before, prefix), Ahead(before, prefix, startAfter), PathsOf(objects), removed, gone);
    }
  }

  lemma PageEnds(files: map<Path, Bytes>, prefix: string, startAfter: string, objects: seq<ObjectMeta>)
    requires IsPage(files, prefix, startAfter, objects, false)
    ensures PathsOf(objects) <= Ahead(files, prefix, startAfter)
    ensures Ahead(files, prefix, startAfter) - PathsOf(objects) == {}
  {
  }

  lemma SweptMore<T>(reliable: bool, all: set<T>, ahead: set<T>, page: set<T>, removed: set<T>, gone: set<T>)
    requires removed <= all && ahead <= all && removed !! ahead && page <= ahead && gone <= page
    requires reliable ==> removed == all - ahead && gone == page
    ensures removed + gone <= all && removed + gone !! ahead - page
    ensures reliable ==> removed + gone == all - (ahead - page)
  {
  }

  /** List one page; `ok` is false when the listing fails. */
  method ListParts(objs: LocalFS.LocalFS, prefix: string, startAfter: string)
    returns (ok: bool, objects: seq<ObjectMeta>, truncated: bool)
    requires objs.Valid() && LocalFS.PlainFiles(Files(objs.t))
    ensures !ok ==> !objs.reliable
    ensures ok ==> IsPage(Files(objs.t), prefix, startAfter, objects, truncated)
  {
    var listed := objs.List(PartQuery(prefix, startAfter), 1000);
    if listed.ListFailed? { return false, [], false; }
    ListedIsPage(objs.t, objs.env, prefix, startAfter, 1000, listed.objects, listed.prefixes, listed.truncated);
    return true, listed.objects, listed.truncated;
  }

  /** Delete the parts of one page. */
  method SweepListed(objs: LocalFS.LocalFS, ghost prefix: string, ghost startAfter: string,
                     objects: seq<ObjectMeta>, ghost truncated: bool, deleted: nat,
                     ghost before: map<Path, Bytes>, ghost removed: set<Path>)
    returns (deleted': nat, ghost removed': set<Path>)
    requires objs.Valid() && LocalFS.PlainFiles(Files(objs.t))
    requires Swept(objs.reliable, before, Files(objs.t), prefix, Ahead(before, prefix, startAfter), removed, deleted)
    requires IsPage(Files(objs.t), prefix, startAfter, objects, truncated)
    modifies objs
    ensures objs.Valid() && LocalFS.PlainFiles(Files(objs.t))
    ensures truncated ==>
              && objects != []
              && Ahead(before, prefix, LastKey(objects)) < Ahead(before, prefix, startAfter)
              && Swept(objs.reliable, before, Files(objs.t), prefix, Ahead(before, prefix, LastKey(objects)), removed', deleted')
    ensures !truncated ==> Swept(objs.reliable, before, Files(objs.t), prefix, {}, removed', deleted')
  {
    ghost var mid := Files(objs.t);
    var n;
    ghost var gone;
    n, gone := DeletePage(objs, objects);
    SweepPage(objs.reliable, before, mid, Files(objs.t), prefix, startAfter, objects, truncated, removed, deleted, gone, n);
    deleted', removed' := deleted + n, removed + gone;
  }

  /** One turn of the sweep. */
  method SweepOnce(objs: LocalFS.LocalFS, prefix: string, startAfter: string, deleted: nat,
                   ghost before: map<Path, Bytes>, ghost removed: set<Path>)
    returns (more: bool, next: string, deleted': nat, ghost removed': set<Path>)
    requires objs.Valid() && LocalFS.PlainFiles(Files(objs.t))
    requires Swept(objs.reliable, before, Files(objs.t), prefix, Ahead(before, prefix, startAfter), removed, deleted)
    modifies objs
    ensures objs.Valid() && LocalFS.PlainFiles(Files(objs.t))
    ensures !more ==> Removed(before, Files(objs.t), removed', deleted') && removed' <= Under(before, prefix)
    ensures more ==>
              && Swept(objs.reliable, before, Files(objs.t), prefix, Ahead(before, prefix, next), removed', deleted')
              && Ahead(before, prefix, next) < Ahead(before, prefix, startAfter)
    ensures !more && objs.reliable ==> removed' == Under(before, prefix)
  {
    more, next, deleted', removed' := false, startAfter, deleted, removed;
    var ok, objects, truncated := ListParts(objs, prefix, startAfter);
    if !ok { return; }
    if |objects| == 0 && !truncated {
      SweepPage(objs.reliable, before, Files(objs.t), Files(objs.t), prefix, startAfter, objects, truncated, removed, deleted, {}, 0);
      assert removed + {} == removed;
      return;
    }
    deleted', removed' := SweepListed(objs, prefix, startAfter, objects, truncated, deleted, before, removed);
    if !truncated { return; }
    more, next := true, LastKey(objects);
  }

  /**
   * List and delete everything under a prefix, 1000 keys at a time. The next listing starts after the
   * last key seen, deleted or not, so the sweep ends even when no deletion succeeds.
   */
  method Sweep(objs: LocalFS.LocalFS, prefix: string) returns (deleted: nat, ghost removed: set<Path>)
    requires objs.Valid() && LocalFS.PlainFiles(Files(objs.t))
    modifies objs
    ensures objs.Valid() && LocalFS.PlainFiles(Files(objs.t))
    ensures Removed(Files(old(objs.t)), Files(objs.t), removed, deleted) && removed <= Under(Files(old(objs.t)), prefix)
    ensures objs.reliable ==> removed == Under(Files(old(objs.t)), prefix)
  {
    ghost var before := Files(objs.t);
    deleted, removed := 0, {};
    var startAfter := "";
    var more := true;
    while more
      invariant objs.Valid() && LocalFS.PlainFiles(Files(objs.t))
      invariant more ==> Swept(objs.reliable, before, Files(objs.t), prefix, Ahead(before, prefix, startAfter), removed, deleted)
      invariant !more ==> Removed(before, Files(objs.t), removed, deleted) && removed <= Under(before, prefix)
      invariant !more && objs.reliable ==> removed == Under(before, prefix)
      decreases more, Ahead(before, prefix, startAfter)
    {
      more, startAfter, deleted, removed := SweepOnce(objs, prefix, startAfter, deleted, before, removed);
    }
  }

  // ---------------------------------------------------------------- the collection

  /** Collected so far: only staged files under the prefixes of `done`, and on a working disk all of them. */
  ghost predicate Collected(reliable: bool, before: map<Path, Bytes>, now: map<Path, Bytes>, uploads: map<string, Upload>,
                            done: set<string>, removed: set<Path>, deleted: nat) {
    && Removed(before, now, removed, deleted) && removed <= UnderAny(before, uploads, done)
    && (reliable ==> removed == UnderAny(before, uploads, done))
  }

  lemma CollectMore(reliable: bool, before: map<Path, Bytes>, mid: map<Path, Bytes>, now: map<Path, Bytes>,
                    uploads: map<string, Upload>, done: set<string>, id: string,
                    removed: set<Path>, deleted: nat, gone: set<Path>, n: nat)
    requires id in uploads && Collected(reliable, before, mid, uploads, done, removed, deleted)
    requires Removed(mid, now, gone, n) && gone <= Under(mid, StagingPrefix(uploads[id], id))
    requires reliable ==> gone == Under(mid, StagingPrefix(uploads[id], id))
    ensures Collected(reliable, before, now, uploads, done + {id}, removed + gone, deleted + n)
  {
    RemovedMore(before, mid, now, removed, deleted, gone, n);
  }

  /** Sweep one upload's parts and abort it. */
  method Collect(meta: MetadataStore.MemoryStore, objs: LocalFS.LocalFS, up: Upload, id: string,
                 ghost before: map<Path, Bytes>, ghost uploads: map<string, Upload>, ghost done: set<string>,
                 deleted: nat, ghost removed: set<Path>)
    returns (aborted: bool, deleted': nat, ghost removed': set<Path>)
    requires objs.Valid() && LocalFS.PlainFiles(Files(objs.t))
    requires id in uploads && up == uploads[id]
    requires Collected(objs.reliable, before, Files(objs.t), uploads, done, removed, deleted)
    modifies meta, objs
    ensures objs.Valid() && LocalFS.PlainFiles(Files(objs.t))
    ensures Collected(objs.reliable, before, Files(objs.t), uploads, done + {id}, removed', deleted')
    ensures meta.buckets == old(meta.buckets) && meta.uploads == old(meta.uploads) - {id}
    ensures aborted == (id in old(meta.uploads))
  {
    ghost var mid := Files(objs.t);
    var n;
    ghost var gone;
    n, gone := Sweep(objs, StagingPrefix(up, id));
    CollectMore(objs.reliable, before, mid, Files(objs.t), uploads, done, id, removed, deleted, gone, n);
    deleted', removed' := deleted + n, removed + gone;
    var r := meta.AbortMultipartUpload(id);
    aborted := r.Ok?;
  }

  ghost function StaleIn(ids: seq<string>, uploads: map<string, Upload>, now: int, olderThan: int): set<string> {
    set id | id in ids && id in uploads && Stale(uploads[id], now, olderThan)
  }

  lemma OneMoreId(ids: seq<string>, i: nat, uploads: map<string, Upload>, now: int, olderThan: int)
    requires i < |ids| && ids[i] in uploads && (forall j, k :: 0 <= j < k < |ids| ==> ids[j] != ids[k])
    ensures StaleIn(ids[..i + 1], uploads, now, olderThan) ==
            StaleIn(ids[..i], uploads, now, olderThan) + (if Stale(uploads[ids[i]], now, olderThan) then {ids[i]} else {})
    ensures ids[i] !in StaleIn(ids[..i], uploads, now, olderThan)
  {
    assert ids[..i + 1] == ids[..i] + [ids[i]];
  }

  lemma DropAlso<K, V>(m: map<K, V>, done: set<K>, k: K)
    ensures m - done - {k} == m - (done + {k})
  {
  }

  lemma AllIds(ids: seq<string>, uploads: map<string, Upload>, now: int, olderThan: int)
    requires (forall j, k :: 0 <= j < k < |ids| ==> ids[j] != ids[k]) && (forall id :: id in ids <==> id in uploads)
    ensures StaleIn(ids[..|ids|], uploads, now, olderThan) == StaleIds(uploads, now, olderThan) && |ids| == |uploads|
  {
    assert ids[..|ids|] == ids;
    NoDupMultiset(ids);
    assert Elements(ids) == uploads.Keys;
  }

  /** The pass so far, having visited `ids`. */
  ghost predicate Passed(reliable: bool, before: map<Path, Bytes>, now: map<Path, Bytes>,
                         uploads: map<string, Upload>, left: map<string, Upload>, stale: set<string>,
                         res: Stats, visited: nat, removed: set<Path>) {
    && Collected(reliable, before, now, uploads, stale, removed, res.deleted)
    && left == uploads - stale && res.scanned == visited && res.aborted == |stale|
  }

  /** Look at one upload: collect it if it is old enough. */
  method Visit(meta: MetadataStore.MemoryStore, objs: LocalFS.LocalFS, ids: seq<string>, i: nat, uploads: map<string, Upload>,
               now: int, olderThan: int, res: Stats, ghost before: map<Path, Bytes>, ghost removed: set<Path>)
    returns (res': Stats, ghost removed': set<Path>)
    requires objs.Valid() && LocalFS.PlainFiles(Files(objs.t))
    requires i < |ids| && ids[i] in uploads && (forall j, k :: 0 <= j < k < |ids| ==> ids[j] != ids[k])
    requires Passed(objs.reliable, before, Files(objs.t), uploads, meta.uploads, StaleIn(ids[..i], uploads, now, olderThan), res, i, removed)
    modifies meta, objs
    ensures objs.Valid() && LocalFS.PlainFiles(Files(objs.t)) && meta.buckets == old(meta.buckets)
    ensures Passed(objs.reliable, before, Files(objs.t), uploads, meta.uploads, StaleIn(ids[..i + 1], uploads, now, olderThan), res', i + 1, removed')
  {
    var id := ids[i];
    var up := uploads[id];
    ghost var done := StaleIn(ids[..i], uploads, now, olderThan);
    OneMoreId(ids, i, uploads, now, olderThan);
    res', removed' := Stats(res.scanned + 1, res.aborted, res.deleted), removed;
    if Stale(up, now, olderThan) {
      var gone, deleted;
      gone, deleted, removed' := Collect(meta, objs, up, id, before, uploads, done, res.deleted, removed);
      DropAlso(uploads, done, id);
      res' := Stats(res.scanned + 1, if gone then res.aborted + 1 else res.aborted, deleted);
    } else {
      assert done + {} == done;
    }
  }

  /** One pass: sweep and abort every upload that is old enough. */
  method RunMultipartGC(meta: MetadataStore.MemoryStore, objs: LocalFS.LocalFS, now: int, olderThan: int)
    returns (res: Stats, ghost removed: set<Path>)
    requires objs.Valid() && LocalFS.PlainFiles(Files(objs.t))
    modifies meta, objs
    ensures objs.Valid() && LocalFS.PlainFiles(Files(objs.t))
    ensures var stale := StaleIds(old(meta.uploads), now, olderThan);
            && meta.buckets == old(meta.buckets) && meta.uploads == old(meta.uploads) - stale
            && res.scanned == |old(meta.uploads)| && res.aborted == |stale|
            && Removed(Files(old(objs.t)), Files(objs.t), removed, res.deleted)
            && removed <= UnderAny(Files(old(objs.t)), old(meta.uploads), stale)
            && (objs.reliable ==> removed == UnderAny(Files(old(objs.t)), old(meta.uploads), stale)
                                  && World(meta.buckets, meta.uploads, Files(objs.t)) ==
                                     AfterGC(World(old(meta.buckets), old(meta.uploads), Files(old(objs.t))), stale))
    ensures forall id :: id in old(meta.uploads) ==>
              var u := old(meta.uploads)[id];
              if u.initiated + olderThan <= now then id !in meta.uploads else id in meta.uploads && meta.uploads[id] == u
    ensures forall id :: id in meta.uploads ==> id in old(meta.uploads)
  {
    ghost var before := Files(objs.t);
    var uploads := meta.uploads;
    var ids := meta.ListMultipartUploads("");
    res, removed := Stats(0, 0, 0), {};
    NothingPassed(objs.reliable, before, ids, uploads, now, olderThan);
    for i := 0 to |ids|
      invariant objs.Valid() && LocalFS.PlainFiles(Files(objs.t)) && meta.buckets == old(meta.buckets)
      invariant Passed(objs.reliable, before, Files(objs.t), uploads, meta.uploads, StaleIn(ids[..i], uploads, now, olderThan), res, i, removed)
    {
      res, removed := Visit(meta, objs, ids, i, uploads, now, olderThan, res, before, removed);
    }
    AllIds(ids, uploads, now, olderThan);
  }

  lemma NothingPassed(reliable: bool, before: map<Path, Bytes>, ids: seq<string>, uploads: map<string, Upload>, now: int, olderThan: int)
    ensures Passed(reliable, before, before, uploads, uploads, StaleIn(ids[..0], uploads, now, olderThan), Stats(0, 0, 0), 0, {})
  {
    assert StaleIn(ids[..0], uploads, now, olderThan) == {};
    assert before - {} == before;
    assert uploads - {} == uploads;
  }

  // ---------------------------------------------------------------- what a prefix covers

  /** Key text up to a slash is a path prefix: components hold no slash. */
  lemma JoinPrefix(a: seq<string>, c: seq<string>)
    requires a != [] && c != []
    requires (forall i :: 0 <= i < |a| ==> Lacks(a[i], '/')) && (forall i :: 0 <= i < |c| ==> Lacks(c[i], '/'))
    ensures HasPrefix(Join(c, '/'), Join(a, '/') + "/") <==> a < c
  {
    if HasPrefix(Join(c, '/'), Join(a, '/') + "/") { JoinPrefixOnly(a, c); }
    if a < c { JoinedPrefix(a, c); }
  }

  lemma JoinPrefixOnly(a: seq<string>, c: seq<string>)
    requires a != [] && c != [] && HasPrefix(Join(c, '/'), Join(a, '/') + "/")
    requires (forall i :: 0 <= i < |a| ==> Lacks(a[i], '/')) && (forall i :: 0 <= i < |c| ==> Lacks(c[i], '/'))
    ensures a < c
  {
    var top := Join(a, '/') + "/";
    var rest := Join(c, '/')[|top|..];
    assert Join(c, '/') == Join(a, '/') + ['/'] + rest;
    SplitOfJoin(a, c, rest);
  }

  lemma SplitOfJoin(a: seq<string>, c: seq<string>, rest: string)
    requires a != [] && c != [] && Join(c, '/') == Join(a, '/') + ['/'] + rest
    requires (forall i :: 0 <= i < |a| ==> Lacks(a[i], '/')) && (forall i :: 0 <= i < |c| ==> Lacks(c[i], '/'))
    ensures c == a + Split(rest, '/')
  {
    SplitConcat(Join(a, '/'), rest, '/');
    SplitJoin(a, '/');
    SplitJoin(c, '/');
  }

  lemma JoinedPrefix(a: seq<string>, c: seq<string>)
    requires a != [] && a < c
    ensures HasPrefix(Join(c, '/'), Join(a, '/') + "/")
  {
    assert c == a + c[|a|..];
    JoinConcat(a, c[|a|..], '/');
  }

  /** Another upload's key continues this upload's key and id. */
  predicate Nested(u: Upload, id: string, other: Upload) {
    other.bucket == u.bucket && HasPrefix(other.key + "/", u.key + "/" + id + "/")
  }

  /** a/b/... as components: `k/id` followed by a slash starts `k'/` exactly when its components start those of `k'`. */
  lemma NestedComponents(k: string, id: string, k': string)
    requires Lacks(id, '/')
    ensures HasPrefix(k' + "/", k + "/" + id + "/") <==> Split(k, '/') + [id] <= Split(k', '/')
  {
    var a, c := Split(k, '/') + [id], Split(k', '/');
    JoinSplit(k, '/');
    JoinSplit(k', '/');
    JoinConcat(Split(k, '/'), [id], '/');
    assert Join(a, '/') == k + "/" + id;
    var c1 := c + [""];
    JoinConcat(c, [""], '/');
    assert Join(c1, '/') == k' + "/";
    forall i | 0 <= i < |c1| ensures Lacks(c1[i], '/') {
    }
    JoinPrefix(a, c1);
    assert k + "/" + id + "/" == Join(a, '/') + "/";
    assert a < c1 <==> a <= c;
  }

  /** The prefix swept for an upload covers its own parts, those of uploads nested under it, and no others. */
  lemma PrefixCovers(u: Upload, id: string, other: Upload, id': string, n: nat)
    requires BucketName(u.bucket) && Lacks(id, '/') && GoodName(other.bucket) && Lacks(id', '/')
    requires PlainKey(other.key)
    ensures StagedUnder(StagedPath(other.bucket, other.key, id', n), StagingPrefix(u, id)) <==>
            (other.bucket == u.bucket && other.key == u.key && id' == id) || Nested(u, id, other)
  {
    var p := StagedPath(other.bucket, other.key, id', n);
    var K, K' := Split(u.key, '/'), Split(other.key, '/');
    var a, c := [u.bucket] + K + [id], [other.bucket] + K' + [id', "part." + Itoa(n)];
    assert p[1..] == c;
    PartNameLacks(n);
    forall i | 0 <= i < |a| ensures Lacks(a[i], '/') {
    }
    forall i | 0 <= i < |c| ensures Lacks(c[i], '/') {
    }
    PrefixText(u, id);
    JoinPrefix(a, c);
    NestedComponents(u.key, id, other.key);
    ComponentCases(u.bucket, K, id, other.bucket, K', id', "part." + Itoa(n));
    JoinSplit(u.key, '/');
    JoinSplit(other.key, '/');
    assert Base(p) == "part." + Itoa(n) && Base(p)[0] == 'p' && MANIFEST_NAME[0] == 'o';
    if a < c { CoveredIsVisible(p, u, id); }
  }

  lemma PrefixText(u: Upload, id: string)
    ensures StagingPrefix(u, id) == Join([u.bucket] + Split(u.key, '/') + [id], '/') + "/"
  {
    var K := Split(u.key, '/');
    JoinSplit(u.key, '/');
    JoinConcat([u.bucket], K + [id], '/');
    JoinConcat(K, [id], '/');
    assert [u.bucket] + K + [id] == [u.bucket] + (K + [id]);
  }

  lemma ComponentCases(b: string, K: seq<string>, id: string, b': string, K': seq<string>, id': string, name: string)
    ensures [b] + K + [id] < [b'] + K' + [id', name] <==> b == b' && ((K == K' && id == id') || K + [id] <= K')
  {
    var a, c := [b] + K + [id], [b'] + K' + [id', name];
    var m, m' := K + [id], K' + [id', name];
    assert a == [b] + m && c == [b'] + m';
    assert a[0] == b && c[0] == b' && a[1..] == m && c[1..] == m';
    assert m[..|K|] == K && m[|K|] == id;
    if a < c {
      assert c[0] == a[0] && m < m';
      assert m'[..|m|] == m;
      if |K| == |K'| {
        assert m'[..|K|] == K' && m'[|K|] == id';
      } else {
        assert m'[..|m|] == K'[..|m|];
      }
    }
    if b == b' && m <= K' {
      assert m'[..|m|] == m;
      assert c[..|a|] == a;
    }
    if b == b' && K == K' && id == id' {
      assert c == a + [name];
    }
  }

  lemma CoveredIsVisible(p: Path, u: Upload, id: string)
    requires |p| >= 2 && BucketName(u.bucket) && Base(p) != MANIFEST_NAME && HasPrefix(Key(p), StagingPrefix(u, id))
    ensures Visible(p)
  {
    if HasPrefix(Key(p), ".multipart/") {
      var x, y := Key(p)[|u.bucket| + 1..], Key(p)[11..];
      assert Key(p)[..|u.bucket| + 1] == u.bucket + ['/'];
      assert Key(p)[..11] == STAGING + ['/'];
      assert Key(p) == u.bucket + ['/'] + x && Key(p) == STAGING + ['/'] + y;
      CutAt(u.bucket, x, STAGING, y, '/');
    }
  }

  // ---------------------------------------------------------------- what a pass leaves

  /** What a pass on a working disk leaves behind, as `RunMultipartGC` states it. */
  ghost function AfterGC(w: World, ids: set<string>): World {
    World(w.buckets, w.uploads - ids, w.files - UnderAny(w.files, w.uploads, ids))
  }

  /** No younger upload with parts has a key continuing "<key>/<id>/" of a collected one. */
  ghost predicate NoneNested(w: World, ids: set<string>) {
    forall id, id' :: id in ids && id in w.uploads && id' in w.uploads && id' !in ids && w.uploads[id'].parts != map[] ==>
      !Nested(w.uploads[id], id, w.uploads[id'])
  }

  /** A staged part is swept exactly when its own upload is collected, or one it is nested under. */
  lemma PartSwept(w: World, md5Hex: Bytes -> string, ids: set<string>, id': string, n: nat)
    requires Inv(w, md5Hex) && id' in w.uploads && n in w.uploads[id'].parts && ids <= w.uploads.Keys
    ensures var u' := w.uploads[id'];
            StagedPath(u'.bucket, u'.key, id', n) in UnderAny(w.files, w.uploads, ids) <==>
              id' in ids || exists id :: id in ids && Nested(w.uploads[id], id, u')
  {
    var u' := w.uploads[id'];
    var p := StagedPath(u'.bucket, u'.key, id', n);
    assert UploadOk(w, md5Hex, id');
    assert PartStaged(w, md5Hex, id', n);
    forall id | id in ids
      ensures StagedUnder(p, StagingPrefix(w.uploads[id], id)) <==> id == id' || Nested(w.uploads[id], id, u')
    {
      assert UploadOk(w, md5Hex, id);
      PrefixCovers(w.uploads[id], id, u', id', n);
    }
  }

  /**
   * A pass keeps buckets, uploads, objects and staged parts consistent, and so every younger upload
   * whole, exactly when no younger upload with parts is nested under a collected one.
   */
  lemma GCKeepsInv(w: World, md5Hex: Bytes -> string, ids: set<string>)
    requires Inv(w, md5Hex) && ids <= w.uploads.Keys
    ensures Inv(AfterGC(w, ids), md5Hex) <==> NoneNested(w, ids)
  {
    var w' := AfterGC(w, ids);
    if NoneNested(w, ids) {
      forall id' | id' in w'.uploads ensures UploadOk(w', md5Hex, id') {
        YoungerStays(w, md5Hex, ids, id');
      }
      forall p | p in w'.files ensures FileOk(w', p) {
        UnsweptStays(w, md5Hex, ids, p);
      }
    } else {
      var id, id' :| id in ids && id in w.uploads && id' in w.uploads && id' !in ids
                     && w.uploads[id'].parts != map[] && Nested(w.uploads[id], id, w.uploads[id']);
      NestedLoses(w, md5Hex, ids, id, id');
      assert id' in w'.uploads;
    }
  }

  lemma NestedLoses(w: World, md5Hex: Bytes -> string, ids: set<string>, id: string, id': string)
    requires Inv(w, md5Hex) && ids <= w.uploads.Keys && id in ids && id' in w.uploads && id' !in ids
    requires w.uploads[id'].parts != map[] && Nested(w.uploads[id], id, w.uploads[id'])
    ensures !UploadOk(AfterGC(w, ids), md5Hex, id')
  {
    assert w.uploads[id'].parts.Keys != {};
    var n :| n in w.uploads[id'].parts;
    PartSwept(w, md5Hex, ids, id', n);
    assert !PartStaged(AfterGC(w, ids), md5Hex, id', n);
  }

  lemma YoungerStays(w: World, md5Hex: Bytes -> string, ids: set<string>, id': string)
    requires Inv(w, md5Hex) && ids <= w.uploads.Keys && NoneNested(w, ids) && id' in w.uploads && id' !in ids
    ensures UploadOk(AfterGC(w, ids), md5Hex, id')
  {
    var w' := AfterGC(w, ids);
    assert UploadOk(w, md5Hex, id');
    forall n | n in w.uploads[id'].parts ensures PartStaged(w', md5Hex, id', n) {
      assert PartStaged(w, md5Hex, id', n);
      assert w.uploads[id'].parts != map[];
      PartSwept(w, md5Hex, ids, id', n);
    }
  }

  lemma NotCollected(w: World, md5Hex: Bytes -> string, ids: set<string>, id': string, n: nat)
    requires Inv(w, md5Hex) && ids <= w.uploads.Keys && id' in w.uploads && n in w.uploads[id'].parts
    requires StagedPath(w.uploads[id'].bucket, w.uploads[id'].key, id', n) !in UnderAny(w.files, w.uploads, ids)
    ensures id' !in ids
  {
    PartSwept(w, md5Hex, ids, id', n);
  }

  lemma UnsweptStays(w: World, md5Hex: Bytes -> string, ids: set<string>, p: Path)
    requires Inv(w, md5Hex) && ids <= w.uploads.Keys && p in AfterGC(w, ids).files
    ensures FileOk(AfterGC(w, ids), p)
  {
    var w' := AfterGC(w, ids);
    assert FileOk(w, p);
    if p[0] == STAGING {
      var id', n :| StagedFor(w, p, id', n);
      NotCollected(w, md5Hex, ids, id', n);
      assert w'.uploads[id'] == w.uploads[id'];
      assert StagedFor(w', p, id', n);
    }
  }

  /** Age decides: with an upload every older one is collected, and none whose age has not reached the limit. */
  lemma CollectedByAge(uploads: map<string, Upload>, now: int, olderThan: int, id: string, id': string)
    requires id in uploads && id' in uploads
    ensures id in StaleIds(uploads, now, olderThan) && uploads[id'].initiated <= uploads[id].initiated ==>
              id' in StaleIds(uploads, now, olderThan)
    ensures olderThan > 0 && uploads[id].initiated >= now ==> id !in StaleIds(uploads, now, olderThan)
    ensures id in StaleIds(uploads, now, olderThan) <==> uploads[id].initiated + olderThan <= now
  {
  }

  /** An upload that is not old enough survives a pass with all its parts, unless it is nested under one that is. */
  lemma YoungKeepsParts(w: World, md5Hex: Bytes -> string, now: int, olderThan: int, id': string)
    requires Inv(w, md5Hex) && id' in w.uploads && w.uploads[id'].initiated + olderThan > now
    requires forall id :: id in w.uploads && w.uploads[id].initiated + olderThan <= now ==> !Nested(w.uploads[id], id, w.uploads[id'])
    ensures var after := AfterGC(w, StaleIds(w.uploads, now, olderThan));
            && id' in after.uploads && after.uploads[id'] == w.uploads[id']
            && UploadOk(after, md5Hex, id')
            && forall n :: n in w.uploads[id'].parts ==>
                 var p := StagedPath(w.uploads[id'].bucket, w.uploads[id'].key, id', n);
                 p in w.files && p in after.files && after.files[p] == w.files[p]
  {
    var ids := StaleIds(w.uploads, now, olderThan);
    var after := AfterGC(w, ids);
    assert UploadOk(w, md5Hex, id');
    forall n | n in w.uploads[id'].parts ensures PartStaged(after, md5Hex, id', n) {
      assert PartStaged(w, md5Hex, id', n);
      PartSwept(w, md5Hex, ids, id', n);
    }
  }

  /** A pass removes every part of every collected upload and no user object. */
  lemma GCRemovesParts(w: World, md5Hex: Bytes -> string, ids: set<string>)
    requires Inv(w, md5Hex) && ids <= w.uploads.Keys
    ensures forall id, n :: id in ids && n in w.uploads[id].parts ==>
              StagedPath(w.uploads[id].bucket, w.uploads[id].key, id, n) !in AfterGC(w, ids).files
    ensures forall p :: p in w.files && p[0] != STAGING ==> p in AfterGC(w, ids).files
  {
    forall id, n | id in ids && n in w.uploads[id].parts
      ensures StagedPath(w.uploads[id].bucket, w.uploads[id].key, id, n) !in AfterGC(w, ids).files
    {
      PartSwept(w, md5Hex, ids, id, n);
    }
    forall p | p in w.files ensures p != [] {
      assert FileOk(w, p);
    }
  }
}
