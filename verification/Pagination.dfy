/** Sorting, cutting and continuing a listing (pkg/storage/localfs.go List, pkg/api/s3/server.go handleListObjectsV2). */
module Pagination {
  import opened Strings
  import opened Sorting
  import opened FileTree
  import opened Listing
  import opened ListReference

  // ---------------------------------------------------------------- pages of an ascending sequence

  datatype Page = Page(entries: seq<string>, truncated: bool)

  ghost function PageOf(full: seq<string>, n: nat): Page {
    if |full| > n then Page(full[..n], true) else Page(full, false)
  }

  /** In an ascending sequence what is smaller than entry `n` are the first `n` entries. */
  lemma BeforeCut(full: seq<string>, n: nat, x: string)
    requires StrictlyAscending(full) && n < |full|
    ensures x in full && Less(x, full[n]) <==> x in full[..n]
  {
    if x in full {
      var i :| 0 <= i < |full| && full[i] == x;
      LessTotal(x, full[n]);
      LessIrreflexive(x);
      assert i < n ==> full[..n][i] == x;
    }
    if x in full[..n] {
      var i :| 0 <= i < n && full[..n][i] == x;
      assert full[i] == x;
    }
  }

  /** ... and what is larger are the entries behind it. */
  lemma BehindToken(full: seq<string>, n: nat, x: string)
    requires StrictlyAscending(full) && n < |full|
    ensures x in full && Less(full[n], x) <==> x in full[n + 1..]
  {
    if x in full {
      var i :| 0 <= i < |full| && full[i] == x;
      LessTotal(x, full[n]);
      LessIrreflexive(x);
      assert i > n ==> full[n + 1..][i - n - 1] == x;
    }
    if x in full[n + 1..] {
      var i :| 0 <= i < |full| - n - 1 && full[n + 1..][i] == x;
      assert full[n + 1 + i] == x;
    }
  }

  // ---------------------------------------------------------------- the program

  function KeysOf(objects: seq<ObjectMeta>): (keys: seq<string>)
    ensures |keys| == |objects| && forall i :: 0 <= i < |keys| ==> keys[i] == objects[i].key
  {
    seq(|objects|, i requires 0 <= i < |objects| => objects[i].key)
  }

  function KeyOf(o: ObjectMeta): string { o.key }

  ghost function Entries(t: Tree, q: Query, env: Env): set<string> {
    WalkedKeys(t, q, env) + WalkedPrefixes(t, q)
  }

  lemma SortedObjects(objects: seq<ObjectMeta>)
    requires Distinct(KeysOf(objects))
    ensures StrictlyAscending(KeysOf(SortBy(KeyOf, objects)))
    ensures Elements(SortBy(KeyOf, objects)) == Elements(objects)
  {
    var s := SortBy(KeyOf, objects);
    SortByIsSort(KeyOf, objects);
    forall i, j | 0 <= i < j < |s| ensures Less(KeysOf(s)[i], KeysOf(s)[j]) {
      SplitCount(s, i, j);
      LessTotal(s[i].key, s[j].key);
      assert s[i] in multiset(objects);
      CountOnce(objects, s[i]);
      assert s[i] != s[j];
      assert s[j] in multiset(objects);
    }
    forall o ensures o in s <==> o in objects {
      assert o in s <==> o in multiset(s);
      assert o in objects <==> o in multiset(objects);
    }
  }

  lemma CountOnce(objects: seq<ObjectMeta>, o: ObjectMeta)
    requires Distinct(KeysOf(objects)) && o in multiset(objects)
    ensures multiset(objects)[o] == 1
    ensures forall o' :: o' in objects && o'.key == o.key ==> o' == o
  {
    assert o in objects;
    forall i, j | 0 <= i < j < |objects| ensures objects[i] != objects[j] {
      assert KeysOf(objects)[i] != KeysOf(objects)[j];
    }
    NoDupMultiset(objects);
    forall o' | o' in objects && o'.key == o.key ensures o' == o {
      var i :| 0 <= i < |objects| && objects[i] == o;
      var j :| 0 <= j < |objects| && objects[j] == o';
      assert KeysOf(objects)[i] == KeysOf(objects)[j];
    }
  }

  lemma KeysElements(a: seq<ObjectMeta>, b: seq<ObjectMeta>)
    requires Elements(a) == Elements(b)
    ensures Elements(KeysOf(a)) == Elements(KeysOf(b))
  {
    forall x, s: seq<ObjectMeta>, s': seq<ObjectMeta> | Elements(s) == Elements(s') && x in KeysOf(s) ensures x in KeysOf(s') {
      var i :| 0 <= i < |s| && KeysOf(s)[i] == x;
      assert s[i] in Elements(s');
      var j :| 0 <= j < |s'| && s'[j] == s[i];
      assert KeysOf(s')[j] == x;
    }
  }

  /** Keep the objects in front of the cut. */
  method ObjectsBefore(objects: seq<ObjectMeta>, cutKey: string) returns (kept: seq<ObjectMeta>)
    requires StrictlyAscending(KeysOf(objects))
    ensures StrictlyAscending(KeysOf(kept))
    ensures Elements(kept) == set o | o in objects && Less(o.key, cutKey)
  {
    kept := [];
    for i := 0 to |objects|
      invariant StrictlyAscending(KeysOf(kept))
      invariant Elements(kept) == set o | o in objects[..i] && Less(o.key, cutKey)
      invariant forall k :: 0 <= k < |kept| ==> kept[k] in objects[..i]
    {
      assert objects[..i + 1] == objects[..i] + [objects[i]];
      if Less(objects[i].key, cutKey) {
        forall k | 0 <= k < |kept| ensures Less(kept[k].key, objects[i].key) {
          var j :| 0 <= j < i && objects[..i][j] == kept[k];
          assert Less(KeysOf(objects)[j], KeysOf(objects)[i]);
        }
        ElementsAppend(kept, objects[i]);
        kept := kept + [objects[i]];
      }
    }
    assert objects[..|objects|] == objects;
  }

  method PrefixesBefore(prefixes: seq<string>, cutKey: string) returns (kept: seq<string>)
    requires StrictlyAscending(prefixes)
    ensures StrictlyAscending(kept)
    ensures Elements(kept) == set p | p in prefixes && Less(p, cutKey)
  {
    kept := [];
    for i := 0 to |prefixes|
      invariant StrictlyAscending(kept)
      invariant Elements(kept) == set p | p in prefixes[..i] && Less(p, cutKey)
      invariant forall k :: 0 <= k < |kept| ==> kept[k] in prefixes[..i]
    {
      assert prefixes[..i + 1] == prefixes[..i] + [prefixes[i]];
      if Less(prefixes[i], cutKey) {
        forall k | 0 <= k < |kept| ensures Less(kept[k], prefixes[i]) {
          var j :| 0 <= j < i && prefixes[..i][j] == kept[k];
          assert prefixes[j] == kept[k];
        }
        ElementsAppend(kept, prefixes[i]);
        kept := kept + [prefixes[i]];
      }
    }
    assert prefixes[..|prefixes|] == prefixes;
  }

  /** The objects and prefixes of a page: together its entries, each part ascending. */
  ghost predicate Splits(page: Page, objects: seq<ObjectMeta>, prefixes: seq<string>, keys: set<string>, cps: set<string>) {
    && StrictlyAscending(KeysOf(objects)) && StrictlyAscending(prefixes)
    && Elements(KeysOf(objects)) == Elements(page.entries) * keys
    && Elements(prefixes) == Elements(page.entries) * cps
  }

  /** Drop everything from the first excluded entry on. */
  method Cut(objects: seq<ObjectMeta>, prefixes: seq<string>, ghost full: seq<string>, n: nat, cutKey: string)
    returns (objects': seq<ObjectMeta>, prefixes': seq<string>)
    requires StrictlyAscending(KeysOf(objects)) && StrictlyAscending(prefixes)
    requires StrictlyAscending(full) && n < |full| && cutKey == full[n]
    requires Elements(full) == Elements(KeysOf(objects)) + Elements(prefixes)
    ensures Splits(Page(full[..n], true), objects', prefixes', Elements(KeysOf(objects)), Elements(prefixes))
    ensures Elements(objects') <= Elements(objects)
  {
    objects' := ObjectsBefore(objects, cutKey);
    prefixes' := PrefixesBefore(prefixes, cutKey);
    forall x ensures x in Elements(KeysOf(objects')) <==> x in Elements(full[..n]) * Elements(KeysOf(objects)) {
      BeforeCut(full, n, x);
      KeyInElements(objects', x);
      KeyInElements(objects, x);
    }
    forall x ensures x in Elements(prefixes') <==> x in Elements(full[..n]) * Elements(prefixes) {
      BeforeCut(full, n, x);
      assert x in Elements(prefixes) ==> x in Elements(full);
      assert x in Elements(prefixes) <==> x in prefixes;
      assert x in Elements(prefixes') <==> x in prefixes && Less(x, cutKey);
    }
  }

  /** Sort both lists, then cut behind the first `maxKeys` entries of their union. */
  method SortAndCut(found: seq<ObjectMeta>, cps: seq<string>, maxKeys: nat)
    returns (objects: seq<ObjectMeta>, prefixes: seq<string>, truncated: bool)
    requires Distinct(KeysOf(found)) && Distinct(cps) && Elements(KeysOf(found)) !! Elements(cps)
    ensures var page := PageOf(Enumerate(Elements(KeysOf(found)) + Elements(cps)), maxKeys);
            && truncated == page.truncated
            && Splits(page, objects, prefixes, Elements(KeysOf(found)), Elements(cps))
    ensures Elements(objects) <= Elements(found)
  {
    objects := SortBy(KeyOf, found);
    prefixes := SortStrings(cps);
    SortedObjects(found);
    SortStringsAscending(cps);
    KeysElements(objects, found);
    ghost var full := Enumerate(Elements(KeysOf(found)) + Elements(cps));
    var combined := CombinedKeys(objects, prefixes);
    AscendingUnique(combined, full);
    truncated := |objects| + |prefixes| > maxKeys;
    if truncated {
      objects, prefixes := Cut(objects, prefixes, full, maxKeys, combined[maxKeys]);
    }
  }

  lemma KeyInElements(objects: seq<ObjectMeta>, x: string)
    ensures x in Elements(KeysOf(objects)) <==> exists o :: o in Elements(objects) && o.key == x
  {
    if x in Elements(KeysOf(objects)) {
      var i :| 0 <= i < |objects| && KeysOf(objects)[i] == x;
      assert objects[i] in Elements(objects) && objects[i].key == x;
    }
    if exists o :: o in Elements(objects) && o.key == x {
      var o :| o in Elements(objects) && o.key == x;
      var i :| 0 <= i < |objects| && objects[i] == o;
      assert KeysOf(objects)[i] == x;
    }
  }

  method CombinedKeys(objects: seq<ObjectMeta>, prefixes: seq<string>) returns (combined: seq<string>)
    requires StrictlyAscending(KeysOf(objects)) && StrictlyAscending(prefixes)
    requires Elements(KeysOf(objects)) !! Elements(prefixes)
    ensures StrictlyAscending(combined) && |combined| == |objects| + |prefixes|
    ensures Elements(combined) == Elements(KeysOf(objects)) + Elements(prefixes)
  {
    var all := KeysOf(objects) + prefixes;
    forall i, j | 0 <= i < j < |all| ensures all[i] != all[j] {
      LessIrreflexive(all[i]);
      if i < |objects| <= j {
        assert all[i] in Elements(KeysOf(objects)) && all[j] in Elements(prefixes);
      }
    }
    SortStringsAscending(all);
    combined := SortStrings(all);
  }

  lemma WalkedObjectsDistinct(t: Tree, q: Query, env: Env, objects: seq<ObjectMeta>, listed: seq<Path>)
    requires WellFormed(t) && HasObjects(t, q, env, Below(t, [q.bucket]), objects, listed)
    ensures Distinct(KeysOf(objects))
    ensures forall i :: 0 <= i < |objects| ==> listed[i] in Below(t, [q.bucket]) && objects[i].key == ObjKey(listed[i])
  {
    forall i | 0 <= i < |objects|
      ensures listed[i] in Below(t, [q.bucket]) && objects[i].key == ObjKey(listed[i])
    {
      assert listed[i] in Elements(listed);
    }
    forall i, j | 0 <= i < j < |objects| ensures KeysOf(objects)[i] != KeysOf(objects)[j] {
      if ObjKey(listed[i]) == ObjKey(listed[j]) { ObjKeyInjective(t, listed[i], listed[j]); }
    }
  }

  lemma WalkedObjects(t: Tree, q: Query, env: Env, objects: seq<ObjectMeta>, listed: seq<Path>)
    requires WellFormed(t) && HasObjects(t, q, env, Below(t, [q.bucket]), objects, listed)
    ensures Distinct(KeysOf(objects)) && Elements(KeysOf(objects)) == WalkedKeys(t, q, env)
    ensures forall o :: o in objects ==> Reported(Files(t), env, q.bucket, o)
  {
    WalkedObjectsDistinct(t, q, env, objects, listed);
    forall k ensures k in Elements(KeysOf(objects)) <==> k in WalkedKeys(t, q, env) {
      if k in Elements(KeysOf(objects)) {
        var i :| 0 <= i < |objects| && KeysOf(objects)[i] == k;
        assert listed[i] in Elements(listed);
      }
      if k in WalkedKeys(t, q, env) {
        var p :| p in ListedOf(t, q, env, Below(t, [q.bucket])) && ObjKey(p) == k;
        assert p in Elements(listed);
        var i :| 0 <= i < |listed| && listed[i] == p;
        assert KeysOf(objects)[i] == k;
      }
    }
    forall o | o in objects ensures Reported(Files(t), env, q.bucket, o) {
      var i :| 0 <= i < |objects| && objects[i] == o;
      ListedIsReported(t, q, env, listed[i]);
    }
  }

  /** List: walk, sort, cut. Objects and prefixes are those of the first `maxKeys` entries in order. */
  method ListBucket(t: Tree, q: Query, env: Env, maxKeys: nat)
    returns (objects: seq<ObjectMeta>, prefixes: seq<string>, truncated: bool)
    requires WellFormed(t)
    ensures var page := PageOf(Enumerate(Entries(t, q, env)), maxKeys);
            && truncated == page.truncated
            && Splits(page, objects, prefixes, WalkedKeys(t, q, env), WalkedPrefixes(t, q))
    ensures forall o :: o in objects ==> Reported(Files(t), env, q.bucket, o)
  {
    var walk := new Walk(t, q, env);
    if [q.bucket] in t {
      assert Placed(t, [q.bucket]);
      walk.WalkDir([q.bucket], {});
      assert {} + Below(t, [q.bucket]) == Below(t, [q.bucket]);
    } else {
      forall p | p in t ensures !([q.bucket] < p) {
        if [q.bucket] < p { AncestorIsDir(t, [q.bucket], p); }
      }
      assert Below(t, [q.bucket]) == {};
    }
    WalkedObjects(t, q, env, walk.objects, walk.listed);
    KeysAndPrefixesDisjoint(t, q, env);
    objects, prefixes, truncated := SortAndCut(walk.objects, walk.commonPrefixes, maxKeys);
    ghost var found := walk.objects;
    forall o | o in objects ensures Reported(Files(t), env, q.bucket, o) {
      assert o in Elements(objects);
      assert o in found;
    }
  }

  /** The continuation token: the larger of the last object key and the last prefix. */
  method NextToken(objects: seq<ObjectMeta>, prefixes: seq<string>, ghost page: Page,
                   ghost keys: set<string>, ghost cps: set<string>) returns (token: string)
    requires page.entries != [] && StrictlyAscending(page.entries)
    requires Elements(page.entries) <= keys + cps
    requires Splits(page, objects, prefixes, keys, cps)
    ensures token == page.entries[|page.entries| - 1]
  {
    token := "";
    if |objects| > 0 { token := objects[|objects| - 1].key; }
    if |prefixes| > 0 {
      var lastPrefix := prefixes[|prefixes| - 1];
      if Less(token, lastPrefix) { token := lastPrefix; }
    }
    LastOfUnion(page, objects, prefixes, keys, cps);
  }

  lemma LastOfUnion(page: Page, objects: seq<ObjectMeta>, prefixes: seq<string>, keys: set<string>, cps: set<string>)
    requires page.entries != [] && StrictlyAscending(page.entries)
    requires Elements(page.entries) <= keys + cps
    requires Splits(page, objects, prefixes, keys, cps)
    ensures var last := page.entries[|page.entries| - 1];
            var o := if objects != [] then objects[|objects| - 1].key else "";
            last == if prefixes != [] && Less(o, prefixes[|prefixes| - 1]) then prefixes[|prefixes| - 1] else o
  {
    var last := page.entries[|page.entries| - 1];
    var ks := KeysOf(objects);
    assert last in Elements(page.entries);
    if ks != [] {
      assert ks[|ks| - 1] in Elements(ks);
      LastIsLargest(page.entries, ks[|ks| - 1]);
    }
    if prefixes != [] {
      assert prefixes[|prefixes| - 1] in Elements(prefixes);
      LastIsLargest(page.entries, prefixes[|prefixes| - 1]);
    }
    if last in keys {
      assert last in Elements(ks);
      LastIsLargest(ks, last);
      LessTotal(ks[|ks| - 1], last);
    } else {
      assert last in Elements(prefixes);
      LastIsLargest(prefixes, last);
      LessTotal(prefixes[|prefixes| - 1], last);
      if ks != [] { LessTotal(ks[|ks| - 1], last); }
    }
  }

  lemma LastIsLargest(s: seq<string>, x: string)
    requires StrictlyAscending(s) && x in s
    ensures !Less(s[|s| - 1], x)
  {
    var i :| 0 <= i < |s| && s[i] == x;
    LessIrreflexive(x);
    LessTotal(s[|s| - 1], x);
  }

  // ---------------------------------------------------------------- following the tokens

  /** Continuing from an entry leaves exactly the entries behind it. */
  lemma Continue(t: Tree, q: Query, env: Env, n: nat)
    requires WellFormed(t) && n < |Enumerate(Entries(t, q, env))|
    ensures var full := Enumerate(Entries(t, q, env));
            Enumerate(Entries(t, q.(startAfter := full[n]), env)) == full[n + 1..]
  {
    var full := Enumerate(Entries(t, q, env));
    var q' := q.(startAfter := full[n]);
    var rest := full[n + 1..];
    assert full[n] in Elements(full);
    EntriesPast(t, q, env, full[n]);
    forall x ensures x in Entries(t, q', env) <==> x in Elements(rest) {
      BehindToken(full, n, x);
      EntryAfter(t, q, env, full[n], x);
    }
    AscendingUnique(Enumerate(Entries(t, q', env)), rest);
  }

  /** Entries are never empty and lie past the query's start. */
  lemma EntriesPast(t: Tree, q: Query, env: Env, x: string)
    requires WellFormed(t) && x in Entries(t, q, env)
    ensures x != "" && Past(q, x)
  {
    if x in WalkedKeys(t, q, env) {
      var p :| p in ListedOf(t, q, env, Below(t, [q.bucket])) && ObjKey(p) == x;
      assert Placed(t, p);
      KeyNonEmpty(p);
      if IsShard(p) && |p| > 2 {
        assert Placed(t, Parent(p));
        KeyNonEmpty(Parent(p));
      }
    } else {
      var p :| p in Below(t, [q.bucket]) && PrefixOf(t, q, p) == Some(x);
    }
  }

  lemma EntryAfter(t: Tree, q: Query, env: Env, token: string, x: string)
    requires token != "" && Past(q, token)
    ensures x in Entries(t, q.(startAfter := token), env) <==> x in Entries(t, q, env) && Less(token, x)
  {
    var q0 := q.(startAfter := "");
    StartAfterFilters(t, q0, env, token);
    assert q0.(startAfter := token) == q.(startAfter := token);
    if q.startAfter != "" {
      StartAfterFilters(t, q0, env, q.startAfter);
      assert q0.(startAfter := q.startAfter) == q;
      if Less(token, x) { LessTransitive(q.startAfter, token, x); }
    } else {
      assert q0 == q;
    }
  }

  /** All entries after a start, in order, as a function of the start: what an unchanging tree offers a client. */
  ghost function Listings(t: Tree, q: Query, env: Env): string -> seq<string> {
    (start: string) => Enumerate(Entries(t, q.(startAfter := start), env))
  }

  /** Listing again after any entry gives exactly the entries behind it. */
  ghost predicate ResumesAt(list: string -> seq<string>, start: string, i: nat) {
    i < |list(start)| ==> list(list(start)[i]) == list(start)[i + 1..]
  }

  ghost predicate Resumable(list: string -> seq<string>) {
    forall start, i :: ResumesAt(list, start, i)
  }

  lemma ListingsResumable(t: Tree, q: Query, env: Env)
    requires WellFormed(t)
    ensures Resumable(Listings(t, q, env))
  {
    var list := Listings(t, q, env);
    forall start, i: nat ensures ResumesAt(list, start, i) {
      if i < |list(start)| { Continue(t, q.(startAfter := start), env, i); }
    }
  }

  /** The pages a client sees by following NextContinuationToken from a start. */
  ghost function FollowTokens(list: string -> seq<string>, start: string, n: nat): seq<Page>
    requires Resumable(list) && n >= 1
    decreases |list(start)|
  {
    var page := PageOf(list(start), n);
    assert ResumesAt(list, start, n - 1);
    if !page.truncated then [page]
    else [page] + FollowTokens(list, page.entries[|page.entries| - 1], n)
  }

  function Flatten(pages: seq<Page>): seq<string> {
    if pages == [] then [] else pages[0].entries + Flatten(pages[1..])
  }

  /** How many pages of `n` a listing of `size` entries takes; an empty listing still takes one. */
  function PageCount(size: nat, n: nat): nat
    requires n >= 1
  {
    if size <= n then 1 else 1 + PageCount(size - n, n)
  }

  lemma {:induction false} PageCountIsCeiling(size: nat, n: nat)
    requires n >= 1 && size > 0
    ensures (PageCount(size, n) - 1) * n < size <= PageCount(size, n) * n
  {
    if size > n {
      PageCountIsCeiling(size - n, n);
      var c := PageCount(size - n, n);
      assert (c + 1) * n == c * n + n && c * n == (c - 1) * n + n;
    }
  }

  /** Every page but the last is truncated and full; the last is neither truncated nor too long. */
  ghost predicate WellPaged(pages: seq<Page>, n: nat) {
    && pages != []
    && (forall i :: 0 <= i < |pages| - 1 ==> pages[i].truncated && |pages[i].entries| == n)
    && !pages[|pages| - 1].truncated && |pages[|pages| - 1].entries| <= n
  }

  lemma OneMorePage(page: Page, rest: seq<Page>, n: nat)
    requires page.truncated && |page.entries| == n && WellPaged(rest, n)
    ensures WellPaged([page] + rest, n) && Flatten([page] + rest) == page.entries + Flatten(rest)
  {
    var pages := [page] + rest;
    forall i | 0 <= i < |pages| - 1 ensures pages[i].truncated && |pages[i].entries| == n {
      if i > 0 { assert pages[i] == rest[i - 1]; }
    }
    assert pages[1..] == rest;
  }

  /** One turn of the client: a full page and the rest behind it, or the last page. */
  lemma FollowStep(list: string -> seq<string>, start: string, n: nat)
    requires Resumable(list) && n >= 1
    ensures |list(start)| <= n ==> FollowTokens(list, start, n) == [Page(list(start), false)]
    ensures |list(start)| > n ==>
              && FollowTokens(list, start, n) == [Page(list(start)[..n], true)] + FollowTokens(list, list(start)[n - 1], n)
              && list(list(start)[n - 1]) == list(start)[n..]
  {
    assert ResumesAt(list, start, n - 1);
    if |list(start)| > n {
      assert list(start)[..n][n - 1] == list(start)[n - 1];
    }
  }

  lemma {:induction false} FollowPartitions(list: string -> seq<string>, start: string, n: nat)
    requires Resumable(list) && n >= 1
    ensures var pages := FollowTokens(list, start, n);
            WellPaged(pages, n) && Flatten(pages) == list(start) && |pages| == PageCount(|list(start)|, n)
    decreases |list(start)|
  {
    FollowStep(list, start, n);
    if |list(start)| > n {
      FollowPartitions(list, list(start)[n - 1], n);
      PageThenRest(list(start), n, FollowTokens(list, list(start)[n - 1], n));
    } else {
      OneLastPage(list(start), n);
    }
  }

  lemma PageThenRest(full: seq<string>, n: nat, rest: seq<Page>)
    requires 1 <= n < |full| && WellPaged(rest, n) && Flatten(rest) == full[n..] && |rest| == PageCount(|full| - n, n)
    ensures var pages := [Page(full[..n], true)] + rest;
            WellPaged(pages, n) && Flatten(pages) == full && |pages| == PageCount(|full|, n)
  {
    OneMorePage(Page(full[..n], true), rest, n);
    assert full == full[..n] + full[n..];
  }

  lemma OneLastPage(full: seq<string>, n: nat)
    requires |full| <= n
    ensures WellPaged([Page(full, false)], n) && Flatten([Page(full, false)]) == full
  {
    assert [Page(full, false)][1..] == [];
    assert full + [] == full;
  }

  /**
   * Following the tokens from any start terminates and partitions the listing: every object and
   * prefix exactly once and in order, every page but the last full, the last not truncated.
   */
  lemma TokensPartition(t: Tree, q: Query, env: Env, n: nat)
    requires WellFormed(t) && n >= 1
    ensures Resumable(Listings(t, q, env))
    ensures var pages := FollowTokens(Listings(t, q, env), q.startAfter, n);
            var full := Enumerate(Entries(t, q, env));
            WellPaged(pages, n) && Flatten(pages) == full && |pages| == PageCount(|full|, n)
  {
    ListingsResumable(t, q, env);
    FollowPartitions(Listings(t, q, env), q.startAfter, n);
    assert q.(startAfter := q.startAfter) == q;
  }
}
