/** What a listing should contain, as set comprehensions over object keys, and when the walk computes it. */
module ListReference {
  import opened Strings
  import opened Encoding
  import opened FileTree
  import opened Listing

  /** A visible file with usable metadata is an object. */
  predicate IsObject(t: Tree, env: Env, p: Path) {
    |p| >= 2 && IsFile(t, p) && Visible(p) && MetaFor(t, env, p).Some?
  }

  ghost function ObjectsIn(t: Tree, env: Env, bucket: string): set<Path> {
    set p | p in Below(t, [bucket]) && IsObject(t, env, p)
  }

  ghost function KeysIn(t: Tree, env: Env, bucket: string): set<string> {
    set p | p in ObjectsIn(t, env, bucket) :: ObjKey(p)
  }

  /** Keys that match the prefix, contain no delimiter after it, and come after the start. */
  ghost function MatchingKeys(q: Query, keys: set<string>): set<string> {
    set k | k in keys && HasPrefix(k, q.prefix) && Roll(q, k).None? && Past(q, k)
  }

  /** The distinct rolled-up prefixes of the other matching keys, each after the start. */
  ghost function MatchingPrefixes(q: Query, keys: set<string>): set<string> {
    set k | k in keys && Roll(q, k).Some? && Past(q, Roll(q, k).value) :: Roll(q, k).value
  }

  /** What the walk collects: the keys of its objects and its common prefixes. */
  ghost function WalkedKeys(t: Tree, q: Query, env: Env): set<string> {
    set p | p in ListedOf(t, q, env, Below(t, [q.bucket])) :: ObjKey(p)
  }

  ghost function WalkedPrefixes(t: Tree, q: Query): set<string> {
    PrefixesOf(t, q, Below(t, [q.bucket]))
  }

  // ---------------------------------------------------------------- objects as files

  /** The directory of a sealed object; a shard file directly in a bucket goes by the key ".". */
  function SealedDir(bucket: string, key: string): Path {
    if key == "." then [bucket] else ObjPath(bucket, key)
  }

  /** A plain object: a file of its own that is not one of the store's own files. */
  ghost predicate PlainAt(files: map<Path, Bytes>, bucket: string, key: string) {
    var p := ObjPath(bucket, key);
    && CanonicalKey(key) && p in files
    && Base(p) != SHARD_NAME && Base(p) != MANIFEST_NAME && !HasPrefix(key, ".multipart/")
  }

  /** A sealed object: a directory with a shard and a readable manifest. */
  ghost predicate SealedAt(files: map<Path, Bytes>, env: Env, bucket: string, key: string) {
    var d := SealedDir(bucket, key);
    && (key == "." || CanonicalKey(key)) && !HasPrefix(key + "/", ".multipart/")
    && d + [SHARD_NAME] in files && d + [MANIFEST_NAME] in files
    && env.manifest(files[d + [MANIFEST_NAME]]).Some?
  }

  lemma ObjectIsFile(t: Tree, env: Env, bucket: string, p: Path)
    requires WellFormed(t) && p in ObjectsIn(t, env, bucket)
    ensures if IsShard(p) then SealedAt(Files(t), env, bucket, ObjKey(p)) else PlainAt(Files(t), bucket, ObjKey(p))
  {
    if IsShard(p) {
      ShardKey(p);
      ShardStandsFor(t, bucket, p);
    } else {
      assert Placed(t, p);
      ObjPathOfKey(p);
    }
  }

  /** A shard file stands for the directory it is in, and no file has that directory's name. */
  lemma ShardStandsFor(t: Tree, bucket: string, p: Path)
    requires WellFormed(t) && |p| >= 2 && p[0] == bucket && IsFile(t, p) && IsShard(p)
    ensures SealedDir(bucket, ObjKey(p)) == Parent(p) && p == Parent(p) + [SHARD_NAME]
    ensures ObjKey(p) == "." || CanonicalKey(ObjKey(p))
    ensures ObjPath(bucket, ObjKey(p)) !in Files(t)
  {
    assert Placed(t, p);
    if |p| == 2 {
      var o := ObjPath(bucket, ".");
      SplitLacking(".", '/');
      assert o[1] == ".";
      assert o in t ==> Placed(t, o);
    } else {
      assert Placed(t, Parent(p));
      ObjPathOfKey(Parent(p));
      NotDot(Parent(p));
    }
  }

  /** The key of a shard file is the key of its directory and the shard's name. */
  lemma ShardKey(p: Path)
    requires |p| >= 2 && IsShard(p)
    ensures HasPrefix(Key(p), ".multipart/") <==> HasPrefix(ObjKey(p) + "/", ".multipart/")
  {
    if |p| == 2 {
      assert p[1..] == [SHARD_NAME];
      assert Key(p)[0] == 'd' && ".multipart/"[1] == 'm';
    } else {
      var d := Parent(p);
      assert p[1..] == d[1..] + [SHARD_NAME];
      JoinConcat(d[1..], [SHARD_NAME], '/');
      assert Key(p) == ObjKey(p) + "/" + SHARD_NAME;
      StagedName(ObjKey(p));
    }
  }

  lemma StagedName(key: string)
    ensures HasPrefix(key + "/" + SHARD_NAME, ".multipart/") <==> HasPrefix(key + "/", ".multipart/")
  {
    var s, x, m := key + "/", key + "/" + SHARD_NAME, ".multipart/";
    if |s| >= 11 {
      assert x[..11] == s[..11];
    } else if |x| >= 11 {
      assert x[10] == SHARD_NAME[10 - |s|] && m[10] == '/';
    }
  }

  lemma FileIsObject(t: Tree, env: Env, bucket: string, key: string) returns (p: Path)
    requires WellFormed(t) && GoodName(bucket) && (PlainAt(Files(t), bucket, key) || SealedAt(Files(t), env, bucket, key))
    ensures p in ObjectsIn(t, env, bucket) && ObjKey(p) == key
  {
    JoinSplit(key, '/');
    var o := ObjPath(bucket, key);
    assert o[1..] == Split(key, '/');
    if PlainAt(Files(t), bucket, key) {
      p := o;
    } else {
      var d := SealedDir(bucket, key);
      p := d + [SHARD_NAME];
      assert Parent(p) == d && Base(p) == SHARD_NAME;
      ShardKey(p);
    }
    assert [bucket] < p;
  }

  /**
   * The objects of a bucket, said over its files alone: the plain files under clean keys outside the
   * staging area, and the directories that hold a shard and a readable manifest.
   */
  lemma KeysAreFiles(t: Tree, env: Env, bucket: string, key: string)
    requires WellFormed(t) && GoodName(bucket)
    ensures key in KeysIn(t, env, bucket) <==> PlainAt(Files(t), bucket, key) || SealedAt(Files(t), env, bucket, key)
  {
    if key in KeysIn(t, env, bucket) {
      var p :| p in ObjectsIn(t, env, bucket) && ObjKey(p) == key;
      ObjectIsFile(t, env, bucket, p);
    }
    if PlainAt(Files(t), bucket, key) || SealedAt(Files(t), env, bucket, key) {
      var p := FileIsObject(t, env, bucket, key);
    }
  }

  /**
   * What a listing says of an object is true: the size and md5 of the bytes of a plain object, and of a
   * sealed one the size and ETag its manifest records.
   */
  ghost predicate Reported(files: map<Path, Bytes>, env: Env, bucket: string, o: ObjectMeta) {
    var p, d := ObjPath(bucket, o.key), SealedDir(bucket, o.key);
    if p in files then o.size == |files[p]| && o.etag == env.md5Hex(files[p])
    else
      && d + [SHARD_NAME] in files && d + [MANIFEST_NAME] in files
      && env.manifest(files[d + [MANIFEST_NAME]]).Some?
      && o.size == env.manifest(files[d + [MANIFEST_NAME]]).value.size
      && o.etag == env.manifest(files[d + [MANIFEST_NAME]]).value.etag
  }

  lemma ListedIsReported(t: Tree, q: Query, env: Env, p: Path)
    requires WellFormed(t) && p in Below(t, [q.bucket]) && Listed(t, q, env, p)
    ensures Reported(Files(t), env, q.bucket, MetaFor(t, env, p).value)
  {
    if IsShard(p) {
      ShardStandsFor(t, q.bucket, p);
    } else {
      assert Placed(t, p);
      ObjPathOfKey(p);
    }
  }

  /** A key that a query asks for by itself: it has the prefix, no delimiter behind it, and comes past the start. */
  ghost predicate AsksFor(q: Query, key: string) {
    && q.prefix <= key
    && (q.delimiter == "" || forall i :: i >= |q.prefix| ==> !OccursAt(key, q.delimiter, i))
    && (q.startAfter == "" || Less(q.startAfter, key))
  }

  lemma AsksForIsUnrolled(q: Query, key: string)
    ensures AsksFor(q, key) <==> HasPrefix(key, q.prefix) && Roll(q, key).None? && Past(q, key)
  {
    if q.delimiter != "" && HasPrefix(key, q.prefix) { RollMeaning(q, key); }
  }

  /** A plain object is listed under its key exactly when the query asks for it. */
  lemma PlainFileListed(t: Tree, env: Env, q: Query, key: string)
    requires WellFormed(t) && PlainAt(Files(t), q.bucket, key)
    ensures key in WalkedKeys(t, q, env) <==> AsksFor(q, key)
  {
    var p := ObjPath(q.bucket, key);
    JoinSplit(key, '/');
    assert p[1..] == Split(key, '/') && Key(p) == key && ObjKey(p) == key;
    assert [q.bucket] < p && p in Below(t, [q.bucket]);
    AsksForIsUnrolled(q, key);
    if AsksFor(q, key) {
      assert p in ListedOf(t, q, env, Below(t, [q.bucket]));
    }
  }

  /** What was put is listed, with the size and md5 that Put answered with. */
  lemma PutIsListed(t: Tree, env: Env, q: Query, key: string, data: Bytes)
    requires WellFormed(t) && GoodName(q.bucket) && CanonicalKey(key) && !HasPrefix(key, ".multipart/")
    requires var p := ObjPath(q.bucket, key); CanPut(t, p) && Base(p) != SHARD_NAME && Base(p) != MANIFEST_NAME
    requires AsksFor(q, key)
    ensures var after := PutTree(t, ObjPath(q.bucket, key), data);
            && WellFormed(after) && key in WalkedKeys(after, q, env)
            && forall o :: Reported(Files(after), env, q.bucket, o) && o.key == key ==> o == ObjectMeta(key, |data|, env.md5Hex(data))
  {
    PutKeepsTree(t, ObjPath(q.bucket, key), data);
    PlainFileListed(PutTree(t, ObjPath(q.bucket, key), data), env, q, key);
  }

  // ---------------------------------------------------------------- plain buckets

  /** Only plain objects under ordinary keys: no shard or manifest files, nothing under .multipart/. */
  ghost predicate PlainBucket(t: Tree, bucket: string) {
    forall p :: p in Below(t, [bucket]) && t[p].File? ==> Base(p) != SHARD_NAME && Visible(p)
  }

  lemma PlainIsObject(t: Tree, env: Env, bucket: string, p: Path)
    requires PlainBucket(t, bucket) && p in Below(t, [bucket]) && t[p].File?
    ensures p in ObjectsIn(t, env, bucket) && ObjKey(p) == Key(p) && ReachKey(p) == Key(p)
    ensures Key(p) in KeysIn(t, env, bucket)
  {
    assert Base(p) != SHARD_NAME;
    assert ObjKey(p) in KeysIn(t, env, bucket);
  }

  /**
   * For every bucket of plain objects without empty directories and every query, the walk with its
   * early skips yields exactly the reference listing.
   */
  lemma PlainListingExact(t: Tree, q: Query, env: Env)
    requires WellFormed(t) && NoEmptyDirs(t) && PlainBucket(t, q.bucket)
    ensures WalkedKeys(t, q, env) == MatchingKeys(q, KeysIn(t, env, q.bucket))
    ensures WalkedPrefixes(t, q) == MatchingPrefixes(q, KeysIn(t, env, q.bucket))
  {
    var B := Below(t, [q.bucket]);
    var K := KeysIn(t, env, q.bucket);
    forall k ensures k in WalkedKeys(t, q, env) <==> k in MatchingKeys(q, K) {
      if k in WalkedKeys(t, q, env) {
        var p :| p in ListedOf(t, q, env, B) && ObjKey(p) == k;
        PlainIsObject(t, env, q.bucket, p);
      }
      if k in MatchingKeys(q, K) {
        var p :| p in ObjectsIn(t, env, q.bucket) && ObjKey(p) == k;
        PlainIsObject(t, env, q.bucket, p);
        assert p in ListedOf(t, q, env, B);
      }
    }
    forall cp ensures cp in WalkedPrefixes(t, q) <==> cp in MatchingPrefixes(q, K) {
      if cp in WalkedPrefixes(t, q) {
        var p :| p in B && PrefixOf(t, q, p) == Some(cp);
        PrefixHasKey(t, q, env, p);
      }
      if cp in MatchingPrefixes(q, K) {
        var k :| k in K && Roll(q, k) == Some(cp) && Past(q, cp);
        var p :| p in ObjectsIn(t, env, q.bucket) && ObjKey(p) == k;
        PlainIsObject(t, env, q.bucket, p);
        assert PrefixOf(t, q, p) == Some(cp);
        assert p in B;
      }
    }
  }

  /** No phantom prefixes: behind every collected prefix there is an object that rolls up to it. */
  lemma PrefixHasKey(t: Tree, q: Query, env: Env, p: Path)
    requires WellFormed(t) && NoEmptyDirs(t) && PlainBucket(t, q.bucket)
    requires p in Below(t, [q.bucket]) && PrefixOf(t, q, p).Some?
    ensures PrefixOf(t, q, p).value in MatchingPrefixes(q, KeysIn(t, env, q.bucket))
  {
    var f := p;
    if t[p].Directory? {
      f := FileBelow(t, p);
      KeyBelow(p, f);
      var top := Key(p) + "/";
      assert Key(f) == top + Key(f)[|top|..];
      RollStable(q, top, Key(f)[|top|..]);
    }
    PlainIsObject(t, env, q.bucket, f);
    assert Roll(q, Key(f)) == PrefixOf(t, q, p);
  }

  // ---------------------------------------------------------------- sealed and mixed buckets

  /** Without a delimiter the walk is exact on every tree, sealed objects included. */
  lemma UndelimitedListingExact(t: Tree, q: Query, env: Env)
    requires q.delimiter == ""
    ensures WalkedKeys(t, q, env) == MatchingKeys(q, KeysIn(t, env, q.bucket))
    ensures WalkedPrefixes(t, q) == {}
  {
    var K := KeysIn(t, env, q.bucket);
    forall k ensures k in WalkedKeys(t, q, env) <==> k in MatchingKeys(q, K) {
      if k in WalkedKeys(t, q, env) {
        var p :| p in ListedOf(t, q, env, Below(t, [q.bucket])) && ObjKey(p) == k;
        assert p in ObjectsIn(t, env, q.bucket);
      }
      if k in MatchingKeys(q, K) {
        var p :| p in ObjectsIn(t, env, q.bucket) && ObjKey(p) == k;
        assert p in ListedOf(t, q, env, Below(t, [q.bucket]));
      }
    }
  }

  /** A sealed object that should be listed but whose directory the delimiter rolls up first. */
  predicate Shadowed(t: Tree, q: Query, env: Env, p: Path) {
    && IsObject(t, env, p) && IsShard(p) && |p| > 2
    && HasPrefix(ObjKey(p), q.prefix) && Roll(q, ObjKey(p)).None? && Past(q, ObjKey(p))
    && Roll(q, ObjKey(p) + "/").Some?
  }

  /** With a delimiter the walk misses sealed objects; it lists all keys exactly when none is shadowed. */
  lemma DelimitedKeysExact(t: Tree, q: Query, env: Env)
    requires WellFormed(t)
    ensures (WalkedKeys(t, q, env) == MatchingKeys(q, KeysIn(t, env, q.bucket))) <==>
            (forall p :: p in Below(t, [q.bucket]) ==> !Shadowed(t, q, env, p))
  {
    var B := Below(t, [q.bucket]);
    var K := KeysIn(t, env, q.bucket);
    forall p | p in B && Shadowed(t, q, env, p)
      ensures ObjKey(p) in MatchingKeys(q, K) && ObjKey(p) !in WalkedKeys(t, q, env)
    {
      assert p in ObjectsIn(t, env, q.bucket);
      ShadowedIsMissing(t, q, env, p);
    }
    if forall p :: p in B ==> !Shadowed(t, q, env, p) {
      forall k ensures k in WalkedKeys(t, q, env) <==> k in MatchingKeys(q, K) {
        if k in WalkedKeys(t, q, env) {
          var p :| p in ListedOf(t, q, env, B) && ObjKey(p) == k;
          assert p in ObjectsIn(t, env, q.bucket);
        }
        if k in MatchingKeys(q, K) {
          var p :| p in ObjectsIn(t, env, q.bucket) && ObjKey(p) == k;
          assert p in B && !Shadowed(t, q, env, p);
          assert p in ListedOf(t, q, env, B);
        }
      }
    }
  }

  /** Two files of a bucket never stand for the same object key. */
  lemma ObjKeyInjective(t: Tree, p: Path, p': Path)
    requires WellFormed(t) && |p| >= 2 && |p'| >= 2 && p[0] == p'[0] && IsFile(t, p) && IsFile(t, p')
    requires ObjKey(p) == ObjKey(p')
    ensures p == p'
  {
    var bucket := p[0];
    FileFromKey(t, bucket, p);
    FileFromKey(t, bucket, p');
  }

  /** Whether a key stands for a plain or a sealed object, and for which file, can be read off the files. */
  lemma FileFromKey(t: Tree, bucket: string, p: Path)
    requires WellFormed(t) && |p| >= 2 && p[0] == bucket && IsFile(t, p)
    ensures p == if ObjPath(bucket, ObjKey(p)) in Files(t) then ObjPath(bucket, ObjKey(p))
                 else SealedDir(bucket, ObjKey(p)) + [SHARD_NAME]
  {
    if IsShard(p) {
      ShardStandsFor(t, bucket, p);
    } else {
      assert Placed(t, p);
      ObjPathOfKey(p);
    }
  }

  lemma NotDot(p: Path)
    requires GoodPath(p) && |p| >= 2
    ensures Key(p) != "."
  {
    ObjPathOfKey(p);
    SplitLacking(".", '/');
    assert ObjPath(p[0], ".")[1] == ".";
  }

  lemma SlashRoll(q: Query, k: string)
    requires q.prefix == "" && q.delimiter == "/" && Lacks(k, '/')
    ensures Roll(q, k).None? && Roll(q, k + "/") == Some(k + "/")
  {
    var x := k + "/";
    assert k[0..] == k && x[0..] == x;
    SlashIndex(k);
    assert x[..|k| + 1] == x;
    assert "" + x == x;
  }

  lemma SlashIndex(k: string)
    requires Lacks(k, '/')
    ensures Index(k, "/") == -1 && Index(k + "/", "/") == |k|
  {
    var x := k + "/";
    forall j | 0 <= j ensures !OccursAt(k, "/", j) {
      if j + 1 <= |k| { assert k[j..j + 1][0] == k[j]; }
    }
    assert OccursAt(x, "/", |k|) by { assert x[|k|..|k| + 1] == "/"; }
    forall j | 0 <= j < |k| ensures !OccursAt(x, "/", j) {
      OccursInPrefix(k, "/", "/", j);
    }
  }

  /** Under delimiter "/" every sealed object with a slash-free key is hidden behind a prefix of its own name. */
  lemma SealedObjectHidden(t: Tree, env: Env, bucket: string, p: Path)
    requires WellFormed(t) && p in ObjectsIn(t, env, bucket) && IsShard(p) && |p| == 3
    ensures var q := Query(bucket, "", "", "/");
            && ObjKey(p) in MatchingKeys(q, KeysIn(t, env, bucket))
            && ObjKey(p) !in WalkedKeys(t, q, env)
            && ObjKey(p) + "/" in WalkedPrefixes(t, q)
  {
    var q := Query(bucket, "", "", "/");
    OwnDirectoryRolls(t, bucket, p);
    assert ObjKey(p) in KeysIn(t, env, bucket);
    ShadowedIsMissing(t, q, env, p);
    assert PrefixOf(t, q, Parent(p)).value in WalkedPrefixes(t, q);
  }

  lemma OwnDirectoryRolls(t: Tree, bucket: string, p: Path)
    requires WellFormed(t) && IsFile(t, p) && IsShard(p) && |p| == 3 && p[0] == bucket
    ensures var q, k := Query(bucket, "", "", "/"), ObjKey(p);
            && Roll(q, k).None? && Roll(q, k + "/") == Some(k + "/")
            && Parent(p) in Below(t, [bucket]) && PrefixOf(t, q, Parent(p)) == Some(k + "/")
  {
    var d := Parent(p);
    assert Placed(t, p);
    assert d[1..] == [d[1]] && Key(d) == d[1] && GoodName(p[1]);
    SlashRoll(Query(bucket, "", "", "/"), ObjKey(p));
    assert [bucket] < d;
  }

  lemma ShadowedIsMissing(t: Tree, q: Query, env: Env, p: Path)
    requires WellFormed(t) && p in Below(t, [q.bucket]) && Shadowed(t, q, env, p)
    ensures ObjKey(p) !in WalkedKeys(t, q, env)
  {
    forall p' | p' in ListedOf(t, q, env, Below(t, [q.bucket])) ensures ObjKey(p') != ObjKey(p) {
      if ObjKey(p') == ObjKey(p) { ObjKeyInjective(t, p, p'); }
    }
  }

  // ---------------------------------------------------------------- entries

  /** A common prefix rolls up to itself, so no listed object key is one. */
  lemma PrefixRollsToItself(q: Query, name: string)
    requires Roll(q, name).Some?
    ensures Roll(q, Roll(q, name).value) == Roll(q, name)
  {
    var cp := Roll(q, name).value;
    var part := name[|q.prefix|..];
    var i := Index(part, q.delimiter);
    var cut := part[..i + |q.delimiter|];
    assert cp[|q.prefix|..] == cut;
    assert part == cut + part[|cut|..];
    OccursInPrefix(cut, part[|cut|..], q.delimiter, i);
    forall j | 0 <= j < i ensures !OccursAt(cut, q.delimiter, j) {
      OccursInPrefix(cut, part[|cut|..], q.delimiter, j);
    }
    assert Index(cut, q.delimiter) == i;
    assert cut[..i + |q.delimiter|] == cut;
  }

  /** A node whose collected prefix starts no object's key: an orphaned file, or a directory with no object inside. */
  ghost predicate Phantom(t: Tree, q: Query, env: Env, p: Path) {
    && p in Below(t, [q.bucket]) && PrefixOf(t, q, p).Some?
    && forall k :: k in KeysIn(t, env, q.bucket) ==> !HasPrefix(k, PrefixOf(t, q, p).value)
  }

  /** On every tree, sealed objects included, the walk misses no prefix, and it reports no other exactly when there is no phantom. */
  lemma MixedPrefixesExact(t: Tree, q: Query, env: Env)
    requires WellFormed(t)
    ensures MatchingPrefixes(q, KeysIn(t, env, q.bucket)) <= WalkedPrefixes(t, q)
    ensures WalkedPrefixes(t, q) == MatchingPrefixes(q, KeysIn(t, env, q.bucket)) <==> forall p :: !Phantom(t, q, env, p)
  {
    var B, K := Below(t, [q.bucket]), KeysIn(t, env, q.bucket);
    forall cp | cp in MatchingPrefixes(q, K) ensures cp in WalkedPrefixes(t, q) {
      var k :| k in K && Roll(q, k) == Some(cp) && Past(q, cp);
      var p :| p in ObjectsIn(t, env, q.bucket) && ObjKey(p) == k;
      assert p in B && PrefixOf(t, q, p) == Some(cp);
    }
    forall p | p in B && PrefixOf(t, q, p).Some?
      ensures PrefixOf(t, q, p).value in MatchingPrefixes(q, K) <==> !Phantom(t, q, env, p)
    {
      CollectedPrefix(t, q, env, p);
    }
  }

  /** An object's key starts with a collected prefix exactly when it rolls up to it. */
  lemma CollectedPrefix(t: Tree, q: Query, env: Env, p: Path)
    requires p in Below(t, [q.bucket]) && PrefixOf(t, q, p).Some?
    ensures PrefixOf(t, q, p).value in MatchingPrefixes(q, KeysIn(t, env, q.bucket)) <==> !Phantom(t, q, env, p)
  {
    var cp := PrefixOf(t, q, p).value;
    PrefixRollsToItself(q, if t[p].Directory? then Key(p) + "/" else ObjKey(p));
    forall k | k in KeysIn(t, env, q.bucket) ensures HasPrefix(k, cp) <==> Roll(q, k) == Some(cp) {
      RollsToIffPrefix(q, cp, k);
    }
  }

  lemma RollsToIffPrefix(q: Query, cp: string, k: string)
    requires Roll(q, cp) == Some(cp)
    ensures HasPrefix(k, cp) <==> Roll(q, k) == Some(cp)
  {
    if HasPrefix(k, cp) {
      assert k == cp + k[|cp|..];
      RollStable(q, cp, k[|cp|..]);
    }
    if Roll(q, k) == Some(cp) { RollMeaning(q, k); }
  }

  lemma KeysAndPrefixesDisjoint(t: Tree, q: Query, env: Env)
    ensures WalkedKeys(t, q, env) !! WalkedPrefixes(t, q)
  {
    forall cp | cp in WalkedPrefixes(t, q) ensures Roll(q, cp).Some? {
      var p :| p in Below(t, [q.bucket]) && PrefixOf(t, q, p) == Some(cp);
      var name := if t[p].Directory? then Key(p) + "/" else ObjKey(p);
      PrefixRollsToItself(q, name);
    }
    forall k | k in WalkedKeys(t, q, env) ensures Roll(q, k).None? {
      var p :| p in ListedOf(t, q, env, Below(t, [q.bucket])) && ObjKey(p) == k;
    }
  }

  /** Starting later only drops entries that do not come later: what makes tokens work. */
  lemma StartAfterFilters(t: Tree, q: Query, env: Env, from: string)
    requires q.startAfter == "" && from != ""
    ensures WalkedKeys(t, q.(startAfter := from), env) == set k | k in WalkedKeys(t, q, env) && Less(from, k)
    ensures WalkedPrefixes(t, q.(startAfter := from)) == set k | k in WalkedPrefixes(t, q) && Less(from, k)
  {
    var q' := q.(startAfter := from);
    var B := Below(t, [q.bucket]);
    forall name ensures Roll(q', name) == Roll(q, name) {
    }
    forall p | p in B ensures PrefixOf(t, q', p) == (if PrefixOf(t, q, p).Some? && Less(from, PrefixOf(t, q, p).value)
                                                    then PrefixOf(t, q, p) else None) {
    }
    forall p | p in B ensures Listed(t, q', env, p) <==> Listed(t, q, env, p) && Less(from, ObjKey(p)) {
    }
    forall k ensures k in WalkedKeys(t, q', env) <==> k in WalkedKeys(t, q, env) && Less(from, k) {
      if k in WalkedKeys(t, q', env) {
        var p :| p in ListedOf(t, q', env, B) && ObjKey(p) == k;
        assert p in ListedOf(t, q, env, B);
      }
      if k in WalkedKeys(t, q, env) && Less(from, k) {
        var p :| p in ListedOf(t, q, env, B) && ObjKey(p) == k;
        assert p in ListedOf(t, q', env, B);
      }
    }
    forall k ensures k in WalkedPrefixes(t, q') <==> k in WalkedPrefixes(t, q) && Less(from, k) {
      if k in WalkedPrefixes(t, q) && Less(from, k) {
        var p :| p in B && PrefixOf(t, q, p) == Some(k);
        assert PrefixOf(t, q', p) == Some(k);
      }
    }
  }
}
