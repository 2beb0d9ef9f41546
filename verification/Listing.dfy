/** The directory walk behind List (pkg/storage/localfs.go) and the set of entries it computes. */
module Listing {
  import opened Strings
  import opened Encoding
  import opened Sorting
  import opened FileTree

  datatype ObjectMeta = ObjectMeta(key: string, size: int, etag: string)

  /** `shard` is where the manifest says the first shard is, if it lists any. */
  datatype ManifestInfo = ManifestInfo(size: int, etag: string, shard: Option<Path>)

  /** The md5 of a file as text, and what decoding a file as a manifest gives. */
  datatype Env = Env(md5Hex: Bytes -> string, manifest: Bytes -> Option<ManifestInfo>)

  datatype Query = Query(bucket: string, prefix: string, startAfter: string, delimiter: string)

  // ---------------------------------------------------------------- what each node contributes

  predicate Past(q: Query, entry: string) {
    q.startAfter == "" || Less(q.startAfter, entry)
  }

  /** The common prefix a name rolls up to: everything up to the first delimiter after the query's prefix. */
  function Roll(q: Query, name: string): Option<string> {
    if q.delimiter != "" && HasPrefix(name, q.prefix) then
      var part := name[|q.prefix|..];
      var i := Index(part, q.delimiter);
      if i >= 0 then Some(q.prefix + part[..i + |q.delimiter|]) else None
    else None
  }

  /**
   * A name that matches rolls up exactly when the delimiter occurs in it behind the query's prefix, and
   * then to the shortest part of it that ends with such an occurrence.
   */
  lemma RollMeaning(q: Query, name: string)
    requires q.delimiter != "" && HasPrefix(name, q.prefix)
    ensures Roll(q, name).None? <==> forall i :: i >= |q.prefix| ==> !OccursAt(name, q.delimiter, i)
    ensures Roll(q, name).Some? ==>
              var cp := Roll(q, name).value;
              var last := |cp| - |q.delimiter|;
              && HasPrefix(name, cp) && HasPrefix(cp, q.prefix) && last >= |q.prefix| && OccursAt(name, q.delimiter, last)
              && forall i :: |q.prefix| <= i < last ==> !OccursAt(name, q.delimiter, i)
  {
    var part := name[|q.prefix|..];
    var k := Index(part, q.delimiter);
    forall i ensures i >= |q.prefix| ==> OccursAt(name, q.delimiter, i) == OccursAt(part, q.delimiter, i - |q.prefix|) {
      if i >= |q.prefix| { OccursBehind(name, q.delimiter, |q.prefix|, i); }
    }
    assert name == q.prefix + part;
    if k >= 0 {
      assert q.prefix + part[..k + |q.delimiter|] <= name;
      assert OccursAt(name, q.delimiter, k + |q.prefix|);
    } else {
      forall i | i >= |q.prefix| ensures !OccursAt(name, q.delimiter, i) {
        assert !OccursAt(part, q.delimiter, i - |q.prefix|);
      }
    }
  }

  lemma OccursBehind(name: string, sub: string, n: nat, i: int)
    requires n <= |name| && i >= n
    ensures OccursAt(name, sub, i) == OccursAt(name[n..], sub, i - n)
  {
    if i <= |name| - |sub| { assert name[i..i + |sub|] == name[n..][i - n..i - n + |sub|]; }
  }

  /** Everything below a rolled-up name rolls up to the same prefix. */
  lemma RollStable(q: Query, name: string, more: string)
    requires Roll(q, name).Some?
    ensures Roll(q, name + more) == Roll(q, name)
  {
    var part := name[|q.prefix|..];
    assert (name + more)[|q.prefix|..] == part + more;
    IndexStable(part, more, q.delimiter);
    var n := Index(part, q.delimiter) + |q.delimiter|;
    assert (part + more)[..n] == part[..n];
  }

  predicate IsShard(p: Path) {
    p != [] && Base(p) == SHARD_NAME
  }

  /** Manifests and staged multipart files are never listed. */
  predicate Visible(p: Path)
    requires p != []
  {
    !HasPrefix(Key(p), ".multipart/") && Base(p) != MANIFEST_NAME
  }

  /** The object a file stands for: a shard file stands for the directory it is in. */
  function ObjKey(p: Path): string
    requires |p| >= 2
  {
    if IsShard(p) then (if |p| == 2 then "." else Key(Parent(p))) else Key(p)
  }

  /** The name under which the walk decides whether to roll a file up: it meets a shard's directory first. */
  function ReachKey(p: Path): string
    requires |p| >= 2
  {
    if IsShard(p) && |p| > 2 then Key(Parent(p)) + "/" else ObjKey(p)
  }

  /** The metadata of the object a file stands for; a shard without a readable manifest has none. */
  function MetaFor(t: Tree, env: Env, p: Path): Option<ObjectMeta>
    requires |p| >= 2 && IsFile(t, p)
  {
    if IsShard(p) then
      var mp := Parent(p) + [MANIFEST_NAME];
      if !IsFile(t, mp) then None
      else match env.manifest(t[mp].data)
        case None => None
        case Some(m) => Some(ObjectMeta(ObjKey(p), m.size, m.etag))
    else Some(ObjectMeta(Key(p), |t[p].data|, env.md5Hex(t[p].data)))
  }

  /** The common prefix one node asks for, if any. */
  function PrefixOf(t: Tree, q: Query, p: Path): Option<string>
    requires |p| >= 2 && p in t
  {
    var name := if t[p].Directory? then Key(p) + "/" else ObjKey(p);
    if t[p].File? && !Visible(p) then None
    else
      var r := Roll(q, name);
      if r.Some? && Past(q, r.value) then r else None
  }

  predicate Listed(t: Tree, q: Query, env: Env, p: Path) {
    && |p| >= 2 && IsFile(t, p) && Visible(p)
    && HasPrefix(ObjKey(p), q.prefix)
    && Roll(q, ReachKey(p)).None? && Roll(q, ObjKey(p)).None?
    && Past(q, ObjKey(p))
    && MetaFor(t, env, p).Some?
  }

  ghost predicate InBucket(t: Tree, S: set<Path>) {
    forall p :: p in S ==> p in t && |p| >= 2
  }

  ghost function PrefixesOf(t: Tree, q: Query, S: set<Path>): set<string>
    requires InBucket(t, S)
  {
    set p | p in S && PrefixOf(t, q, p).Some? :: PrefixOf(t, q, p).value
  }

  ghost function ListedOf(t: Tree, q: Query, env: Env, S: set<Path>): set<Path> {
    set p | p in S && Listed(t, q, env, p)
  }

  // ---------------------------------------------------------------- skipping a rolled-up directory is sound

  /** Below a rolled-up directory nothing is listed and no other prefix arises. */
  lemma SkipSound(t: Tree, q: Query, env: Env, d: Path, p: Path)
    requires |d| >= 2 && IsDir(t, d) && Roll(q, Key(d) + "/").Some?
    requires p in t && d < p
    ensures !Listed(t, q, env, p)
    ensures PrefixOf(t, q, p).Some? ==> PrefixOf(t, q, p) == PrefixOf(t, q, d)
  {
    KeyRolls(q, d, p);
    if t[p].File? && IsShard(p) {
      if d == Parent(p) {
        if Roll(q, Key(d)).Some? { RollStable(q, Key(d), "/"); }
      } else {
        KeyRolls(q, d, Parent(p));
      }
    }
  }

  /** Keys below a rolled-up directory roll up to its prefix, as files and as directories. */
  lemma KeyRolls(q: Query, d: Path, p: Path)
    requires |d| >= 2 && Roll(q, Key(d) + "/").Some? && d < p
    ensures Roll(q, Key(p)) == Roll(q, Key(d) + "/") && Roll(q, Key(p) + "/") == Roll(q, Key(d) + "/")
  {
    var top := Key(d) + "/";
    KeyBelow(d, p);
    var rest := Key(p)[|top|..];
    assert Key(p) == top + rest && Key(p) + "/" == top + (rest + "/");
    RollStable(q, top, rest);
    RollStable(q, top, rest + "/");
  }

  lemma SkipDirectory(t: Tree, q: Query, env: Env, d: Path)
    requires |d| >= 2 && IsDir(t, d) && Roll(q, Key(d) + "/").Some?
    ensures InBucket(t, Below(t, d)) && InBucket(t, {d})
    ensures ListedOf(t, q, env, Below(t, d)) == {}
    ensures PrefixesOf(t, q, Below(t, d)) <= PrefixesOf(t, q, {d})
  {
    forall p | p in Below(t, d)
      ensures !Listed(t, q, env, p) && (PrefixOf(t, q, p).Some? ==> PrefixOf(t, q, p).value in PrefixesOf(t, q, {d}))
    {
      SkipSound(t, q, env, d, p);
      assert d in {d};
    }
  }

  // ---------------------------------------------------------------- the program

  ghost function ChildNames(t: Tree, d: Path): set<string> {
    set p | p in t && IsChild(t, d, p) :: Base(p)
  }

  /** os.ReadDir: the names in a directory in ascending order. */
  method ReadDir(t: Tree, d: Path) returns (names: seq<string>)
    ensures StrictlyAscending(names)
    ensures Elements(names) == ChildNames(t, d)
    ensures names == [] <==> !HasChild(t, d)
  {
    var todo := set p | p in t && IsChild(t, d, p);
    ghost var all := todo;
    var found: seq<string> := [];
    while todo != {}
      invariant todo <= all
      invariant forall i, j :: 0 <= i < j < |found| ==> found[i] != found[j]
      invariant Elements(found) == set p | p in all - todo :: Base(p)
      decreases todo
    {
      var p :| p in todo;
      assert forall c :: c in all - todo && Base(c) == Base(p) ==> c == p by {
        forall c | c in all - todo && Base(c) == Base(p) ensures c == p {
          assert c == Parent(c) + [Base(c)] && p == Parent(p) + [Base(p)];
        }
      }
      assert Base(p) !in Elements(found);
      assert all - (todo - {p}) == (all - todo) + {p};
      ghost var before := Elements(found);
      found := found + [Base(p)];
      todo := todo - {p};
      assert Elements(found) == before + {Base(p)};
    }
    assert all - todo == all;
    SortStringsAscending(found);
    names := SortStrings(found);
    NoNames(t, d, names);
  }

  lemma NoNames(t: Tree, d: Path, names: seq<string>)
    requires Elements(names) == ChildNames(t, d)
    ensures names == [] <==> !HasChild(t, d)
  {
    if names != [] {
      assert names[0] in Elements(names);
      var c :| c in t && IsChild(t, d, c) && Base(c) == names[0];
    }
    if HasChild(t, d) {
      var c :| IsChild(t, d, c);
      assert Base(c) in ChildNames(t, d);
      assert Base(c) in Elements(names);
    }
  }

  // ---------------------------------------------------------------- collecting

  /** The collected prefixes are those of the visited nodes `S`, each once. */
  ghost predicate HasPrefixes(t: Tree, q: Query, S: set<Path>, prefixes: seq<string>) {
    InBucket(t, S) && Distinct(prefixes) && Elements(prefixes) == PrefixesOf(t, q, S)
  }

  /** The collected objects are those of the visited files in `S`, each once; `listed` are the files behind them. */
  ghost predicate HasObjects(t: Tree, q: Query, env: Env, S: set<Path>, objects: seq<ObjectMeta>, listed: seq<Path>) {
    && Distinct(listed) && Elements(listed) == ListedOf(t, q, env, S)
    && |objects| == |listed|
    && (forall i :: 0 <= i < |listed| ==> Listed(t, q, env, listed[i]) && MetaFor(t, env, listed[i]) == Some(objects[i]))
  }

  lemma ElementsAppend<T(!new)>(s: seq<T>, x: T)
    ensures Elements(s + [x]) == Elements(s) + {x}
  {
  }

  lemma PrefixAdded(t: Tree, q: Query, S: set<Path>, prefixes: seq<string>, p: Path)
    requires HasPrefixes(t, q, S, prefixes) && p in t && |p| >= 2
    ensures var added := PrefixOf(t, q, p);
            if added.None? || added.value in prefixes then HasPrefixes(t, q, S + {p}, prefixes)
            else HasPrefixes(t, q, S + {p}, prefixes + [added.value])
  {
    var added := PrefixOf(t, q, p);
    var one := if added.None? then {} else {added.value};
    assert PrefixesOf(t, q, S + {p}) == PrefixesOf(t, q, S) + one by {
      forall x ensures x in PrefixesOf(t, q, S + {p}) <==> x in PrefixesOf(t, q, S) + one {
        if added == Some(x) { assert p in S + {p}; }
      }
    }
    if added.Some? {
      ElementsAppend(prefixes, added.value);
      assert added.value in prefixes <==> added.value in Elements(prefixes);
    }
  }

  lemma ObjectAdded(t: Tree, q: Query, env: Env, S: set<Path>, objects: seq<ObjectMeta>, listed: seq<Path>, p: Path)
    requires HasObjects(t, q, env, S, objects, listed) && p !in S
    ensures if Listed(t, q, env, p)
            then HasObjects(t, q, env, S + {p}, objects + [MetaFor(t, env, p).value], listed + [p])
            else HasObjects(t, q, env, S + {p}, objects, listed)
  {
    if Listed(t, q, env, p) {
      assert ListedOf(t, q, env, S + {p}) == ListedOf(t, q, env, S) + {p};
      ElementsAppend(listed, p);
      assert p !in Elements(listed);
    } else {
      assert ListedOf(t, q, env, S + {p}) == ListedOf(t, q, env, S);
    }
  }

  datatype Verdict = Ignore | RollUp(cp: string) | Include(meta: ObjectMeta)

  /** What lies below the children of `d` with the given names, these children included. */
  ghost function Part(t: Tree, d: Path, names: seq<string>): set<Path> {
    set p | p in t && d < p && p[|d|] in names
  }

  lemma ChildOf(t: Tree, d: Path, name: string)
    requires WellFormed(t) && IsDir(t, d) && d != [] && name in ChildNames(t, d)
    ensures var c := d + [name];
            && c in t && |c| >= 2 && Parent(c) == d && c in Below(t, d)
            && Below(t, c) < Below(t, d) && c !in Below(t, c)
            && (t[c].File? ==> Below(t, c) == {})
  {
    var c := d + [name];
    var p :| p in t && IsChild(t, d, p) && Base(p) == name;
    assert p == Parent(p) + [Base(p)];
    assert p == c;
    assert d < c;
    BelowShrinks(t, d, c);
    if t[c].File? {
      forall x | x in t ensures !(c < x) {
        if c < x { AncestorIsDir(t, c, x); }
      }
    }
  }

  lemma PartGrows(t: Tree, d: Path, names: seq<string>, name: string)
    requires d + [name] in t && name !in names
    ensures var c := d + [name];
            && Part(t, d, names + [name]) == Part(t, d, names) + ({c} + Below(t, c))
            && Part(t, d, names) !! ({c} + Below(t, c))
  {
    var c := d + [name];
    forall x | x in t && d < x ensures x[|d|] == name <==> x == c || c < x {
      assert x == x[..|d|] + [x[|d|]] + x[|d| + 1..];
    }
    forall x | x == c || c < x ensures d < x && x[|d|] == name {
    }
  }

  lemma FreshName(names: seq<string>, i: nat)
    requires i < |names| && StrictlyAscending(names)
    ensures names[..i + 1] == names[..i] + [names[i]] && names[i] !in names[..i]
  {
    LessIrreflexive(names[i]);
  }

  lemma PartAll(t: Tree, d: Path, names: seq<string>)
    requires WellFormed(t) && IsDir(t, d) && d != [] && Elements(names) == ChildNames(t, d)
    ensures Part(t, d, names[..|names|]) == Below(t, d)
  {
    assert names[..|names|] == names;
    forall p | p in Below(t, d) ensures p[|d|] in names {
      var c := p[..|d| + 1];
      if c != p { AncestorIsDir(t, c, p); }
      assert IsChild(t, d, c) && Base(c) == p[|d|];
      assert p[|d|] in Elements(names);
    }
  }

  /** In a directory that was entered, a shard file is judged by its own key like any other file. */
  lemma ShardReached(t: Tree, q: Query, p: Path)
    requires |p| >= 2 && IsFile(t, p)
    requires |p| > 2 ==> Roll(q, Key(Parent(p)) + "/").None?
    ensures Roll(q, ReachKey(p)).Some? ==> Roll(q, ObjKey(p)).Some?
  {
  }

  lemma SkippedSubtree(t: Tree, q: Query, env: Env, d: Path, S: set<Path>,
                       prefixes: seq<string>, objects: seq<ObjectMeta>, listed: seq<Path>)
    requires |d| >= 2 && IsDir(t, d) && Roll(q, Key(d) + "/").Some? && d in S
    requires HasPrefixes(t, q, S, prefixes) && HasObjects(t, q, env, S, objects, listed)
    ensures HasPrefixes(t, q, S + Below(t, d), prefixes)
    ensures HasObjects(t, q, env, S + Below(t, d), objects, listed)
  {
    SkipDirectory(t, q, env, d);
    assert PrefixesOf(t, q, {d}) <= PrefixesOf(t, q, S);
    assert PrefixesOf(t, q, S + Below(t, d)) == PrefixesOf(t, q, S) + PrefixesOf(t, q, Below(t, d));
    assert ListedOf(t, q, env, S + Below(t, d)) == ListedOf(t, q, env, S) + ListedOf(t, q, env, Below(t, d));
  }

  /** The variables the walk function captures. */
  class Walk {
    const t: Tree
    const q: Query
    const env: Env
    var objects: seq<ObjectMeta>
    var commonPrefixes: seq<string>
    var seenPrefixes: set<string>
    ghost var listed: seq<Path>

    constructor (t: Tree, q: Query, env: Env)
      ensures this.t == t && this.q == q && this.env == env
      ensures Collected({})
    {
      this.t, this.q, this.env := t, q, env;
      objects, commonPrefixes, seenPrefixes, listed := [], [], {}, [];
    }

    /** The visited nodes are `S`, and the lists hold exactly what these contribute. */
    ghost predicate Collected(S: set<Path>)
      reads this
    {
      && seenPrefixes == Elements(commonPrefixes)
      && HasPrefixes(t, q, S, commonPrefixes)
      && HasObjects(t, q, env, S, objects, listed)
    }

    /** The delimiter logic, the same for directories and files. */
    method RollOf(name: string) returns (r: Option<string>)
      requires HasPrefix(name, q.prefix)
      ensures r == Roll(q, name)
    {
      if q.delimiter != "" {
        var part := name[|q.prefix|..];
        var idx := Index(part, q.delimiter);
        if idx >= 0 { return Some(q.prefix + part[..idx + |q.delimiter|]); }
      }
      return None;
    }

    /** Does a directory constitute a common prefix? */
    method JudgeDir(d: Path) returns (v: Verdict)
      requires |d| >= 2 && IsDir(t, d)
      ensures !v.Include?
      ensures v.RollUp? <==> Roll(q, Key(d) + "/").Some?
      ensures PrefixOf(t, q, d) == if v.RollUp? && Past(q, v.cp) then Some(v.cp) else None
    {
      var checkKey := Key(d) + "/";
      if !HasPrefix(checkKey, q.prefix) { return Ignore; }
      var r := RollOf(checkKey);
      return if r.Some? then RollUp(r.value) else Ignore;
    }

    /** The metadata of a file that passed every filter: from the manifest or from the file itself. */
    method LoadMeta(p: Path, objKey: string) returns (m: Option<ObjectMeta>)
      requires |p| >= 2 && IsFile(t, p) && objKey == ObjKey(p)
      ensures m == MetaFor(t, env, p)
    {
      if Base(p) == SHARD_NAME {
        var mp := Parent(p) + [MANIFEST_NAME];
        if mp !in t || t[mp].Directory? { return None; }
        var info := env.manifest(t[mp].data);
        if info.None? { return None; }
        return Some(ObjectMeta(objKey, info.value.size, info.value.etag));
      }
      return Some(ObjectMeta(objKey, |t[p].data|, env.md5Hex(t[p].data)));
    }

    /** What the walk function makes of a file. */
    method JudgeFile(p: Path) returns (v: Verdict)
      requires |p| >= 2 && IsFile(t, p)
      requires Roll(q, ReachKey(p)).Some? ==> Roll(q, ObjKey(p)).Some?
      ensures PrefixOf(t, q, p) == if v.RollUp? && Past(q, v.cp) then Some(v.cp) else None
      ensures Listed(t, q, env, p) <==> v.Include?
      ensures v.Include? ==> MetaFor(t, env, p) == Some(v.meta)
    {
      if HasPrefix(Key(p), ".multipart/") { return Ignore; }
      if Base(p) == MANIFEST_NAME { return Ignore; }
      var objKey := if Base(p) == SHARD_NAME then (if |p| == 2 then "." else Key(Parent(p))) else Key(p);
      if !HasPrefix(objKey, q.prefix) { return Ignore; }
      var r := RollOf(objKey);
      if r.Some? { return RollUp(r.value); }
      if q.startAfter != "" && !Less(q.startAfter, objKey) { return Ignore; }
      var m := LoadMeta(p, objKey);
      return if m.Some? then Include(m.value) else Ignore;
    }

    /** Append a node's contribution to the lists, a prefix only the first time it is seen. */
    method Record(p: Path, v: Verdict, ghost S: set<Path>)
      requires |p| >= 2 && p in t && p !in S && Collected(S)
      requires PrefixOf(t, q, p) == if v.RollUp? && Past(q, v.cp) then Some(v.cp) else None
      requires Listed(t, q, env, p) <==> v.Include?
      requires v.Include? ==> MetaFor(t, env, p) == Some(v.meta)
      modifies this
      ensures Collected(S + {p})
    {
      PrefixAdded(t, q, S, commonPrefixes, p);
      ObjectAdded(t, q, env, S, objects, listed, p);
      match v
      case Ignore =>
      case RollUp(cp) =>
        if cp !in seenPrefixes {
          if q.startAfter == "" || Less(q.startAfter, cp) {
            ElementsAppend(commonPrefixes, cp);
            commonPrefixes := commonPrefixes + [cp];
            seenPrefixes := seenPrefixes + {cp};
          }
        }
      case Include(meta) =>
        objects := objects + [meta];
        listed := listed + [p];
    }

    /** filepath.WalkDir below `d`: children in order, a rolled-up directory is not entered. */
    method WalkDir(d: Path, ghost S: set<Path>)
      requires WellFormed(t) && IsDir(t, d) && |d| >= 1 && S !! Below(t, d) && Collected(S)
      requires |d| >= 2 ==> Roll(q, Key(d) + "/").None?
      modifies this
      ensures Collected(S + Below(t, d))
      decreases Below(t, d), 1
    {
      var names := ReadDir(t, d);
      var i := 0;
      assert Part(t, d, names[..0]) == {};
      assert S + {} == S;
      while i < |names|
        invariant 0 <= i <= |names|
        invariant Collected(S + Part(t, d, names[..i]))
      {
        ghost var P := Part(t, d, names[..i]);
        assert names[i] in Elements(names);
        ChildOf(t, d, names[i]);
        FreshName(names, i);
        PartGrows(t, d, names[..i], names[i]);
        VisitChild(d, names[i], S + P);
        assert S + P + ({d + [names[i]]} + Below(t, d + [names[i]])) == S + Part(t, d, names[..i + 1]);
        i := i + 1;
      }
      PartAll(t, d, names);
    }

    /** One child of an entered directory, with everything below it. */
    method VisitChild(d: Path, name: string, ghost S: set<Path>)
      requires WellFormed(t) && IsDir(t, d) && d != [] && name in ChildNames(t, d) && Collected(S)
      requires |d| >= 2 ==> Roll(q, Key(d) + "/").None?
      requires S !! ({d + [name]} + Below(t, d + [name]))
      modifies this
      ensures Collected(S + ({d + [name]} + Below(t, d + [name])))
      decreases Below(t, d), 0
    {
      var c := d + [name];
      ChildOf(t, d, name);
      assert S + ({c} + Below(t, c)) == (S + {c}) + Below(t, c);
      if t[c].File? {
        ShardReached(t, q, c);
        var v := JudgeFile(c);
        Record(c, v, S);
        assert S + {c} + {} == S + {c};
      } else {
        var v := JudgeDir(c);
        Record(c, v, S);
        if !v.RollUp? {
          WalkDir(c, S + {c});
        } else {
          SkippedSubtree(t, q, env, c, S + {c}, commonPrefixes, objects, listed);
        }
      }
    }
  }
}
