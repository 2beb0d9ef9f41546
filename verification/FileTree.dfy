/**
 * The directory tree under <base>/objects as a map from paths to nodes. A path is the bucket name
 * followed by the components of a key.
 */
module FileTree {
  import opened Strings
  import opened Encoding

  type Path = seq<string>

  datatype Node = File(data: Bytes) | Directory

  type Tree = map<Path, Node>

  const SHARD_NAME := "data.ss1"
  const MANIFEST_NAME := "object.meta"
  const STAGING := ".multipart"

  predicate GoodName(name: string) {
    name != "" && Lacks(name, '/') && name != "." && name != ".."
  }

  predicate GoodPath(p: Path) {
    p != [] && forall i :: 0 <= i < |p| ==> GoodName(p[i])
  }

  function Parent(p: Path): Path
    requires p != []
  {
    p[..|p| - 1]
  }

  function Base(p: Path): string
    requires p != []
  {
    p[|p| - 1]
  }

  predicate IsFile(t: Tree, p: Path) {
    p in t && t[p].File?
  }

  predicate IsDir(t: Tree, p: Path) {
    p in t && t[p].Directory?
  }

  /** A node stands in a directory; buckets are directories. */
  ghost predicate Placed(t: Tree, p: Path) {
    && GoodPath(p)
    && (if |p| == 1 then IsDir(t, p) else IsDir(t, Parent(p)))
  }

  ghost predicate WellFormed(t: Tree) {
    forall p :: p in t ==> Placed(t, p)
  }

  predicate IsChild(t: Tree, d: Path, c: Path) {
    c in t && c != [] && Parent(c) == d
  }

  ghost predicate HasChild(t: Tree, d: Path) {
    exists c :: IsChild(t, d, c)
  }

  /** No directory strictly below a bucket is empty, except perhaps `d`. */
  ghost predicate OnlyEmpty(t: Tree, d: Path) {
    forall e :: IsDir(t, e) && |e| >= 2 && e != d ==> HasChild(t, e)
  }

  /** No directory strictly below a bucket is empty. */
  ghost predicate NoEmptyDirs(t: Tree) {
    forall d :: IsDir(t, d) && |d| >= 2 ==> HasChild(t, d)
  }

  /** What lies strictly below a path. */
  ghost function Below(t: Tree, d: Path): set<Path> {
    set p | p in t && d < p
  }

  /** The files of a tree: the object view, keyed by bucket and components. */
  function Files(t: Tree): map<Path, Bytes> {
    map p | p in t && t[p].File? :: t[p].data
  }

  // ---------------------------------------------------------------- keys

  /** The key a path stands for inside its bucket. */
  function Key(p: Path): string
    requires p != []
  {
    Join(p[1..], '/')
  }

  function ObjPath(bucket: string, key: string): Path {
    [bucket] + Split(key, '/')
  }

  /** Clean keys: the ones filepath.Clean leaves alone. */
  predicate CanonicalKey(key: string) {
    forall i :: 0 <= i < |Split(key, '/')| ==> GoodName(Split(key, '/')[i])
  }

  lemma ObjPathOfKey(p: Path)
    requires GoodPath(p) && |p| >= 2
    ensures ObjPath(p[0], Key(p)) == p && CanonicalKey(Key(p))
  {
    SplitJoin(p[1..], '/');
    assert p == [p[0]] + p[1..];
  }

  lemma KeyInjective(p: Path, q: Path)
    requires GoodPath(p) && GoodPath(q) && |p| >= 2 && |q| >= 2
    requires p[0] == q[0] && Key(p) == Key(q)
    ensures p == q
  {
    ObjPathOfKey(p);
    ObjPathOfKey(q);
  }

  /** Keys below a directory extend the directory's key and a separator. */
  lemma KeyBelow(d: Path, p: Path)
    requires |d| >= 2 && d < p
    ensures Key(d) + "/" <= Key(p)
  {
    var rest := p[|d|..];
    assert p[1..] == d[1..] + rest;
    JoinConcat(d[1..], rest, '/');
    assert Key(p) == Key(d) + ['/'] + Join(rest, '/');
  }

  lemma KeyNonEmpty(p: Path)
    requires GoodPath(p) && |p| >= 2
    ensures Key(p) != ""
  {
    if |p| > 2 {
      JoinConcat([p[1]], p[2..], '/');
      assert p[1..] == [p[1]] + p[2..];
    } else {
      assert p[1..] == [p[1]];
    }
  }

  // ---------------------------------------------------------------- facts about trees

  lemma {:induction false} AncestorIsDir(t: Tree, d: Path, p: Path)
    requires WellFormed(t) && p in t && d < p && d != []
    ensures IsDir(t, d)
    decreases |p|
  {
    if Parent(p) != d {
      assert d < Parent(p);
      AncestorIsDir(t, d, Parent(p));
    }
  }

  lemma BelowShrinks(t: Tree, d: Path, c: Path)
    requires c in Below(t, d)
    ensures Below(t, c) < Below(t, d)
  {
    assert c !in Below(t, c);
  }

  /** Below every directory of a tree without empty directories there is a file. */
  lemma {:induction false} FileBelow(t: Tree, d: Path) returns (p: Path)
    requires WellFormed(t) && NoEmptyDirs(t) && IsDir(t, d) && |d| >= 2
    ensures d < p && IsFile(t, p)
    decreases Below(t, d)
  {
    assert HasChild(t, d);
    var c :| IsChild(t, d, c);
    assert d < c;
    if t[c].File? {
      p := c;
    } else {
      BelowShrinks(t, d, c);
      p := FileBelow(t, c);
    }
  }

  // ---------------------------------------------------------------- making and removing

  /** MkdirAll: `d` and its ancestors, those that are missing. */
  function Mkdirs(t: Tree, d: Path): Tree
    decreases |d|
  {
    if d == [] then t
    else
      var made := Mkdirs(t, Parent(d));
      if d in made then made else made[d := Directory]
  }

  /** Neither `d` nor an ancestor of it is a file. */
  ghost predicate Clear(t: Tree, d: Path) {
    forall q :: IsFile(t, q) ==> !(q <= d)
  }

  /** A file can be put at `p`: no ancestor is a file and `p` itself is not a directory. */
  ghost predicate CanPut(t: Tree, p: Path)
    requires p != []
  {
    Clear(t, Parent(p)) && !IsDir(t, p)
  }

  /** A successful plain Put. */
  function PutTree(t: Tree, p: Path, data: Bytes): Tree
    requires p != []
  {
    Mkdirs(t, Parent(p))[p := File(data)]
  }

  /** removeEmptyParents from `d` upward, stopping at the bucket. */
  ghost function Prune(t: Tree, d: Path): Tree
    decreases |d|
  {
    if |d| <= 1 || !IsDir(t, d) || HasChild(t, d) then t
    else Prune(t - {d}, Parent(d))
  }

  /** A Delete of a file, with its clean-up. */
  ghost function DeleteTree(t: Tree, p: Path): Tree
    requires p != []
  {
    Prune(t - {p}, Parent(p))
  }

  predicate NodeFits(t: Tree, p: Path, n: Node) {
    && GoodPath(p)
    && (if |p| == 1 then n.Directory? else IsDir(t, Parent(p)))
    && (p in t ==> t[p].File? && n.File?)
  }

  lemma AddNode(t: Tree, p: Path, n: Node)
    requires WellFormed(t) && NodeFits(t, p, n)
    ensures WellFormed(t[p := n])
    ensures Files(t[p := n]) == if n.Directory? then Files(t) else Files(t)[p := n.data]
  {
    var t' := t[p := n];
    forall q | q in t' ensures Placed(t', q) {
      assert q in t ==> Placed(t, q);
    }
  }

  lemma AddedIsOnlyEmpty(t: Tree, p: Path, n: Node)
    requires WellFormed(t) && NodeFits(t, p, n) && OnlyEmpty(t, Parent(p))
    ensures OnlyEmpty(t[p := n], p)
  {
    var t' := t[p := n];
    assert IsChild(t', Parent(p), p);
    forall e | IsDir(t', e) && |e| >= 2 && e != p ensures HasChild(t', e) {
      if e != Parent(p) {
        assert HasChild(t, e);
        var c :| IsChild(t, e, c);
        assert IsChild(t', e, c);
      }
    }
  }

  lemma RemoveNode(t: Tree, p: Path)
    requires WellFormed(t) && p in t && p != [] && !HasChild(t, p)
    ensures WellFormed(t - {p})
    ensures Files(t - {p}) == Files(t) - {p}
    ensures OnlyEmpty(t, p) ==> OnlyEmpty(t - {p}, Parent(p))
  {
    var t' := t - {p};
    forall q | q in t' ensures Placed(t', q) {
      assert Placed(t, q);
      assert !IsChild(t, p, q);
    }
    forall e | IsDir(t', e) && |e| >= 2 && e != Parent(p) && HasChild(t, e) ensures HasChild(t', e) {
      var c :| IsChild(t, e, c);
      assert IsChild(t', e, c);
    }
  }

  lemma FileHasNoChild(t: Tree, p: Path)
    requires WellFormed(t) && IsFile(t, p)
    ensures !HasChild(t, p) && |p| >= 2
  {
    assert Placed(t, p);
    forall c ensures !IsChild(t, p, c) {
      if c in t { assert Placed(t, c); }
    }
  }

  /** MkdirAll adds the missing ancestors and leaves every node it finds. */
  lemma {:induction false} MkdirsNodes(t: Tree, d: Path, q: Path)
    ensures q in t ==> q in Mkdirs(t, d) && Mkdirs(t, d)[q] == t[q]
    ensures q in Mkdirs(t, d) && q !in t ==> q <= d && IsDir(Mkdirs(t, d), q)
    decreases |d|
  {
    if d != [] { MkdirsNodes(t, Parent(d), q); }
  }

  lemma {:induction false} MkdirsKeeps(t: Tree, d: Path)
    requires WellFormed(t) && (d != [] ==> GoodPath(d)) && Clear(t, d)
    ensures WellFormed(Mkdirs(t, d)) && Files(Mkdirs(t, d)) == Files(t)
    ensures d != [] ==> IsDir(Mkdirs(t, d), d)
    ensures NoEmptyDirs(t) ==> OnlyEmpty(Mkdirs(t, d), d)
    decreases |d|
  {
    if d != [] {
      var made := Mkdirs(t, Parent(d));
      MkdirsKeeps(t, Parent(d));
      MkdirsNodes(t, Parent(d), d);
      assert !IsFile(t, d);
      if d !in made {
        AddNode(made, d, Directory);
        if NoEmptyDirs(t) { AddedIsOnlyEmpty(made, d, Directory); }
      } else if NoEmptyDirs(t) {
        assert IsChild(made, Parent(d), d);
      }
    }
  }

  lemma PutKeepsTree(t: Tree, p: Path, data: Bytes)
    requires WellFormed(t) && GoodPath(p) && |p| >= 2 && CanPut(t, p)
    ensures WellFormed(PutTree(t, p, data))
    ensures Files(PutTree(t, p, data)) == Files(t)[p := data]
    ensures NoEmptyDirs(t) ==> NoEmptyDirs(PutTree(t, p, data))
  {
    var made := Mkdirs(t, Parent(p));
    MkdirsKeeps(t, Parent(p));
    MkdirsNodes(t, Parent(p), p);
    AddNode(made, p, File(data));
    if NoEmptyDirs(t) { AddedIsOnlyEmpty(made, p, File(data)); }
  }

  lemma {:induction false} PruneRestores(t: Tree, d: Path)
    requires WellFormed(t) && d != []
    ensures WellFormed(Prune(t, d)) && Files(Prune(t, d)) == Files(t)
    ensures OnlyEmpty(t, d) ==> NoEmptyDirs(Prune(t, d))
    decreases |d|
  {
    if !(|d| <= 1 || !IsDir(t, d) || HasChild(t, d)) {
      RemoveNode(t, d);
      assert Files(t) - {d} == Files(t);
      PruneRestores(t - {d}, Parent(d));
    }
  }

  /** The clean-up removes directories on the way up and nothing else; it never reaches the bucket. */
  lemma {:induction false} PruneOnlyAncestors(t: Tree, d: Path, q: Path)
    requires d != []
    ensures q in t && q !in Prune(t, d) ==> IsDir(t, q) && |q| >= 2 && q <= d
    ensures q in Prune(t, d) ==> q in t && Prune(t, d)[q] == t[q]
    decreases |d|
  {
    if !(|d| <= 1 || !IsDir(t, d) || HasChild(t, d)) {
      PruneOnlyAncestors(t - {d}, Parent(d), q);
    }
  }

  lemma DeleteKeepsTree(t: Tree, p: Path)
    requires WellFormed(t) && IsFile(t, p)
    ensures p != []
    ensures WellFormed(DeleteTree(t, p))
    ensures Files(DeleteTree(t, p)) == Files(t) - {p}
    ensures NoEmptyDirs(t) ==> NoEmptyDirs(DeleteTree(t, p))
  {
    FileHasNoChild(t, p);
    RemoveNode(t, p);
    PruneRestores(t - {p}, Parent(p));
  }

  // ---------------------------------------------------------------- runs of operations

  datatype TreeOp = Put(bucket: string, key: string, data: Bytes) | Delete(bucket: string, key: string)

  ghost predicate TreeOpFits(t: Tree, op: TreeOp) {
    && GoodName(op.bucket) && CanonicalKey(op.key)
    && match op
       case Put(b, k, _) => CanPut(t, ObjPath(b, k))
       case Delete(b, k) => IsFile(t, ObjPath(b, k))
  }

  ghost function ApplyToTree(t: Tree, op: TreeOp): Tree {
    match op
    case Put(b, k, data) => PutTree(t, ObjPath(b, k), data)
    case Delete(b, k) => DeleteTree(t, ObjPath(b, k))
  }

  function ApplyToObjects(m: map<Path, Bytes>, op: TreeOp): map<Path, Bytes> {
    match op
    case Put(b, k, data) => m[ObjPath(b, k) := data]
    case Delete(b, k) => m - {ObjPath(b, k)}
  }

  ghost predicate TreeRunFits(t: Tree, ops: seq<TreeOp>)
    decreases |ops|
  {
    ops == [] || (TreeOpFits(t, ops[0]) && TreeRunFits(ApplyToTree(t, ops[0]), ops[1..]))
  }

  ghost function RunTree(t: Tree, ops: seq<TreeOp>): Tree
    decreases |ops|
  {
    if ops == [] then t else RunTree(ApplyToTree(t, ops[0]), ops[1..])
  }

  function RunObjects(m: map<Path, Bytes>, ops: seq<TreeOp>): map<Path, Bytes>
    decreases |ops|
  {
    if ops == [] then m else RunObjects(ApplyToObjects(m, ops[0]), ops[1..])
  }

  /**
   * Over every run of successful plain Puts and Deletes the tree stays well-formed and free of empty
   * directories, and its files are exactly what a plain map from names to contents would hold.
   */
  lemma {:induction false} RunKeepsTree(t: Tree, ops: seq<TreeOp>)
    requires WellFormed(t) && NoEmptyDirs(t) && TreeRunFits(t, ops)
    ensures WellFormed(RunTree(t, ops)) && NoEmptyDirs(RunTree(t, ops))
    ensures Files(RunTree(t, ops)) == RunObjects(Files(t), ops)
    decreases |ops|
  {
    if ops != [] {
      StepKeepsTree(t, ops[0]);
      RunKeepsTree(ApplyToTree(t, ops[0]), ops[1..]);
    }
  }

  lemma StepKeepsTree(t: Tree, op: TreeOp)
    requires WellFormed(t) && NoEmptyDirs(t) && TreeOpFits(t, op)
    ensures WellFormed(ApplyToTree(t, op)) && NoEmptyDirs(ApplyToTree(t, op))
    ensures Files(ApplyToTree(t, op)) == ApplyToObjects(Files(t), op)
  {
    var p := ObjPath(op.bucket, op.key);
    assert GoodPath(p) && |p| >= 2;
    match op
    case Put(_, _, data) => PutKeepsTree(t, p, data);
    case Delete(_, _) => DeleteKeepsTree(t, p);
  }
}
