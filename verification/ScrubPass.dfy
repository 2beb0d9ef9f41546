/**
 * One scrub pass as it runs (pkg/repair/scrubber.go, scanAll): a producer walks the directory tree and
 * sends a job for every manifest file through a bounded channel, N workers verify what they receive, and
 * repairs of the items they submit happen in between. Every interleaving visits each manifest once.
 */
module ScrubPass {
  import opened Strings
  import opened Encoding
  import opened FileTree
  import opened Manifests
  import opened SealedStore
  import Scrubber
  import Rewriter
  import SelfHealing

  const CHANNEL_SIZE := 1024

  // ---------------------------------------------------------------- from files to jobs

  /** The job the producer sends for a file of the tree below objects/, if any. */
  function JobAt(p: Path): Option<ObjId>
    requires p != []
  {
    if Base(p) == MANIFEST_NAME then Scrubber.JobOf("objects/" + Join(p, '/')) else None
  }

  /** Below the bucket level a manifest file stands for the object whose directory it is in. */
  lemma JobAtManifest(p: Path)
    requires GoodPath(p) && |p| >= 2 && Base(p) == MANIFEST_NAME
    ensures JobAt(p) == if |p| == 2 then None else Some(ObjId(p[0], Join(p[1..|p| - 1], '/')))
  {
    JoinConcat(Parent(p), [MANIFEST_NAME], '/');
    assert p == Parent(p) + [MANIFEST_NAME];
    if |p| == 2 {
      assert Parent(p) == [p[0]];
      NoJobInBucket(p[0]);
    } else {
      var id := ObjId(p[0], Join(p[1..|p| - 1], '/'));
      JoinConcat([p[0]], p[1..|p| - 1], '/');
      assert Parent(p) == [p[0]] + p[1..|p| - 1];
      assert "objects/" + Join(p, '/') == Scrubber.ManifestPath(id);
      Scrubber.JobOfManifestPath(id);
    }
  }

  /** A manifest file directly in a bucket names no key. */
  lemma NoJobInBucket(bucket: string)
    requires Lacks(bucket, '/')
    ensures Scrubber.JobOf("objects/" + (bucket + ['/'] + MANIFEST_NAME)) == None
  {
    var dir := "objects/" + bucket;
    assert "objects/" + (bucket + ['/'] + MANIFEST_NAME) == dir + ['/'] + MANIFEST_NAME;
    Scrubber.DirOfChild(dir, MANIFEST_NAME);
    assert dir[8..] == bucket;
    SplitLacking(bucket, '/');
  }

  /** Different files never yield the same job. */
  lemma JobsDiffer(p: Path, p': Path)
    requires GoodPath(p) && GoodPath(p') && |p| >= 2 && |p'| >= 2 && JobAt(p).Some? && JobAt(p) == JobAt(p')
    ensures p == p'
  {
    JobAtManifest(p);
    JobAtManifest(p');
    SameJoin(p[1..|p| - 1], p'[1..|p'| - 1]);
    Reassembled(p);
    Reassembled(p');
  }

  lemma SameJoin(a: seq<string>, b: seq<string>)
    requires a != [] && b != [] && Join(a, '/') == Join(b, '/')
    requires (forall i :: 0 <= i < |a| ==> Lacks(a[i], '/')) && (forall i :: 0 <= i < |b| ==> Lacks(b[i], '/'))
    ensures a == b
  {
    SplitJoin(a, '/');
    SplitJoin(b, '/');
  }

  lemma Reassembled(p: Path)
    requires |p| >= 2
    ensures p == [p[0]] + p[1..|p| - 1] + [Base(p)]
  {
  }

  /** The nodes at or below some path of a set. */
  ghost function Covered(t: Tree, front: set<Path>): set<Path> {
    set q | q in t && exists p :: p in front && p <= q
  }

  /** Paths of the tree, none at or below another. */
  ghost predicate Apart(t: Tree, front: set<Path>) {
    && (forall p :: p in front ==> p in t)
    && forall p, p' :: p in front && p' in front && p != p' ==> !(p <= p')
  }

  ghost predicate YieldsJob(t: Tree, p: Path, id: ObjId) {
    IsFile(t, p) && p != [] && JobAt(p) == Some(id)
  }

  /** The jobs still to come from the nodes at or below a set of paths. */
  ghost predicate Ahead(t: Tree, front: set<Path>, id: ObjId) {
    exists p :: p in Covered(t, front) && YieldsJob(t, p, id)
  }

  ghost function Kids(t: Tree, d: Path): set<Path> {
    set c | c in t && IsChild(t, d, c)
  }

  ghost function Buckets(t: Tree): set<Path> {
    set p | p in t && |p| == 1
  }

  // ---------------------------------------------------------------- the pass

  datatype Worker = Idle | Holding(id: ObjId) | Exited

  /** The producer's open directories and blocked send, the channel, the workers, and what they did. */
  datatype Pass = Pass(front: set<Path>, sending: Option<ObjId>, jobs: seq<ObjId>, closed: bool, workers: seq<Worker>,
                       verified: seq<ObjId>, disk: DiskState, pending: multiset<RepairItem>, submitted: seq<RepairItem>)

  datatype Step =
    | Visit(p: Path)            // the walk function is called on a node
    | SendJob                   // the channel takes the job
    | CloseJobs                 // the walk is over
    | Receive(w: nat)
    | Verify(w: nat)            // verifyObject
    | Leave(w: nat)             // the range over the closed channel ends
    | Repair(item: RepairItem)  // a repair worker, between two steps of the pass

  ghost predicate Enabled(t: Tree, s: Pass, a: Step) {
    match a
    case Visit(p) => p in s.front && p in t && p != [] && s.sending.None?
    case SendJob => s.sending.Some? && |s.jobs| < CHANNEL_SIZE
    case CloseJobs => s.front == {} && s.sending.None? && !s.closed
    case Receive(w) => w < |s.workers| && s.workers[w].Idle? && s.jobs != []
    case Verify(w) => w < |s.workers| && s.workers[w].Holding?
    case Leave(w) => w < |s.workers| && s.workers[w].Idle? && s.closed && s.jobs == []
    case Repair(item) => item in s.pending
  }

  ghost function After(hs: Hashes, t: Tree, s: Pass, a: Step): Pass
    requires Enabled(t, s, a)
  {
    match a
    case Visit(p) =>
      if t[p].Directory? then s.(front := s.front - {p} + Kids(t, p))
      else s.(front := s.front - {p}, sending := JobAt(p))
    case SendJob => s.(sending := None, jobs := s.jobs + [s.sending.value])
    case CloseJobs => s.(closed := true)
    case Receive(w) => s.(workers := s.workers[w := Holding(s.jobs[0])], jobs := s.jobs[1..])
    case Verify(w) =>
      var id := s.workers[w].id;
      var items := Scrubber.ScrubItems(hs, s.disk, id, true);
      s.(workers := s.workers[w := Idle], verified := s.verified + [id],
         pending := s.pending + multiset(items), submitted := s.submitted + items)
    case Leave(w) => s.(workers := s.workers[w := Exited])
    case Repair(item) => s.(disk := Rewriter.AfterRepair(hs, s.disk, item), pending := s.pending - multiset{item})
  }

  ghost predicate CanRun(hs: Hashes, t: Tree, s: Pass, run: seq<Step>)
    decreases |run|
  {
    run == [] || (Enabled(t, s, run[0]) && CanRun(hs, t, After(hs, t, s, run[0]), run[1..]))
  }

  ghost function Exec(hs: Hashes, t: Tree, s: Pass, run: seq<Step>): Pass
    requires CanRun(hs, t, s, run)
    decreases |run|
  {
    if run == [] then s else Exec(hs, t, After(hs, t, s, run[0]), run[1..])
  }

  /** The start of a pass with any number of workers. */
  ghost predicate Start(t: Tree, s: Pass) {
    && s.front == Buckets(t) && s.sending.None? && s.jobs == [] && !s.closed
    && (forall w :: 0 <= w < |s.workers| ==> s.workers[w] == Idle)
    && s.verified == [] && s.pending == multiset{} && s.submitted == []
  }

  /** scanAll has returned and every submitted item has been repaired. */
  ghost predicate Over(s: Pass) {
    && s.workers != [] && (forall w :: 0 <= w < |s.workers| ==> s.workers[w] == Exited)
    && s.pending == multiset{}
  }

  // ---------------------------------------------------------------- each manifest is in one place

  function Holders(ws: seq<Worker>, id: ObjId): nat {
    if ws == [] then 0 else (if ws[0] == Holding(id) then 1 else 0) + Holders(ws[1..], id)
  }

  lemma {:induction false} HoldersMove(ws: seq<Worker>, w: nat, to: Worker, id: ObjId)
    requires w < |ws|
    ensures Holders(ws[w := to], id) + (if ws[w] == Holding(id) then 1 else 0)
         == Holders(ws, id) + (if to == Holding(id) then 1 else 0)
  {
    if w == 0 {
      assert ws[0 := to][1..] == ws[1..];
    } else {
      assert ws[w := to][1..] == ws[1..][w - 1 := to];
      HoldersMove(ws[1..], w - 1, to, id);
    }
  }

  lemma {:induction false} NoHolders(ws: seq<Worker>, id: ObjId)
    requires forall w :: 0 <= w < |ws| ==> !ws[w].Holding?
    ensures Holders(ws, id) == 0
  {
    if ws != [] { NoHolders(ws[1..], id); }
  }

  /** In how many places a job is: not yet reached, being sent, in the channel, with a worker, or verified. */
  ghost function Places(t: Tree, s: Pass, id: ObjId): nat {
    (if Ahead(t, s.front, id) then 1 else 0) + (if s.sending == Some(id) then 1 else 0)
    + multiset(s.jobs)[id] + Holders(s.workers, id) + multiset(s.verified)[id]
  }

  /** Every manifest of the tree is in exactly one place, and nothing else is anywhere. */
  ghost predicate OnePlaceEach(t: Tree, s: Pass) {
    && Apart(t, s.front)
    && (forall id :: Places(t, s, id) == if Ahead(t, Buckets(t), id) then 1 else 0)
    && (s.closed ==> s.front == {} && s.sending.None?)
    && (forall w :: 0 <= w < |s.workers| && s.workers[w].Exited? ==> s.closed && s.jobs == [])
  }

  lemma StartOnePlace(t: Tree, s: Pass)
    requires WellFormed(t) && Start(t, s)
    ensures OnePlaceEach(t, s)
  {
    forall id ensures Places(t, s, id) == if Ahead(t, Buckets(t), id) then 1 else 0 {
      NoHolders(s.workers, id);
    }
  }

  lemma KidsApart(t: Tree, front: set<Path>, d: Path)
    requires Apart(t, front) && d in front && d != []
    ensures Apart(t, front - {d} + Kids(t, d))
  {
    var next := front - {d} + Kids(t, d);
    forall p, p' | p in next && p' in next && p != p' ensures !(p <= p') {
      assert p in Kids(t, d) ==> d < p;
      assert p' in Kids(t, d) && p <= p' ==> p <= d;
    }
  }

  /** Entering a directory uncovers the directory itself and nothing else. */
  lemma EnterDirectory(t: Tree, front: set<Path>, d: Path)
    requires WellFormed(t) && Apart(t, front) && d in front && IsDir(t, d) && d != []
    ensures Apart(t, front - {d} + Kids(t, d))
    ensures Covered(t, front - {d} + Kids(t, d)) == Covered(t, front) - {d}
  {
    KidsApart(t, front, d);
    forall q | q in t ensures q in Covered(t, front - {d} + Kids(t, d)) <==> q in Covered(t, front) && q != d {
      CoverAfterEntering(t, front, d, q);
    }
  }

  lemma CoverAfterEntering(t: Tree, front: set<Path>, d: Path, q: Path)
    requires WellFormed(t) && Apart(t, front) && d in front && IsDir(t, d) && d != [] && q in t
    ensures q in Covered(t, front - {d} + Kids(t, d)) <==> q in Covered(t, front) && q != d
  {
    var next := front - {d} + Kids(t, d);
    if q in Covered(t, next) {
      var p :| p in next && p <= q;
      if p in Kids(t, d) { assert d < q; } else { assert p in front; }
    }
    if q in Covered(t, front) && q != d {
      var p :| p in front && p <= q;
      if p == d {
        var c := q[..|d| + 1];
        if c != q { AncestorIsDir(t, c, q); }
        assert c in Kids(t, d);
      } else {
        assert p in next;
      }
    }
  }

  lemma LeaveFile(t: Tree, front: set<Path>, p: Path)
    requires WellFormed(t) && Apart(t, front) && p in front && IsFile(t, p)
    ensures Apart(t, front - {p})
    ensures Covered(t, front - {p}) == Covered(t, front) - {p}
  {
    forall q | q in t ensures q in Covered(t, front - {p}) <==> q in Covered(t, front) && q != p {
      if q in Covered(t, front) && q != p {
        var f :| f in front && f <= q;
        NothingBelowFile(t, p, q);
        assert f in front - {p};
      }
      if q in Covered(t, front - {p}) {
        var f :| f in front - {p} && f <= q;
        assert f in front && p in front && f != p && !(f <= p);
      }
    }
  }

  lemma NothingBelowFile(t: Tree, p: Path, q: Path)
    requires WellFormed(t) && IsFile(t, p) && q in t && p != q
    ensures !(p <= q)
  {
    FileHasNoChild(t, p);
    if p <= q { AncestorIsDir(t, p, q); }
  }

  lemma VisitedFile(t: Tree, front: set<Path>, p: Path, id: ObjId)
    requires WellFormed(t) && Apart(t, front) && p in front && IsFile(t, p) && |p| >= 2
    ensures JobAt(p) == Some(id) ==> Ahead(t, front, id) && !Ahead(t, front - {p}, id)
    ensures JobAt(p) != Some(id) ==> (Ahead(t, front, id) <==> Ahead(t, front - {p}, id))
  {
    LeaveFile(t, front, p);
    assert Placed(t, p) && p in Covered(t, front);
    if JobAt(p) == Some(id) {
      assert YieldsJob(t, p, id);
      forall q | q in Covered(t, front - {p}) ensures !YieldsJob(t, q, id) {
        assert Placed(t, q);
        if YieldsJob(t, q, id) {
          FileHasNoChild(t, q);
          JobsDiffer(p, q);
        }
      }
    } else if q :| q in Covered(t, front) && YieldsJob(t, q, id) {
      assert q in Covered(t, front - {p});
    }
  }

  lemma VisitKeepsPlaces(hs: Hashes, t: Tree, s: Pass, p: Path)
    requires WellFormed(t) && OnePlaceEach(t, s) && Enabled(t, s, Visit(p))
    ensures OnePlaceEach(t, After(hs, t, s, Visit(p)))
  {
    var s' := After(hs, t, s, Visit(p));
    if t[p].Directory? {
      EnterDirectory(t, s.front, p);
      forall id ensures Ahead(t, s'.front, id) <==> Ahead(t, s.front, id) {
        if q :| q in Covered(t, s.front) && YieldsJob(t, q, id) { assert q in Covered(t, s'.front); }
      }
      forall id ensures Places(t, s', id) == Places(t, s, id) {
      }
    } else {
      FileHasNoChild(t, p);
      LeaveFile(t, s.front, p);
      forall id ensures Places(t, s', id) == Places(t, s, id) {
        VisitedFile(t, s.front, p, id);
      }
    }
  }

  lemma CountMove(jobs: seq<ObjId>, id: ObjId)
    requires jobs != []
    ensures multiset(jobs)[id] == multiset(jobs[1..])[id] + (if jobs[0] == id then 1 else 0)
  {
    assert jobs == [jobs[0]] + jobs[1..];
  }

  lemma CountAppend(s: seq<ObjId>, x: ObjId, id: ObjId)
    ensures multiset(s + [x])[id] == multiset(s)[id] + (if x == id then 1 else 0)
  {
  }

  lemma ReceiveMoves(jobs: seq<ObjId>, ws: seq<Worker>, w: nat, id: ObjId)
    requires jobs != [] && w < |ws| && ws[w].Idle?
    ensures multiset(jobs[1..])[id] + Holders(ws[w := Holding(jobs[0])], id) == multiset(jobs)[id] + Holders(ws, id)
  {
    CountMove(jobs, id);
    HoldersMove(ws, w, Holding(jobs[0]), id);
  }

  lemma VerifyMoves(ws: seq<Worker>, verified: seq<ObjId>, w: nat, id: ObjId)
    requires w < |ws| && ws[w].Holding?
    ensures Holders(ws[w := Idle], id) + multiset(verified + [ws[w].id])[id] == Holders(ws, id) + multiset(verified)[id]
  {
    CountAppend(verified, ws[w].id, id);
    HoldersMove(ws, w, Idle, id);
  }

  /** Steps behind the walk only hand a job on. */
  lemma HandedOn(hs: Hashes, t: Tree, s: Pass, a: Step, id: ObjId)
    requires Enabled(t, s, a) && !a.Visit?
    ensures Places(t, After(hs, t, s, a), id) == Places(t, s, id)
  {
    match a
    case SendJob => CountAppend(s.jobs, s.sending.value, id);
    case Receive(w) => ReceiveMoves(s.jobs, s.workers, w, id);
    case Verify(w) => VerifyMoves(s.workers, s.verified, w, id);
    case Leave(w) => HoldersMove(s.workers, w, Exited, id);
    case _ =>
  }

  lemma StepKeepsPlaces(hs: Hashes, t: Tree, s: Pass, a: Step)
    requires WellFormed(t) && OnePlaceEach(t, s) && Enabled(t, s, a)
    ensures OnePlaceEach(t, After(hs, t, s, a))
  {
    if a.Visit? {
      VisitKeepsPlaces(hs, t, s, a.p);
    } else {
      forall id ensures Places(t, After(hs, t, s, a), id) == Places(t, s, id) {
        HandedOn(hs, t, s, a, id);
      }
    }
  }

  lemma {:induction false} RunKeepsPlaces(hs: Hashes, t: Tree, s: Pass, run: seq<Step>)
    requires WellFormed(t) && OnePlaceEach(t, s) && CanRun(hs, t, s, run)
    ensures OnePlaceEach(t, Exec(hs, t, s, run))
    decreases |run|
  {
    if run != [] {
      StepKeepsPlaces(hs, t, s, run[0]);
      RunKeepsPlaces(hs, t, After(hs, t, s, run[0]), run[1..]);
    }
  }

  /**
   * For any tree, disk, number of workers and interleaving, repairs included: no manifest is ever verified
   * twice, and when the pass is over each has been verified exactly once and nothing else was.
   */
  lemma EachManifestOnce(hs: Hashes, t: Tree, s0: Pass, run: seq<Step>)
    requires WellFormed(t) && Start(t, s0) && CanRun(hs, t, s0, run)
    ensures var s := Exec(hs, t, s0, run);
            && (forall id :: multiset(s.verified)[id] <= if Ahead(t, Buckets(t), id) then 1 else 0)
            && (Over(s) ==> forall id :: multiset(s.verified)[id] == if Ahead(t, Buckets(t), id) then 1 else 0)
  {
    StartOnePlace(t, s0);
    RunKeepsPlaces(hs, t, s0, run);
    var s := Exec(hs, t, s0, run);
    forall id ensures multiset(s.verified)[id] <= Places(t, s, id) {
    }
    if Over(s) {
      assert s.workers[0].Exited?;
      forall id ensures multiset(s.verified)[id] == Places(t, s, id) {
        NoHolders(s.workers, id);
      }
    }
  }

  // ---------------------------------------------------------------- the pass heals

  /** The manifests on disk are the manifest files of the tree. */
  ghost predicate Stored(t: Tree, d: DiskState) {
    forall id :: id in d.manifests <==> Ahead(t, Buckets(t), id)
  }

  /** The pass as the healing model sees it: what has not been verified yet is still to be scanned. */
  ghost function Seen(d0: DiskState, s: Pass): SelfHealing.State {
    SelfHealing.State(s.disk, (set id | id in d0.manifests && id !in s.verified), s.pending, s.submitted)
  }

  lemma VerifyIsScan(hs: Hashes, t: Tree, d0: DiskState, s: Pass, w: nat)
    requires WellFormed(t) && Stored(t, d0) && OnePlaceEach(t, s) && Enabled(t, s, Verify(w))
    ensures SelfHealing.ScanStep(hs, Seen(d0, s), Seen(d0, After(hs, t, s, Verify(w))), s.workers[w].id)
  {
    var id := s.workers[w].id;
    HeldIsNew(t, d0, s, w);
    OneLess(d0.manifests.Keys, s.verified, id);
  }

  /** What a worker holds is a manifest of the disk that has not been verified yet. */
  lemma HeldIsNew(t: Tree, d0: DiskState, s: Pass, w: nat)
    requires Stored(t, d0) && OnePlaceEach(t, s) && w < |s.workers| && s.workers[w].Holding?
    ensures s.workers[w].id in d0.manifests && s.workers[w].id !in s.verified
  {
    var id := s.workers[w].id;
    HoldersMove(s.workers, w, Idle, id);
    assert Places(t, s, id) >= 1 + multiset(s.verified)[id];
    assert id in s.verified ==> id in multiset(s.verified);
  }

  lemma OneLess(keys: set<ObjId>, verified: seq<ObjId>, id: ObjId)
    ensures (set x | x in keys && x !in verified + [id]) == (set x | x in keys && x !in verified) - {id}
  {
  }

  lemma StepHeals(hs: Hashes, t: Tree, d0: DiskState, s: Pass, a: Step)
    requires WellFormed(t) && Stored(t, d0) && OnePlaceEach(t, s) && Enabled(t, s, a)
    requires SelfHealing.Healable(hs, d0) && SelfHealing.Inv(hs, d0, Seen(d0, s))
    ensures SelfHealing.Inv(hs, d0, Seen(d0, After(hs, t, s, a)))
  {
    var s' := After(hs, t, s, a);
    match a
    case Verify(w) =>
      VerifyIsScan(hs, t, d0, s, w);
      SelfHealing.ScanKeepsInv(hs, d0, Seen(d0, s), Seen(d0, s'), s.workers[w].id);
    case Repair(item) =>
      assert SelfHealing.RepairStep(hs, Seen(d0, s), Seen(d0, s'), item);
      SelfHealing.RepairKeepsInv(hs, d0, Seen(d0, s), Seen(d0, s'), item);
    case _ =>
      assert Seen(d0, s') == Seen(d0, s);
  }

  lemma {:induction false} RunHeals(hs: Hashes, t: Tree, d0: DiskState, s: Pass, run: seq<Step>)
    requires WellFormed(t) && Stored(t, d0) && OnePlaceEach(t, s) && CanRun(hs, t, s, run)
    requires SelfHealing.Healable(hs, d0) && SelfHealing.Inv(hs, d0, Seen(d0, s))
    ensures SelfHealing.Inv(hs, d0, Seen(d0, Exec(hs, t, s, run)))
    decreases |run|
  {
    if run != [] {
      StepKeepsPlaces(hs, t, s, run[0]);
      StepHeals(hs, t, d0, s, run[0]);
      RunHeals(hs, t, d0, After(hs, t, s, run[0]), run[1..]);
    }
  }

  lemma StartSeen(hs: Hashes, t: Tree, s: Pass)
    requires Start(t, s)
    ensures SelfHealing.Run(hs, [Seen(s.disk, s)]) && SelfHealing.Start(Seen(s.disk, s))
  {
    assert Seen(s.disk, s).unscanned == s.disk.manifests.Keys;
  }

  /**
   * A pass over a healable disk, with any number of workers and with repairs interleaved in any way,
   * ends with exactly the damaged objects submitted, once each, every object readable with its payload,
   * and nothing left for the next scrub to find.
   */
  lemma PassHeals(hs: Hashes, t: Tree, s0: Pass, run: seq<Step>)
    requires WellFormed(t) && Start(t, s0) && Stored(t, s0.disk) && SelfHealing.Healable(hs, s0.disk)
    requires CanRun(hs, t, s0, run) && Over(Exec(hs, t, s0, run))
    ensures SelfHealing.Healed(hs, s0.disk, Seen(s0.disk, Exec(hs, t, s0, run)))
  {
    var d0, s := s0.disk, Exec(hs, t, s0, run);
    StartSeen(hs, t, s0);
    SelfHealing.RunKeepsInv(hs, d0, [Seen(d0, s0)]);
    StartOnePlace(t, s0);
    RunHeals(hs, t, d0, s0, run);
    EachManifestOnce(hs, t, s0, run);
    forall id | id in d0.manifests ensures id in s.verified {
      assert id in multiset(s.verified);
    }
    assert Seen(d0, s).unscanned == {};
    SelfHealing.FinishedHeals(hs, d0, Seen(d0, s));
  }

  // ---------------------------------------------------------------- the pass ends

  /** A pass with at least one worker is never stuck: until it is over some step is possible. */
  lemma Progress(t: Tree, s: Pass)
    requires WellFormed(t) && OnePlaceEach(t, s) && s.workers != [] && !Over(s)
    ensures exists a :: Enabled(t, s, a)
  {
    if item :| item in s.pending {
      assert Enabled(t, s, Repair(item));
    } else {
      assert s.pending == multiset{};
      var w :| 0 <= w < |s.workers| && s.workers[w] != Exited;
      if s.workers[w].Holding? {
        assert Enabled(t, s, Verify(w));
      } else if s.jobs != [] {
        assert Enabled(t, s, Receive(w));
      } else if s.closed {
        assert Enabled(t, s, Leave(w));
      } else if s.sending.Some? {
        assert Enabled(t, s, SendJob);
      } else if p :| p in s.front {
        assert Placed(t, p);
        assert Enabled(t, s, Visit(p));
      } else {
        assert s.front == {};
        assert Enabled(t, s, CloseJobs);
      }
    }
  }

  function Load(w: Worker): nat {
    match w
    case Idle => 1
    case Holding(_) => 3
    case Exited => 0
  }

  function Loads(ws: seq<Worker>): nat {
    if ws == [] then 0 else Load(ws[0]) + Loads(ws[1..])
  }

  lemma {:induction false} LoadMove(ws: seq<Worker>, w: nat, to: Worker)
    requires w < |ws|
    ensures Loads(ws[w := to]) + Load(ws[w]) == Loads(ws) + Load(to)
  {
    if w == 0 {
      assert ws[0 := to][1..] == ws[1..];
    } else {
      assert ws[w := to][1..] == ws[1..][w - 1 := to];
      LoadMove(ws[1..], w - 1, to);
    }
  }

  /** The work left in the pass, weighted by how far each job still has to go. */
  ghost function Work(t: Tree, s: Pass): nat {
    5 * |Covered(t, s.front)| + (if s.sending.Some? then 4 else 0) + 3 * |s.jobs|
    + (if s.closed then 0 else 1) + Loads(s.workers) + |s.pending|
  }

  lemma SmallerCover(t: Tree, front: set<Path>, front': set<Path>, p: Path)
    requires p in t && p in front && Covered(t, front') == Covered(t, front) - {p}
    ensures |Covered(t, front')| == |Covered(t, front)| - 1
  {
    assert p in Covered(t, front);
  }

  lemma ItemsOfOne(hs: Hashes, t: Tree, d0: DiskState, s: Pass, w: nat)
    requires WellFormed(t) && Stored(t, d0) && OnePlaceEach(t, s) && Enabled(t, s, Verify(w))
    requires SelfHealing.Healable(hs, d0) && SelfHealing.Inv(hs, d0, Seen(d0, s))
    ensures |Scrubber.ScrubItems(hs, s.disk, s.workers[w].id, true)| <= 1
  {
    var id := s.workers[w].id;
    VerifyIsScan(hs, t, d0, s, w);
    assert SelfHealing.ObjectInv(hs, d0, Seen(d0, s), id, !SelfHealing.IntactObject(hs, d0, id));
    SelfHealing.OnlyOwnFiles(hs, d0, s.disk, id);
    SelfHealing.ScrubOne(hs, s.disk, id);
  }

  lemma StepUsesWork(hs: Hashes, t: Tree, s: Pass, a: Step)
    requires WellFormed(t) && OnePlaceEach(t, s) && Enabled(t, s, a)
    requires a.Verify? ==> |Scrubber.ScrubItems(hs, s.disk, s.workers[a.w].id, true)| <= 1
    ensures Work(t, After(hs, t, s, a)) < Work(t, s)
  {
    match a
    case Visit(p) =>
      if t[p].Directory? { EnterDirectory(t, s.front, p); } else { LeaveFile(t, s.front, p); }
      SmallerCover(t, s.front, After(hs, t, s, a).front, p);
    case Receive(w) => LoadMove(s.workers, w, Holding(s.jobs[0]));
    case Verify(w) =>
      var items := Scrubber.ScrubItems(hs, s.disk, s.workers[w].id, true);
      assert |s.pending + multiset(items)| == |s.pending| + |items|;
      LoadMove(s.workers, w, Idle);
    case Leave(w) => LoadMove(s.workers, w, Exited);
    case _ =>
  }

  lemma {:induction false} RunUsesWork(hs: Hashes, t: Tree, d0: DiskState, s: Pass, run: seq<Step>)
    requires WellFormed(t) && Stored(t, d0) && OnePlaceEach(t, s) && CanRun(hs, t, s, run)
    requires SelfHealing.Healable(hs, d0) && SelfHealing.Inv(hs, d0, Seen(d0, s))
    ensures |run| + Work(t, Exec(hs, t, s, run)) <= Work(t, s)
    decreases |run|
  {
    if run != [] {
      var a := run[0];
      if a.Verify? { ItemsOfOne(hs, t, d0, s, a.w); }
      StepUsesWork(hs, t, s, a);
      StepKeepsPlaces(hs, t, s, a);
      StepHeals(hs, t, d0, s, a);
      RunUsesWork(hs, t, d0, After(hs, t, s, a), run[1..]);
    }
  }

  lemma {:induction false} IdleLoads(ws: seq<Worker>)
    requires forall w :: 0 <= w < |ws| ==> ws[w] == Idle
    ensures Loads(ws) == |ws|
  {
    if ws != [] { IdleLoads(ws[1..]); }
  }

  /** No pass goes on for ever: with its repairs it takes at most five steps per node of the tree, and one per worker and one more. */
  lemma PassEnds(hs: Hashes, t: Tree, s0: Pass, run: seq<Step>)
    requires WellFormed(t) && Start(t, s0) && Stored(t, s0.disk) && SelfHealing.Healable(hs, s0.disk)
    requires CanRun(hs, t, s0, run)
    ensures |run| <= 5 * |t| + |s0.workers| + 1
  {
    StartSeen(hs, t, s0);
    SelfHealing.RunKeepsInv(hs, s0.disk, [Seen(s0.disk, s0)]);
    StartOnePlace(t, s0);
    RunUsesWork(hs, t, s0.disk, s0, run);
    IdleLoads(s0.workers);
    forall q | q in t ensures q in Covered(t, Buckets(t)) {
      assert Placed(t, q);
      var b := q[..1];
      if b != q { AncestorIsDir(t, b, q); }
      assert b in Buckets(t) && b <= q;
    }
    assert Covered(t, Buckets(t)) == t.Keys;
    assert |t.Keys| == |t|;
  }
}
