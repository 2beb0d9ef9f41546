/**
 * Detect, enqueue, repair: one scrub pass (any number of scrub workers) interleaved with any number
 * of repair workers. A step is one object verified or one queued item repaired, in any order.
 */
module SelfHealing {
  import opened Strings
  import opened Encoding
  import opened Manifests
  import opened SealedStore
  import Scrubber
  import Rewriter

  datatype State = State(disk: DiskState, unscanned: set<ObjId>, pending: multiset<RepairItem>, submitted: seq<RepairItem>)

  function ItemOf(id: ObjId): RepairItem {
    RepairItem(id.bucket, id.key, ShardPath(id), "scrub_fail")
  }

  ghost predicate ScanStep(hs: Hashes, s: State, s': State, id: ObjId) {
    var items := Scrubber.ScrubItems(hs, s.disk, id, true);
    && id in s.unscanned
    && s' == s.(unscanned := s.unscanned - {id}, pending := s.pending + multiset(items), submitted := s.submitted + items)
  }

  ghost predicate RepairStep(hs: Hashes, s: State, s': State, item: RepairItem) {
    && item in s.pending
    && s' == s.(disk := Rewriter.AfterRepair(hs, s.disk, item), pending := s.pending - multiset{item})
  }

  ghost predicate Step(hs: Hashes, s: State, s': State) {
    || (exists id :: ScanStep(hs, s, s', id))
    || (exists item :: RepairStep(hs, s, s', item))
  }

  ghost predicate Run(hs: Hashes, run: seq<State>) {
    && run != []
    && forall i :: 0 <= i < |run| - 1 ==> Step(hs, run[i], run[i + 1])
  }

  ghost predicate Start(s: State) {
    s.unscanned == s.disk.manifests.Keys && s.pending == multiset{} && s.submitted == []
  }

  ghost predicate Finished(s: State) {
    s.unscanned == {} && s.pending == multiset{}
  }

  // ---------------------------------------------------------------- which disks heal

  ghost predicate IntactObject(hs: Hashes, d: DiskState, id: ObjId) {
    GetAt(hs, d, id, true).Got?
  }

  /** A single-shard object stored under its own path. */
  ghost predicate SingleShard(d: DiskState, id: ObjId) {
    && Lacks(id.bucket, '/')
    && LoadManifest(d, id).Loaded?
    && |LoadManifest(d, id).m.shards| == 1
    && LoadManifest(d, id).m.shards[0].path == ShardPath(id)
  }

  /** The payload bytes are in place and full length, whatever happened to the rest of the file. */
  ghost predicate Recoverable(hs: Hashes, d: DiskState, id: ObjId) {
    var p := Rewriter.PlanFor(hs, d, ItemOf(id));
    p.Rewrite? && |p.payload| < 0x8000_0000_0000_0000 - 64
  }

  ghost predicate Healable(hs: Hashes, d: DiskState) {
    forall id :: id in d.manifests ==> SingleShard(d, id) && (IntactObject(hs, d, id) || Recoverable(hs, d, id))
  }

  /** Whatever happened to header and footer: while the payload bytes of a non-empty object are in place, it is recoverable. */
  lemma DamageAroundPayload(hs: Hashes, d: DiskState, id: ObjId, head: Bytes, payload: Bytes, foot: Bytes)
    requires Lacks(id.bucket, '/') && id.bucket != "" && id.key != ""
    requires |head| == 28 && 0 < |payload| < 0x8000_0000_0000_0000 - 64 && |foot| >= 36
    requires id in d.manifests && d.manifests[id] == Record(PutManifest(hs, id, payload))
    requires ShardPath(id) in d.shards && d.shards[ShardPath(id)] == head + payload + foot
    ensures SingleShard(d, id) && Recoverable(hs, d, id)
    ensures Rewriter.PlanFor(hs, d, ItemOf(id)).payload == payload
  {
    var data := head + payload + foot;
    assert data[28..28 + |payload|] == payload;
    HexRoundTrip(hs.sha256(payload));
    assert LoadManifest(d, id) == Loaded(PutManifest(hs, id, payload));
  }

  /** The payload an object stands for, readable or not. */
  ghost function PayloadOf(hs: Hashes, d: DiskState, id: ObjId): Bytes {
    if GetAt(hs, d, id, true).Got? then GetAt(hs, d, id, true).bytes
    else var p := Rewriter.PlanFor(hs, d, ItemOf(id)); if p.Rewrite? then p.payload else []
  }

  // ---------------------------------------------------------------- the invariant

  ghost predicate SameObject(d: DiskState, d': DiskState, id: ObjId) {
    && id in d.manifests && id in d'.manifests && d.manifests[id] == d'.manifests[id]
    && (ShardPath(id) in d.shards <==> ShardPath(id) in d'.shards)
    && (ShardPath(id) in d.shards ==> d.shards[ShardPath(id)] == d'.shards[ShardPath(id)])
  }

  ghost predicate RepairedObject(hs: Hashes, d0: DiskState, d: DiskState, id: ObjId) {
    && id in d.manifests
    && SameObject(Rewriter.AfterRepair(hs, d0, ItemOf(id)), d, id)
  }

  /** Where one object stands: untouched and (if damaged) waiting to be found or fixed, or repaired. */
  ghost predicate ObjectInv(hs: Hashes, d0: DiskState, s: State, id: ObjId, damaged: bool) {
    var found := damaged && id !in s.unscanned;
    && multiset(s.submitted)[ItemOf(id)] == (if found then 1 else 0)
    && (|| (SameObject(d0, s.disk, id) && s.pending[ItemOf(id)] == (if found then 1 else 0))
        || (found && RepairedObject(hs, d0, s.disk, id) && s.pending[ItemOf(id)] == 0))
  }

  ghost predicate ForStoredObject(d0: DiskState, item: RepairItem) {
    ObjId(item.bucket, item.key) in d0.manifests && item == ItemOf(ObjId(item.bucket, item.key))
  }

  ghost predicate Inv(hs: Hashes, d0: DiskState, s: State) {
    && s.disk.manifests.Keys == d0.manifests.Keys
    && s.unscanned <= d0.manifests.Keys
    && (forall id :: id in d0.manifests ==> ObjectInv(hs, d0, s, id, !IntactObject(hs, d0, id)))
    && (forall item :: item in s.pending ==> ForStoredObject(d0, item))
    && (forall item :: item in s.submitted ==> ForStoredObject(d0, item))
  }

  /** An object's own files decide what reading, scrubbing and repairing it do. */
  lemma OnlyOwnFiles(hs: Hashes, d: DiskState, d': DiskState, id: ObjId)
    requires SingleShard(d, id) && SameObject(d, d', id)
    ensures SingleShard(d', id)
    ensures GetAt(hs, d, id, true) == GetAt(hs, d', id, true)
    ensures Scrubber.ScrubItems(hs, d, id, true) == Scrubber.ScrubItems(hs, d', id, true)
    ensures Rewriter.PlanFor(hs, d, ItemOf(id)) == Rewriter.PlanFor(hs, d', ItemOf(id))
  {
    assert LoadManifest(d', id) == LoadManifest(d, id);
    Scrubber.ScrubSingle(hs, d, id, true);
    Scrubber.ScrubSingle(hs, d', id, true);
    OnlyOwnPlan(hs, d, d', id);
  }

  lemma OnlyOwnPlan(hs: Hashes, d: DiskState, d': DiskState, id: ObjId)
    requires SingleShard(d, id) && SameObject(d, d', id)
    ensures Rewriter.PlanFor(hs, d, ItemOf(id)) == Rewriter.PlanFor(hs, d', ItemOf(id))
  {
    assert LoadManifest(d', id) == LoadManifest(d, id);
    assert Rewriter.Admit(d, ItemOf(id)) == Rewriter.Admit(d', ItemOf(id));
  }

  lemma ScrubOne(hs: Hashes, d: DiskState, id: ObjId)
    requires SingleShard(d, id)
    ensures Scrubber.ScrubItems(hs, d, id, true) == if IntactObject(hs, d, id) then [] else [ItemOf(id)]
  {
    Scrubber.ScrubAgreesWithGet(hs, d, id);
  }

  lemma ScanObject(hs: Hashes, d0: DiskState, s: State, s': State, id: ObjId, found: bool, other: ObjId, damaged: bool)
    requires var items := if found then [ItemOf(id)] else [];
             && id in s.unscanned
             && s' == s.(unscanned := s.unscanned - {id}, pending := s.pending + multiset(items), submitted := s.submitted + items)
    requires ObjectInv(hs, d0, s, other, damaged)
    requires other == id ==> damaged == found
    ensures ObjectInv(hs, d0, s', other, damaged)
  {
    var items := if found then [ItemOf(id)] else [];
    assert multiset(s'.submitted) == multiset(s.submitted) + multiset(items);
    assert other != id ==> ItemOf(other) != ItemOf(id);
  }

  lemma ScanKeepsInv(hs: Hashes, d0: DiskState, s: State, s': State, id: ObjId)
    requires Healable(hs, d0) && Inv(hs, d0, s) && ScanStep(hs, s, s', id)
    ensures Inv(hs, d0, s')
  {
    var found := !IntactObject(hs, d0, id);
    assert id in d0.manifests;
    assert ObjectInv(hs, d0, s, id, found);
    assert SameObject(d0, s.disk, id);
    OnlyOwnFiles(hs, d0, s.disk, id);
    ScrubOne(hs, s.disk, id);
    forall other | other in d0.manifests ensures ObjectInv(hs, d0, s', other, !IntactObject(hs, d0, other)) {
      ScanObject(hs, d0, s, s', id, found, other, !IntactObject(hs, d0, other));
    }
    var items := if found then [ItemOf(id)] else [];
    assert ForStoredObject(d0, ItemOf(id));
    assert s'.submitted == s.submitted + items;
  }

  lemma RepairKeepsOthers(hs: Hashes, d: DiskState, id: ObjId, other: ObjId)
    requires SingleShard(d, id) && Lacks(other.bucket, '/') && other in d.manifests && other != id
    ensures SameObject(d, Rewriter.AfterRepair(hs, d, ItemOf(id)), other)
  {
    if ShardPath(id) == ShardPath(other) { ShardPathInjective(id, other); }
  }

  lemma SameObjectTransitive(a: DiskState, b: DiskState, c: DiskState, id: ObjId)
    requires SameObject(a, b, id) && SameObject(b, c, id)
    ensures SameObject(a, c, id)
  {
  }

  lemma RepairObject(hs: Hashes, d0: DiskState, s: State, s': State, id: ObjId, other: ObjId, damaged: bool)
    requires SingleShard(s.disk, id) && SameObject(d0, s.disk, id) && Lacks(other.bucket, '/') && other in s.disk.manifests
    requires RepairStep(hs, s, s', ItemOf(id))
    requires other == id ==> RepairedObject(hs, d0, s'.disk, id) && damaged && id !in s.unscanned && s.pending[ItemOf(id)] == 1
    requires ObjectInv(hs, d0, s, other, damaged)
    ensures ObjectInv(hs, d0, s', other, damaged)
  {
    if other != id {
      RepairKeepsOthers(hs, s.disk, id, other);
      assert ItemOf(other) != ItemOf(id);
      if SameObject(d0, s.disk, other) {
        SameObjectTransitive(d0, s.disk, s'.disk, other);
      } else {
        SameObjectTransitive(Rewriter.AfterRepair(hs, d0, ItemOf(other)), s.disk, s'.disk, other);
      }
    }
  }

  lemma RepairKeepsInv(hs: Hashes, d0: DiskState, s: State, s': State, item: RepairItem)
    requires Healable(hs, d0) && Inv(hs, d0, s) && RepairStep(hs, s, s', item)
    ensures Inv(hs, d0, s')
  {
    assert ForStoredObject(d0, item);
    var id := ObjId(item.bucket, item.key);
    assert ObjectInv(hs, d0, s, id, !IntactObject(hs, d0, id));
    assert s.pending[item] > 0;
    OnlyOwnFiles(hs, d0, s.disk, id);
    SameRepair(hs, d0, s.disk, id);
    forall other | other in d0.manifests ensures ObjectInv(hs, d0, s', other, !IntactObject(hs, d0, other)) {
      assert SingleShard(d0, other);
      RepairObject(hs, d0, s, s', id, other, !IntactObject(hs, d0, other));
    }
  }

  lemma SameRepair(hs: Hashes, d: DiskState, d': DiskState, id: ObjId)
    requires SingleShard(d, id) && SameObject(d, d', id)
    requires Rewriter.PlanFor(hs, d, ItemOf(id)) == Rewriter.PlanFor(hs, d', ItemOf(id))
    ensures RepairedObject(hs, d, Rewriter.AfterRepair(hs, d', ItemOf(id)), id)
    ensures Rewriter.AfterRepair(hs, d', ItemOf(id)).manifests.Keys == d'.manifests.Keys
  {
    var p := Rewriter.PlanFor(hs, d, ItemOf(id));
    if p.Rewrite? {
      assert p.path == ShardPath(id);
      assert d'.manifests[id := Record(p.manifest)].Keys == d'.manifests.Keys + {id};
    }
  }

  lemma {:induction false} RunKeepsInv(hs: Hashes, d0: DiskState, run: seq<State>)
    requires Healable(hs, d0) && Run(hs, run) && Start(run[0]) && run[0].disk == d0
    ensures Inv(hs, d0, run[|run| - 1])
  {
    if |run| > 1 {
      var prefix := run[..|run| - 1];
      forall i | 0 <= i < |prefix| - 1 ensures Step(hs, prefix[i], prefix[i + 1]) {
        assert Step(hs, run[i], run[i + 1]);
      }
      RunKeepsInv(hs, d0, prefix);
      var s, s' := run[|run| - 2], run[|run| - 1];
      assert Step(hs, s, s');
      if id :| ScanStep(hs, s, s', id) {
        ScanKeepsInv(hs, d0, s, s', id);
      } else {
        var item :| RepairStep(hs, s, s', item);
        RepairKeepsInv(hs, d0, s, s', item);
      }
    }
  }

  // ---------------------------------------------------------------- convergence

  /**
   * The pass has done its work: exactly the objects that were damaged were submitted, each once and
   * nothing else; every object reads back verified with the payload it stood for; and the next scrub
   * finds nothing.
   */
  ghost predicate Healed(hs: Hashes, d0: DiskState, s: State) {
    && s.disk.manifests.Keys == d0.manifests.Keys
    && (forall item :: item in s.submitted ==>
          var id := ObjId(item.bucket, item.key);
          id in d0.manifests && item == ItemOf(id) && !IntactObject(hs, d0, id))
    && forall id :: id in d0.manifests ==> HealedObject(hs, d0, s, id)
  }

  ghost predicate HealedObject(hs: Hashes, d0: DiskState, s: State, id: ObjId) {
    && multiset(s.submitted)[ItemOf(id)] == (if IntactObject(hs, d0, id) then 0 else 1)
    && IntactObject(hs, s.disk, id)
    && PayloadOf(hs, s.disk, id) == PayloadOf(hs, d0, id)
    && Scrubber.ScrubItems(hs, s.disk, id, true) == []
  }

  lemma FinishedHeals(hs: Hashes, d0: DiskState, s: State)
    requires Healable(hs, d0) && Inv(hs, d0, s) && Finished(s)
    ensures Healed(hs, d0, s)
  {
    forall id | id in d0.manifests ensures HealedObject(hs, d0, s, id) {
      assert ObjectInv(hs, d0, s, id, !IntactObject(hs, d0, id));
      if IntactObject(hs, d0, id) {
        OnlyOwnFiles(hs, d0, s.disk, id);
      } else {
        var after := Rewriter.AfterRepair(hs, d0, ItemOf(id));
        Rewriter.RepairedShardIsFresh(hs, d0, ItemOf(id));
        OnlyOwnFiles(hs, after, s.disk, id);
      }
      ScrubOne(hs, s.disk, id);
    }
    forall item | item in s.submitted
      ensures var id := ObjId(item.bucket, item.key); id in d0.manifests && item == ItemOf(id) && !IntactObject(hs, d0, id)
    {
      var id := ObjId(item.bucket, item.key);
      assert ForStoredObject(d0, item) && HealedObject(hs, d0, s, id);
      assert item in multiset(s.submitted);
    }
  }

  /** However scrubbing and repairing interleave, once every manifest has been visited and the queue is empty all is healed. */
  lemma HealingConverges(hs: Hashes, run: seq<State>)
    requires Run(hs, run) && Start(run[0]) && Healable(hs, run[0].disk) && Finished(run[|run| - 1])
    ensures Healed(hs, run[0].disk, run[|run| - 1])
  {
    RunKeepsInv(hs, run[0].disk, run);
    FinishedHeals(hs, run[0].disk, run[|run| - 1]);
  }

  /** Work left: every step uses some up, so a run is no longer than the start allows. */
  ghost function Measure(s: State): nat {
    2 * |s.unscanned| + |s.pending|
  }

  lemma StepUsesWork(hs: Hashes, d0: DiskState, s: State, s': State)
    requires Healable(hs, d0) && Inv(hs, d0, s) && Step(hs, s, s')
    ensures Measure(s') < Measure(s)
  {
    if id :| ScanStep(hs, s, s', id) {
      assert ObjectInv(hs, d0, s, id, !IntactObject(hs, d0, id));
      OnlyOwnFiles(hs, d0, s.disk, id);
      ScrubOne(hs, s.disk, id);
      var items := Scrubber.ScrubItems(hs, s.disk, id, true);
      assert |s.pending + multiset(items)| == |s.pending| + |items|;
    }
  }

  /** Until the pass is finished some step is possible. */
  lemma HealingProgress(hs: Hashes, s: State)
    requires !Finished(s)
    ensures exists s' :: Step(hs, s, s')
  {
    if s.unscanned != {} {
      var id :| id in s.unscanned;
      var items := Scrubber.ScrubItems(hs, s.disk, id, true);
      var s' := s.(unscanned := s.unscanned - {id}, pending := s.pending + multiset(items), submitted := s.submitted + items);
      assert ScanStep(hs, s, s', id);
      assert Step(hs, s, s');
    } else {
      assert |s.pending| > 0;
      var item :| item in s.pending;
      var s' := s.(disk := Rewriter.AfterRepair(hs, s.disk, item), pending := s.pending - multiset{item});
      assert RepairStep(hs, s, s', item);
      assert Step(hs, s, s');
    }
  }

  /** A pass with its repairs takes at most two steps per stored object. */
  lemma {:induction false} RunLength(hs: Hashes, run: seq<State>)
    requires Run(hs, run) && Start(run[0]) && Healable(hs, run[0].disk)
    ensures |run| - 1 + Measure(run[|run| - 1]) <= 2 * |run[0].disk.manifests|
  {
    if |run| > 1 {
      var prefix := run[..|run| - 1];
      forall i | 0 <= i < |prefix| - 1 ensures Step(hs, prefix[i], prefix[i + 1]) {
        assert Step(hs, run[i], run[i + 1]);
      }
      RunLength(hs, prefix);
      RunKeepsInv(hs, run[0].disk, prefix);
      assert Step(hs, run[|run| - 2], run[|run| - 1]);
      StepUsesWork(hs, run[0].disk, run[|run| - 2], run[|run| - 1]);
    } else {
      assert |run[0].disk.manifests.Keys| == |run[0].disk.manifests|;
    }
  }
}
