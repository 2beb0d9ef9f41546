/** The sealed scrubber (pkg/repair/scrubber.go): one verification of one object, and which job a manifest file stands for. */
module Scrubber {
  import opened Strings
  import opened Encoding
  import opened Streams
  import opened ShardCodec
  import opened Manifests
  import opened SealedStore

  /** A shard counts as an error: missing, unreadable header, or a failed check. */
  function ShardFails(hs: Hashes, s: DiskState, sh: ShardMeta, rehash: bool): bool {
    || sh.path !in s.shards
    || HeaderAt(hs, s.shards[sh.path]).Err?
    || CheckSeal(hs, s.shards[sh.path], sh.hashHex, HeaderAt(hs, s.shards[sh.path]).value, rehash) != Sound
  }

  /** The repair items for the failing ones among `shards`, in order. */
  function FailingItems(hs: Hashes, s: DiskState, id: ObjId, shards: seq<ShardMeta>, rehash: bool): seq<RepairItem> {
    if shards == [] then []
    else
      FailingItems(hs, s, id, shards[..|shards| - 1], rehash) + ItemsFor(hs, s, id, shards[|shards| - 1], rehash)
  }

  function ItemsFor(hs: Hashes, s: DiskState, id: ObjId, sh: ShardMeta, rehash: bool): seq<RepairItem> {
    if ShardFails(hs, s, sh, rehash) then [RepairItem(id.bucket, id.key, sh.path, "scrub_fail")] else []
  }

  /** What one verification of an object submits for repair. */
  function ScrubItems(hs: Hashes, s: DiskState, id: ObjId, rehash: bool): seq<RepairItem> {
    var lm := LoadManifest(s, id);
    if lm.Loaded? then FailingItems(hs, s, id, lm.m.shards, rehash) else []
  }

  /** `items` were submitted and counted, and `hadErr` says whether there were any. */
  ghost predicate Counted(sub: seq<RepairItem>, sub': seq<RepairItem>, err: nat, err': nat, hadErr: bool, items: seq<RepairItem>) {
    sub' == sub + items && err' == err + |items| && (hadErr <==> items != [])
  }

  class SealedScrubber {
    const hs: Hashes
    const disk: Disk
    const verifyPayload: bool
    var scanned: nat
    var errors: nat
    /** Items handed to the repair queue, oldest first. */
    var submitted: seq<RepairItem>

    constructor (hs: Hashes, disk: Disk, verifyPayload: bool)
      ensures this.hs == hs && this.disk == disk && this.verifyPayload == verifyPayload
      ensures scanned == 0 && errors == 0 && submitted == []
    {
      this.hs, this.disk, this.verifyPayload := hs, disk, verifyPayload;
      scanned, errors, submitted := 0, 0, [];
    }

    method EnqueueRepair(id: ObjId, path: string)
      modifies this`errors, this`submitted
      ensures errors == old(errors) + 1
      ensures submitted == old(submitted) + [RepairItem(id.bucket, id.key, path, "scrub_fail")]
    {
      errors := errors + 1;
      submitted := submitted + [RepairItem(id.bucket, id.key, path, "scrub_fail")];
    }

    /** Check one shard file the way the scrubber does, field by field. */
    method VerifyShard(sh: ShardMeta) returns (bad: bool)
      ensures bad == ShardFails(hs, disk.state, sh, verifyPayload)
    {
      if sh.path !in disk.state.shards { return true; }
      var f := new ByteReader(disk.state.shards[sh.path]);
      var decoded := DecodeShardHeader(hs, f);
      if decoded.Err? { return true; }
      var hdr := decoded.value;
      var ok := f.Seek(AddI64(hdr.headerSize, ToI64(hdr.payloadLength)));
      if !ok { return true; }
      var footer := DecodeShardFooter(hs, f);
      if footer.Err? { return true; }
      var want := HexDecode(sh.hashHex);
      if want.None? || want.value != footer.value.contentHash { return true; }
      if verifyPayload {
        ok := f.Seek(hdr.headerSize);
        var payload := f.CopyN(ToI64(hdr.payloadLength));
        if payload.None? {
          // Reported as an error by the program; cannot happen once the footer behind the payload was read.
          assert false;
        }
        if hs.sha256(payload.value) != footer.value.contentHash { return true; }
      }
      return false;
    }

    /** One turn of the loop over an object's shards. */
    method VisitShard(id: ObjId, sh: ShardMeta) returns (bad: bool)
      modifies this`errors, this`submitted
      ensures submitted == old(submitted) + ItemsFor(hs, disk.state, id, sh, verifyPayload)
      ensures errors == old(errors) + |ItemsFor(hs, disk.state, id, sh, verifyPayload)|
      ensures bad <==> ItemsFor(hs, disk.state, id, sh, verifyPayload) != []
    {
      bad := VerifyShard(sh);
      if bad { EnqueueRepair(id, sh.path); }
    }

    method VisitNth(id: ObjId, shards: seq<ShardMeta>, i: nat, hadErr: bool, ghost sub: seq<RepairItem>, ghost err: nat)
      returns (hadErr': bool)
      requires i < |shards|
      requires Counted(sub, submitted, err, errors, hadErr, FailingItems(hs, disk.state, id, shards[..i], verifyPayload))
      modifies this`errors, this`submitted
      ensures Counted(sub, submitted, err, errors, hadErr', FailingItems(hs, disk.state, id, shards[..i + 1], verifyPayload))
    {
      ghost var mid, midErrors := submitted, errors;
      var bad := VisitShard(id, shards[i]);
      NextShard(hs, disk.state, id, shards, i, verifyPayload, sub, mid, submitted, err, midErrors, errors, hadErr, bad);
      hadErr' := hadErr || bad;
    }

    /** The loop over an object's shards. */
    method VisitShards(id: ObjId, shards: seq<ShardMeta>) returns (hadErr: bool)
      modifies this`errors, this`submitted
      ensures submitted == old(submitted) + FailingItems(hs, disk.state, id, shards, verifyPayload)
      ensures errors == old(errors) + |FailingItems(hs, disk.state, id, shards, verifyPayload)|
      ensures hadErr <==> FailingItems(hs, disk.state, id, shards, verifyPayload) != []
    {
      hadErr := false;
      var i := 0;
      while i < |shards|
        invariant 0 <= i <= |shards|
        invariant Counted(old(submitted), submitted, old(errors), errors, hadErr,
                          FailingItems(hs, disk.state, id, shards[..i], verifyPayload))
      {
        hadErr := VisitNth(id, shards, i, hadErr, old(submitted), old(errors));
        i := i + 1;
      }
      assert shards[..|shards|] == shards;
    }

    /** verifyObject: counts and submits every failing shard of the object, exactly once and in order. */
    method VerifyObject(id: ObjId) returns (failed: bool)
      modifies this
      ensures submitted == old(submitted) + ScrubItems(hs, disk.state, id, verifyPayload)
      ensures errors == old(errors) + |ScrubItems(hs, disk.state, id, verifyPayload)|
      ensures var lm := LoadManifest(disk.state, id);
              var visited := lm.Loaded? && lm.m.shards != [];
              && scanned == old(scanned) + (if visited then 1 else 0)
              && (failed <==> !lm.Loaded? || ScrubItems(hs, disk.state, id, verifyPayload) != [])
    {
      var lm := LoadManifest(disk.state, id);
      if !lm.Loaded? { return true; }
      if |lm.m.shards| == 0 { return false; }
      failed := VisitShards(id, lm.m.shards);
      scanned := scanned + 1;
    }
  }

  lemma NextShard(hs: Hashes, s: DiskState, id: ObjId, shards: seq<ShardMeta>, i: nat, rehash: bool,
                  sub: seq<RepairItem>, sub': seq<RepairItem>, sub'': seq<RepairItem>, err: nat, err': nat, err'': nat,
                  hadErr: bool, bad: bool)
    requires i < |shards|
    requires Counted(sub, sub', err, err', hadErr, FailingItems(hs, s, id, shards[..i], rehash))
    requires Counted(sub', sub'', err', err'', bad, ItemsFor(hs, s, id, shards[i], rehash))
    ensures Counted(sub, sub'', err, err'', hadErr || bad, FailingItems(hs, s, id, shards[..i + 1], rehash))
  {
    assert shards[..i + 1][..i] == shards[..i];
    CountedMore(sub, sub', sub'', err, err', err'', hadErr, bad,
                FailingItems(hs, s, id, shards[..i], rehash), ItemsFor(hs, s, id, shards[i], rehash));
  }

  lemma CountedMore(sub: seq<RepairItem>, sub': seq<RepairItem>, sub'': seq<RepairItem>, err: nat, err': nat, err'': nat,
                    hadErr: bool, bad: bool, a: seq<RepairItem>, b: seq<RepairItem>)
    requires Counted(sub, sub', err, err', hadErr, a) && Counted(sub', sub'', err', err'', bad, b)
    ensures Counted(sub, sub'', err, err'', hadErr || bad, a + b)
  {
  }

  lemma ScrubSingle(hs: Hashes, s: DiskState, id: ObjId, rehash: bool)
    requires LoadManifest(s, id).Loaded? && |LoadManifest(s, id).m.shards| == 1
    ensures var sh := LoadManifest(s, id).m.shards[0];
            ScrubItems(hs, s, id, rehash) == if ShardFails(hs, s, sh, rehash)
                                             then [RepairItem(id.bucket, id.key, sh.path, "scrub_fail")] else []
  {
    var shards := LoadManifest(s, id).m.shards;
    assert shards[..0] == [];
    assert FailingItems(hs, s, id, shards[..0], rehash) == [];
  }

  /** For a single-shard object the payload-verifying scrub and the verified Get agree on every disk content. */
  lemma ScrubAgreesWithGet(hs: Hashes, s: DiskState, id: ObjId)
    requires LoadManifest(s, id).Loaded? && |LoadManifest(s, id).m.shards| == 1
    ensures var sh := LoadManifest(s, id).m.shards[0];
            var intact := sh.path in s.shards && Intact(hs, s.shards[sh.path], sh.hashHex);
            && (ScrubItems(hs, s, id, true) == [] <==> intact)
            && (GetAt(hs, s, id, true).Got? <==> intact)
            && (!intact ==> ScrubItems(hs, s, id, true) == [RepairItem(id.bucket, id.key, sh.path, "scrub_fail")])
  {
    var shards := LoadManifest(s, id).m.shards;
    var sh := shards[0];
    ScrubSingle(hs, s, id, true);
    VerifiedGet(hs, s, id);
    if sh.path in s.shards {
      VerifiedIffIntact(hs, s.shards[sh.path], sh.hashHex);
    }
  }

  /** Which shards fail: those that are missing or do not pass the full check, or without payload hashing the light one. */
  lemma ShardFailsIff(hs: Hashes, s: DiskState, sh: ShardMeta)
    ensures ShardFails(hs, s, sh, true) <==> !(sh.path in s.shards && Intact(hs, s.shards[sh.path], sh.hashHex))
    ensures ShardFails(hs, s, sh, false) <==>
              !(sh.path in s.shards && exists h, sum :: LooksSound(hs, s.shards[sh.path], sh.hashHex, h, sum))
  {
    if sh.path in s.shards {
      VerifiedIffIntact(hs, s.shards[sh.path], sh.hashHex);
      LightCheckIff(hs, s.shards[sh.path], sh.hashHex);
    }
  }

  /** The shard fails and `x` is the item that says so. */
  predicate Reports(hs: Hashes, s: DiskState, id: ObjId, sh: ShardMeta, rehash: bool, x: RepairItem) {
    ShardFails(hs, s, sh, rehash) && x == RepairItem(id.bucket, id.key, sh.path, "scrub_fail")
  }

  ghost function FailingAt(hs: Hashes, s: DiskState, id: ObjId, shards: seq<ShardMeta>, rehash: bool, x: RepairItem): set<int> {
    set i | 0 <= i < |shards| && Reports(hs, s, id, shards[i], rehash, x)
  }

  /** Every failing shard of an object is submitted as often as the manifest lists it, in that order, and nothing else is. */
  lemma {:induction false} EachFailingOnce(hs: Hashes, s: DiskState, id: ObjId, shards: seq<ShardMeta>, rehash: bool, x: RepairItem)
    ensures multiset(FailingItems(hs, s, id, shards, rehash))[x] == |FailingAt(hs, s, id, shards, rehash, x)|
    ensures shards != [] ==> FailingItems(hs, s, id, shards[..|shards| - 1], rehash) <= FailingItems(hs, s, id, shards, rehash)
  {
    if shards == [] {
      assert FailingAt(hs, s, id, shards, rehash, x) == {};
    } else {
      EachFailingOnce(hs, s, id, shards[..|shards| - 1], rehash, x);
      LastShard(hs, s, id, shards, rehash, x);
      assert Reports(hs, s, id, shards[|shards| - 1], rehash, x) <==> ItemsFor(hs, s, id, shards[|shards| - 1], rehash) == [x];
      CountItem(FailingItems(hs, s, id, shards[..|shards| - 1], rehash), ItemsFor(hs, s, id, shards[|shards| - 1], rehash), x);
    }
  }

  lemma LastShard(hs: Hashes, s: DiskState, id: ObjId, shards: seq<ShardMeta>, rehash: bool, x: RepairItem)
    requires shards != []
    ensures |FailingAt(hs, s, id, shards, rehash, x)| ==
            |FailingAt(hs, s, id, shards[..|shards| - 1], rehash, x)| +
            (if Reports(hs, s, id, shards[|shards| - 1], rehash, x) then 1 else 0)
  {
    var n := |shards| - 1;
    var before, now := FailingAt(hs, s, id, shards[..n], rehash, x), FailingAt(hs, s, id, shards, rehash, x);
    forall i | 0 <= i < n ensures i in now <==> i in before {
      assert shards[..n][i] == shards[i];
    }
    assert now == before + (if Reports(hs, s, id, shards[n], rehash, x) then {n} else {});
  }

  lemma CountItem(items: seq<RepairItem>, more: seq<RepairItem>, x: RepairItem)
    requires |more| <= 1
    ensures multiset(items + more)[x] == multiset(items)[x] + if more == [x] then 1 else 0
  {
    assert more == [] || more == [more[0]];
  }

  /** The scrub without payload hashing accepts whatever the full one accepts; Head makes the same light check. */
  lemma LightScrubIsWeaker(hs: Hashes, s: DiskState, sh: ShardMeta)
    ensures ShardFails(hs, s, sh, false) ==> ShardFails(hs, s, sh, true)
  {
  }

  // ---------------------------------------------------------------- from manifest files to jobs

  /** objects/<bucket>/<key>/object.meta */
  function ManifestPath(id: ObjId): string {
    "objects/" + id.bucket + "/" + id.key + "/object.meta"
  }

  /** filepath.Dir of a relative path with a separator in it. */
  function DirOf(p: string): string {
    var parts := Split(p, '/');
    Join(parts[..|parts| - 1], '/')
  }

  /** The job the producer derives from a manifest file found at `rel`. */
  function JobOf(rel: string): Option<ObjId> {
    if !HasPrefix(rel, "objects/") then None
    else
      var dir := DirOf(rel);
      var rest := if HasPrefix(dir, "objects/") then dir[8..] else dir;
      var parts := Split(rest, '/');
      if |parts| < 2 then None
      else Some(ObjId(parts[0], Join(parts[1..], '/')))
  }

  lemma DirOfChild(dir: string, name: string)
    requires Lacks(name, '/')
    ensures DirOf(dir + ['/'] + name) == dir
  {
    SplitConcat(dir, name, '/');
    SplitLacking(name, '/');
    JoinSplit(dir, '/');
    assert (Split(dir, '/') + [name])[..|Split(dir, '/')|] == Split(dir, '/');
  }

  /** Every object's manifest file yields that object's job and no other. */
  lemma JobOfManifestPath(id: ObjId)
    requires Lacks(id.bucket, '/')
    ensures JobOf(ManifestPath(id)) == Some(id)
  {
    var inner := id.bucket + ['/'] + id.key;
    var dir := "objects/" + inner;
    assert ManifestPath(id) == dir + ['/'] + "object.meta";
    DirOfChild(dir, "object.meta");
    assert dir[8..] == inner;
    SplitFirst(id.bucket, id.key, '/');
  }
}
