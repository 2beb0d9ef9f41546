/** The single-shard rewriter (pkg/repair/rewriter.go): Repair rebuilds header and footer around a payload it can vouch for. */
module Rewriter {
  import opened Strings
  import opened Encoding
  import opened Streams
  import opened ShardCodec
  import opened Manifests
  import opened SealedStore

  datatype RepairError = Skip | Unsupported | ManifestUnreadable | Truncated | ShortPayload | PayloadMismatch | IoFault

  datatype RepairResult = Repaired | Failed(error: RepairError)

  /** What Repair decides to write before it touches the shard. */
  datatype Plan = Rewrite(path: string, payload: Bytes, manifest: Manifest) | Refuse(error: RepairError)

  /** The payload length Repair works with: the shard's, or failing that the object's. */
  function PlannedLength(m: Manifest, sh: ShardMeta): i64 {
    if sh.payloadLength > 0 then sh.payloadLength else m.size
  }

  function MinimumSize(n: i64): i64 {
    AddI64(AddI64(28, n), 36)
  }

  /** The manifest Repair saves: CRC fields, length and hash text refreshed. */
  function RefreshedManifest(hs: Hashes, m: Manifest, payload: Bytes): Manifest
    requires |m.shards| == 1 && |payload| < 0x8000_0000_0000_0000
  {
    var sum := hs.sha256(payload);
    var header := FixedBytes(hs, ShardHeader(1, DEFAULT_HEADER_SIZE, |payload|)) + [0];
    m.(shards := [m.shards[0].(headerCrc := LastFour(header), footerCrc := LastFour(FooterBytes(hs, sum)),
                               payloadLength := |payload|, hashHex := HexEncode(sum))])
  }

  datatype Admission = Admitted(m: Manifest, n: i64) | Denied(error: RepairError)

  /** The checks Repair makes before it reads the shard. */
  function Admit(s: DiskState, item: RepairItem): (a: Admission)
    ensures a.Admitted? ==>
              && LoadManifest(s, ObjId(item.bucket, item.key)) == Loaded(a.m)
              && |a.m.shards| == 1 && a.m.shards[0].path in s.shards && a.n > 0
  {
    match LoadManifest(s, ObjId(item.bucket, item.key))
    case NotExist => Denied(Skip)
    case Unreadable => Denied(ManifestUnreadable)
    case Loaded(m) =>
      if |m.shards| != 1 then Denied(Unsupported)
      else
        var sh := m.shards[0];
        var n := PlannedLength(m, sh);
        if sh.path == "" then Denied(Unsupported)
        else if item.shardPath != "" && item.shardPath != sh.path then Denied(Skip)
        else if n <= 0 then Denied(Unsupported)
        else if sh.path !in s.shards then Denied(Skip)
        else if |s.shards[sh.path]| < MinimumSize(n) then Denied(Truncated)
        else Admitted(m, n)
  }

  /** Why the bytes at offset 28 cannot be vouched for, if they cannot. */
  function PayloadProblem(hs: Hashes, data: Bytes, n: i64, hashHex: string): Option<RepairError>
    requires n > 0
  {
    if |data| < 28 + n then Some(ShortPayload)
    else
      var want := HexDecode(hashHex);
      if want.None? || |want.value| != 32 then Some(Unsupported)
      else if want.value != hs.sha256(data[28..28 + n]) then Some(PayloadMismatch)
      else None
  }

  function PlanFor(hs: Hashes, s: DiskState, item: RepairItem): (p: Plan)
    ensures p.Rewrite? ==> |p.payload| < 0x8000_0000_0000_0000
  {
    match Admit(s, item)
    case Denied(e) => Refuse(e)
    case Admitted(m, n) =>
      var data := s.shards[m.shards[0].path];
      var problem := PayloadProblem(hs, data, n, m.shards[0].hashHex);
      if problem.Some? then Refuse(problem.value)
      else Rewrite(m.shards[0].path, data[28..28 + n], RefreshedManifest(hs, m, data[28..28 + n]))
  }

  /** The disk after the whole plan has been carried out. */
  function AfterRepair(hs: Hashes, s: DiskState, item: RepairItem): DiskState {
    match PlanFor(hs, s, item)
    case Refuse(_) => s
    case Rewrite(path, payload, m) =>
      s.(shards := s.shards[path := FreshShard(hs, payload)],
         manifests := s.manifests[ObjId(item.bucket, item.key) := Record(m)])
  }

  /** Nothing done, the shard replaced, or both files replaced. */
  ghost predicate Replacing(before: DiskState, now: DiskState, path: string, data: Bytes, id: ObjId, m: Manifest) {
    && now.plain == before.plain
    && (|| (now.shards == before.shards && now.manifests == before.manifests)
        || (&& now.shards == before.shards[path := data]
            && (now.manifests == before.manifests || now.manifests == before.manifests[id := Record(m)])))
  }

  ghost predicate Untouched(before: DiskState, now: DiskState) {
    now.plain == before.plain && now.shards == before.shards && now.manifests == before.manifests
  }

  /** The durable states of a Repair that has admitted its item. */
  ghost predicate RewriteStage(hs: Hashes, before: DiskState, now: DiskState, id: ObjId, m: Manifest, n: i64)
    requires |m.shards| == 1 && m.shards[0].path in before.shards && n > 0
  {
    var path := m.shards[0].path;
    var data := before.shards[path];
    if PayloadProblem(hs, data, n, m.shards[0].hashHex).Some? then Untouched(before, now)
    else Replacing(before, now, path, FreshShard(hs, data[28..28 + n]), id, RefreshedManifest(hs, m, data[28..28 + n]))
  }

  /** The only durable states of a Repair. */
  ghost predicate RepairStage(hs: Hashes, before: DiskState, now: DiskState, item: RepairItem) {
    match Admit(before, item)
    case Denied(_) => Untouched(before, now)
    case Admitted(m, n) => RewriteStage(hs, before, now, ObjId(item.bucket, item.key), m, n)
  }

  /** The guards at the top of Repair. */
  method CheckItem(s: DiskState, item: RepairItem) returns (a: Admission)
    ensures a == Admit(s, item)
  {
    var lm := LoadManifest(s, ObjId(item.bucket, item.key));
    if lm.NotExist? { return Denied(Skip); }
    if lm.Unreadable? { return Denied(ManifestUnreadable); }
    var m := lm.m;
    if |m.shards| != 1 { return Denied(Unsupported); }
    var shard := m.shards[0];
    if shard.path == "" { return Denied(Unsupported); }
    if item.shardPath != "" {
      if item.shardPath != shard.path { return Denied(Skip); }
    }
    var payloadLen := shard.payloadLength;
    if payloadLen <= 0 { payloadLen := m.size; }
    if payloadLen <= 0 { return Denied(Unsupported); }
    if shard.path !in s.shards { return Denied(Skip); }
    if |s.shards[shard.path]| < AddI64(AddI64(28, payloadLen), 36) { return Denied(Truncated); }
    return Admitted(m, payloadLen);
  }

  lemma ShardParts(hs: Hashes, payload: Bytes)
    requires |payload| < 0x8000_0000_0000_0000
    ensures [] + (FixedBytes(hs, ShardHeader(1, DEFAULT_HEADER_SIZE, |payload|)) + [0]) + payload + FooterBytes(hs, hs.sha256(payload))
         == FreshShard(hs, payload)
  {
  }

  /** Write header, payload copy and footer to the temporary file, checking the payload against the manifest's hash. */
  method BuildShard(hs: Hashes, disk: Disk, data: Bytes, n: i64, hashHex: string)
    returns (header: Bytes, footer: Bytes, sum: Digest, error: Option<RepairError>)
    requires n > 0 && disk.state.temp == Some([])
    modifies disk
    ensures disk.state.temp.Some? && disk.state == old(disk.state).(temp := disk.state.temp)
    ensures old(disk.history) <= disk.history
    ensures forall i :: |old(disk.history)| <= i < |disk.history| ==>
              disk.history[i] == old(disk.state).(temp := disk.history[i].temp)
    ensures error.None? ==>
              && PayloadProblem(hs, data, n, hashHex) == None
              && sum == hs.sha256(data[28..28 + n])
              && disk.state.temp == Some(FreshShard(hs, data[28..28 + n]))
              && header == FixedBytes(hs, ShardHeader(1, DEFAULT_HEADER_SIZE, n)) + [0]
              && footer == FooterBytes(hs, sum)
    ensures error.Some? ==> (error == Some(IoFault) && !disk.reliable) || error == PayloadProblem(hs, data, n, hashHex)
  {
    header, footer, sum := [], [], Zeros(32);
    var src := new ByteReader(data);
    var ok := src.Seek(28);
    var encoded := EncodeShardHeader(hs, ShardHeader(1, 0, n));
    assert Zeros(1) == [0];
    header := encoded.value;
    ok := disk.WriteTemp(header);
    if !ok { error := Some(IoFault); return; }
    var payload := src.CopyN(n);
    if payload.None? { error := Some(ShortPayload); return; }
    ok := disk.WriteTemp(payload.value);
    if !ok { error := Some(IoFault); return; }
    sum := hs.sha256(payload.value);
    var expected := HexDecode(hashHex);
    if expected.None? || |expected.value| != 32 { error := Some(Unsupported); return; }
    if sum != expected.value { error := Some(PayloadMismatch); return; }
    footer := EncodeShardFooter(hs, sum);
    ok := disk.WriteTemp(footer);
    if !ok { error := Some(IoFault); return; }
    ShardParts(hs, payload.value);
    error := None;
  }

  /** Rename the rebuilt shard into place, sync the directory, then save the refreshed manifest. */
  method ReplaceFiles(disk: Disk, path: string, id: ObjId, m: Manifest) returns (ok: bool)
    requires disk.state.temp.Some? && m.version != ""
    modifies disk
    ensures disk.reliable && ValidateBasic(m).None? ==> ok
    ensures old(disk.history) <= disk.history
    ensures forall i :: |old(disk.history)| <= i < |disk.history| ==>
              Replacing(old(disk.state), disk.history[i], path, old(disk.state).temp.value, id, m)
    ensures Replacing(old(disk.state), disk.state, path, old(disk.state).temp.value, id, m)
    ensures ok ==> disk.state == old(disk.state).(
                     shards := old(disk.state).shards[path := old(disk.state).temp.value],
                     manifests := old(disk.state).manifests[id := Record(m)], temp := None)
  {
    ok := disk.RenameTemp(path);
    if !ok { disk.RemoveTemp(); return; }
    var synced := disk.Works();
    if !synced { return false; }
    ok := disk.SaveManifest(id, m);
  }

  /** Everything Repair does after admitting the item. */
  method RewriteShard(hs: Hashes, disk: Disk, id: ObjId, m: Manifest, n: i64) returns (r: RepairResult)
    requires |m.shards| == 1 && m.shards[0].path in disk.state.shards && n > 0 && ValidateBasic(m).None?
    modifies disk
    ensures old(disk.history) <= disk.history
    ensures forall i :: |old(disk.history)| <= i < |disk.history| ==>
              RewriteStage(hs, old(disk.state), disk.history[i], id, m, n)
    ensures RewriteStage(hs, old(disk.state), disk.state, id, m, n)
    ensures var path := m.shards[0].path;
            var data := old(disk.state).shards[path];
            var problem := PayloadProblem(hs, data, n, m.shards[0].hashHex);
            && (r.Repaired? ==>
                  && problem.None?
                  && disk.state == old(disk.state).(
                       shards := old(disk.state).shards[path := FreshShard(hs, data[28..28 + n])],
                       manifests := old(disk.state).manifests[id := Record(RefreshedManifest(hs, m, data[28..28 + n]))],
                       temp := None))
            && (r.Failed? && r.error != IoFault ==> problem == Some(r.error) && Untouched(old(disk.state), disk.state))
            && (disk.reliable ==> r == if problem.Some? then Failed(problem.value) else Repaired)
  {
    var shard := m.shards[0];
    var data := disk.state.shards[shard.path];
    var ok := disk.CreateTemp();
    if !ok { return Failed(IoFault); }
    var header, footer, sum, error := BuildShard(hs, disk, data, n, shard.hashHex);
    if error.Some? {
      disk.RemoveTemp();
      return Failed(error.value);
    }
    shard := shard.(headerCrc := LastFour(header), footerCrc := LastFour(footer));
    shard := shard.(payloadLength := n, hashHex := HexEncode(sum));
    var refreshed := m.(shards := [shard]);
    assert refreshed == RefreshedManifest(hs, m, data[28..28 + n]);
    ok := ReplaceFiles(disk, shard.path, id, refreshed);
    if !ok { return Failed(IoFault); }
    return Repaired;
  }

  /**
   * Repair. `cancelled` is ctx.Err() at the start. Unless the disk itself fails, the outcome is the
   * plan's; in every case each state on the way is one of the three stages.
   */
  method Repair(hs: Hashes, disk: Disk, item: RepairItem, cancelled: bool) returns (r: RepairResult)
    modifies disk
    ensures old(disk.history) <= disk.history
    ensures forall i :: |old(disk.history)| <= i < |disk.history| ==>
                          RepairStage(hs, old(disk.state), disk.history[i], item)
    ensures RepairStage(hs, old(disk.state), disk.state, item)
    ensures r.Repaired? ==>
              && PlanFor(hs, old(disk.state), item).Rewrite?
              && disk.state == AfterRepair(hs, old(disk.state), item).(temp := None)
    ensures r.Failed? && r.error != IoFault ==>
              && PlanFor(hs, old(disk.state), item) == Refuse(r.error)
              && Untouched(old(disk.state), disk.state)
    ensures cancelled ==> r == Failed(IoFault) && disk.state == old(disk.state)
    ensures disk.reliable && !cancelled ==>
              r == match PlanFor(hs, old(disk.state), item)
                   case Rewrite(_, _, _) => Repaired
                   case Refuse(e) => Failed(e)
  {
    if cancelled { return Failed(IoFault); }
    var admission := CheckItem(disk.state, item);
    if admission.Denied? { return Failed(admission.error); }
    r := RewriteShard(hs, disk, ObjId(item.bucket, item.key), admission.m, admission.n);
  }

  // ---------------------------------------------------------------- what a repair achieves

  /**
   * What can be repaired: a single-shard object whose manifest the item does not contradict, with a
   * positive length on record, whose file is long enough and holds a payload of the recorded hash.
   */
  lemma RepairableIff(hs: Hashes, s: DiskState, item: RepairItem)
    ensures var lm := LoadManifest(s, ObjId(item.bucket, item.key));
            PlanFor(hs, s, item).Rewrite? <==>
              && lm.Loaded? && |lm.m.shards| == 1
              && var sh := lm.m.shards[0];
              && var n := PlannedLength(lm.m, sh);
              && sh.path != "" && item.shardPath in {"", sh.path} && n > 0
              && sh.path in s.shards
              && var data := s.shards[sh.path];
              && |data| >= MinimumSize(n) && |data| >= 28 + n
              && HexDecode(sh.hashHex) == Some(hs.sha256(data[28..28 + n]))
  {
    var lm := LoadManifest(s, ObjId(item.bucket, item.key));
    if lm.Loaded? && |lm.m.shards| == 1 {
      assert item.shardPath in {"", lm.m.shards[0].path} <==> item.shardPath == "" || item.shardPath == lm.m.shards[0].path;
    }
  }

  /** What a planned repair writes: the recorded number of bytes behind the default header, under refreshed records. */
  lemma PlannedRewrite(hs: Hashes, s: DiskState, item: RepairItem)
    requires PlanFor(hs, s, item).Rewrite?
    ensures var m, p := LoadManifest(s, ObjId(item.bucket, item.key)).m, PlanFor(hs, s, item);
            var sh := m.shards[0];
            && p.path == sh.path && |p.payload| == (if sh.payloadLength > 0 then sh.payloadLength else m.size)
            && 28 + |p.payload| <= |s.shards[p.path]| && p.payload == s.shards[p.path][28..28 + |p.payload|]
            && p.manifest.(shards := []) == m.(shards := []) && |p.manifest.shards| == 1
            && var now := p.manifest.shards[0];
            && now.path == sh.path && now.payloadLength == |p.payload|
            && HexDecode(now.hashHex) == Some(hs.sha256(p.payload))
            && now.headerCrc == hs.crc32c(CoveredBytes(ShardHeader(1, 28, |p.payload|))) / 256
            && now.footerCrc == hs.crc32c(hs.sha256(p.payload))
  {
    var p := PlanFor(hs, s, item);
    HexRoundTrip(hs.sha256(p.payload));
    PutManifestRecords(hs, ObjId(item.bucket, item.key), p.payload);
  }

  /**
   * Why a repair is refused. Skipped: there is nothing to repair. Unsupported: not a single-shard object
   * with a path, a length and a hash on record. Otherwise the manifest cannot be read, the file is too
   * short for its payload, or the payload is not the one on record.
   */
  lemma RefusalReasons(hs: Hashes, s: DiskState, item: RepairItem)
    ensures var p, lm := PlanFor(hs, s, item), LoadManifest(s, ObjId(item.bucket, item.key));
            && (lm.NotExist? ==> p == Refuse(Skip))
            && (lm.Unreadable? ==> p == Refuse(ManifestUnreadable))
            && (lm.Loaded? && (|lm.m.shards| != 1 || lm.m.shards[0].path == "") ==> p == Refuse(Unsupported))
            && (lm.Loaded? && |lm.m.shards| == 1 && lm.m.shards[0].path != "" ==>
                  var sh := lm.m.shards[0];
                  var n := if sh.payloadLength > 0 then sh.payloadLength else lm.m.size;
                  if item.shardPath != "" && item.shardPath != sh.path then p == Refuse(Skip)
                  else if n <= 0 then p == Refuse(Unsupported)
                  else if sh.path !in s.shards then p == Refuse(Skip)
                  else n < 0x8000_0000_0000_0000 - 64 ==>
                    var data := s.shards[sh.path];
                    if |data| < n + 64 then p == Refuse(Truncated)
                    else if HexDecode(sh.hashHex).None? || |HexDecode(sh.hashHex).value| != 32 then p == Refuse(Unsupported)
                    else if HexDecode(sh.hashHex).value != hs.sha256(data[28..28 + n]) then p == Refuse(PayloadMismatch)
                    else p.Rewrite?)
  {
  }

  /** Reading a fresh shard through any manifest that carries its payload's hash gives the payload. */
  lemma ReadFreshShard(hs: Hashes, s: DiskState, id: ObjId, payload: Bytes)
    requires |payload| < 0x8000_0000_0000_0000 - 28
    requires LoadManifest(s, id).Loaded? && LoadManifest(s, id).m.shards != []
    requires var sh := LoadManifest(s, id).m.shards[0];
             && sh.path in s.shards && s.shards[sh.path] == FreshShard(hs, payload)
             && HexDecode(sh.hashHex) == Some(hs.sha256(payload))
    ensures GetAt(hs, s, id, true) == Got(payload, |payload|, LoadManifest(s, id).m.etag)
  {
    var sh := LoadManifest(s, id).m.shards[0];
    var data := FreshShard(hs, payload);
    var h := ShardHeader(1, DEFAULT_HEADER_SIZE, |payload|);
    FreshShardIntact(hs, payload);
    assert IntactWith(hs, data, sh.hashHex, h) by { HexRoundTrip(hs.sha256(payload)); }
    VerifiedIffIntact(hs, data, sh.hashHex);
  }

  /** A planned repair leaves the shard exactly as a fresh sealed Put of the same payload would, and verifiable. */
  lemma RepairedShardIsFresh(hs: Hashes, s: DiskState, item: RepairItem)
    requires PlanFor(hs, s, item).Rewrite?
    ensures var p := PlanFor(hs, s, item);
            var after := AfterRepair(hs, s, item);
            var id := ObjId(item.bucket, item.key);
            && |p.payload| < 0x8000_0000_0000_0000
            && after.shards[p.path] == FreshShard(hs, p.payload)
            && LoadManifest(after, id) == Loaded(p.manifest)
            && (|p.payload| < 0x8000_0000_0000_0000 - 28 ==>
                  GetAt(hs, after, id, true) == Got(p.payload, |p.payload|, p.manifest.etag))
  {
    var p := PlanFor(hs, s, item);
    HexRoundTrip(hs.sha256(p.payload));
    if |p.payload| < 0x8000_0000_0000_0000 - 28 {
      ReadFreshShard(hs, AfterRepair(hs, s, item), ObjId(item.bucket, item.key), p.payload);
    }
  }

  /** A crash between the two renames still leaves the object readable with its payload. */
  lemma CrashAfterRename(hs: Hashes, s: DiskState, item: RepairItem)
    requires PlanFor(hs, s, item).Rewrite? && |PlanFor(hs, s, item).payload| < 0x8000_0000_0000_0000 - 28
    ensures var p := PlanFor(hs, s, item);
            var half := s.(shards := s.shards[p.path := FreshShard(hs, p.payload)]);
            var r := GetAt(hs, half, ObjId(item.bucket, item.key), true);
            r.Got? && r.bytes == p.payload
  {
    var p := PlanFor(hs, s, item);
    var id := ObjId(item.bucket, item.key);
    var half := s.(shards := s.shards[p.path := FreshShard(hs, p.payload)]);
    assert LoadManifest(half, id) == LoadManifest(s, id);
    ReadFreshShard(hs, half, id, p.payload);
  }

  /** Repairing twice is repairing once. */
  lemma RepairIdempotent(hs: Hashes, s: DiskState, item: RepairItem)
    requires PlanFor(hs, s, item).Rewrite? && |PlanFor(hs, s, item).payload| < 0x8000_0000_0000_0000 - 64
    ensures var after := AfterRepair(hs, s, item);
            && PlanFor(hs, after, item).Rewrite?
            && AfterRepair(hs, after, item) == after
  {
    var p := PlanFor(hs, s, item);
    var after := AfterRepair(hs, s, item);
    var data := FreshShard(hs, p.payload);
    assert data[28..28 + |p.payload|] == p.payload;
    HexRoundTrip(hs.sha256(p.payload));
    assert LoadManifest(after, ObjId(item.bucket, item.key)) == Loaded(p.manifest);
    assert after.shards[p.path := data] == after.shards;
    assert PlanFor(hs, after, item) == Rewrite(p.path, p.payload, p.manifest);
    assert after.manifests[ObjId(item.bucket, item.key) := Record(p.manifest)] == after.manifests;
  }

  /** An object without payload bytes cannot be repaired, whatever state its shard is in. */
  lemma EmptyPayloadNotRepairable(hs: Hashes, s: DiskState, item: RepairItem)
    requires LoadManifest(s, ObjId(item.bucket, item.key)).Loaded?
    requires var m := LoadManifest(s, ObjId(item.bucket, item.key)).m;
             m.size == 0 && |m.shards| == 1 && m.shards[0].payloadLength == 0
    ensures PlanFor(hs, s, item).Refuse?
    ensures item.shardPath == "" ==> PlanFor(hs, s, item) == Refuse(Unsupported)
  {
  }
}
