/** Object manifests (pkg/storage/manifest.go) as validated records, and the disk that holds shards and manifests. */
module Manifests {
  import opened Strings
  import opened Encoding

  const FORMAT_V1 := "ShardSealv1"

  datatype ObjId = ObjId(bucket: string, key: string)

  datatype ShardMeta = ShardMeta(path: string, algo: string, hashHex: string, payloadLength: i64,
                                 headerCrc: u32, footerCrc: u32)

  datatype Manifest = Manifest(version: string, bucket: string, key: string, size: i64, etag: string,
                               dataShards: int, parityShards: int, shards: seq<ShardMeta>)

  datatype ManifestError = BadVersion | MissingName | NegativeSize | BadParams

  function ValidateBasic(m: Manifest): Option<ManifestError> {
    if m.version != FORMAT_V1 then Some(BadVersion)
    else if m.bucket == "" || m.key == "" then Some(MissingName)
    else if m.size < 0 then Some(NegativeSize)
    else if m.dataShards <= 0 || m.parityShards < 0 then Some(BadParams)
    else None
  }

  function NewSingleShardManifest(id: ObjId, size: i64, etag: string, shard: ShardMeta): Manifest {
    Manifest(FORMAT_V1, id.bucket, id.key, size, etag, 1, 0, [shard])
  }

  /** What SaveManifest fills in before it validates. */
  function Completed(m: Manifest): Manifest {
    if m.version == "" then m.(version := FORMAT_V1) else m
  }

  /** A manifest file either holds a record or text that does not decode. */
  datatype ManifestFile = Record(m: Manifest) | Garbled

  /** Everything a crash could leave behind: shard files by relative path, manifest files by object,
      plain (unsealed) files by object, and the one temporary file being written. */
  datatype DiskState = DiskState(shards: map<string, Bytes>, manifests: map<ObjId, ManifestFile>,
                                 plain: map<ObjId, Bytes>, temp: Option<Bytes>)

  datatype LoadResult = Loaded(m: Manifest) | NotExist | Unreadable

  function LoadManifest(s: DiskState, id: ObjId): LoadResult {
    if id !in s.manifests then NotExist
    else match s.manifests[id]
      case Garbled => Unreadable
      case Record(m) => if ValidateBasic(m).Some? then Unreadable else Loaded(m)
  }

  /** Saving and loading apply the same checks: a record loads back exactly when SaveManifest would have stored it. */
  lemma SavedManifestLoads(s: DiskState, id: ObjId, m: Manifest)
    ensures var saved := s.(manifests := s.manifests[id := Record(Completed(m))]);
            LoadManifest(saved, id) == (if ValidateBasic(Completed(m)).None? then Loaded(Completed(m)) else Unreadable)
    ensures ValidateBasic(Completed(m)).None? ==> Completed(m).version == FORMAT_V1 && m.version in {"", FORMAT_V1}
  {
  }

  /** What a manifest must be to be saved or loaded. */
  lemma ValidManifests(m: Manifest)
    ensures ValidateBasic(m).None? <==>
              && m.version == "ShardSealv1" && m.bucket != "" && m.key != "" && m.size >= 0
              && m.dataShards >= 1 && m.parityShards >= 0
  {
  }

  /** A new manifest is valid exactly when it names an object and a size. */
  lemma NewManifestValid(id: ObjId, size: i64, etag: string, shard: ShardMeta)
    ensures ValidateBasic(NewSingleShardManifest(id, size, etag, shard)).None? <==>
              id.bucket != "" && id.key != "" && size >= 0
  {
  }

  /** objects/<bucket>/<key>/data.ss1 */
  function ShardPath(id: ObjId): string {
    "objects/" + id.bucket + "/" + id.key + "/data.ss1"
  }

  /** Objects of different names never share a shard file. */
  lemma ShardPathInjective(a: ObjId, b: ObjId)
    requires Lacks(a.bucket, '/') && Lacks(b.bucket, '/')
    requires ShardPath(a) == ShardPath(b)
    ensures a == b
  {
    var ra, rb := a.key + "/data.ss1", b.key + "/data.ss1";
    assert ShardPath(a) == "objects/" + (a.bucket + ['/'] + ra);
    assert ShardPath(b) == "objects/" + (b.bucket + ['/'] + rb);
    assert ShardPath(a)[8..] == a.bucket + ['/'] + ra;
    assert ShardPath(b)[8..] == b.bucket + ['/'] + rb;
    CutAt(a.bucket, ra, b.bucket, rb, '/');
    assert |a.key| == |b.key|;
    assert a.key == ra[..|a.key|] && b.key == rb[..|b.key|];
  }

  /**
   * A disk whose writes may fail at any point, unless it is `reliable`. `history` records the state
   * after every write attempt: these are the states a crash can leave behind.
   */
  class Disk {
    const reliable: bool
    var state: DiskState
    ghost var history: seq<DiskState>

    constructor (s: DiskState, reliable: bool)
      ensures state == s && history == [] && this.reliable == reliable
    {
      state, this.reliable := s, reliable;
      history := [];
    }

    /** Does the disk work this time? */
    method Works() returns (ok: bool)
      ensures reliable ==> ok
    {
      ok := *;
      if reliable { ok := true; }
    }

    method CreateTemp() returns (ok: bool)
      modifies this
      ensures reliable ==> ok
      ensures state == if ok then old(state).(temp := Some([])) else old(state)
      ensures history == old(history) + [state]
    {
      ok := Works();
      if ok { state := state.(temp := Some([])); }
      history := history + [state];
    }

    /** Append to the temporary file; a failing write may have written a part. */
    method WriteTemp(b: Bytes) returns (ok: bool)
      requires state.temp.Some?
      modifies this
      ensures reliable ==> ok
      ensures ok ==> state == old(state).(temp := Some(old(state).temp.value + b))
      ensures state.temp.Some? && state == old(state).(temp := state.temp)
      ensures history == old(history) + [state]
    {
      ok := Works();
      var n :| 0 <= n <= |b|;
      var written := if ok then b else b[..n];
      state := state.(temp := Some(state.temp.value + written));
      history := history + [state];
    }

    /** Overwrite the front of the temporary file. */
    method OverwriteTemp(b: Bytes) returns (ok: bool)
      requires state.temp.Some? && |b| <= |state.temp.value|
      modifies this
      ensures reliable ==> ok
      ensures ok ==> state == old(state).(temp := Some(b + old(state).temp.value[|b|..]))
      ensures state.temp.Some? && state == old(state).(temp := state.temp)
      ensures history == old(history) + [state]
    {
      ok := Works();
      var n :| 0 <= n <= |b|;
      var k := if ok then |b| else n;
      assert b[..|b|] == b;
      state := state.(temp := Some(b[..k] + state.temp.value[k..]));
      history := history + [state];
    }

    /** Atomically move the temporary file over a shard file. */
    method RenameTemp(path: string) returns (ok: bool)
      requires state.temp.Some?
      modifies this
      ensures reliable ==> ok
      ensures state == if ok then old(state).(shards := old(state).shards[path := old(state).temp.value], temp := None)
                       else old(state)
      ensures history == old(history) + [state]
    {
      ok := Works();
      if ok { state := state.(shards := state.shards[path := state.temp.value], temp := None); }
      history := history + [state];
    }

    method RemoveTemp()
      modifies this
      ensures state == old(state).(temp := None)
      ensures history == old(history) + [state]
    {
      state := state.(temp := None);
      history := history + [state];
    }

    method RemoveShard(path: string) returns (ok: bool)
      modifies this
      ensures reliable ==> ok
      ensures state == if ok then old(state).(shards := old(state).shards - {path}) else old(state)
      ensures history == old(history) + [state]
    {
      ok := Works();
      if ok { state := state.(shards := state.shards - {path}); }
      history := history + [state];
    }

    /**
     * SaveManifest: complete and validate, write a temporary file of its own, rename, sync the directory.
     * When only the sync fails the new manifest is in place although an error is returned.
     */
    method SaveManifest(id: ObjId, m: Manifest) returns (ok: bool)
      modifies this
      ensures ok ==> ValidateBasic(Completed(m)).None?
      ensures reliable && ValidateBasic(Completed(m)).None? ==> ok
      ensures ok ==> state == old(state).(manifests := old(state).manifests[id := Record(Completed(m))])
      ensures state == old(state) ||
              (ValidateBasic(Completed(m)).None? && state == old(state).(manifests := old(state).manifests[id := Record(Completed(m))]))
      ensures history == old(history) + [state]
    {
      var record := m;
      if record.version == "" { record := record.(version := FORMAT_V1); }
      if ValidateBasic(record).Some? {
        history := history + [state];
        return false;
      }
      var renamed := Works();
      var synced := Works();
      if renamed {
        state := state.(manifests := state.manifests[id := Record(record)]);
      }
      history := history + [state];
      ok := renamed && synced;
    }
  }
}
