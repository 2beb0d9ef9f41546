/** Sealed reads and writes (pkg/storage/localfs.go): Put, verified Get and Head over one shard per object. */
module SealedStore {
  import opened Strings
  import opened Encoding
  import opened Streams
  import opened ShardCodec
  import opened Manifests

  // ---------------------------------------------------------------- what a shard file must look like

  /** The file a sealed Put writes for a payload. */
  function FreshShard(hs: Hashes, payload: Bytes): Bytes
    requires |payload| < 0x8000_0000_0000_0000
  {
    FixedBytes(hs, ShardHeader(1, DEFAULT_HEADER_SIZE, |payload|)) + [0] + payload + FooterBytes(hs, hs.sha256(payload))
  }

  function FooterOffset(h: ShardHeader): i64 {
    AddI64(h.headerSize, ToI64(h.payloadLength))
  }

  /** The payload a header announces, as far as the file holds it. */
  function PayloadAt(data: Bytes, h: ShardHeader): Option<Bytes> {
    CopyFrom(data, h.headerSize, ToI64(h.payloadLength))
  }

  /**
   * A shard is intact when its bytes are, field by field, those of a header, a payload and a footer
   * that agree with each other and with the content hash in the manifest.
   */
  ghost predicate IntactWith(hs: Hashes, data: Bytes, hashHex: string, h: ShardHeader) {
    && FixedBytes(hs, h) <= data
    && PayloadAt(data, h).Some?
    && var sum := hs.sha256(PayloadAt(data, h).value);
    && 0 <= FooterOffset(h) <= |data|
    && FooterBytes(hs, sum) <= data[FooterOffset(h)..]
    && HexDecode(hashHex) == Some(sum)
  }

  ghost predicate Intact(hs: Hashes, data: Bytes, hashHex: string) {
    exists h :: IntactWith(hs, data, hashHex, h)
  }

  datatype SealCheck = Sound | SeekFailed | Broken

  /** The checks behind the header, in the order the readers make them. */
  function CheckSeal(hs: Hashes, data: Bytes, hashHex: string, h: ShardHeader, rehash: bool): SealCheck {
    var off := FooterOffset(h);
    if off < 0 then SeekFailed
    else match FooterAt(hs, Tail(data, off))
      case Err(_) => Broken
      case Ok(footer) =>
        if HexDecode(hashHex) != Some(footer.contentHash) then Broken
        else if !rehash then Sound
        else match PayloadAt(data, h)
          case None => Broken
          case Some(p) => if hs.sha256(p) != footer.contentHash then Broken else Sound
  }

  function FullyVerified(hs: Hashes, data: Bytes, hashHex: string): bool {
    HeaderAt(hs, data).Ok? && CheckSeal(hs, data, hashHex, HeaderAt(hs, data).value, true) == Sound
  }

  /** The checking procedure accepts exactly the intact byte strings: nothing else in the file matters. */
  lemma VerifiedIffIntact(hs: Hashes, data: Bytes, hashHex: string)
    ensures FullyVerified(hs, data, hashHex) <==> Intact(hs, data, hashHex)
    ensures forall h :: IntactWith(hs, data, hashHex, h) ==> HeaderAt(hs, data) == Ok(h)
  {
    if FullyVerified(hs, data, hashHex) {
      var h := HeaderAt(hs, data).value;
      AcceptedHeaderIsCanonical(hs, data);
      var tail := Tail(data, FooterOffset(h));
      AcceptedFooterIsCanonical(hs, tail);
      assert IntactWith(hs, data, hashHex, h);
    }
    forall h | IntactWith(hs, data, hashHex, h)
      ensures HeaderAt(hs, data) == Ok(h) && FullyVerified(hs, data, hashHex)
    {
      HeaderFromFixed(hs, h, data);
      var sum := hs.sha256(PayloadAt(data, h).value);
      var tail := data[FooterOffset(h)..];
      FooterRoundTrip(hs, sum, tail[FOOTER_LENGTH..]);
      assert tail == FooterBytes(hs, sum) + tail[FOOTER_LENGTH..];
    }
  }

  /** A freshly written shard is intact for its own payload, and reading it gives the payload back. */
  lemma FreshShardIntact(hs: Hashes, payload: Bytes)
    requires |payload| < 0x8000_0000_0000_0000 - 28
    ensures var h := ShardHeader(1, DEFAULT_HEADER_SIZE, |payload|);
            && IntactWith(hs, FreshShard(hs, payload), HexEncode(hs.sha256(payload)), h)
            && PayloadAt(FreshShard(hs, payload), h) == Some(payload)
            && Section(FreshShard(hs, payload), h.headerSize, |payload|) == payload
  {
    var h := ShardHeader(1, DEFAULT_HEADER_SIZE, |payload|);
    var data := FreshShard(hs, payload);
    var footer := FooterBytes(hs, hs.sha256(payload));
    HexRoundTrip(hs.sha256(payload));
    assert data[28..28 + |payload|] == payload;
    assert data[28 + |payload|..] == footer;
    assert data[28..][..|payload|] == payload;
    assert data[..27] == FixedBytes(hs, h);
  }

  // ---------------------------------------------------------------- reading

  datatype ReadError = NotFound | OpenFailed | BadHeader | SeekError | Integrity

  datatype GetResult = Got(bytes: Bytes, size: int, etag: string) | GetErr(error: ReadError)

  function ReadShard(hs: Hashes, data: Bytes, sh: ShardMeta, etag: string, verify: bool): GetResult {
    match HeaderAt(hs, data)
    case Err(_) => GetErr(BadHeader)
    case Ok(h) =>
      var got := Got(Section(data, h.headerSize, ToI64(h.payloadLength)), ToI64(h.payloadLength), etag);
      if !verify then got
      else match CheckSeal(hs, data, sh.hashHex, h, true)
        case Sound => got
        case SeekFailed => GetErr(SeekError)
        case Broken => GetErr(Integrity)
  }

  /** What Get answers in a disk state. */
  function GetAt(hs: Hashes, s: DiskState, id: ObjId, verify: bool): GetResult {
    var lm := LoadManifest(s, id);
    if lm.Loaded? && lm.m.shards != [] then
      var sh := lm.m.shards[0];
      if sh.path !in s.shards then GetErr(OpenFailed)
      else ReadShard(hs, s.shards[sh.path], sh, lm.m.etag, verify)
    else if id in s.plain then Got(s.plain[id], |s.plain[id]|, HexEncode(hs.md5(s.plain[id])))
    else GetErr(NotFound)
  }

  datatype HeadResult = HeadOk(size: int, etag: string) | HeadErr(error: ReadError)

  function HeadAt(hs: Hashes, s: DiskState, id: ObjId, verify: bool): HeadResult {
    var lm := LoadManifest(s, id);
    if lm.Loaded? && lm.m.shards != [] then
      var sh := lm.m.shards[0];
      if !verify then HeadOk(lm.m.size, lm.m.etag)
      else if sh.path !in s.shards then HeadErr(OpenFailed)
      else match HeaderAt(hs, s.shards[sh.path])
        case Err(_) => HeadErr(Integrity)
        case Ok(h) => match CheckSeal(hs, s.shards[sh.path], sh.hashHex, h, false)
          case Sound => HeadOk(lm.m.size, lm.m.etag)
          case SeekFailed => HeadErr(SeekError)
          case Broken => HeadErr(Integrity)
    else if id in s.plain then HeadOk(|s.plain[id]|, HexEncode(hs.md5(s.plain[id])))
    else HeadErr(NotFound)
  }

  datatype RepairItem = RepairItem(bucket: string, key: string, shardPath: string, reason: string)

  datatype PutResult = PutOk(etag: string, size: int) | PutErr

  /** The manifest a sealed Put saves. */
  function PutManifest(hs: Hashes, id: ObjId, payload: Bytes): Manifest
    requires |payload| < 0x8000_0000_0000_0000
  {
    var sum := hs.sha256(payload);
    var header := FixedBytes(hs, ShardHeader(1, DEFAULT_HEADER_SIZE, |payload|)) + [0];
    var footer := FooterBytes(hs, sum);
    NewSingleShardManifest(id, |payload|, HexEncode(hs.md5(payload)),
      ShardMeta(ShardPath(id), "sha256", HexEncode(sum), |payload|, LastFour(header), LastFour(footer)))
  }

  /** binary.LittleEndian.Uint32 of the last four bytes. */
  function LastFour(b: Bytes): u32
    requires |b| >= 4
  {
    FromLeBound(b[|b| - 4..]);
    Widths();
    FromLe(b[|b| - 4..])
  }

  /** The state a successful Put leaves. */
  function AfterPut(hs: Hashes, before: DiskState, id: ObjId, payload: Bytes): DiskState
    requires |payload| < 0x8000_0000_0000_0000
  {
    before.(shards := before.shards[ShardPath(id) := FreshShard(hs, payload)],
            manifests := before.manifests[id := Record(PutManifest(hs, id, payload))])
  }

  /** The answer a reader may see while `payload` is being written over what `before` holds. */
  ghost predicate Untorn(hs: Hashes, before: DiskState, now: DiskState, id: ObjId, payload: Bytes) {
    var r := GetAt(hs, now, id, true);
    r.GetErr? || r == GetAt(hs, before, id, true) || (r.Got? && r.bytes == payload)
  }

  /** The same shards, manifests and plain files. */
  ghost predicate Durably(before: DiskState, now: DiskState) {
    now.plain == before.plain && now.shards == before.shards && now.manifests == before.manifests
  }

  /** The manifests of a Put: the old ones, or with its own added. */
  ghost predicate PutManifests(hs: Hashes, before: DiskState, now: DiskState, id: ObjId, payload: Bytes)
    requires |payload| < 0x8000_0000_0000_0000
  {
    var m := PutManifest(hs, id, payload);
    || now.manifests == before.manifests
    || (ValidateBasic(m).None? && now.manifests == before.manifests[id := Record(m)])
  }

  /** The new shard is in place. */
  ghost predicate ShardReplaced(hs: Hashes, before: DiskState, now: DiskState, id: ObjId, payload: Bytes)
    requires |payload| < 0x8000_0000_0000_0000
  {
    && now.plain == before.plain && now.shards == before.shards[ShardPath(id) := FreshShard(hs, payload)]
    && PutManifests(hs, before, now, id, payload)
  }

  /** The rollback has taken the shard away. */
  ghost predicate ShardGone(hs: Hashes, before: DiskState, now: DiskState, id: ObjId, payload: Bytes)
    requires |payload| < 0x8000_0000_0000_0000
  {
    && now.plain == before.plain && now.shards == before.shards - {ShardPath(id)}
    && PutManifests(hs, before, now, id, payload)
  }

  /**
   * What a Put may have changed so far: nothing, or its own shard file (replaced, or removed by the
   * rollback) and after that perhaps its own manifest.
   */
  ghost predicate PutFrame(hs: Hashes, before: DiskState, now: DiskState, id: ObjId, payload: Bytes)
    requires |payload| < 0x8000_0000_0000_0000
  {
    || Durably(before, now)
    || ShardReplaced(hs, before, now, id, payload)
    || ShardGone(hs, before, now, id, payload)
  }

  /** Every state in the frame of a Put is untorn. */
  lemma PutNeverTorn(hs: Hashes, before: DiskState, now: DiskState, id: ObjId, payload: Bytes)
    requires |payload| < 0x8000_0000_0000_0000 - 28
    requires PutFrame(hs, before, now, id, payload)
    ensures Untorn(hs, before, now, id, payload)
  {
    var path := ShardPath(id);
    var data := FreshShard(hs, payload);
    var h := ShardHeader(1, DEFAULT_HEADER_SIZE, |payload|);
    FreshShardIntact(hs, payload);
    HeaderFromFixed(hs, h, data);
    if now.manifests != before.manifests {
      assert LoadManifest(now, id) == Loaded(PutManifest(hs, id, payload));
    } else {
      assert LoadManifest(now, id) == LoadManifest(before, id);
    }
  }

  // ---------------------------------------------------------------- the program

  /**
   * How a Put ended: stored; nothing durable done; or failed after the rename, with the shard taken
   * away again or (when that failed too) left, under the old manifest or (when only the sync of the
   * directory failed) under the new one.
   */
  datatype Fate = Stored | NothingDone | RolledBack(newManifest: bool) | Stuck(newManifest: bool)

  /** What each ending leaves on disk. */
  ghost predicate Ended(hs: Hashes, before: DiskState, now: DiskState, id: ObjId, payload: Bytes, fate: Fate)
    requires |payload| < 0x8000_0000_0000_0000
  {
    var m := PutManifest(hs, id, payload);
    var newManifests := before.manifests[id := Record(m)];
    match fate
    case Stored =>
      && ValidateBasic(m).None? && now.manifests == newManifests
      && now.plain == before.plain && now.shards == before.shards[ShardPath(id) := FreshShard(hs, payload)]
    case NothingDone => Durably(before, now)
    case RolledBack(saved) =>
      ShardGone(hs, before, now, id, payload) && now.manifests == if saved then newManifests else before.manifests
    case Stuck(saved) =>
      ShardReplaced(hs, before, now, id, payload) && now.manifests == if saved then newManifests else before.manifests
  }

  /** The header the encoder makes for a payload is the 28 bytes at the front of its fresh shard. */
  lemma EncodedHeader(hs: Hashes, body: Bytes)
    requires |body| < 0x8000_0000_0000_0000
    ensures HeaderBytes(hs, ShardHeader(1, 0, |body|)) == Ok(FixedBytes(hs, ShardHeader(1, DEFAULT_HEADER_SIZE, |body|)) + [0])
    ensures FreshShard(hs, body) ==
            FixedBytes(hs, ShardHeader(1, DEFAULT_HEADER_SIZE, |body|)) + [0] + (body + FooterBytes(hs, hs.sha256(body)))
  {
    assert Zeros(1) == [0];
  }

  /** Writing the header over the reserved space leaves payload and footer behind it. */
  lemma HeaderOverReserve(header: Bytes, body: Bytes, footer: Bytes)
    requires |header| == DEFAULT_HEADER_SIZE
    ensures header + ([] + Zeros(DEFAULT_HEADER_SIZE) + body + footer)[|header|..] == header + (body + footer)
  {
  }

  class SealedFS {
    const hs: Hashes
    const disk: Disk
    const verifyOnRead: bool
    /** Items handed to the repair callback, oldest first. */
    var repairs: seq<RepairItem>

    constructor (hs: Hashes, disk: Disk, verifyOnRead: bool)
      ensures this.hs == hs && this.disk == disk && this.verifyOnRead == verifyOnRead && repairs == []
    {
      this.hs, this.disk, this.verifyOnRead, repairs := hs, disk, verifyOnRead, [];
    }

    /**
     * Sealed Put. `body` is what the reader delivers before it ends or fails. Any step may fail;
     * every state on the way lies in the frame, so by `PutNeverTorn` a verified Get answers with the
     * old object, the complete new one, or an error.
     */
    method Put(id: ObjId, body: Bytes, readFails: bool) returns (r: PutResult, ghost fate: Fate)
      requires |body| < 0x8000_0000_0000_0000 - 28
      modifies disk
      ensures |disk.history| >= |old(disk.history)|
      ensures forall i :: |old(disk.history)| <= i < |disk.history| ==>
                            PutFrame(hs, old(disk.state), disk.history[i], id, body)
      ensures r.PutOk? ==>
                && id.bucket != "" && id.key != "" && !readFails
                && r == PutOk(HexEncode(hs.md5(body)), |body|)
                && disk.state == AfterPut(hs, old(disk.state), id, body).(temp := None)
      ensures Ended(hs, old(disk.state), disk.state, id, body, fate) && (r.PutOk? <==> fate == Stored)
      ensures readFails || id.bucket == "" ==> fate == NothingDone
      ensures disk.reliable && !readFails && id.bucket != "" ==> fate == if id.key != "" then Stored else RolledBack(false)
    {
      ghost var before := disk.state;
      fate := NothingDone;
      if id.bucket == "" { return PutErr, fate; }
      var ok := disk.CreateTemp();
      if !ok { return PutErr, fate; }
      var sealed := WriteSealed(body, readFails);
      if sealed.None? {
        disk.RemoveTemp();
        return PutErr, fate;
      }
      var (header, footer) := sealed.value;
      var shard := ShardMeta(ShardPath(id), "sha256", HexEncode(hs.sha256(body)), |body|,
                             LastFour(header), LastFour(footer));
      var man := NewSingleShardManifest(id, |body|, HexEncode(hs.md5(body)), shard);
      assert man == PutManifest(hs, id, body);
      ok, fate := Publish(id, man, body, before);
      if !ok { return PutErr, fate; }
      return PutOk(HexEncode(hs.md5(body)), |body|), fate;
    }

    /** Rename the sealed file into place, then save the manifest, or take the file away again. */
    method Publish(id: ObjId, man: Manifest, ghost body: Bytes, ghost before: DiskState) returns (ok: bool, ghost fate: Fate)
      requires |body| < 0x8000_0000_0000_0000 - 28
      requires man == PutManifest(hs, id, body)
      requires disk.state == before.(temp := Some(FreshShard(hs, body)))
      modifies disk
      ensures old(disk.history) <= disk.history
      ensures forall i :: |old(disk.history)| <= i < |disk.history| ==> PutFrame(hs, before, disk.history[i], id, body)
      ensures Ended(hs, before, disk.state, id, body, fate) && (ok <==> fate == Stored)
      ensures ok ==> disk.state.temp.None?
      ensures disk.reliable && id.bucket != "" ==> fate == if id.key != "" then Stored else RolledBack(false)
    {
      ok := disk.RenameTemp(ShardPath(id));
      if !ok {
        disk.RemoveTemp();
        fate := NothingDone;
        return;
      }
      assert PutFrame(hs, before, disk.state, id, body);
      ok := disk.SaveManifest(id, man);
      assert PutFrame(hs, before, disk.state, id, body);
      fate := Stored;
      if !ok {
        // roll back the data file
        ghost var saved := disk.state.manifests != before.manifests;
        var removed := disk.RemoveShard(ShardPath(id));
        assert before.shards[ShardPath(id) := FreshShard(hs, body)] - {ShardPath(id)} == before.shards - {ShardPath(id)};
        fate := if removed then RolledBack(saved) else Stuck(saved);
      }
    }

    /** Fill the temporary file: reserve the header, stream the payload, add the footer, then write the header. */
    method WriteSealed(body: Bytes, readFails: bool) returns (r: Option<(Bytes, Bytes)>)
      requires |body| < 0x8000_0000_0000_0000 - 28
      requires disk.state.temp == Some([])
      modifies disk
      ensures disk.state.temp.Some? && disk.state == old(disk.state).(temp := disk.state.temp)
      ensures old(disk.history) <= disk.history
      ensures forall i :: |old(disk.history)| <= i < |disk.history| ==>
                disk.history[i] == old(disk.state).(temp := disk.history[i].temp)
      ensures disk.reliable && !readFails ==> r.Some?
      ensures r.Some? ==>
                && !readFails
                && disk.state.temp == Some(FreshShard(hs, body))
                && r.value == (FixedBytes(hs, ShardHeader(1, DEFAULT_HEADER_SIZE, |body|)) + [0],
                               FooterBytes(hs, hs.sha256(body)))
    {
      var ok := disk.WriteTemp(Zeros(DEFAULT_HEADER_SIZE));
      if !ok { return None; }
      ok := disk.WriteTemp(body);
      if !ok || readFails { return None; }
      var footer := EncodeShardFooter(hs, hs.sha256(body));
      ok := disk.WriteTemp(footer);
      if !ok { return None; }
      var header := EncodeShardHeader(hs, ShardHeader(1, 0, |body|));
      if header.Err? { return None; }
      ok := disk.OverwriteTemp(header.value);
      if !ok { return None; }
      EncodedHeader(hs, body);
      HeaderOverReserve(header.value, body, footer);
      return Some((header.value, footer));
    }

    method EnqueueRepair(id: ObjId, path: string)
      modifies this
      ensures repairs == old(repairs) + [RepairItem(id.bucket, id.key, path, "read_integrity_fail")]
    {
      repairs := repairs + [RepairItem(id.bucket, id.key, path, "read_integrity_fail")];
    }

    /** Get: answers as `GetAt` says and hands the shard to repair exactly on a format or integrity failure. */
    method Get(id: ObjId) returns (r: GetResult)
      modifies this
      ensures r == GetAt(hs, disk.state, id, verifyOnRead)
      ensures repairs == if r.GetErr? && r.error in {BadHeader, Integrity}
                         then old(repairs) + [RepairItem(id.bucket, id.key, LoadManifest(disk.state, id).m.shards[0].path,
                                                         "read_integrity_fail")]
                         else old(repairs)
    {
      var lm := LoadManifest(disk.state, id);
      if lm.Loaded? && |lm.m.shards| > 0 {
        var shard := lm.m.shards[0];
        if shard.path !in disk.state.shards { return GetErr(OpenFailed); }
        var data := disk.state.shards[shard.path];
        var f := new ByteReader(data);
        var decoded := DecodeShardHeader(hs, f);
        if decoded.Err? {
          EnqueueRepair(id, shard.path);
          return GetErr(BadHeader);
        }
        var hdr := decoded.value;
        if verifyOnRead {
          var footerOff := AddI64(hdr.headerSize, ToI64(hdr.payloadLength));
          var ok := f.Seek(footerOff);
          if !ok { return GetErr(SeekError); }
          var footer := DecodeShardFooter(hs, f);
          if footer.Err? {
            EnqueueRepair(id, shard.path);
            return GetErr(Integrity);
          }
          var want := HexDecode(shard.hashHex);
          if want.None? || |want.value| != 32 {
            EnqueueRepair(id, shard.path);
            return GetErr(Integrity);
          }
          if want.value != footer.value.contentHash {
            EnqueueRepair(id, shard.path);
            return GetErr(Integrity);
          }
          ok := f.Seek(hdr.headerSize);
          var payload := f.CopyN(ToI64(hdr.payloadLength));
          if payload.None? {
            // A short payload: the program reports it, but the footer behind it has already been read.
            assert false;
          }
          if hs.sha256(payload.value) != footer.value.contentHash {
            EnqueueRepair(id, shard.path);
            return GetErr(Integrity);
          }
        }
        var size := ToI64(hdr.payloadLength);
        return Got(Section(data, hdr.headerSize, size), size, lm.m.etag);
      }
      if id !in disk.state.plain { return GetErr(NotFound); }
      var plain := disk.state.plain[id];
      return Got(plain, |plain|, HexEncode(hs.md5(plain)));
    }

    /** Head: the light check, which trusts the footer and does not hash the payload. */
    method Head(id: ObjId) returns (r: HeadResult)
      modifies this
      ensures r == HeadAt(hs, disk.state, id, verifyOnRead)
      ensures repairs == if r.HeadErr? && r.error == Integrity
                         then old(repairs) + [RepairItem(id.bucket, id.key, LoadManifest(disk.state, id).m.shards[0].path,
                                                         "read_integrity_fail")]
                         else old(repairs)
    {
      var lm := LoadManifest(disk.state, id);
      if lm.Loaded? && |lm.m.shards| > 0 {
        if verifyOnRead {
          var shard := lm.m.shards[0];
          if shard.path !in disk.state.shards { return HeadErr(OpenFailed); }
          var f := new ByteReader(disk.state.shards[shard.path]);
          var decoded := DecodeShardHeader(hs, f);
          if decoded.Err? {
            EnqueueRepair(id, shard.path);
            return HeadErr(Integrity);
          }
          var hdr := decoded.value;
          var ok := f.Seek(AddI64(hdr.headerSize, ToI64(hdr.payloadLength)));
          if !ok { return HeadErr(SeekError); }
          var footer := DecodeShardFooter(hs, f);
          if footer.Err? {
            EnqueueRepair(id, shard.path);
            return HeadErr(Integrity);
          }
          var want := HexDecode(shard.hashHex);
          if want.None? || want.value != footer.value.contentHash {
            EnqueueRepair(id, shard.path);
            return HeadErr(Integrity);
          }
        }
        return HeadOk(lm.m.size, lm.m.etag);
      }
      if id !in disk.state.plain { return HeadErr(NotFound); }
      var plain := disk.state.plain[id];
      return HeadOk(|plain|, HexEncode(hs.md5(plain)));
    }
  }

  // ---------------------------------------------------------------- what a verified read guarantees

  lemma SectionIsCopy(data: Bytes, off: nat, n: int)
    requires n >= 0 && CopyFrom(data, off, n).Some?
    ensures Section(data, off, n) == CopyFrom(data, off, n).value
  {
    if n > 0 {
      assert data[off..][..n] == data[off..off + n];
    }
  }

  /** The bytes a section delivers are the ones that were hashed, except where a negative length opens it to the end of the file. */
  lemma SectionMatchesCopy(data: Bytes, off: nat, n: int)
    requires CopyFrom(data, off, n).Some?
    ensures Section(data, off, n) == CopyFrom(data, off, n).value <==> n >= 0 || |data| <= off
  {
    if n >= 0 { SectionIsCopy(data, off, n); }
  }

  /**
   * A verified Get of a sealed object succeeds exactly on an intact shard. The bytes it returns are
   * those whose hash it compared with the manifest's, and as many as it announces, exactly when the
   * header announces a length below 2^63 or nothing follows the header.
   */
  lemma VerifiedGet(hs: Hashes, s: DiskState, id: ObjId)
    requires LoadManifest(s, id).Loaded? && LoadManifest(s, id).m.shards != []
    ensures var sh := LoadManifest(s, id).m.shards[0];
            var r := GetAt(hs, s, id, true);
            && (r.Got? <==> sh.path in s.shards && Intact(hs, s.shards[sh.path], sh.hashHex))
            && (r.Got? ==>
                  var data := s.shards[sh.path];
                  && HeaderAt(hs, data).Ok?
                  && var h := HeaderAt(hs, data).value;
                  && PayloadAt(data, h).Some? && HexDecode(sh.hashHex) == Some(hs.sha256(PayloadAt(data, h).value))
                  && (r.bytes == PayloadAt(data, h).value <==> ToI64(h.payloadLength) >= 0 || |data| <= h.headerSize)
                  && (r.size >= 0 ==> |r.bytes| == r.size))
  {
    var sh := LoadManifest(s, id).m.shards[0];
    if sh.path in s.shards {
      var data := s.shards[sh.path];
      VerifiedIffIntact(hs, data, sh.hashHex);
      if FullyVerified(hs, data, sh.hashHex) {
        var h := HeaderAt(hs, data).value;
        SectionMatchesCopy(data, h.headerSize, ToI64(h.payloadLength));
      }
    }
  }

  /**
   * A shard of the empty payload with arbitrary bytes behind it: its header announces 2^64 - 36 bytes,
   * which wraps to -36, so the footer is looked for inside the 63 header bytes.
   */
  function OpenEndedShard(hs: Hashes, extra: Bytes): Bytes {
    FixedBytes(hs, ShardHeader(1, 63, 0xFFFF_FFFF_FFFF_FFDC)) + FooterBytes(hs, hs.sha256([])) + extra
  }

  /** Such a file passes every check, and a verified Get hands out the bytes behind it. */
  lemma OpenEndedShardIsServed(hs: Hashes, s: DiskState, id: ObjId, extra: Bytes)
    requires LoadManifest(s, id).Loaded? && LoadManifest(s, id).m.shards != []
    requires var sh := LoadManifest(s, id).m.shards[0];
             && sh.path in s.shards && s.shards[sh.path] == OpenEndedShard(hs, extra)
             && HexDecode(sh.hashHex) == Some(hs.sha256([]))
    ensures GetAt(hs, s, id, true) == Got(extra, -36, LoadManifest(s, id).m.etag)
  {
    var sh := LoadManifest(s, id).m.shards[0];
    var data, h := OpenEndedShard(hs, extra), ShardHeader(1, 63, 0xFFFF_FFFF_FFFF_FFDC);
    var footer := FooterBytes(hs, hs.sha256([]));
    assert data[27..] == footer + extra;
    assert data[63..] == extra;
    assert FooterOffset(h) == 27 && PayloadAt(data, h) == Some([]);
    assert IntactWith(hs, data, sh.hashHex, h);
    VerifiedIffIntact(hs, data, sh.hashHex);
  }

  /** The disk after an object's shard file was replaced. */
  function Tampered(s: DiskState, id: ObjId, file: Bytes): DiskState {
    s.(shards := s.shards[ShardPath(id) := file])
  }

  /** A verified Get answers with the original payload or an error. */
  ghost predicate Detected(hs: Hashes, s: DiskState, id: ObjId, payload: Bytes, file: Bytes) {
    var r := GetAt(hs, Tampered(s, id, file), id, true);
    r.GetErr? || r.bytes == payload
  }

  ghost predicate OnlyPreimage(hs: Hashes, payload: Bytes) {
    forall other :: hs.sha256(other) == hs.sha256(payload) ==> other == payload
  }

  lemma NonEmptyTamperingIsDetected(hs: Hashes, s: DiskState, id: ObjId, payload: Bytes, file: Bytes)
    requires 0 < |payload| < 0x8000_0000_0000_0000 && OnlyPreimage(hs, payload)
    requires id.bucket != "" && id.key != "" && id in s.manifests && s.manifests[id] == Record(PutManifest(hs, id, payload))
    ensures Detected(hs, s, id, payload, file)
  {
    var now := Tampered(s, id, file);
    HexRoundTrip(hs.sha256(payload));
    assert LoadManifest(now, id) == Loaded(PutManifest(hs, id, payload));
    VerifiedGet(hs, now, id);
  }

  /**
   * Provided no other payload has the same hash: every replacement of the stored shard file yields the
   * original payload or an error exactly when the payload is not empty.
   */
  lemma TamperingIsDetected(hs: Hashes, s: DiskState, id: ObjId, payload: Bytes)
    requires |payload| < 0x8000_0000_0000_0000 && OnlyPreimage(hs, payload)
    requires id.bucket != "" && id.key != "" && id in s.manifests && s.manifests[id] == Record(PutManifest(hs, id, payload))
    ensures (forall file :: Detected(hs, s, id, payload, file)) <==> payload != []
  {
    if payload != [] {
      forall file ensures Detected(hs, s, id, payload, file) {
        NonEmptyTamperingIsDetected(hs, s, id, payload, file);
      }
    } else {
      var file := OpenEndedShard(hs, [0]);
      var now := Tampered(s, id, file);
      HexRoundTrip(hs.sha256([]));
      assert LoadManifest(now, id) == Loaded(PutManifest(hs, id, payload));
      OpenEndedShardIsServed(hs, now, id, [0]);
      assert !Detected(hs, s, id, payload, file);
    }
  }

  /** For a key that was absent, the states of a Put show nothing or the complete new object. */
  lemma AbsentStaysAbsentOrNew(hs: Hashes, before: DiskState, now: DiskState, id: ObjId, payload: Bytes)
    requires |payload| < 0x8000_0000_0000_0000 - 28
    requires PutFrame(hs, before, now, id, payload)
    requires GetAt(hs, before, id, true).GetErr?
    ensures var r := GetAt(hs, now, id, true); r.GetErr? || r.bytes == payload
  {
    PutNeverTorn(hs, before, now, id, payload);
  }

  /** A read after a successful Put returns exactly what was put. */
  lemma ReadYourWrite(hs: Hashes, before: DiskState, id: ObjId, payload: Bytes, verify: bool)
    requires |payload| < 0x8000_0000_0000_0000 - 28
    requires id.bucket != "" && id.key != ""
    ensures GetAt(hs, AfterPut(hs, before, id, payload), id, verify) == Got(payload, |payload|, HexEncode(hs.md5(payload)))
  {
    var after := AfterPut(hs, before, id, payload);
    var data, hex := FreshShard(hs, payload), HexEncode(hs.sha256(payload));
    FreshShardIntact(hs, payload);
    VerifiedIffIntact(hs, data, hex);
    assert LoadManifest(after, id) == Loaded(PutManifest(hs, id, payload));
  }

  /** What the manifest of a Put records: the payload's length and hashes, and the two checksums of its shard. */
  lemma PutManifestRecords(hs: Hashes, id: ObjId, payload: Bytes)
    requires |payload| < 0x8000_0000_0000_0000
    ensures var m := PutManifest(hs, id, payload);
            && m.bucket == id.bucket && m.key == id.key && m.size == |payload| && m.etag == HexEncode(hs.md5(payload))
            && |m.shards| == 1
            && var sh := m.shards[0];
            && sh.path == ShardPath(id) && sh.payloadLength == |payload| && HexDecode(sh.hashHex) == Some(hs.sha256(payload))
            && sh.headerCrc == hs.crc32c(CoveredBytes(ShardHeader(1, 28, |payload|))) / 256
            && sh.footerCrc == hs.crc32c(hs.sha256(payload))
  {
    var h, sum := ShardHeader(1, 0, |payload|), hs.sha256(payload);
    HexRoundTrip(sum);
    LastFourHeaderBytes(hs, h);
    EncodedHeader(hs, payload);
    Widths();
    LeRoundTrip(hs.crc32c(sum), 4);
    assert FooterBytes(hs, sum)[32..] == Le(hs.crc32c(sum), 4);
  }

  // ---------------------------------------------------------------- Head, and reads without a manifest

  /** The light check: header and footer are in order and the footer carries the manifest's hash. The payload is not looked at. */
  ghost predicate LooksSound(hs: Hashes, data: Bytes, hashHex: string, h: ShardHeader, sum: Digest) {
    && FixedBytes(hs, h) <= data
    && 0 <= FooterOffset(h) <= |data| && FooterBytes(hs, sum) <= data[FooterOffset(h)..]
    && HexDecode(hashHex) == Some(sum)
  }

  lemma LightCheckIff(hs: Hashes, data: Bytes, hashHex: string)
    ensures HeaderAt(hs, data).Ok? && CheckSeal(hs, data, hashHex, HeaderAt(hs, data).value, false) == Sound
            <==> exists h, sum :: LooksSound(hs, data, hashHex, h, sum)
  {
    if HeaderAt(hs, data).Ok? {
      var h := HeaderAt(hs, data).value;
      AcceptedHeaderIsCanonical(hs, data);
      if CheckSeal(hs, data, hashHex, h, false) == Sound {
        var tail := Tail(data, FooterOffset(h));
        AcceptedFooterIsCanonical(hs, tail);
        assert LooksSound(hs, data, hashHex, h, FooterAt(hs, tail).value.contentHash);
      }
    }
    if h, sum :| LooksSound(hs, data, hashHex, h, sum) {
      HeaderFromFixed(hs, h, data);
      var tail := data[FooterOffset(h)..];
      FooterRoundTrip(hs, sum, tail[FOOTER_LENGTH..]);
      assert tail == FooterBytes(hs, sum) + tail[FOOTER_LENGTH..];
    }
  }

  /**
   * Head of a sealed object answers with the size and ETag on record; with verification exactly when the
   * light check passes, so whenever a verified Get succeeds and with the same ETag.
   */
  lemma HeadOfSealed(hs: Hashes, s: DiskState, id: ObjId)
    requires LoadManifest(s, id).Loaded? && LoadManifest(s, id).m.shards != []
    ensures var m := LoadManifest(s, id).m;
            var sh := m.shards[0];
            && HeadAt(hs, s, id, false) == HeadOk(m.size, m.etag)
            && (HeadAt(hs, s, id, true).HeadOk? <==>
                  sh.path in s.shards && exists h, sum :: LooksSound(hs, s.shards[sh.path], sh.hashHex, h, sum))
            && (HeadAt(hs, s, id, true).HeadOk? ==> HeadAt(hs, s, id, true) == HeadOk(m.size, m.etag))
            && (GetAt(hs, s, id, true).Got? ==> HeadAt(hs, s, id, true) == HeadOk(m.size, GetAt(hs, s, id, true).etag))
  {
    var sh := LoadManifest(s, id).m.shards[0];
    if sh.path in s.shards { LightCheckIff(hs, s.shards[sh.path], sh.hashHex); }
  }

  /** Head after a successful Put, verifying or not: the payload's length and md5, the size and ETag that Get reports too. */
  lemma HeadYourWrite(hs: Hashes, before: DiskState, id: ObjId, payload: Bytes, verify: bool)
    requires |payload| < 0x8000_0000_0000_0000 - 28 && id.bucket != "" && id.key != ""
    ensures var r := HeadAt(hs, AfterPut(hs, before, id, payload), id, verify);
            && r == HeadOk(|payload|, HexEncode(hs.md5(payload)))
            && GetAt(hs, AfterPut(hs, before, id, payload), id, verify) == Got(payload, r.size, r.etag)
  {
    var after := AfterPut(hs, before, id, payload);
    ReadYourWrite(hs, before, id, payload, verify);
    ReadYourWrite(hs, before, id, payload, true);
    assert LoadManifest(after, id) == Loaded(PutManifest(hs, id, payload));
    HeadOfSealed(hs, after, id);
  }

  /** Why a verified Get or Head fails; damage that a repair could undo is reported as BadHeader or Integrity. */
  lemma WhyReadsFail(hs: Hashes, s: DiskState, id: ObjId)
    requires LoadManifest(s, id).Loaded? && LoadManifest(s, id).m.shards != []
    ensures var sh := LoadManifest(s, id).m.shards[0];
            var get, head := GetAt(hs, s, id, true), HeadAt(hs, s, id, true);
            if sh.path !in s.shards then get == GetErr(OpenFailed) && head == HeadErr(OpenFailed)
            else
              var data := s.shards[sh.path];
              && ((forall h :: !(FixedBytes(hs, h) <= data)) ==> get == GetErr(BadHeader) && head == HeadErr(Integrity))
              && forall h :: FixedBytes(hs, h) <= data ==>
                   if FooterOffset(h) < 0 then get == GetErr(SeekError) && head == HeadErr(SeekError)
                   else
                     && (get.Got? || get == GetErr(Integrity)) && (head.HeadOk? || head == HeadErr(Integrity))
                     && (get.Got? <==> Intact(hs, data, sh.hashHex))
  {
    var sh := LoadManifest(s, id).m.shards[0];
    if sh.path in s.shards {
      var data := s.shards[sh.path];
      VerifiedGet(hs, s, id);
      if HeaderAt(hs, data).Ok? { AcceptedHeaderIsCanonical(hs, data); }
      forall h | FixedBytes(hs, h) <= data ensures HeaderAt(hs, data) == Ok(h) {
        HeaderFromFixed(hs, h, data);
      }
    }
  }

  /** Without verification a Get needs a readable header and nothing else. */
  lemma UnverifiedGet(hs: Hashes, s: DiskState, id: ObjId)
    requires LoadManifest(s, id).Loaded? && LoadManifest(s, id).m.shards != []
    ensures var sh := LoadManifest(s, id).m.shards[0];
            GetAt(hs, s, id, false).Got? <==> sh.path in s.shards && exists h :: FixedBytes(hs, h) <= s.shards[sh.path]
  {
    var sh := LoadManifest(s, id).m.shards[0];
    if sh.path in s.shards {
      var data := s.shards[sh.path];
      if HeaderAt(hs, data).Ok? { AcceptedHeaderIsCanonical(hs, data); }
      if h :| FixedBytes(hs, h) <= data { HeaderFromFixed(hs, h, data); }
    }
  }

  /** An object without a readable manifest, or with one that lists no shard, is read as a plain file. */
  lemma ReadPlain(hs: Hashes, s: DiskState, id: ObjId, verify: bool)
    requires LoadManifest(s, id).Loaded? ==> LoadManifest(s, id).m.shards == []
    ensures id in s.plain ==>
              && GetAt(hs, s, id, verify) == Got(s.plain[id], |s.plain[id]|, HexEncode(hs.md5(s.plain[id])))
              && HeadAt(hs, s, id, verify) == HeadOk(|s.plain[id]|, HexEncode(hs.md5(s.plain[id])))
    ensures id !in s.plain ==> GetAt(hs, s, id, verify) == GetErr(NotFound) && HeadAt(hs, s, id, verify) == HeadErr(NotFound)
  {
  }

  // ---------------------------------------------------------------- what a Put leaves of the object it overwrites

  /** The object is stored under its own shard path and readable. */
  ghost predicate Readable(hs: Hashes, s: DiskState, id: ObjId) {
    && LoadManifest(s, id).Loaded? && LoadManifest(s, id).m.shards != []
    && LoadManifest(s, id).m.shards[0].path == ShardPath(id)
    && GetAt(hs, s, id, true).Got?
  }

  /** Whether the old manifest carries the hash of the new payload. */
  ghost predicate SameHash(hs: Hashes, before: DiskState, id: ObjId, payload: Bytes)
    requires Readable(hs, before, id)
  {
    HexDecode(LoadManifest(before, id).m.shards[0].hashHex) == Some(hs.sha256(payload))
  }

  lemma ReadUntouched(hs: Hashes, before: DiskState, now: DiskState, id: ObjId)
    requires Durably(before, now)
    ensures GetAt(hs, now, id, true) == GetAt(hs, before, id, true)
  {
    assert LoadManifest(now, id) == LoadManifest(before, id);
  }

  lemma ReadWithoutShard(hs: Hashes, before: DiskState, now: DiskState, id: ObjId, payload: Bytes)
    requires |payload| < 0x8000_0000_0000_0000 && Readable(hs, before, id) && ShardGone(hs, before, now, id, payload)
    ensures GetAt(hs, now, id, true) == GetErr(OpenFailed)
  {
    if now.manifests == before.manifests {
      assert LoadManifest(now, id) == LoadManifest(before, id);
    } else {
      assert LoadManifest(now, id) == Loaded(PutManifest(hs, id, payload));
    }
  }

  lemma ReadReplaced(hs: Hashes, before: DiskState, now: DiskState, id: ObjId, payload: Bytes)
    requires |payload| < 0x8000_0000_0000_0000 - 28 && Readable(hs, before, id) && ShardReplaced(hs, before, now, id, payload)
    ensures now.manifests == before.manifests ==>
              GetAt(hs, now, id, true) == (if SameHash(hs, before, id, payload)
                                           then Got(payload, |payload|, LoadManifest(before, id).m.etag) else GetErr(Integrity))
    ensures now.manifests != before.manifests ==>
              GetAt(hs, now, id, true) == Got(payload, |payload|, HexEncode(hs.md5(payload)))
  {
    var h := ShardHeader(1, DEFAULT_HEADER_SIZE, |payload|);
    FreshShardIntact(hs, payload);
    HeaderFromFixed(hs, h, FreshShard(hs, payload));
    if now.manifests == before.manifests {
      var sh := LoadManifest(before, id).m.shards[0];
      assert LoadManifest(now, id) == LoadManifest(before, id);
      FreshShardUnder(hs, payload, sh.hashHex);
    } else {
      assert LoadManifest(now, id) == Loaded(PutManifest(hs, id, payload));
      HexRoundTrip(hs.sha256(payload));
      FreshShardUnder(hs, payload, HexEncode(hs.sha256(payload)));
    }
  }

  /** A fresh shard is sound under exactly the manifests that carry its payload's hash; otherwise the integrity check fails. */
  lemma FreshShardUnder(hs: Hashes, payload: Bytes, hashHex: string)
    requires |payload| < 0x8000_0000_0000_0000 - 28
    ensures var h := ShardHeader(1, DEFAULT_HEADER_SIZE, |payload|);
            CheckSeal(hs, FreshShard(hs, payload), hashHex, h, true) ==
              if HexDecode(hashHex) == Some(hs.sha256(payload)) then Sound else Broken
  {
    var h := ShardHeader(1, DEFAULT_HEADER_SIZE, |payload|);
    var data, footer := FreshShard(hs, payload), FooterBytes(hs, hs.sha256(payload));
    FreshShardIntact(hs, payload);
    assert data[28 + |payload|..] == footer && footer + [] == footer;
    FooterRoundTrip(hs, hs.sha256(payload), []);
  }

  /** Every ending of a Put is one of its states. */
  lemma EndedInFrame(hs: Hashes, before: DiskState, now: DiskState, id: ObjId, payload: Bytes, fate: Fate)
    requires |payload| < 0x8000_0000_0000_0000 && Ended(hs, before, now, id, payload, fate)
    ensures PutFrame(hs, before, now, id, payload)
  {
  }

  /**
   * An overwritten object that was readable is lost in a state of a Put exactly when its shard file has
   * been taken away by the rollback, whichever manifest is left, or when the new shard stands under an
   * old manifest that carries another hash. Everywhere else it reads as before or as the new payload.
   */
  lemma OverwriteLosesOld(hs: Hashes, before: DiskState, now: DiskState, id: ObjId, payload: Bytes)
    requires |payload| < 0x8000_0000_0000_0000 - 28
    requires Readable(hs, before, id) && PutFrame(hs, before, now, id, payload)
    ensures GetAt(hs, now, id, true).GetErr? <==>
              || ShardPath(id) !in now.shards
              || (!Durably(before, now) && now.manifests == before.manifests && !SameHash(hs, before, id, payload))
    ensures Durably(before, now) ==> GetAt(hs, now, id, true) == GetAt(hs, before, id, true)
    ensures ShardGone(hs, before, now, id, payload) ==> GetAt(hs, now, id, true) == GetErr(OpenFailed)
  {
    if Durably(before, now) {
      ReadUntouched(hs, before, now, id);
    } else if ShardGone(hs, before, now, id, payload) {
      ReadWithoutShard(hs, before, now, id, payload);
    } else {
      ReadReplaced(hs, before, now, id, payload);
    }
  }
}
