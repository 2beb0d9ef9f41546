/** The sealed shard format (pkg/erasure/rs.go): header and footer encoders, decoders, and how they undo each other. */
module ShardCodec {
  import opened Encoding
  import opened Streams

  /** The eleven bytes of "ShardSealv1". */
  const MAGIC: Bytes := [83, 104, 97, 114, 100, 83, 101, 97, 108, 118, 49]

  /** Magic, version, header size, payload length and CRC: what the decoder consumes. */
  const FIXED_LENGTH := 27

  /** The header length the encoder fills in when none is given. */
  const DEFAULT_HEADER_SIZE := 28

  const FOOTER_LENGTH := 36

  datatype ShardHeader = ShardHeader(version: u16, headerSize: u16, payloadLength: u64)

  datatype ShardFooter = ShardFooter(contentHash: Digest)

  datatype CodecError = HeaderSizeTooSmall | UnexpectedEof | InvalidMagic | CrcMismatch

  datatype Result<+T> = Ok(value: T) | Err(error: CodecError)

  // ---------------------------------------------------------------- what the format says

  /** The bytes covered by the header CRC. */
  function CoveredBytes(h: ShardHeader): (b: Bytes)
    ensures |b| == 23
  {
    MAGIC + Le(h.version, 2) + Le(h.headerSize, 2) + Le(h.payloadLength, 8)
  }

  function FixedBytes(hs: Hashes, h: ShardHeader): (b: Bytes)
    ensures |b| == FIXED_LENGTH
  {
    CoveredBytes(h) + Le(hs.crc32c(CoveredBytes(h)), 4)
  }

  function Defaulted(h: ShardHeader): ShardHeader {
    if h.headerSize == 0 then h.(headerSize := DEFAULT_HEADER_SIZE) else h
  }

  function HeaderBytes(hs: Hashes, h: ShardHeader): Result<Bytes> {
    var d := Defaulted(h);
    if d.headerSize < FIXED_LENGTH then Err(HeaderSizeTooSmall)
    else Ok(FixedBytes(hs, d) + Zeros(d.headerSize - FIXED_LENGTH))
  }

  function FooterBytes(hs: Hashes, hash: Digest): (b: Bytes)
    ensures |b| == FOOTER_LENGTH
  {
    hash + Le(hs.crc32c(hash), 4)
  }

  function FieldsFrom(version: Bytes, headerSize: Bytes, payloadLength: Bytes): ShardHeader
    requires |version| == |headerSize| == 2 && |payloadLength| == 8
  {
    FromLeBound(version); FromLeBound(headerSize); FromLeBound(payloadLength);
    Widths();
    ShardHeader(FromLe(version), FromLe(headerSize), FromLe(payloadLength))
  }

  function HeaderAt(hs: Hashes, b: Bytes): Result<ShardHeader> {
    if |b| < |MAGIC| then Err(UnexpectedEof)
    else if b[..11] != MAGIC then Err(InvalidMagic)
    else if |b| < FIXED_LENGTH then Err(UnexpectedEof)
    else if FromLe(b[23..27]) != hs.crc32c(b[..23]) then Err(CrcMismatch)
    else Ok(FieldsFrom(b[11..13], b[13..15], b[15..23]))
  }

  function FooterAt(hs: Hashes, b: Bytes): Result<ShardFooter> {
    if |b| < FOOTER_LENGTH then Err(UnexpectedEof)
    else if FromLe(b[32..36]) != hs.crc32c(b[..32]) then Err(CrcMismatch)
    else Ok(ShardFooter(b[..32]))
  }

  // ---------------------------------------------------------------- the program

  method EncodeShardHeader(hs: Hashes, header: ShardHeader) returns (r: Result<Bytes>)
    ensures r == HeaderBytes(hs, header)
  {
    var h := header;
    if h.headerSize == 0 {
      h := h.(headerSize := DEFAULT_HEADER_SIZE);
    }
    if h.headerSize < FIXED_LENGTH {
      return Err(HeaderSizeTooSmall);
    }
    var buf: Bytes := MAGIC;
    buf := buf + Le(h.version, 2);
    buf := buf + Le(h.headerSize, 2);
    buf := buf + Le(h.payloadLength, 8);
    buf := buf + Le(hs.crc32c(buf), 4);
    assert buf == FixedBytes(hs, h);
    var pad := h.headerSize - |buf|;
    if pad > 0 {
      buf := buf + Zeros(pad);
    }
    assert buf == FixedBytes(hs, h) + Zeros(pad);
    return Ok(buf);
  }

  /** Slices of the unread part, named by file offsets. */
  lemma RestSlices(data: Bytes, pos: nat, i: nat, j: nat)
    requires i <= j && pos + j <= |data|
    ensures data[pos + i..pos + j] == data[pos..][i..j]
  {
  }

  method DecodeShardHeader(hs: Hashes, rd: ByteReader) returns (r: Result<ShardHeader>)
    modifies rd
    ensures r == HeaderAt(hs, old(Tail(rd.data, rd.pos)))
  {
    ghost var p, b := rd.pos, Tail(rd.data, rd.pos);
    var magic := rd.ReadFull(|MAGIC|);
    if magic.None? { return Err(UnexpectedEof); }
    RestSlices(rd.data, p, 0, 11);
    if magic.value != MAGIC { return Err(InvalidMagic); }
    var ver := rd.ReadFull(2);
    if ver.None? { return Err(UnexpectedEof); }
    var hsize := rd.ReadFull(2);
    if hsize.None? { return Err(UnexpectedEof); }
    var plen := rd.ReadFull(8);
    if plen.None? { return Err(UnexpectedEof); }
    var covered := MAGIC + ver.value + hsize.value + plen.value;
    var stored := rd.ReadFull(4);
    if stored.None? { return Err(UnexpectedEof); }
    RestSlices(rd.data, p, 11, 13);
    RestSlices(rd.data, p, 13, 15);
    RestSlices(rd.data, p, 15, 23);
    RestSlices(rd.data, p, 23, 27);
    assert covered == b[..23];
    if FromLe(stored.value) != hs.crc32c(covered) {
      return Err(CrcMismatch);
    }
    return Ok(FieldsFrom(ver.value, hsize.value, plen.value));
  }

  method EncodeShardFooter(hs: Hashes, contentHash: Digest) returns (b: Bytes)
    ensures b == FooterBytes(hs, contentHash)
  {
    var buf: Bytes := contentHash;
    buf := buf + Le(hs.crc32c(buf), 4);
    return buf;
  }

  method DecodeShardFooter(hs: Hashes, rd: ByteReader) returns (r: Result<ShardFooter>)
    modifies rd
    ensures r == FooterAt(hs, old(Tail(rd.data, rd.pos)))
  {
    ghost var p := rd.pos;
    var hash := rd.ReadFull(32);
    if hash.None? { return Err(UnexpectedEof); }
    var stored := rd.ReadFull(4);
    if stored.None? { return Err(UnexpectedEof); }
    RestSlices(rd.data, p, 0, 32);
    RestSlices(rd.data, p, 32, 36);
    if FromLe(stored.value) != hs.crc32c(hash.value) {
      return Err(CrcMismatch);
    }
    return Ok(ShardFooter(hash.value));
  }

  // ---------------------------------------------------------------- encoder and decoder undo each other

  lemma FourParts(a: Bytes, b: Bytes, c: Bytes, d: Bytes)
    ensures var s := a + b + c + d;
            && s[..|a|] == a && s[|a|..|a| + |b|] == b
            && s[|a| + |b|..|a| + |b| + |c|] == c && s[|a| + |b| + |c|..] == d
  {
  }

  /** Where the fields stand in the fixed part of a header. */
  lemma FixedFields(hs: Hashes, h: ShardHeader)
    ensures var f := FixedBytes(hs, h);
            && f[..11] == MAGIC && f[..23] == CoveredBytes(h)
            && f[11..13] == Le(h.version, 2) && f[13..15] == Le(h.headerSize, 2)
            && f[15..23] == Le(h.payloadLength, 8) && f[23..27] == Le(hs.crc32c(CoveredBytes(h)), 4)
  {
    var c := CoveredBytes(h);
    var f := FixedBytes(hs, h);
    FourParts(MAGIC, Le(h.version, 2), Le(h.headerSize, 2), Le(h.payloadLength, 8));
    assert c[15..] == c[15..23];
    assert f[..11] == c[..11] && f[11..13] == c[11..13] && f[13..15] == c[13..15] && f[15..23] == c[15..23];
  }

  lemma FieldsRoundTrip(h: ShardHeader)
    ensures FieldsFrom(Le(h.version, 2), Le(h.headerSize, 2), Le(h.payloadLength, 8)) == h
  {
    Widths();
    LeRoundTrip(h.version, 2);
    LeRoundTrip(h.headerSize, 2);
    LeRoundTrip(h.payloadLength, 8);
  }

  /** The decoder recovers a header from its fixed fields, whatever size it announces and whatever follows. */
  lemma HeaderFromFixed(hs: Hashes, h: ShardHeader, data: Bytes)
    requires FixedBytes(hs, h) <= data
    ensures HeaderAt(hs, data) == Ok(h)
  {
    var f := FixedBytes(hs, h);
    FixedFields(hs, h);
    FieldsRoundTrip(h);
    Widths();
    LeRoundTrip(hs.crc32c(CoveredBytes(h)), 4);
    assert data[..27] == f;
    assert data[..11] == f[..11] && data[..23] == f[..23];
    assert data[11..13] == f[11..13] && data[13..15] == f[13..15] && data[15..23] == f[15..23] && data[23..27] == f[23..27];
  }

  /** Every header the encoder accepts decodes to itself, whatever follows it in the file. */
  lemma HeaderRoundTrip(hs: Hashes, h: ShardHeader, tail: Bytes)
    ensures HeaderBytes(hs, h).Ok? <==> (h.headerSize == 0 || FIXED_LENGTH <= h.headerSize)
    ensures HeaderBytes(hs, h).Ok? ==>
              && |HeaderBytes(hs, h).value| == Defaulted(h).headerSize
              && HeaderAt(hs, HeaderBytes(hs, h).value + tail) == Ok(Defaulted(h))
  {
    if HeaderBytes(hs, h).Ok? {
      HeaderFromFixed(hs, Defaulted(h), HeaderBytes(hs, h).value + tail);
    }
  }

  /** An accepted header is the canonical image of the value it decodes to: no second spelling exists. */
  lemma AcceptedHeaderIsCanonical(hs: Hashes, b: Bytes)
    requires HeaderAt(hs, b).Ok?
    ensures b[..FIXED_LENGTH] == FixedBytes(hs, HeaderAt(hs, b).value)
  {
    var h := HeaderAt(hs, b).value;
    LeOfFromLe(b[11..13]);
    LeOfFromLe(b[13..15]);
    LeOfFromLe(b[15..23]);
    LeOfFromLe(b[23..27]);
    assert b[..23] == b[..11] + b[11..13] + b[13..15] + b[15..23];
    assert b[..27] == b[..23] + b[23..27];
    assert b[..23] == CoveredBytes(h);
  }

  /**
   * The decoder takes header sizes the encoder refuses or replaces. Re-encoding reproduces the
   * accepted bytes exactly when the stored size leaves room for the fixed fields.
   */
  lemma ReencodingAcceptedHeader(hs: Hashes, b: Bytes)
    requires HeaderAt(hs, b).Ok?
    ensures var h := HeaderAt(hs, b).value;
            (HeaderBytes(hs, h).Ok? && HeaderBytes(hs, h).value[..FIXED_LENGTH] == b[..FIXED_LENGTH])
              <==> h.headerSize >= FIXED_LENGTH
  {
    var h := HeaderAt(hs, b).value;
    AcceptedHeaderIsCanonical(hs, b);
    HeaderRoundTrip(hs, h, []);
    if h.headerSize == 0 {
      var e := HeaderBytes(hs, h).value;
      assert e + [] == e;
      assert e[..27] == FixedBytes(hs, Defaulted(h));
      Widths();
      LeRoundTrip(0, 2);
      LeRoundTrip(28, 2);
      assert e[13..15] == Le(28, 2) && b[..27][13..15] == Le(0, 2);
      assert e[..27][13..15] == e[13..15];
    } else if h.headerSize >= FIXED_LENGTH {
      assert HeaderBytes(hs, h).value[..27] == FixedBytes(hs, h);
    }
  }

  /** Why a header or a footer is refused. */
  lemma WhyRefused(hs: Hashes, b: Bytes)
    ensures HeaderAt(hs, b) == Err(InvalidMagic) <==> |b| >= 11 && !(MAGIC <= b)
    ensures HeaderAt(hs, b) == Err(UnexpectedEof) <==> |b| < 11 || (MAGIC <= b && |b| < 27)
    ensures HeaderAt(hs, b) == Err(CrcMismatch) <==>
              MAGIC <= b && |b| >= 27 && !exists h :: FixedBytes(hs, h) <= b
    ensures FooterAt(hs, b) == Err(UnexpectedEof) <==> |b| < 36
    ensures FooterAt(hs, b) == Err(CrcMismatch) <==> |b| >= 36 && !exists sum :: FooterBytes(hs, sum) <= b
  {
    if HeaderAt(hs, b).Ok? { AcceptedHeaderIsCanonical(hs, b); }
    if h :| FixedBytes(hs, h) <= b { HeaderFromFixed(hs, h, b); }
    if FooterAt(hs, b).Ok? { AcceptedFooterIsCanonical(hs, b); }
    if sum :| FooterBytes(hs, sum) <= b {
      FooterRoundTrip(hs, sum, b[FOOTER_LENGTH..]);
      assert b == FooterBytes(hs, sum) + b[FOOTER_LENGTH..];
    }
  }

  lemma FooterRoundTrip(hs: Hashes, hash: Digest, tail: Bytes)
    ensures FooterAt(hs, FooterBytes(hs, hash) + tail) == Ok(ShardFooter(hash))
  {
    var b := FooterBytes(hs, hash) + tail;
    Widths();
    LeRoundTrip(hs.crc32c(hash), 4);
    assert b[..32] == hash && b[32..36] == Le(hs.crc32c(hash), 4);
  }

  lemma AcceptedFooterIsCanonical(hs: Hashes, b: Bytes)
    requires FooterAt(hs, b).Ok?
    ensures b[..FOOTER_LENGTH] == FooterBytes(hs, FooterAt(hs, b).value.contentHash)
  {
    LeOfFromLe(b[32..36]);
    assert b[..36] == b[..32] + b[32..36];
  }

  /** An encoded header byte by byte: "ShardSealv1", three little-endian numbers, the CRC of all that, and zeros up to its size. */
  lemma HeaderLayout(hs: Hashes, h: ShardHeader)
    requires FIXED_LENGTH <= h.headerSize
    ensures HeaderBytes(hs, h).Ok? && |HeaderBytes(hs, h).value| == h.headerSize
    ensures var b := HeaderBytes(hs, h).value;
            && (forall i :: 0 <= i < 11 ==> b[i] == "ShardSealv1"[i] as int)
            && Word(b[11..13]) == h.version && Word(b[13..15]) == h.headerSize
            && DoubleWord(b[15..19]) + 0x1_0000_0000 * DoubleWord(b[19..23]) == h.payloadLength
            && DoubleWord(b[23..27]) == hs.crc32c(b[..23])
            && forall i :: 27 <= i < h.headerSize ==> b[i] == 0
  {
    var b, f := HeaderBytes(hs, h).value, FixedBytes(hs, h);
    FixedFields(hs, h);
    Spelled(h.version, h.headerSize, h.payloadLength, hs.crc32c(CoveredBytes(h)));
    assert b[..27] == f;
    assert b[..11] == f[..11] && b[..23] == f[..23] && b[11..13] == f[11..13] && b[13..15] == f[13..15] && b[23..27] == f[23..27];
    assert b[15..19] == f[15..23][..4] && b[19..23] == f[15..23][4..];
    forall i | 0 <= i < 11 ensures b[i] == "ShardSealv1"[i] as int {
      assert b[i] == b[..11][i] == MAGIC[i];
      MagicIsText(i);
    }
  }

  lemma MagicIsText(i: nat)
    requires i < 11
    ensures MAGIC[i] == "ShardSealv1"[i] as int
  {
  }

  lemma Spelled(version: u16, headerSize: u16, payloadLength: u64, crc: u32)
    ensures Word(Le(version, 2)) == version && Word(Le(headerSize, 2)) == headerSize
    ensures var l := Le(payloadLength, 8); DoubleWord(l[..4]) + 0x1_0000_0000 * DoubleWord(l[4..]) == payloadLength
    ensures DoubleWord(Le(crc, 4)) == crc
  {
    Widths();
    LeRoundTrip(version, 2);
    LeRoundTrip(headerSize, 2);
    LeRoundTrip(payloadLength, 8);
    LeRoundTrip(crc, 4);
    FromLeTwo(Le(version, 2));
    FromLeTwo(Le(headerSize, 2));
    FromLeEight(Le(payloadLength, 8));
    FromLeFour(Le(crc, 4));
  }

  /** A footer byte by byte: the hash and its CRC. */
  lemma FooterLayout(hs: Hashes, hash: Digest)
    ensures var b := FooterBytes(hs, hash);
            && |b| == 36 && b[..32] == hash && DoubleWord(b[32..36]) == hs.crc32c(hash)
  {
    Spelled(0, 0, 0, hs.crc32c(hash));
    assert FooterBytes(hs, hash)[32..36] == Le(hs.crc32c(hash), 4);
  }

  /**
   * The manifest stores the last four header bytes as "the header CRC". With the default size the
   * last byte is padding, so the stored number is the CRC without its low byte.
   */
  lemma LastFourHeaderBytes(hs: Hashes, h: ShardHeader)
    requires h.headerSize == 0
    ensures HeaderBytes(hs, h).Ok? && |HeaderBytes(hs, h).value| == 28
    ensures FromLe(HeaderBytes(hs, h).value[24..]) == hs.crc32c(CoveredBytes(Defaulted(h))) / 256
  {
    var crc := hs.crc32c(CoveredBytes(Defaulted(h)));
    var b := HeaderBytes(hs, h).value;
    Widths();
    LeRoundTrip(crc / 256, 4);
    assert crc / 256 / 256 / 256 / 256 == 0;
    assert Le(crc / 256, 4) == Le(crc / 256, 3) + [0] by { LeAppend(crc / 256, 3); }
    assert b[24..] == Le(crc, 4)[1..] + [0];
  }

  lemma {:induction false} LeAppend(v: nat, w: nat)
    requires v < Pow256(w)
    ensures Le(v, w + 1) == Le(v, w) + [0]
  {
    if w > 0 {
      assert v / 256 < Pow256(w - 1);
      LeAppend(v / 256, w - 1);
    }
  }
}
