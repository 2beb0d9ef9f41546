/** Open files as the standard library presents them: a byte sequence and a read position. */
module Streams {
  import opened Strings
  import opened Encoding

  /** The part of a file from an offset on; empty when the offset lies beyond the end. */
  function Tail(data: Bytes, off: nat): Bytes {
    if off <= |data| then data[off..] else []
  }

  /** What io.CopyN delivers from `off`: a non-positive count copies nothing and succeeds. */
  function CopyFrom(data: Bytes, off: nat, n: int): Option<Bytes> {
    if n <= 0 then Some([])
    else if off + n <= |data| then Some(data[off..off + n])
    else None
  }

  /** At most the first `n` bytes: what io.CopyN passes on before it stops. */
  function Limit(b: Bytes, n: int): Bytes {
    if n <= 0 then [] else if n <= |b| then b[..n] else b
  }

  /**
   * The bytes an io.SectionReader over `n` bytes at `off` yields when read to its end. For a negative
   * `n` its overflow test fails and it reads to the end of the file.
   */
  function Section(data: Bytes, off: nat, n: int): Bytes {
    if n < 0 then Tail(data, off) else Limit(Tail(data, off), n)
  }

  class ByteReader {
    const data: Bytes
    var pos: nat

    constructor (data: Bytes)
      ensures this.data == data && pos == 0
    {
      this.data := data;
      pos := 0;
    }

    /** Seek relative to the start; a negative offset is an error, one beyond the end is not. */
    method Seek(off: int) returns (ok: bool)
      modifies this
      ensures ok <==> off >= 0
      ensures pos == if ok then off else old(pos)
    {
      ok := off >= 0;
      if ok { pos := off; }
    }

    /** io.ReadFull: exactly `n` bytes, or nothing when the end comes first. */
    method ReadFull(n: nat) returns (r: Option<Bytes>)
      requires n > 0
      modifies this
      ensures old(pos) + n <= |data| ==> pos == old(pos) + n && r == Some(data[old(pos)..pos])
      ensures old(pos) + n > |data| ==> r == None
    {
      if n <= |data| - pos {
        r := Some(data[pos..pos + n]);
        pos := pos + n;
      } else {
        r := None;
        if pos < |data| { pos := |data|; }
      }
    }

    method CopyN(n: int) returns (r: Option<Bytes>)
      modifies this
      ensures r == CopyFrom(data, old(pos), n)
    {
      if n <= 0 { return Some([]); }
      r := ReadFull(n);
    }
  }
}
