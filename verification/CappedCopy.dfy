/** The streaming size cap on single PUTs (pkg/api/s3/server.go, capReader) under io.Copy, for every way a body may arrive in chunks. */
module CappedCopy {
  import opened Encoding

  datatype ReadStatus = More | Eof | TooLarge | Broken

  /**
   * A request body. Each read delivers some of the requested bytes, at least one while any are
   * left; whether the end is reported together with the last bytes depends on the reader. Unless
   * the connection is steady it may break at any read.
   */
  class BodyReader {
    const body: Bytes
    const eofWithData: bool
    const steady: bool
    var pos: nat

    constructor (body: Bytes, eofWithData: bool, steady: bool)
      ensures this.body == body && this.eofWithData == eofWithData && this.steady == steady && pos == 0
    {
      this.body, this.eofWithData, this.steady, pos := body, eofWithData, steady, 0;
    }

    ghost predicate Valid()
      reads this
    {
      pos <= |body|
    }

    method Read(n: nat) returns (chunk: Bytes, st: ReadStatus)
      requires Valid() && n > 0
      modifies this
      ensures Valid() && old(pos) + |chunk| == pos && |chunk| <= n
      ensures chunk == body[old(pos)..pos]
      ensures st != TooLarge && (steady ==> st != Broken)
      ensures st == More ==> |chunk| > 0
      ensures st == Eof ==> pos == |body| && (chunk == [] || eofWithData)
      ensures st == More && pos == |body| ==> !eofWithData
    {
      var rest := |body| - pos;
      var broken: bool := *;
      var max := if n < rest then n else rest;
      if broken && !steady {
        var k :| 0 <= k <= max;
        chunk, st, pos := body[pos..pos + k], Broken, pos + k;
        return;
      }
      if rest == 0 { return [], Eof; }
      var k :| 1 <= k <= max;
      chunk, pos := body[pos..pos + k], pos + k;
      st := if pos == |body| && eofWithData then Eof else More;
    }
  }

  class CapReader {
    const r: BodyReader
    const max: nat
    var n: nat

    constructor (r: BodyReader, max: nat)
      ensures this.r == r && this.max == max && n == 0
    {
      this.r, this.max, n := r, max, 0;
    }

    ghost predicate Valid()
      reads this, r
    {
      r.Valid() && n == r.pos && n <= max
    }

    method Read(len: nat) returns (chunk: Bytes, st: ReadStatus)
      requires Valid() && len > 0
      modifies this, r
      ensures Valid() && r.pos == old(r.pos) + |chunk| && |chunk| <= len
      ensures chunk == r.body[old(r.pos)..r.pos]
      ensures st == More ==> |chunk| > 0 && n < max
      ensures st == TooLarge ==> n == max && (chunk != [] ==> n < |r.body| || !r.eofWithData)
      ensures st == Eof ==> n == |r.body| && old(n) < max && (chunk == [] || r.eofWithData)
      ensures st == More && n == |r.body| ==> !r.eofWithData
      ensures st == TooLarge && chunk == [] ==> old(n) == max
      ensures r.steady ==> st != Broken
    {
      if n >= max { return [], TooLarge; }
      var remain := max - n;
      var ask := if len > remain then remain else len;
      chunk, st := r.Read(ask);
      n := n + |chunk|;
      if st != More { return; }
      if n >= max { st := TooLarge; }
    }
  }

  /**
   * io.Copy from a capped body. A steady connection never breaks, and then the outcome is decided by
   * sizes: too large exactly when the body exceeds the cap, or equals it and its end is not reported
   * with its last bytes.
   */
  method CopyAll(c: CapReader, bufSize: nat) returns (delivered: Bytes, st: ReadStatus)
    requires c.Valid() && c.n == 0 && c.max > 0 && bufSize > 0
    modifies c, c.r
    ensures |delivered| <= c.max && delivered <= c.r.body
    ensures st in {Eof, TooLarge, Broken} && (c.r.steady ==> st != Broken)
    ensures st == Eof ==> delivered == c.r.body
    ensures st == TooLarge ==> |delivered| == c.max
    ensures st != Broken ==>
              (st == TooLarge <==> |c.r.body| > c.max || (|c.r.body| == c.max && !c.r.eofWithData))
  {
    delivered := [];
    st := More;
    while st == More
      invariant c.Valid() && delivered == c.r.body[..c.r.pos]
      invariant st == More ==> c.n < c.max && (c.n == |c.r.body| && c.n > 0 ==> !c.r.eofWithData)
      invariant st == Eof ==> c.n == |c.r.body|
      invariant st == TooLarge ==> c.n == c.max && (c.n < |c.r.body| || !c.r.eofWithData)
      invariant st == Eof && c.n == c.max ==> c.r.eofWithData
      invariant c.r.steady ==> st != Broken
      decreases st == More, c.max - c.n
    {
      ghost var before := delivered;
      var chunk;
      chunk, st := c.Read(bufSize);
      delivered := delivered + chunk;
      assert delivered == c.r.body[..c.r.pos];
    }
  }
}
