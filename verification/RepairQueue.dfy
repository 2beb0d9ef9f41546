/** The bounded in-memory repair queue (pkg/repair/queue.go). */
module RepairQueue {
  import opened SealedStore

  datatype SendResult = Sent | SendClosed | SendCancelled | SendBlocks

  datatype ReceiveResult = Received(it: RepairItem) | ReceiveClosed | ReceiveCancelled | ReceiveBlocks

  /**
   * A call that would block returns `...Blocks` and changes nothing: the caller tries again later.
   * When several select cases are ready the program may take any of them.
   */
  class MemQueue {
    const capacity: nat
    var ch: seq<RepairItem>
    var closed: bool
    /** Everything ever accepted and everything ever handed out, in order. */
    ghost var accepted: seq<RepairItem>
    ghost var taken: seq<RepairItem>

    /** First in, first out: what was accepted is what was handed out, then what is buffered. */
    ghost predicate Valid()
      reads this
    {
      |ch| <= capacity && accepted == taken + ch
    }

    constructor (capacity: int)
      ensures Valid() && ch == [] && !closed && accepted == []
      ensures this.capacity == if capacity < 0 then 0 else capacity
    {
      this.capacity := if capacity < 0 then 0 else capacity;
      ch, closed, accepted, taken := [], false, [], [];
    }

    method Enqueue(cancelled: bool, it: RepairItem) returns (r: SendResult)
      requires Valid()
      modifies this
      ensures Valid() && closed == old(closed)
      ensures ch == if r.Sent? then old(ch) + [it] else old(ch)
      ensures accepted == (if r.Sent? then old(accepted) + [it] else old(accepted)) && taken == old(taken)
      ensures r.SendClosed? <==> closed
      ensures r.Sent? ==> |old(ch)| < capacity
      ensures r.SendCancelled? ==> cancelled
      ensures r.SendBlocks? <==> !closed && !cancelled && |old(ch)| == capacity
    {
      if closed { return SendClosed; }
      var room := |ch| < capacity;
      if room && cancelled {
        var pick: bool := *;
        if pick { return SendCancelled; }
        ch, accepted := ch + [it], accepted + [it];
        return Sent;
      }
      if cancelled { return SendCancelled; }
      if room {
        ch, accepted := ch + [it], accepted + [it];
        return Sent;
      }
      return SendBlocks;
    }

    method Dequeue(cancelled: bool) returns (r: ReceiveResult)
      requires Valid()
      modifies this
      ensures Valid() && closed == old(closed)
      ensures if r.Received? then old(ch) == [r.it] + ch else ch == old(ch)
      ensures accepted == old(accepted) && taken == if r.Received? then old(taken) + [r.it] else old(taken)
      ensures r.ReceiveClosed? ==> closed && old(ch) == []
      ensures r.ReceiveCancelled? ==> cancelled
      ensures r.ReceiveBlocks? <==> !closed && !cancelled && old(ch) == []
    {
      var ready := ch != [] || closed;
      if cancelled {
        var pick: bool := *;
        if pick || !ready { return ReceiveCancelled; }
      }
      if !ready { return ReceiveBlocks; }
      if ch == [] { return ReceiveClosed; }
      r := Received(ch[0]);
      assert taken + ch == (taken + [ch[0]]) + ch[1..];
      ch, taken := ch[1..], taken + [ch[0]];
    }

    /** How many accepted items have not been handed out yet. */
    method Len() returns (n: nat)
      requires Valid()
      ensures n == |accepted| - |taken| && n <= capacity
    {
      n := |ch|;
    }

    /** Closing keeps what is buffered; a second Close does nothing. */
    method Close()
      requires Valid()
      modifies this
      ensures Valid() && closed && ch == old(ch) && accepted == old(accepted) && taken == old(taken)
    {
      if !closed { closed := true; }
    }
  }
}
