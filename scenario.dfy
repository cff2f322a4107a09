/** A client of the pool: one invalidate fanned out to three children. */
module Scenarios {
  import opened Types
  import opened Requests
  import Heap
  import opened Pool

  /**
   * A top-level invalidate derives three children, so it counts 1 + 3
   * acknowledgements. A derived child has no parent link, so its own
   * `decPending` lowers only its own leftover counter and the parent still
   * counts 4. Three calls on the parent leave it pending, the fourth
   * settles it, and acknowledging it then retires its handle.
   */
  method FanOutThree(m: NodeId, addr: Addr, slot: Request)
    returns (afterFanOut: int16, afterChildDec: int16, pendingAfterThree: bool, pendingAfterFour: bool,
             liveAfterAck: bool)
    ensures afterFanOut == 4 && afterChildDec == 4
    ensures pendingAfterThree && !pendingAfterFour && !liveAfterAck
  {
    var pool := new MemRequestPool();
    var p := pool.CreateInvalidate(m, addr, 64, false, slot);
    var c1 := pool.DeriveInvalidate(p, slot);
    var c2 := pool.DeriveInvalidate(p, slot);
    var c3 := pool.DeriveInvalidate(p, slot);
    afterFanOut := pool.reqs[p].pending;
    pool.DecPending(c1);
    afterChildDec := pool.reqs[p].pending;
    pool.DecPending(p);
    pool.DecPending(p);
    pool.DecPending(p);
    pendingAfterThree := Heap.HasPending(pool.reqs, p);
    pool.DecPending(p);
    pendingAfterFour := Heap.HasPending(pool.reqs, p);
    pool.Ack(p);
    liveAfterAck := p in pool.reqs;
  }
}
