/**
 * The request pool and the state-changing operations of MemRequest: the
 * typed factories, `decPending`, `markPrefetch`/`markMMU`, the three
 * acknowledgements and the forwarding operations. Each method states the
 * whole new state of the pool in terms of the old one.
 */
module Pool {
  import opened Types
  import opened Requests
  import Heap
  import opened Schedule

  /**
   * The earliest admission time a memory node grants a request for one kind
   * of action (`MemObj::nextReadSlot` and its siblings): a pure query.
   */
  type SlotFn = (NodeId, SlotQuery, Request) -> Time

  /**
   * The absolute time at which `fwdX(lat)` binds handler `h` of request `r`:
   * never before the slot the current node grants, and exactly at it for
   * the no-argument form.
   */
  function ForwardTime(nextSlot: SlotFn, r: Request, h: Handler, lat: Delay): (t: Time)
    ensures t >= nextSlot(r.currNode, QueryOf(h), r)
    ensures t == nextSlot(r.currNode, QueryOf(h), r) <==> lat == 0
  {
    nextSlot(r.currNode, QueryOf(h), r) + lat
  }

  class MemRequestPool {
    /** The live requests, by handle. */
    var reqs: map<ReqId, Request>
    /** The next handle to give out; a handle is never given out twice. */
    var nextId: ReqId
    /** Every call the requests made into the simulation kernel, oldest first. */
    var log: seq<Entry>

    /** Every live handle was given out before, so a new handle is never live. */
    ghost predicate Valid()
      reads this
    {
      forall id :: id in reqs ==> id < nextId
    }

    constructor ()
      ensures Valid() && reqs == map[] && nextId == 0 && log == []
    {
      reqs := map[];
      nextId := 0;
      log := [];
    }

    /**
     * `create(m, addr, cb)`: the recycled object `slot` becomes live under a
     * new handle, with its address, nodes and callback assigned.
     */
    method Alloc(m: NodeId, addr: Addr, cb: Option<CallbackId>, slot: Request) returns (id: ReqId)
      requires Valid()
      modifies this
      ensures Valid()
      ensures id == old(nextId) && id !in old(reqs) && nextId == old(nextId) + 1
      ensures reqs == old(reqs)[id := Create(slot, m, addr, cb)] && log == old(log)
    {
      id := nextId;
      nextId := nextId + 1;
      reqs := reqs[id := Create(slot, m, addr, cb)];
    }

    /** `createFillRead`. */
    method CreateFillRead(m: NodeId, dinst: Option<Instr>, addr: Addr, cb: Option<CallbackId>, slot: Request)
      returns (id: ReqId)
      requires Valid()
      modifies this
      ensures Valid()
      ensures id == old(nextId) && id !in old(reqs) && nextId == old(nextId) + 1
      ensures reqs == old(reqs)[id := ReadRequest(slot, m, dinst, addr, cb)] && log == old(log)
    {
      id := Alloc(m, addr, cb, slot);
      var r := reqs[id];
      r := r.(kind := MsgRead);
      r := r.(parent := None);
      r := r.(dinst := dinst);
      reqs := reqs[id := r];
    }

    /** `createRead`: the same assignments as `createFillRead`. */
    method CreateRead(m: NodeId, dinst: Option<Instr>, addr: Addr, cb: Option<CallbackId>, slot: Request)
      returns (id: ReqId)
      requires Valid()
      modifies this
      ensures Valid()
      ensures id == old(nextId) && id !in old(reqs) && nextId == old(nextId) + 1
      ensures reqs == old(reqs)[id := ReadRequest(slot, m, dinst, addr, cb)] && log == old(log)
    {
      id := Alloc(m, addr, cb, slot);
      var r := reqs[id];
      r := r.(kind := MsgRead);
      r := r.(parent := None);
      r := r.(dinst := dinst);
      reqs := reqs[id := r];
    }

    /** `createWrite(m, addr, cb)`. */
    method CreateWrite(m: NodeId, addr: Addr, cb: Option<CallbackId>, slot: Request) returns (id: ReqId)
      requires Valid()
      modifies this
      ensures Valid()
      ensures id == old(nextId) && id !in old(reqs) && nextId == old(nextId) + 1
      ensures reqs == old(reqs)[id := WriteRequest(slot, m, addr, cb)] && log == old(log)
    {
      id := Alloc(m, addr, cb, slot);
      var r := reqs[id];
      r := r.(kind := MsgWrite);
      r := r.(parent := None);
      r := r.(dinst := None);
      reqs := reqs[id := r];
    }

    /** `createWrite(m, dinst, cb)`. */
    method CreateInstrWrite(m: NodeId, dinst: Instr, cb: Option<CallbackId>, slot: Request) returns (id: ReqId)
      requires Valid()
      modifies this
      ensures Valid()
      ensures id == old(nextId) && id !in old(reqs) && nextId == old(nextId) + 1
      ensures reqs == old(reqs)[id := InstrWriteRequest(slot, m, dinst, cb)] && log == old(log)
    {
      id := Alloc(m, dinst.addr, cb, slot);
      var r := reqs[id];
      r := r.(kind := MsgWrite);
      r := r.(parent := None);
      r := r.(dinst := Some(dinst));
      reqs := reqs[id := r];
    }

    /** `createVPCWriteUpdate`. */
    method CreateVpcWriteUpdate(m: NodeId, dinst: Instr, cb: Option<CallbackId>, slot: Request) returns (id: ReqId)
      requires Valid()
      modifies this
      ensures Valid()
      ensures id == old(nextId) && id !in old(reqs) && nextId == old(nextId) + 1
      ensures reqs == old(reqs)[id := VpcWriteUpdateRequest(slot, m, dinst, cb)] && log == old(log)
    {
      id := Alloc(m, dinst.addr, cb, slot);
      var r := reqs[id];
      r := r.(data := dinst.data);
      r := r.(pc := dinst.pc);
      r := r.(kind := MsgVpcWriteUpdate);
      r := r.(parent := None);
      r := r.(dinst := Some(dinst));
      reqs := reqs[id := r];
    }

    /** `createWriteAddress`. */
    method CreateWriteAddress(m: NodeId, dinst: Instr, cb: Option<CallbackId>, slot: Request) returns (id: ReqId)
      requires Valid()
      modifies this
      ensures Valid()
      ensures id == old(nextId) && id !in old(reqs) && nextId == old(nextId) + 1
      ensures reqs == old(reqs)[id := WriteAddressRequest(slot, m, dinst, cb)] && log == old(log)
    {
      id := Alloc(m, dinst.addr, cb, slot);
      var r := reqs[id];
      r := r.(kind := MsgWriteAddress);
      r := r.(parent := None);
      r := r.(dinst := Some(dinst));
      reqs := reqs[id := r];
    }

    /** `createWriteback`. */
    method CreateWriteback(m: NodeId, addr: Addr, slot: Request) returns (id: ReqId)
      requires Valid()
      modifies this
      ensures Valid()
      ensures id == old(nextId) && id !in old(reqs) && nextId == old(nextId) + 1
      ensures reqs == old(reqs)[id := WritebackRequest(slot, m, addr)] && log == old(log)
    {
      id := Alloc(m, addr, None, slot);
      var r := reqs[id];
      r := r.(kind := MsgWriteback);
      r := r.(parent := None);
      r := r.(dinst := None);
      reqs := reqs[id := r];
    }

    /** The static `createInvalidate(m, naddr, size, capacityInvalidate)`. */
    method CreateInvalidate(m: NodeId, naddr: Addr, size: uint16, capacityInvalidate: bool, slot: Request)
      returns (id: ReqId)
      requires Valid()
      modifies this
      ensures Valid()
      ensures id == old(nextId) && id !in old(reqs) && nextId == old(nextId) + 1
      ensures reqs == old(reqs)[id := InvalidateRequest(slot, m, naddr, size, capacityInvalidate)]
      ensures log == old(log)
    {
      id := Alloc(m, naddr, None, slot);
      var r := reqs[id];
      r := r.(kind := MsgInvalidate);
      r := r.(lineSize := size);
      r := r.(parent := None);
      r := r.(pending := 1);
      r := r.(dinst := None);
      r := r.(capInvalidate := capacityInvalidate);
      reqs := reqs[id := r];
    }

    /**
     * The member `createInvalidate()` called on the invalidate `src`: a new
     * invalidate at `src`'s current node, and one more pending
     * acknowledgement on `src`.
     */
    method DeriveInvalidate(src: ReqId, slot: Request) returns (id: ReqId)
      requires Valid() && src in reqs && reqs[src].IsInvalidate()
      modifies this
      ensures Valid()
      ensures id == old(nextId) && id !in old(reqs) && nextId == old(nextId) + 1
      ensures reqs == Heap.Derive(old(reqs), src, id, slot) && log == old(log)
    {
      var s := reqs[src];
      id := Alloc(s.currNode, s.addr, None, slot);
      var r := reqs[id];
      r := r.(kind := MsgInvalidate);
      r := r.(lineSize := s.lineSize);
      r := r.(parent := None);
      r := r.(dinst := None);
      r := r.(capInvalidate := s.capInvalidate);
      reqs := reqs[id := r];
      reqs := reqs[src := reqs[src].(pending := Inc16(reqs[src].pending))];
    }

    /** `decPending`: one acknowledgement of an invalidate arrives. */
    method DecPending(id: ReqId)
      requires Valid() && Heap.CanDecPending(reqs, id)
      modifies this
      ensures Valid()
      ensures reqs == Heap.DecPending(old(reqs), id) && nextId == old(nextId) && log == old(log)
    {
      var r := reqs[id];
      if r.parent.Some? {
        var p := r.parent.value;
        reqs := reqs[p := reqs[p].(pending := reqs[p].pending - 1)];
      } else {
        reqs := reqs[id := r.(pending := Dec16(r.pending))];
      }
    }

    /** `markPrefetch`: may be called once per request. */
    method MarkPrefetch(id: ReqId)
      requires Valid() && id in reqs && !reqs[id].prefetch
      modifies this
      ensures Valid()
      ensures reqs == old(reqs)[id := old(reqs)[id].(prefetch := true)]
      ensures reqs[id].prefetch && nextId == old(nextId) && log == old(log)
    {
      reqs := reqs[id := reqs[id].(prefetch := true)];
    }

    /** `markMMU`: may be called once per request. */
    method MarkMmu(id: ReqId)
      requires Valid() && id in reqs && !reqs[id].mmu
      modifies this
      ensures Valid()
      ensures reqs == old(reqs)[id := old(reqs)[id].(mmu := true)]
      ensures reqs[id].mmu && nextId == old(nextId) && log == old(log)
    {
      reqs := reqs[id := reqs[id].(mmu := true)];
    }

    /**
     * The acknowledgement common to `ack`, `ack(lat)` and `ackAbs`: run the
     * callback, if any, with the given timing, then return the request to
     * the pool. Its handle is dead from then on and is never given out again.
     */
    method Acknowledge(id: ReqId, t: AckTiming)
      requires Valid() && id in reqs
      modifies this
      ensures Valid()
      ensures reqs == old(reqs) - {id} && id !in reqs && id < nextId && nextId == old(nextId)
      ensures log == old(log) + AckEntries(old(reqs)[id].cb, t)
    {
      var cb := reqs[id].cb;
      if cb.Some? {
        log := log + [Notify(t, RunCallback(cb.value))];
      }
      reqs := reqs - {id};
    }

    /** `ack()`: the callback, if any, runs now. */
    method Ack(id: ReqId)
      requires Valid() && id in reqs
      modifies this
      ensures Valid()
      ensures reqs == old(reqs) - {id} && id !in reqs && id < nextId && nextId == old(nextId)
      ensures log == old(log) + AckEntries(old(reqs)[id].cb, Immediately)
    {
      Acknowledge(id, Immediately);
    }

    /** `ack(lat)`: the callback, if any, runs `lat` after now; `lat` is not zero. */
    method AckAfter(id: ReqId, lat: Delay)
      requires Valid() && id in reqs && lat != 0
      modifies this
      ensures Valid()
      ensures reqs == old(reqs) - {id} && id !in reqs && id < nextId && nextId == old(nextId)
      ensures log == old(log) + AckEntries(old(reqs)[id].cb, After(lat))
    {
      Acknowledge(id, After(lat));
    }

    /** `ackAbs(when)`: the callback, if any, runs at time `when`, which is not zero. */
    method AckAbs(id: ReqId, when: Time)
      requires Valid() && id in reqs && when != 0
      modifies this
      ensures Valid()
      ensures reqs == old(reqs) - {id} && id !in reqs && id < nextId && nextId == old(nextId)
      ensures log == old(log) + AckEntries(old(reqs)[id].cb, At(when))
    {
      Acknowledge(id, At(when));
    }

    /**
     * `fwdRead(lat)`, `fwdWrite(lat)`, ...: bind the handler `h` at the slot
     * the current node grants for it, plus `lat`. The no-argument forms are
     * `lat == 0`. The request itself does not change.
     */
    method Forward(id: ReqId, h: Handler, lat: Delay, nextSlot: SlotFn)
      requires Valid() && id in reqs
      modifies this
      ensures Valid()
      ensures reqs == old(reqs) && nextId == old(nextId)
      ensures log == old(log) + [ScheduleAt(RunHandler(h, id), ForwardTime(nextSlot, reqs[id], h, lat))]
    {
      var r := reqs[id];
      var when := nextSlot(r.currNode, QueryOf(h), r);
      log := log + [ScheduleAt(RunHandler(h, id), when + lat)];
    }
  }
}
