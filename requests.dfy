/**
 * The memory-request record (class MemRequest of simu/libcore/MemRequest.h)
 * as a value, its message kinds and kind predicates, and the typed factories
 * that turn a pooled slot into a request of one kind.
 */
module Requests {
  import opened Types

  /** The message kind of a request; fixed by the factory that creates it. */
  datatype MsgType =
    | MsgRead
    | MsgWrite
    | MsgWriteAddress
    | MsgWriteback
    | MsgInvalidate
    | MsgVpcWriteUpdate

  /**
   * The originating instruction (DInst): the address, data and pc that
   * factories read from it, and a sequence number that no factory reads but
   * that gives each instruction its own identity.
   */
  datatype Instr = Instr(seqId: nat, addr: Addr, data: Data, pc: Addr)

  /**
   * One request record. `parent` is the back-link of a child invalidate,
   * `pending` the number of outstanding acknowledgements, `cb` the optional
   * completion callback and `dinst` the optional originating instruction.
   */
  datatype Request = Request(
    addr: Addr,
    pc: Addr,
    data: Data,
    kind: MsgType,
    homeNode: NodeId,
    currNode: NodeId,
    parent: Option<ReqId>,
    pending: int16,
    lineSize: uint16,
    cb: Option<CallbackId>,
    prefetch: bool,
    mmu: bool,
    capInvalidate: bool,
    dinst: Option<Instr>)
  {
    predicate IsRead() { kind == MsgRead }
    predicate IsVpcWriteUpdate() { kind == MsgVpcWriteUpdate }
    predicate IsWrite() { kind == MsgWrite }
    predicate IsWriteAddress() { kind == MsgWriteAddress }
    predicate IsWriteback() { kind == MsgWriteback }
    predicate IsInvalidate() { kind == MsgInvalidate }

    /** The request is back at the node that originated it. */
    predicate IsHomeNode() { homeNode == currNode }

    /** How many of the six kind predicates hold. */
    function KindCount(): nat {
      (if IsRead() then 1 else 0) + (if IsWrite() then 1 else 0) +
      (if IsWriteAddress() then 1 else 0) + (if IsWriteback() then 1 else 0) +
      (if IsInvalidate() then 1 else 0) + (if IsVpcWriteUpdate() then 1 else 0)
    }
  }

  /**
   * The six kind predicates partition the requests: each tests the one
   * message-kind field, so exactly one of them holds for every request.
   */
  lemma ExactlyOneKind(r: Request)
    ensures r.KindCount() == 1
    ensures r.IsRead() <==> r.kind == MsgRead
    ensures r.IsWrite() <==> r.kind == MsgWrite
    ensures r.IsWriteAddress() <==> r.kind == MsgWriteAddress
    ensures r.IsWriteback() <==> r.kind == MsgWriteback
    ensures r.IsInvalidate() <==> r.kind == MsgInvalidate
    ensures r.IsVpcWriteUpdate() <==> r.kind == MsgVpcWriteUpdate
  {
  }

  /**
   * The fields a factory leaves as the pool slot held them: nothing in the
   * factories or in `create`'s signature assigns these.
   */
  ghost predicate KeepsSlot(r: Request, slot: Request) {
    r.pc == slot.pc && r.data == slot.data && r.pending == slot.pending &&
    r.lineSize == slot.lineSize && r.prefetch == slot.prefetch &&
    r.mmu == slot.mmu && r.capInvalidate == slot.capInvalidate
  }

  /**
   * `create(m, addr, cb)`: the pooled object `slot`, handed out again, with
   * its address, its home and current node and its callback assigned.
   */
  function Create(slot: Request, m: NodeId, addr: Addr, cb: Option<CallbackId>): (r: Request)
    ensures r.addr == addr && r.homeNode == m && r.IsHomeNode() && r.cb == cb
    ensures r.kind == slot.kind && r.parent == slot.parent && r.dinst == slot.dinst
    ensures KeepsSlot(r, slot)
  {
    slot.(addr := addr, homeNode := m, currNode := m, cb := cb)
  }

  /** `createFillRead` and `createRead`: a top-level read at `m`. */
  function ReadRequest(slot: Request, m: NodeId, dinst: Option<Instr>, addr: Addr, cb: Option<CallbackId>): (r: Request)
    ensures r.IsRead()
    ensures r.parent == None && r.dinst == dinst
    ensures r.addr == addr && r.homeNode == m && r.IsHomeNode() && r.cb == cb
    ensures KeepsSlot(r, slot)
  {
    Create(slot, m, addr, cb).(kind := MsgRead, parent := None, dinst := dinst)
  }

  /** `createWrite(m, addr, cb)`: a write by address, with no instruction. */
  function WriteRequest(slot: Request, m: NodeId, addr: Addr, cb: Option<CallbackId>): (r: Request)
    ensures r.IsWrite()
    ensures r.parent == None && r.dinst == None
    ensures r.addr == addr && r.homeNode == m && r.IsHomeNode() && r.cb == cb
    ensures KeepsSlot(r, slot)
  {
    Create(slot, m, addr, cb).(kind := MsgWrite, parent := None, dinst := None)
  }

  /** `createWrite(m, dinst, cb)`: a write of the instruction's address. */
  function InstrWriteRequest(slot: Request, m: NodeId, dinst: Instr, cb: Option<CallbackId>): (r: Request)
    ensures r.IsWrite()
    ensures r.parent == None && r.dinst == Some(dinst)
    ensures r.addr == dinst.addr && r.homeNode == m && r.IsHomeNode() && r.cb == cb
    ensures KeepsSlot(r, slot)
  {
    Create(slot, m, dinst.addr, cb).(kind := MsgWrite, parent := None, dinst := Some(dinst))
  }

  /**
   * `createVPCWriteUpdate`: a value-predictor update carrying the
   * instruction's address, data and program counter.
   */
  function VpcWriteUpdateRequest(slot: Request, m: NodeId, dinst: Instr, cb: Option<CallbackId>): (r: Request)
    ensures r.IsVpcWriteUpdate()
    ensures r.parent == None && r.dinst == Some(dinst)
    ensures r.addr == dinst.addr && r.data == dinst.data && r.pc == dinst.pc
    ensures r.homeNode == m && r.IsHomeNode() && r.cb == cb
    ensures r.pending == slot.pending && r.lineSize == slot.lineSize && r.prefetch == slot.prefetch &&
            r.mmu == slot.mmu && r.capInvalidate == slot.capInvalidate
  {
    Create(slot, m, dinst.addr, cb).(data := dinst.data, pc := dinst.pc, kind := MsgVpcWriteUpdate,
                                     parent := None, dinst := Some(dinst))
  }

  /** `createWriteAddress`: the address half of a store. */
  function WriteAddressRequest(slot: Request, m: NodeId, dinst: Instr, cb: Option<CallbackId>): (r: Request)
    ensures r.IsWriteAddress()
    ensures r.parent == None && r.dinst == Some(dinst)
    ensures r.addr == dinst.addr && r.homeNode == m && r.IsHomeNode() && r.cb == cb
    ensures KeepsSlot(r, slot)
  {
    Create(slot, m, dinst.addr, cb).(kind := MsgWriteAddress, parent := None, dinst := Some(dinst))
  }

  /** `createWriteback`: a fire-and-forget writeback, with no callback and no instruction. */
  function WritebackRequest(slot: Request, m: NodeId, addr: Addr): (r: Request)
    ensures r.IsWriteback()
    ensures r.parent == None && r.dinst == None && r.cb == None
    ensures r.addr == addr && r.homeNode == m && r.IsHomeNode()
    ensures KeepsSlot(r, slot)
  {
    Create(slot, m, addr, None).(kind := MsgWriteback, parent := None, dinst := None)
  }

  /**
   * The static `createInvalidate`: a top-level invalidate that waits for
   * exactly one acknowledgement (its own).
   */
  function InvalidateRequest(slot: Request, m: NodeId, naddr: Addr, size: uint16, capacityInvalidate: bool): (r: Request)
    ensures r.IsInvalidate()
    ensures r.pending == 1 && r.lineSize == size && r.capInvalidate == capacityInvalidate
    ensures r.parent == None && r.cb == None && r.dinst == None
    ensures r.addr == naddr && r.homeNode == m && r.IsHomeNode()
    ensures r.pc == slot.pc && r.data == slot.data && r.prefetch == slot.prefetch && r.mmu == slot.mmu
  {
    Create(slot, m, naddr, None).(kind := MsgInvalidate, lineSize := size, parent := None,
                                  pending := 1, dinst := None, capInvalidate := capacityInvalidate)
  }

  /**
   * The record the member `createInvalidate()` builds from the invalidate
   * `src`: same line, same capacity flag, homed at the node `src` is at now.
   * (The increment of `src.pending` is the heap's part, see Heap.Derive.)
   */
  function DerivedInvalidate(src: Request, slot: Request): (r: Request)
    requires src.IsInvalidate()
    ensures r.IsInvalidate()
    ensures r.addr == src.addr && r.lineSize == src.lineSize && r.capInvalidate == src.capInvalidate
    ensures r.homeNode == src.currNode && r.IsHomeNode()
    ensures r.parent == None && r.cb == None && r.dinst == None
    ensures r.pc == slot.pc && r.data == slot.data && r.pending == slot.pending &&
            r.prefetch == slot.prefetch && r.mmu == slot.mmu
  {
    Create(slot, src.currNode, src.addr, None).(kind := MsgInvalidate, lineSize := src.lineSize,
                                                parent := None, dinst := None,
                                                capInvalidate := src.capInvalidate)
  }
}
