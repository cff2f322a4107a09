# MemRequest: the memory-request record of the ESESC memory hierarchy

This project models the memory request of the ESESC simulator, `simu/libcore/MemRequest.h`. A request is a pooled event object. It carries one access (read, write, write-address, writeback, invalidate, value-predictor write update) through the chain of memory nodes. The model covers:

- the typed factories that turn a recycled pool object into a request of one kind;
- the shallow two-level join of invalidate acknowledgements (`hasPending`, `decPending`, and the member `createInvalidate()` that adds one pending acknowledgement to its source);
- the one-shot `markPrefetch` / `markMMU` flags;
- the three acknowledgement forms, which fire the optional callback and release the request;
- the forwarding operations, which bind a node handler at the slot the current node grants plus a latency.

Layout:

- `types.dfy` (module `Types`): the 16-bit counter and line-size types. It has explicit `int16_t` wrap-around for `pending++` and `pending--`.
- `requests.dfy` (module `Requests`): the request record, its kind predicates (`IsRead`, `IsWrite`, …, `IsHomeNode`), `create` and the typed factories, as functions on values.
- `heap.dfy` (module `Heap`): the live requests as a map from handle to record.
  - The derive step is `Derive`, `hasPending` is `HasPending` and `decPending` is `DecPending`.
  - These are pure transitions. The pool's methods are proved against them.
- `schedule.dfy` (module `Schedule`): what the request hands to the simulation kernel. That is a callback run now (`call`), a callback run after a delay (`schedule`), or an action run at an absolute time (`scheduleAbs`). The kernel is a log of such entries.
- `pool.dfy` (module `Pool`): the class `MemRequestPool`.
  - Its fields are the live map, the next handle and the kernel log.
  - Each factory, `decPending`, the mark operations, the acknowledgements and forwarding are methods.
  - Every method states the whole new state in terms of the old state.
- `join.dfy` (module `Join`): lemmas about fan-out and join over any number of children and any order of calls.
- `scenario.dfy` (module `Scenarios`): a client that fans one invalidate out to three children and settles it.

Modelling choices:

- **Recycled slots.** The body of `create(m, addr, cb)` (`simu/libcore/MemRequest.h:156`) is not part of this model. From its signature, the model assumes it assigns the address, the home and current node (both `m`) and the callback. Every other field keeps whatever the recycled pool object held. That object is the parameter `slot`. So no default is claimed for `pending`, `prefetch`, `mmu`, `lineSize`, `data` or `pc` beyond what a factory assigns.
- **Handles.** Requests are identified by handles. A handle is given out once (`nextId` only grows), so no two live requests alias, and a released handle is never live again.
- **Parent links.** No code in the header sets `parent_req` to a non-null value, so the join lemmas take the parent links as a hypothesis (`Join.Family`).
- **Node queries.** The node admission queries (`nextReadSlot`, …) are a pure function parameter `SlotFn`.

Three consequences of the code that are easy to miss:

- A top-level invalidate starts with `pending == 1` (`simu/libcore/MemRequest.h:217`) and each derived child adds one (`:231`). So N children make the parent count 1 + N, not N, and 1 + N `decPending` calls settle it.
- `decPending` on a request without a parent has its lower-bound assertion disabled (`:262`). It silently takes a zero counter to -1 (`Join.OverDecrement`). Only a call through a child is rejected once the parent's counter is zero.
- Past the join, call order matters. With the parent counting 1 and one linked child, the child's call followed by the parent's passes every assertion, but the parent's call followed by the child's fails the child's assertion (`Join.OrderMattersPastJoin`). Order independence holds only up to the parent's count.

## Model

| member | source | states |
|---|---|---|
| `Types.Inc16` | simu/libcore/MemRequest.h:231 | `pending++` on an `int16_t`: the result is congruent to the successor modulo 2^16, and is larger unless the counter was at its maximum |
| `Types.Dec16` | simu/libcore/MemRequest.h:263 | `pending--` on an `int16_t`: the result is congruent to the predecessor modulo 2^16, and is smaller unless the counter was at its minimum |
| `Types.DecUndoesInc` | simu/libcore/MemRequest.h:231 | decrementing undoes incrementing on every 16-bit value, wrap-around included |
| `Requests.ExactlyOneKind` | simu/libcore/MemRequest.h:309-314 | `isRead`, `isVPCWriteUpdate`, `isWrite`, `isWriteAddress`, `isWriteback` and `isInvalidate` each test the one kind field, so exactly one of them holds for every request; this holds by construction |
| `Requests.Request.IsHomeNode` | simu/libcore/MemRequest.h:244 | `isHomeNode`: the current node is the home node; every factory's contract states that a new request satisfies it |
| `Requests.Create` | simu/libcore/MemRequest.h:156 | `create` gives the recycled object the address, home node = current node = `m`, and the callback; kind, parent, instruction and all other fields stay as the slot held them |
| `Requests.ReadRequest` | simu/libcore/MemRequest.h:158-172 | `createFillRead`/`createRead` yield a request for which `isRead` holds (and so, by `ExactlyOneKind`, no other kind predicate); null parent; the given instruction, address and callback; at its home node |
| `Requests.WriteRequest` | simu/libcore/MemRequest.h:173-179 | `createWrite(addr)`: `isWrite` holds; null parent; no instruction |
| `Requests.InstrWriteRequest` | simu/libcore/MemRequest.h:180-186 | `createWrite(dinst)`: `isWrite` holds; null parent; the address is the instruction's |
| `Requests.VpcWriteUpdateRequest` | simu/libcore/MemRequest.h:187-195 | `createVPCWriteUpdate`: `isVPCWriteUpdate` holds; null parent; address, data and pc copied from the instruction |
| `Requests.WriteAddressRequest` | simu/libcore/MemRequest.h:196-202 | `createWriteAddress`: `isWriteAddress` holds; null parent; the instruction's address |
| `Requests.WritebackRequest` | simu/libcore/MemRequest.h:204-210 | `createWriteback`: `isWriteback` holds; null parent; no callback and no instruction |
| `Requests.InvalidateRequest` | simu/libcore/MemRequest.h:212-221 | the static `createInvalidate`: `isInvalidate` holds; pending is 1; line size and capacity flag as given; null parent; no callback; no instruction |
| `Requests.DerivedInvalidate` | simu/libcore/MemRequest.h:222-230 | requires the source to be an invalidate; the child is an invalidate for the same address, line size and capacity flag, homed at the source's current node, with null parent, no callback and no instruction |
| `Heap.Derive` | simu/libcore/MemRequest.h:222-234 | the member `createInvalidate()`: adds the child under a fresh handle; the source's counter goes up by exactly one (modulo 2^16); no other field of the source and no other record changes |
| `Heap.HasPending` | simu/libcore/MemRequest.h:246-254 | pending iff the own counter is positive, or there is a parent and the parent's counter is positive (one level only); defined only when the parent is live and has no parent, which is checked only when the own counter is not positive |
| `Heap.HasPendingIsShallow` | simu/libcore/MemRequest.h:249-253 | the check is not recursive: with a grandparent it fails its assertion instead of looking further up |
| `Heap.DecTarget` | simu/libcore/MemRequest.h:255-265 | defined as the parent if there is one, else the request itself; the contract states that this target is a live invalidate |
| `Heap.DecPending` | simu/libcore/MemRequest.h:255-265 | requires an invalidate, and a live invalidate parent with positive counter if there is a parent; with a parent only the parent's counter drops by one and the request is untouched; without one its own counter is decremented (wrapping) with no lower-bound check; nothing else changes |
| `Schedule.QueryOf` | simu/libcore/MemRequest.h:336-345 | the write-address forwarding consults the node's write slot |
| `Schedule.AckEntries` | simu/libcore/MemRequest.h:279-299 | an acknowledgement makes one kernel call, running the callback, iff there is a callback: synchronous for `ack()`, after `lat` for `ack(lat)`, at `when` for `ackAbs` |
| `Pool.ForwardTime` | simu/libcore/MemRequest.h:316-389 | defined as the current node's slot for the handler's query plus `lat`; the contract states that the time is never earlier than the slot and equals it iff `lat` is 0 (the no-argument forms) |
| `Pool.MemRequestPool.Alloc` | simu/libcore/MemRequest.h:156 | `create` hands out a handle never live before and records the recycled object under it; nothing else changes |
| `Pool.MemRequestPool.CreateFillRead` | simu/libcore/MemRequest.h:158-164 | a new live handle holding `ReadRequest`; other requests and the kernel log are unchanged |
| `Pool.MemRequestPool.CreateRead` | simu/libcore/MemRequest.h:165-172 | a new live handle holding `ReadRequest`; nothing else changes |
| `Pool.MemRequestPool.CreateWrite` | simu/libcore/MemRequest.h:173-179 | a new live handle holding `WriteRequest`; nothing else changes |
| `Pool.MemRequestPool.CreateInstrWrite` | simu/libcore/MemRequest.h:180-186 | a new live handle holding `InstrWriteRequest`; nothing else changes |
| `Pool.MemRequestPool.CreateVpcWriteUpdate` | simu/libcore/MemRequest.h:187-195 | a new live handle holding `VpcWriteUpdateRequest`; nothing else changes |
| `Pool.MemRequestPool.CreateWriteAddress` | simu/libcore/MemRequest.h:196-202 | a new live handle holding `WriteAddressRequest`; nothing else changes |
| `Pool.MemRequestPool.CreateWriteback` | simu/libcore/MemRequest.h:204-210 | a new live handle holding `WritebackRequest`; nothing else changes |
| `Pool.MemRequestPool.CreateInvalidate` | simu/libcore/MemRequest.h:212-221 | a new live handle holding `InvalidateRequest`; nothing else changes |
| `Pool.MemRequestPool.DeriveInvalidate` | simu/libcore/MemRequest.h:222-234 | requires a live invalidate source; the new state is `Heap.Derive` of the old one under a fresh handle |
| `Pool.MemRequestPool.DecPending` | simu/libcore/MemRequest.h:255-265 | under the assertions of `decPending`, the new live map is `Heap.DecPending` of the old one |
| `Pool.MemRequestPool.MarkPrefetch` | simu/libcore/MemRequest.h:267-271 | requires the flag clear (a second call is excluded), sets it, and changes nothing else |
| `Pool.MemRequestPool.MarkMmu` | simu/libcore/MemRequest.h:273-277 | requires the flag clear (a second call is excluded), sets it, and changes nothing else |
| `Pool.MemRequestPool.Acknowledge` | simu/libcore/MemRequest.h:279-299 | the callback, if any, is handed to the kernel with the acknowledgement's timing; then the request is released: its handle is no longer live and is never given out again |
| `Pool.MemRequestPool.Ack` | simu/libcore/MemRequest.h:279-284 | `ack()`: the callback, if present, is called now; the request is released |
| `Pool.MemRequestPool.AckAfter` | simu/libcore/MemRequest.h:285-292 | `ack(lat)`: requires `lat != 0`; the callback, if present, is scheduled `lat` later; the request is released |
| `Pool.MemRequestPool.AckAbs` | simu/libcore/MemRequest.h:293-299 | `ackAbs(when)`: requires `when != 0`; the callback, if present, is scheduled at `when`; the request is released |
| `Pool.MemRequestPool.Forward` | simu/libcore/MemRequest.h:316-389 | each `fwdX`/`fwdX(lat)` appends exactly one absolute-time binding of handler X for this request at `ForwardTime`; no request changes |
| `Join.OneDecrement` | simu/libcore/MemRequest.h:255-265 | within a family, while the parent's counter is positive, one `decPending` on the parent or any child passes its assertions and lowers the parent's counter by exactly one |
| `Join.JoinCounts` | simu/libcore/MemRequest.h:255-265 | any run of at most `pending` calls, by any mix of parent and children, passes all assertions and lowers the parent's counter by the number of calls, changing nothing else |
| `Join.JoinOrderIndependent` | simu/libcore/MemRequest.h:255-265 | two runs of the same number of calls, at most the parent's count, in any order and by any callers in the family, end in the same state |
| `Join.OrderMattersPastJoin` | simu/libcore/MemRequest.h:256-263 | past the count, order decides: with the parent counting 1 and a linked child `a`, `[a, p]` passes and leaves the parent at -1, while `[p, a]` fails the child's assertion |
| `Join.JoinSettles` | simu/libcore/MemRequest.h:246-265 | after the calls, the parent has pending acknowledgements iff fewer calls were made than it counted; a child has them iff its own counter or the parent's is positive |
| `Join.OverDecrement` | simu/libcore/MemRequest.h:258-263 | once the parent's counter is 0, a child's `decPending` violates its assertion, while the parent's own call is allowed and yields -1 |
| `Join.FanOutCounts` | simu/libcore/MemRequest.h:222-234 | deriving N children under distinct fresh handles raises the source's counter by exactly N (no wrap below 2^15), adds exactly those N invalidates for the same line homed at the source's node, and changes no other record |
| `Join.DeriveThenDecRestores` | simu/libcore/MemRequest.h:231 | a derive followed by `decPending` on the top-level source restores the source exactly (the child remains) |
| `Scenarios.FanOutThree` | simu/libcore/MemRequest.h:212-265 | an invalidate with three derived children counts 4; `decPending` on an unlinked child leaves the parent at 4; after three `decPending` calls on the parent it is still pending, after the fourth it is not, and `ack` releases it |

## Left out

- `simu/libmem/MemController.h` is not part of this model. It only declares the memory controller: the bank state machine, address decomposition, admission and overflow queues and DRAM latencies live in code that is not part of this model.
- The pool internals are not modelled: `actPool`, the bodies of `create` and `destroy`, and `setNextHop`. Allocation is a fresh handle, release is removal from the live map, and `create`'s assignments are inferred from its signature.
- The code that sets a child's `parent_req` to its parent is not in the header. The join lemmas assume the link (`Join.Family`).
- The debug call-path instrumentation (`CallEdge`, `upce`, `dump_calledge`, `rawdump_calledge`, the debug `id`) is left out. It is diagnostics only.
- The node handlers (`read`, `write`, `busRead`, `pushDown`, `pushUp`, `invalidate`) and the simulation kernel are external. They become the `SlotFn` parameter and the kernel log. Same-time ordering and the running of scheduled work are not modelled.
- `getTimeDelay` and `startClock` are left out because they read the global clock. For the same reason, `ack(lat)` is logged as relative to "now" and not converted to an absolute time.
- Time is unbounded: the 64-bit wrap-around of `when + lat` in the forwarding operations is not modelled.
- `getL1clkRatio` / `getL3clkRatio` (floating point) and `getStatsFlag` are left out. All three delegate to the instruction object.
- The DDR2 list fields (`front`, `back`, `loadMiss`, `sequenceNum`, `coreID`, `isLoadMiss`) are left out. They are raw pointers and flags with no logic here.
- `isSharedAddress` is left out: it is compile-flag dependent and delegates to the instruction.
- `MemRequestHashFunc` is left out: it hashes a pointer value.
- The `vpc_update` field is left out because nothing in the header assigns or reads it.
- The getters (`getAddr`, `getPC`, `getData`, `getLineSize`, `getParent`, `getHomeNode`, `getDInst`, `isPrefetch`, `isMMU`, `isCapacityInvalidate`) are plain field reads of the record.
- The fourteen `fwd*` methods (seven pairs) are one method, `Forward`, with the handler as a parameter. The no-argument forms are `lat == 0`.
