/**
 * The live requests of the pool as a map from handle to record, and the
 * pending-acknowledgement operations of MemRequest as transitions on it:
 * deriving a child invalidate, the shallow `hasPending` check and
 * `decPending`.
 */
module Heap {
  import opened Types
  import opened Requests

  type Live = map<ReqId, Request>

  /**
   * What `hasPending` assumes before it dereferences the parent: the parent
   * is live and has no parent of its own (only one level of fan-out). The
   * check is reached only when the request's own counter is not positive.
   */
  predicate HasPendingDefined(reqs: Live, id: ReqId) {
    id in reqs &&
    (reqs[id].pending > 0 || reqs[id].parent.None? ||
     (reqs[id].parent.value in reqs && reqs[reqs[id].parent.value].parent.None?))
  }

  /**
   * `hasPending`: the request's own counter is positive or, one level up
   * only, its parent's counter is.
   */
  function HasPending(reqs: Live, id: ReqId): (b: bool)
    requires HasPendingDefined(reqs, id)
    // The first two clauses are corollaries of the third, kept as the two
    // cases a caller most often needs: a positive own counter, and no parent.
    ensures reqs[id].pending > 0 ==> b
    ensures reqs[id].parent.None? ==> (b <==> reqs[id].pending > 0)
    ensures b <==> reqs[id].pending > 0 ||
                   (reqs[id].parent.Some? && reqs[reqs[id].parent.value].pending > 0)
  {
    if reqs[id].pending > 0 then true
    else if reqs[id].parent.None? then false
    else reqs[reqs[id].parent.value].pending > 0
  }

  /**
   * The check is one level deep: when neither a request nor its parent has
   * a positive counter and the parent itself has a parent, `hasPending`'s
   * assertion fails instead of looking further up.
   */
  lemma HasPendingIsShallow(reqs: Live, id: ReqId)
    requires id in reqs && reqs[id].pending <= 0 && reqs[id].parent.Some?
    requires reqs[id].parent.value in reqs && reqs[reqs[id].parent.value].parent.Some?
    ensures !HasPendingDefined(reqs, id)
  {
  }

  /**
   * The assertions of `decPending`: the request is a live invalidate and, if
   * it has a parent, the parent is a live invalidate with a positive counter.
   * A request without a parent is not checked against zero.
   */
  predicate CanDecPending(reqs: Live, id: ReqId) {
    id in reqs && reqs[id].IsInvalidate() &&
    (reqs[id].parent.Some? ==>
       reqs[id].parent.value in reqs &&
       reqs[reqs[id].parent.value].IsInvalidate() &&
       reqs[reqs[id].parent.value].pending > 0)
  }

  /** The request whose counter `decPending` on `id` decrements. */
  function DecTarget(reqs: Live, id: ReqId): (t: ReqId)
    requires CanDecPending(reqs, id)
    ensures t in reqs && reqs[t].IsInvalidate()
  {
    if reqs[id].parent.Some? then reqs[id].parent.value else id
  }

  /**
   * `decPending`: the parent's counter goes down by one if there is a parent,
   * otherwise the request's own counter does (wrapping as an `int16_t`).
   * No other record and no other field changes.
   */
  function DecPending(reqs: Live, id: ReqId): (r: Live)
    requires CanDecPending(reqs, id)
    ensures r.Keys == reqs.Keys
    ensures reqs[id].parent.Some? ==>
              var p := reqs[id].parent.value;
              r[p].pending as int == reqs[p].pending as int - 1 && (p != id ==> r[id] == reqs[id])
    ensures reqs[id].parent.None? ==> r[id].pending == Dec16(reqs[id].pending)
    ensures var t := DecTarget(reqs, id); r[t] == reqs[t].(pending := r[t].pending)
    ensures forall k :: k in reqs && k != DecTarget(reqs, id) ==> r[k] == reqs[k]
  {
    var t := DecTarget(reqs, id);
    reqs[t := reqs[t].(pending := Dec16(reqs[t].pending))]
  }

  /**
   * The member `createInvalidate()` called on `src`: the new request `child`
   * is added, and `src` waits for one more acknowledgement. Nothing else in
   * `src` or in any other record changes.
   */
  function Derive(reqs: Live, src: ReqId, child: ReqId, slot: Request): (r: Live)
    requires src in reqs && reqs[src].IsInvalidate() && child !in reqs
    ensures r.Keys == reqs.Keys + {child}
    ensures r[child] == DerivedInvalidate(reqs[src], slot) && r[child].homeNode == reqs[src].currNode
    ensures r[src].pending == Inc16(reqs[src].pending)
    ensures reqs[src].pending < 0x7fff ==> r[src].pending as int == reqs[src].pending as int + 1
    ensures r[src] == reqs[src].(pending := r[src].pending)
    ensures forall k :: k in reqs && k != src ==> r[k] == reqs[k]
  {
    var s := reqs[src];
    reqs[child := DerivedInvalidate(s, slot)][src := s.(pending := Inc16(s.pending))]
  }
}
