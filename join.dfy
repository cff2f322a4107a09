/**
 * The invalidate fan-out and join: a top-level invalidate counts one
 * acknowledgement for itself and one per derived child; `decPending` on the
 * parent or on any child linked to it consumes one, in any order, and
 * `hasPending` turns false exactly when all have arrived.
 */
module Join {
  import opened Types
  import opened Requests
  import opened Heap

  /**
   * `p` is a live top-level invalidate and every handle in `kids` is a live
   * invalidate whose parent link points to `p`. (The code that sets a
   * child's parent link is not part of this model, so the link is assumed
   * here rather than produced by Derive.)
   */
  ghost predicate Family(reqs: Live, p: ReqId, kids: set<ReqId>) {
    p in reqs && reqs[p].IsInvalidate() && reqs[p].parent == None && p !in kids &&
    forall k :: k in kids ==> k in reqs && reqs[k].IsInvalidate() && reqs[k].parent == Some(p)
  }

  /** Every call in `ops` is made on the parent or on one of its children. */
  ghost predicate WithinFamily(p: ReqId, kids: set<ReqId>, ops: seq<ReqId>) {
    forall i :: 0 <= i < |ops| ==> ops[i] == p || ops[i] in kids
  }

  /** `decPending` called on each handle of `ops` in turn; None once an assertion fails. */
  function DecAll(reqs: Live, ops: seq<ReqId>): Option<Live>
    decreases |ops|
  {
    if ops == [] then Some(reqs)
    else if CanDecPending(reqs, ops[0]) then DecAll(DecPending(reqs, ops[0]), ops[1..])
    else None
  }

  /** `p`'s counter lowered by `n`, everything else as it was. */
  function Lowered(reqs: Live, p: ReqId, n: nat): Live
    requires p in reqs && 0 <= reqs[p].pending as int - n
  {
    reqs[p := reqs[p].(pending := (reqs[p].pending as int - n) as int16)]
  }

  /**
   * One `decPending` within the family, made while the parent's counter is
   * positive, passes its assertions and lowers the parent's counter by one.
   */
  lemma OneDecrement(reqs: Live, p: ReqId, kids: set<ReqId>, id: ReqId)
    requires Family(reqs, p, kids) && (id == p || id in kids) && reqs[p].pending > 0
    ensures CanDecPending(reqs, id)
    ensures DecPending(reqs, id) == Lowered(reqs, p, 1)
    ensures Family(DecPending(reqs, id), p, kids)
  {
    assert DecTarget(reqs, id) == p;
  }

  /** Lowering by one and then by `n - 1` is lowering by `n`. */
  lemma LoweredTwice(reqs: Live, p: ReqId, n: nat)
    requires p in reqs && 1 <= n <= reqs[p].pending as int
    ensures Lowered(Lowered(reqs, p, 1), p, n - 1) == Lowered(reqs, p, n)
  {
  }

  /**
   * Join arithmetic: as long as no more calls are made than `p` has pending
   * acknowledgements, every assertion of `decPending` holds, and the calls
   * together lower `p`'s counter by their number and change nothing else,
   * whichever mix of parent and children makes them.
   */
  lemma {:induction false} JoinCounts(reqs: Live, p: ReqId, kids: set<ReqId>, ops: seq<ReqId>)
    requires Family(reqs, p, kids) && WithinFamily(p, kids, ops)
    requires |ops| <= reqs[p].pending as int
    ensures DecAll(reqs, ops) == Some(Lowered(reqs, p, |ops|))
    decreases |ops|
  {
    if ops == [] {
      assert Lowered(reqs, p, 0) == reqs;
    } else {
      OneDecrement(reqs, p, kids, ops[0]);
      var next := DecPending(reqs, ops[0]);
      assert WithinFamily(p, kids, ops[1..]) by {
        forall i | 0 <= i < |ops[1..]| ensures ops[1..][i] == p || ops[1..][i] in kids {
          assert ops[1..][i] == ops[i + 1];
        }
      }
      assert DecAll(reqs, ops) == DecAll(next, ops[1..]);
      JoinCounts(next, p, kids, ops[1..]);
      LoweredTwice(reqs, p, |ops|);
    }
  }

  /**
   * Order independence: any two runs of `decPending` calls within the family
   * that make equally many calls, at most the parent's count (in particular,
   * one run and any reordering of it), end in the same state. Past the count
   * this fails, see OrderMattersPastJoin.
   */
  lemma {:induction false} JoinOrderIndependent(reqs: Live, p: ReqId, kids: set<ReqId>, ops1: seq<ReqId>, ops2: seq<ReqId>)
    requires Family(reqs, p, kids) && WithinFamily(p, kids, ops1) && WithinFamily(p, kids, ops2)
    requires |ops1| == |ops2| <= reqs[p].pending as int
    ensures DecAll(reqs, ops1).Some? && DecAll(reqs, ops1) == DecAll(reqs, ops2)
  {
    JoinCounts(reqs, p, kids, ops1);
    JoinCounts(reqs, p, kids, ops2);
  }

  /**
   * The join condition: after `n` calls, the parent still has pending
   * acknowledgements exactly when fewer calls were made than it counted,
   * and a child has them exactly when its own counter or its parent's is
   * positive.
   */
  lemma {:induction false} JoinSettles(reqs: Live, p: ReqId, kids: set<ReqId>, ops: seq<ReqId>)
    requires Family(reqs, p, kids) && WithinFamily(p, kids, ops)
    requires |ops| <= reqs[p].pending as int
    ensures DecAll(reqs, ops).Some?
    ensures var r := DecAll(reqs, ops).value;
            HasPendingDefined(r, p) && (HasPending(r, p) <==> |ops| < reqs[p].pending as int)
    ensures var r := DecAll(reqs, ops).value;
            forall k :: k in kids ==>
              HasPendingDefined(r, k) &&
              (HasPending(r, k) <==> reqs[k].pending > 0 || |ops| < reqs[p].pending as int)
  {
    JoinCounts(reqs, p, kids, ops);
  }

  /**
   * Past the join: once the parent's counter is zero, `decPending` on a
   * child violates its assertion, but on the parent itself it is allowed
   * and takes the counter to -1 (its lower-bound assertion is disabled).
   */
  lemma OverDecrement(reqs: Live, p: ReqId, kids: set<ReqId>)
    requires Family(reqs, p, kids) && reqs[p].pending == 0
    ensures forall k :: k in kids ==> !CanDecPending(reqs, k)
    ensures CanDecPending(reqs, p) && DecPending(reqs, p)[p].pending == -1
  {
  }

  /**
   * Past the join, order matters: with the parent counting one and a linked
   * child `a`, the run `[a, p]` passes every assertion and leaves the parent
   * at -1, while the reordered run `[p, a]` fails the child's assertion.
   * So order independence holds only up to the parent's count.
   */
  lemma {:induction false} OrderMattersPastJoin(reqs: Live, p: ReqId, kids: set<ReqId>, a: ReqId)
    requires Family(reqs, p, kids) && a in kids && reqs[p].pending == 1
    ensures DecAll(reqs, [a, p]).Some? && p in DecAll(reqs, [a, p]).value
    ensures DecAll(reqs, [a, p]).value[p].pending == -1
    ensures DecAll(reqs, [p, a]) == None
  {
    OneDecrement(reqs, p, kids, a);
    var afterA := DecPending(reqs, a);
    assert [a, p][1..] == [p] && [p][1..] == [];
    assert DecAll(reqs, [a, p]) == DecAll(afterA, [p]);
    OverDecrement(afterA, p, kids);
    assert DecAll(afterA, [p]) == Some(DecPending(afterA, p));
    OneDecrement(reqs, p, kids, p);
    var afterP := DecPending(reqs, p);
    assert [p, a][1..] == [a];
    assert DecAll(reqs, [p, a]) == DecAll(afterP, [a]);
    OverDecrement(afterP, p, kids);
  }

  /** `createInvalidate()` on each `(handle, recycled slot)` pair of `allocs` in turn. */
  function DeriveAll(reqs: Live, src: ReqId, allocs: seq<(ReqId, Request)>): Option<Live>
    decreases |allocs|
  {
    if allocs == [] then Some(reqs)
    else if src in reqs && reqs[src].IsInvalidate() && allocs[0].0 !in reqs then
      DeriveAll(Derive(reqs, src, allocs[0].0, allocs[0].1), src, allocs[1..])
    else None
  }

  /** The handles of `allocs`. */
  function Handles(allocs: seq<(ReqId, Request)>): set<ReqId> {
    set i | 0 <= i < |allocs| :: allocs[i].0
  }

  /**
   * Fan-out: deriving N children from an invalidate, under N distinct new
   * handles, raises its counter by exactly N (without wrapping when it
   * stays below 2^15) and adds N invalidates for the same line, homed at
   * the source's current node; no other record changes.
   */
  lemma {:induction false} FanOutCounts(reqs: Live, src: ReqId, allocs: seq<(ReqId, Request)>)
    requires src in reqs && reqs[src].IsInvalidate()
    requires forall i :: 0 <= i < |allocs| ==> allocs[i].0 !in reqs
    requires forall i, j :: 0 <= i < j < |allocs| ==> allocs[i].0 != allocs[j].0
    requires reqs[src].pending as int + |allocs| < 0x8000
    ensures DeriveAll(reqs, src, allocs).Some?
    ensures var r := DeriveAll(reqs, src, allocs).value;
            r.Keys == reqs.Keys + Handles(allocs) &&
            r[src] == reqs[src].(pending := (reqs[src].pending as int + |allocs|) as int16) &&
            (forall k :: k in reqs && k != src ==> r[k] == reqs[k]) &&
            (forall i :: 0 <= i < |allocs| ==> r[allocs[i].0] == DerivedInvalidate(reqs[src], allocs[i].1))
    decreases |allocs|
  {
    if allocs == [] {
      assert reqs[src].(pending := reqs[src].pending) == reqs[src];
      assert Handles(allocs) == {};
    } else {
      var (c, slot) := allocs[0];
      var next := Derive(reqs, src, c, slot);
      assert next[src].pending as int == reqs[src].pending as int + 1;
      FanOutCounts(next, src, allocs[1..]);
      var r := DeriveAll(next, src, allocs[1..]).value;
      assert DeriveAll(reqs, src, allocs).value == r;
      assert Handles(allocs) == {c} + Handles(allocs[1..]) by {
        forall h | h in Handles(allocs) ensures h in {c} + Handles(allocs[1..]) {
          var i :| 0 <= i < |allocs| && allocs[i].0 == h;
          if i > 0 { assert allocs[1..][i - 1].0 == h; }
        }
        forall h | h in Handles(allocs[1..]) ensures h in Handles(allocs) {
          var i :| 0 <= i < |allocs[1..]| && allocs[1..][i].0 == h;
          assert allocs[i + 1].0 == h;
        }
      }
      assert DerivedInvalidate(next[src], slot) == DerivedInvalidate(reqs[src], slot);
      forall i | 0 <= i < |allocs| ensures r[allocs[i].0] == DerivedInvalidate(reqs[src], allocs[i].1) {
        if i > 0 {
          assert allocs[1..][i - 1] == allocs[i];
          assert DerivedInvalidate(next[src], allocs[i].1) == DerivedInvalidate(reqs[src], allocs[i].1);
        } else {
          assert c !in Handles(allocs[1..]);
        }
      }
    }
  }

  /**
   * A derive followed by one `decPending` on the top-level source leaves the
   * source exactly as it was: the two counter updates cancel.
   */
  lemma DeriveThenDecRestores(reqs: Live, src: ReqId, child: ReqId, slot: Request)
    requires src in reqs && reqs[src].IsInvalidate() && reqs[src].parent == None && child !in reqs
    ensures CanDecPending(Derive(reqs, src, child, slot), src)
    ensures DecPending(Derive(reqs, src, child, slot), src) == reqs[child := DerivedInvalidate(reqs[src], slot)]
  {
    var d := Derive(reqs, src, child, slot);
    DecUndoesInc(reqs[src].pending);
    assert DecPending(d, src)[src] == reqs[src];
  }
}
