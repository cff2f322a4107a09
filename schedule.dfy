/**
 * What a request hands to the simulation kernel: callbacks run now or later,
 * and the node handlers that forwarding schedules. The kernel itself is not
 * modelled; every request to it is appended to a log instead.
 */
module Schedule {
  import opened Types

  /** The MemRequest handlers that forwarding binds (`readCB`, `writeCB`, ...). */
  datatype Handler =
    | HRead
    | HWrite
    | HWriteAddress
    | HBusRead
    | HPushDown
    | HPushUp
    | HInvalidate

  /** The admission-time queries a memory node answers (`nextReadSlot`, ...). */
  datatype SlotQuery =
    | NextReadSlot
    | NextWriteSlot
    | NextBusReadSlot
    | NextPushDownSlot
    | NextPushUpSlot
    | NextInvalidateSlot

  /** A unit of deferred work: a completion callback, or a handler of a request. */
  datatype Action = RunCallback(cb: CallbackId) | RunHandler(handler: Handler, req: ReqId)

  /** One call into the kernel: `call()`, `schedule(lat)` or `scheduleAbs(when)`. */
  datatype Entry =
    | CallNow(action: Action)
    | ScheduleAfter(action: Action, delay: Delay)
    | ScheduleAt(action: Action, when: Time)

  /**
   * The node query each forwarding operation consults. Each handler has the
   * query of its own name, except the write-address handler, which is
   * admitted by the node's write slot.
   */
  function QueryOf(h: Handler): (q: SlotQuery)
    ensures h == HWriteAddress ==> q == NextWriteSlot
  {
    match h
    case HRead => NextReadSlot
    case HWrite => NextWriteSlot
    case HWriteAddress => NextWriteSlot
    case HBusRead => NextBusReadSlot
    case HPushDown => NextPushDownSlot
    case HPushUp => NextPushUpSlot
    case HInvalidate => NextInvalidateSlot
  }

  /** When an acknowledgement runs the callback: `ack()`, `ack(lat)` or `ackAbs(when)`. */
  datatype AckTiming = Immediately | After(lat: Delay) | At(when: Time)

  /** The kernel call that runs `a` with the given timing. */
  function Notify(t: AckTiming, a: Action): Entry {
    match t
    case Immediately => CallNow(a)
    case After(lat) => ScheduleAfter(a, lat)
    case At(when) => ScheduleAt(a, when)
  }

  /**
   * What an acknowledgement hands to the kernel: one entry that runs the
   * callback, if there is one, with the acknowledgement's timing; nothing
   * for a fire-and-forget request.
   */
  function AckEntries(cb: Option<CallbackId>, t: AckTiming): (es: seq<Entry>)
    ensures |es| <= 1
    ensures es == [] <==> cb.None?
    ensures forall e :: e in es ==> e.action == RunCallback(cb.value)
    ensures forall e :: e in es ==> (e.CallNow? <==> t.Immediately?)
    ensures forall e :: e in es && t.After? ==> e.ScheduleAfter? && e.delay == t.lat
    ensures forall e :: e in es && t.At? ==> e.ScheduleAt? && e.when == t.when
  {
    match cb
    case None => []
    case Some(c) => [Notify(t, RunCallback(c))]
  }
}
