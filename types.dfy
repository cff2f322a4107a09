/** Scalar types shared by the memory-request model. */
module Types {

  /** `int16_t`, the width of a request's pending-acknowledgement counter. */
  newtype int16 = x: int | -0x8000 <= x < 0x8000

  /** `uint16_t`, the width of a request's line size. */
  newtype uint16 = x: int | 0 <= x < 0x1_0000

  type Addr = nat        // AddrType
  type Data = nat        // DataType, an opaque payload
  type Time = nat        // Time_t, an absolute simulated time
  type Delay = nat       // TimeDelta_t, a relative latency
  type ReqId = nat       // handle of a pooled request
  type NodeId = nat      // identity of a memory node (MemObj)
  type CallbackId = nat  // identity of a completion callback (CallbackBase)

  datatype Option<+T> = None | Some(value: T)

  /** `x++` on an `int16_t`: the mathematical successor, wrapped modulo 2^16. */
  function Inc16(x: int16): (r: int16)
    ensures (r as int - x as int - 1) % 0x1_0000 == 0
    ensures x < 0x7fff ==> r > x
  {
    if x == 0x7fff then -0x8000 else x + 1
  }

  /** `x--` on an `int16_t`: the mathematical predecessor, wrapped modulo 2^16. */
  function Dec16(x: int16): (r: int16)
    ensures (r as int - x as int + 1) % 0x1_0000 == 0
    ensures x > -0x8000 ==> r < x
  {
    if x == -0x8000 then 0x7fff else x - 1
  }

  /** Decrement undoes increment on every 16-bit value, wrap-around included. */
  lemma DecUndoesInc(x: int16)
    ensures Dec16(Inc16(x)) == x
  {
  }
}
