/** The error values the channels hand back to their callers (src/spsc/vyukov/error.rs). */
module Errors {

  /** A failed send hands the value back, so nothing is silently lost. */
  datatype TrySendErr<+T> = Full(value: T) | Disconnected(value: T)

  datatype TryRecvError = Empty | Disconnected

  /**
   * Construction-time rejection of a capacity: the two `assert!`s of
   * `RingBuffer::from`, and the single-slot ring that the per-slot-stamp
   * channel cannot tell apart from a full one (see Vyukov.StampedCapacity).
   */
  datatype CapacityError = NotPowerOfTwo | NotPositive | SingleSlot
}
