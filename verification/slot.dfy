/**
 * The stamped slot of the per-slot-stamp protocol (src/spsc/slot.rs): each slot
 * holds a sequence stamp beside its value cell.  The stamp starts at the slot's
 * index, becomes `tail + 1` once the producer has written at sequence `tail`,
 * and `head + N` once the consumer has read at sequence `head`.
 */
module Slots {
  import opened Wrappers
  import opened Errors
  import opened Ring

  class Slot<T> {
    var stamp: nat
    var value: Option<T>

    /** `Slot::new`: the given stamp, no value. */
    constructor New(s: nat)
      ensures stamp == s && value == None
    {
      stamp := s;
      value := None;
    }

    /** `load_stamp` (an acquire load in the source). */
    method LoadStamp() returns (s: nat)
      ensures s == stamp
    {
      s := stamp;
    }

    /** `store_stamp` (a release store in the source): only the stamp changes. */
    method StoreStamp(s: nat)
      modifies this
      ensures stamp == s && value == old(value)
    {
      stamp := s;
    }

    /** `write`: the caller guarantees no live value is overwritten; the stamp is untouched. */
    method Write(v: T)
      requires value == None
      modifies this
      ensures value == Some(v) && stamp == old(stamp)
    {
      value := Some(v);
    }

    /** `read`: move the initialised value out; the stamp is untouched. */
    method Read() returns (v: T)
      requires value.Some?
      modifies this
      ensures old(value) == Some(v) && value == None && stamp == old(stamp)
    {
      v := value.value;
      value := None;
    }

    /** `drop_in_place`: destruct the initialised value; the stamp is untouched. */
    method DropInPlace()
      requires value.Some?
      modifies this
      ensures value == None && stamp == old(stamp)
    {
      value := None;
    }
  }

  /** RingBuffer<Slot<T>, N>: N distinct slots. */
  class SlotRing<T> {
    const capacity: nat
    const slots: seq<Slot<T>>

    ghost predicate Valid()
    {
      IsPowerOfTwo(capacity) && |slots| == capacity &&
      forall i, j :: 0 <= i < j < |slots| ==> slots[i] != slots[j]
    }

    ghost function Repr(): set<object>
    {
      set i | 0 <= i < |slots| :: slots[i]
    }

    constructor Wrap(s: seq<Slot<T>>)
      requires IsPowerOfTwo(|s|)
      requires forall i, j :: 0 <= i < j < |s| ==> s[i] != s[j]
      ensures Valid() && slots == s && capacity == |s|
    {
      capacity := |s|;
      slots := s;
    }

    /** The stamped `RingBuffer::default`: slot i is built with stamp i, then the capacity is checked. */
    static method Default(n: nat) returns (r: Result<SlotRing<T>, CapacityError>)
      ensures CheckCapacity(n).Err? ==> r == Err(CheckCapacity(n).error)
      ensures CheckCapacity(n).Ok? ==> r.Ok? && fresh(r.value) && r.value.Valid() && r.value.capacity == n
      ensures r.Ok? ==> forall i :: 0 <= i < n ==>
        fresh(r.value.slots[i]) && r.value.slots[i].stamp == i && r.value.slots[i].value == None
    {
      var s: seq<Slot<T>> := [];
      for i := 0 to n
        invariant |s| == i
        invariant forall j :: 0 <= j < i ==> fresh(s[j]) && s[j].stamp == j && s[j].value == None
        invariant forall j, k :: 0 <= j < k < i ==> s[j] != s[k]
      {
        var slot := new Slot<T>.New(i);
        s := s + [slot];
      }
      if !IsPowerOfTwo(n) {
        return Err(NotPowerOfTwo);
      }
      var ring := new SlotRing.Wrap(s);
      return Ok(ring);
    }
  }

  // ---------------------------------------------------------------------------
  // The unit tests of slot.rs

  /** `test_rw`: a value written into the slot of sequence 0 reads back unchanged. */
  method TestSlotReadWrite() returns (out: int)
    ensures out == 28392
  {
    var r := SlotRing<int>.Default(2);
    var ring := r.value;
    var i := Index(0, ring.capacity);
    ring.slots[i].Write(28392);
    out := ring.slots[i].Read();
  }

  /** `test_panics`: a stamped ring of 6 slots is refused. */
  method TestSlotPanics() returns (r: Result<SlotRing<()>, CapacityError>)
    ensures r == Err(NotPowerOfTwo)
  {
    r := SlotRing<()>.Default(6);
  }

  /** `test_initial_stamps`: for N = 4 the stamps read 0, 1, 2, 3. */
  method TestInitialStamps() returns (stamps: seq<nat>)
    ensures stamps == [0, 1, 2, 3]
  {
    var r := SlotRing<int>.Default(4);
    assert CheckCapacity(4).Ok?;
    var ring := r.value;
    stamps := [];
    for i := 0 to 4
      invariant forall j :: 0 <= j < 4 ==> ring.slots[j].stamp == j
      invariant |stamps| == i && forall j :: 0 <= j < i ==> stamps[j] == j
    {
      var s := ring.slots[i].LoadStamp();
      stamps := stamps + [s];
    }
  }

  /**
   * `test_stamp_protocol` for N = 4: write 42 at tail 0 and publish stamp 1,
   * read it back at head 0 and publish stamp 0 + N, which is the stamp the
   * writer expects at tail N.
   */
  method TestStampProtocol() returns (initial: nat, afterWrite: nat, val: int, afterRead: nat)
    ensures initial == 0 && afterWrite == 1 && val == 42 && afterRead == 4
  {
    var r := SlotRing<int>.Default(4);
    var slot := r.value.slots[0];
    initial := slot.LoadStamp();
    slot.Write(42);
    slot.StoreStamp(1);
    afterWrite := slot.LoadStamp();
    val := slot.Read();
    slot.StoreStamp(4);
    afterRead := slot.LoadStamp();
  }
}
