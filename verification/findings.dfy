/**
 * Two defects of the source, each shown on the code as written and set
 * beside the corrected behaviour the rest of the model uses.
 */
module Findings {
  import opened Wrappers
  import opened Errors
  import opened Ring
  import opened Slots
  import opened Vyukov

  // ---------------------------------------------------------------------------
  // 1. A stamped channel of one slot (src/spsc/vyukov/channel.rs, src/ring.rs)

  /**
   * As written: `RingBuffer::default` accepts N = 1 (1 is a power of two), so
   * the mask `N - 1` is 0 and every stamp passes the drop's has-data test; a
   * fresh slot, never written, would be destructed.  And the stamp a write at
   * sequence 0 publishes (1) is the stamp a write at sequence 1 waits for, so
   * the producer would overwrite the unread value.
   */
  method SingleSlotAsWritten() returns (accepted: bool, freshPassesTest: bool, freshInitialised: bool,
                                        unreadValue: Option<int>, writableAgain: bool)
    ensures accepted && freshPassesTest && !freshInitialised
    ensures unreadValue == Some(7) && writableAgain
  {
    var r := SlotRing<int>.Default(1);
    accepted := r.Ok?;
    var slot := r.value.slots[0];
    var stamp := slot.LoadStamp();
    freshPassesTest := HasData(stamp, 0, 1);
    freshInitialised := slot.value.Some?;
    // The producer writes at tail 0 and publishes stamp 0 + 1.
    slot.Write(7);
    slot.StoreStamp(1);
    unreadValue := slot.value;
    // At tail 1 the producer finds the slot writable when its stamp equals 1.
    var next := slot.LoadStamp();
    writableAgain := next == 1;
  }

  /** The capacity-one ambiguity holds for every sequence number, not only 0. */
  lemma SingleSlotStampsCoincide(s: nat)
    ensures HasData(s, 0, 1) && HasData(s + 1, 0, 1)
    ensures CheckCapacity(1).Ok? && StampedCapacity(1) == Err(SingleSlot)
  {
    assert IsPowerOfTwo(1);
  }

  // ---------------------------------------------------------------------------
  // 2. A drain beside try_recv (src/spsc/receiver.rs)

  /**
   * The shared cursors and cells of the shared-cursor channel, as plain
   * values: the capacity is |cells|.
   */
  datatype Shared = Shared(head: nat, tail: nat, cells: seq<Option<int>>)

  /** Every sequence of the window holds a value exactly when it is unread. */
  ghost predicate Consistent(s: Shared)
  {
    IsPowerOfTwo(|s.cells|) && s.head <= s.tail <= s.head + |s.cells| &&
    forall q :: s.head <= q < s.head + |s.cells| ==> (s.cells[Index(q, |s.cells|)].Some? <==> q < s.tail)
  }

  /**
   * `try_send` on the shared cursors (the open-channel case): with room, the
   * value goes into the slot of `tail`, which no other sequence of the
   * window shares, and `tail` advances; a full channel is left as it was.
   */
  function SharedSend(s: Shared, v: int): (r: Shared)
    requires IsPowerOfTwo(|s.cells|) && s.head <= s.tail
    ensures |r.cells| == |s.cells| && r.head == s.head
    ensures s.tail - s.head >= |s.cells| ==> r == s
    ensures s.tail - s.head < |s.cells| ==> r.tail == s.tail + 1
    ensures s.tail - s.head < |s.cells| ==> forall q :: s.head <= q < s.head + |s.cells| ==>
      r.cells[Index(q, |s.cells|)] == (if q == s.tail then Some(v) else s.cells[Index(q, |s.cells|)])
  {
    if s.tail - s.head >= |s.cells| then s
    else
      IndexUnshared(s.head, s.tail, |s.cells|);
      s.(tail := s.tail + 1, cells := s.cells[Index(s.tail, |s.cells|) := Some(v)])
  }

  /**
   * `try_recv` on the shared cursors: an empty channel is left as it was;
   * otherwise the cell of `head` is moved out (left empty, every other cell
   * of the window kept), `head` advances and `tail` is untouched.
   */
  function SharedTryRecv(s: Shared): (r: (Option<int>, Shared))
    requires IsPowerOfTwo(|s.cells|)
    ensures |r.1.cells| == |s.cells| && r.1.tail == s.tail
    ensures s.head == s.tail ==> r == (None, s)
    ensures s.head != s.tail ==> r.0 == s.cells[Index(s.head, |s.cells|)] && r.1.head == s.head + 1
    ensures s.head != s.tail ==> forall q :: s.head <= q < s.head + |s.cells| ==>
      r.1.cells[Index(q, |s.cells|)] == (if q == s.head then None else s.cells[Index(q, |s.cells|)])
  {
    if s.head == s.tail then (None, s)
    else
      var i := Index(s.head, |s.cells|);
      IndexUnshared(s.head, s.head, |s.cells|);
      (s.cells[i], s.(head := s.head + 1, cells := s.cells[i := None]))
  }

  /** `try_send` keeps the shared cursors consistent. */
  lemma SharedSendConsistent(s: Shared, v: int)
    requires Consistent(s)
    ensures Consistent(SharedSend(s, v))
  {
  }

  /**
   * `try_recv` keeps the shared cursors consistent, and a value it returns
   * from a non-empty channel is a real one: the window moves one sequence on.
   */
  lemma SharedTryRecvConsistent(s: Shared)
    requires Consistent(s)
    ensures Consistent(SharedTryRecv(s).1)
    ensures s.head != s.tail ==> SharedTryRecv(s).0.Some?
  {
    var n := |s.cells|;
    if s.head != s.tail {
      var r := SharedTryRecv(s).1;
      forall q | r.head <= q < r.head + n
        ensures r.cells[Index(q, n)].Some? <==> q < r.tail
      {
        if q == s.head + n {
          IndexShift(s.head, n);
        }
      }
    }
  }

  /**
   * As written: `drain(&self)` snapshots head 0 and leaves `try_recv` callable.
   * One value sent, a drain opened, the value taken by `try_recv` (head 1),
   * then the drain dropped without yielding anything: its commit stores head
   * 0 again.  The channel then claims one unread value in a cell whose value
   * has been moved out, which the next `try_recv` would read a second time.
   */
  lemma DrainRewindsHead()
    ensures var s1 := SharedSend(Shared(0, 0, [None, None]), 5);
      var snapshot := s1.head;
      var (got, s2) := SharedTryRecv(s1);
      var s3 := s2.(head := snapshot);
      Consistent(s1) && Consistent(s2) && got == Some(5) &&
      s3.head == 0 && s3.tail == 1 && s3.cells[0] == None && !Consistent(s3)
  {
    assert IsPowerOfTwo(2);
    assert Index(0, 2) == 0 && Index(1, 2) == 1 && Index(2, 2) == 0 by {
      DivModUnique(2, 2, 1, 0);
    }
  }

  /**
   * A drain's reads, k of them from the snapshot head: the values of the
   * cells of sequences head, ..., head + k - 1, in that order, with those
   * cells moved out, every other cell kept and the shared head where it was.
   */
  function DrainReads(s: Shared, k: nat): (r: (seq<Option<int>>, Shared))
    requires IsPowerOfTwo(|s.cells|) && s.head + k <= s.tail <= s.head + |s.cells|
    ensures r.1.head == s.head && r.1.tail == s.tail && |r.1.cells| == |s.cells|
    ensures |r.0| == k && forall j :: 0 <= j < k ==> r.0[j] == s.cells[Index(s.head + j, |s.cells|)]
    ensures forall q :: s.head <= q < s.head + |s.cells| ==>
      r.1.cells[Index(q, |s.cells|)] == (if q < s.head + k then None else s.cells[Index(q, |s.cells|)])
    decreases k
  {
    if k == 0 then ([], s)
    else
      var p := DrainReads(s, k - 1);
      var i := Index(s.head + k - 1, |s.cells|);
      IndexUnshared(s.head, s.head + k - 1, |s.cells|);
      (p.0 + [p.1.cells[i]], p.1.(cells := p.1.cells[i := None]))
  }

  /**
   * Corrected: with the drain holding the receiver exclusively (the
   * `drain(&mut self)` of src/spsc/lamport/receiver.rs), nothing moves the
   * shared head while the drain is live, and committing `snapshot + k` after
   * k reads leaves the channel consistent with the head moved forward by k.
   */
  lemma {:induction false} ExclusiveDrainCommit(s: Shared, k: nat)
    requires Consistent(s) && s.head + k <= s.tail
    ensures forall j :: 0 <= j < k ==> DrainReads(s, k).0[j].Some?
    ensures var c := DrainReads(s, k).1.(head := s.head + k);
      Consistent(c) && c.head == s.head + k && c.tail == s.tail
  {
    var n := |s.cells|;
    var c := DrainReads(s, k).1.(head := s.head + k);
    forall q | c.head <= q < c.head + n
      ensures c.cells[Index(q, n)].Some? <==> q < c.tail
    {
      if q >= s.head + n {
        IndexShift(q - n, n);
      }
    }
  }
}
