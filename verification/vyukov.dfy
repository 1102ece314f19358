/**
 * The per-slot-stamp ("Vyukov") channel of src/spsc/vyukov/channel.rs.
 *
 * There are no shared cursors: the producer's private `tail` and the
 * consumer's private `head` live in their handles, and the two sides meet
 * only through the stamp of the slot they are about to touch.  Slot j of
 * the window [head, head + N) is the slot of exactly one sequence s; its
 * stamp is s + 1 while s holds an unread value (s < tail) and s otherwise.
 */
module Vyukov {
  import opened Wrappers
  import opened Errors
  import opened Ring
  import opened Slots

  // ---------------------------------------------------------------------------
  // The "has data" test of the channel's drop

  /** `(stamp & (N - 1)) == ((i + 1) & (N - 1))`: slot i holds a value written and not yet read. */
  predicate HasData(stamp: nat, i: nat, n: nat)
    requires n > 0
  {
    BitAnd(stamp, n - 1) == BitAnd(i + 1, n - 1)
  }

  /** The has-data condition as the protocol states it: `stamp % N == (i + 1) % N`. */
  predicate MarksUnread(stamp: nat, i: nat, n: nat)
    requires n > 0
  {
    stamp % n == (i + 1) % n
  }

  /** For a power-of-two N the mask test is exactly the modulo condition. */
  lemma HasDataIsModulo(stamp: nat, i: nat, n: nat)
    requires IsPowerOfTwo(n)
    ensures HasData(stamp, i, n) <==> MarksUnread(stamp, i, n)
  {
    MaskIsModulo(stamp, n);
    MaskIsModulo(i + 1, n);
  }

  lemma ModSucc(s: nat, n: nat)
    requires n > 0
    ensures (s + 1) % n == (s % n + 1) % n
  {
    var q, r := s / n, s % n;
    if r + 1 < n {
      DivModUnique(s + 1, n, q, r + 1);
      DivModUnique(r + 1, n, 0, r + 1);
    } else {
      DivModUnique(s + 1, n, q + 1, 0);
      DivModUnique(r + 1, n, 1, 0);
    }
  }

  /**
   * A slot whose stamp is the sequence it is waiting to be written at
   * (stamp % N == i) fails the test, as soon as N >= 2.
   */
  lemma FreeStampHasNoData(stamp: nat, i: nat, n: nat)
    requires IsPowerOfTwo(n) && n >= 2 && stamp % n == i
    ensures !HasData(stamp, i, n)
  {
    HasDataIsModulo(stamp, i, n);
    if i + 1 < n {
      DivModUnique(i + 1, n, 0, i + 1);
    } else {
      DivModUnique(i + 1, n, 1, 0);
    }
  }

  /** A slot written at sequence s (stamp s + 1, with s % N == i) passes the test. */
  lemma WrittenStampHasData(s: nat, i: nat, n: nat)
    requires IsPowerOfTwo(n) && s % n == i
    ensures HasData(s + 1, i, n)
  {
    HasDataIsModulo(s + 1, i, n);
    ModSucc(s, n);
  }

  /**
   * `test_stamp_has_data_formula`, for every slot i and lap k: stamp i + k*N
   * means empty and stamp i + 1 + k*N means unread data.
   */
  lemma LapStamps(i: nat, k: nat, n: nat)
    requires IsPowerOfTwo(n) && n >= 2 && i < n
    ensures !HasData(i + k * n, i, n) && HasData(i + 1 + k * n, i, n)
  {
    DivModUnique(i + k * n, n, k, i);
    FreeStampHasNoData(i + k * n, i, n);
    WrittenStampHasData(i + k * n, i, n);
  }

  /** `test_stamp_last_slot_edge_case`: N = 4, slot 3: stamps 3 and 7 are empty, 4 and 8 hold data. */
  lemma LastSlotEdgeCase()
    ensures !HasData(3, 3, 4) && HasData(4, 3, 4) && !HasData(7, 3, 4) && HasData(8, 3, 4)
  {
    assert IsPowerOfTwo(4);
    LapStamps(3, 0, 4);
    LapStamps(3, 1, 4);
  }

  /** `test_same_stamp_different_slots`: stamp 5 means data in slot 0 but an empty slot 1 (N = 4). */
  lemma SameStampDifferentSlots()
    ensures HasData(5, 0, 4) && !HasData(5, 1, 4)
  {
    assert IsPowerOfTwo(4);
    LapStamps(0, 1, 4);
    LapStamps(1, 1, 4);
  }

  /**
   * The capacities the stamp protocol can run on: powers of two, and at
   * least two slots, because with one slot "written at s" (stamp s + 1) and
   * "free for s + 1" (stamp s + 1) are the same stamp.
   */
  function StampedCapacity(n: nat): (r: Result<(), CapacityError>)
    ensures r.Ok? <==> IsPowerOfTwo(n) && n >= 2
    ensures r.Err? && IsPowerOfTwo(n) ==> r.error == SingleSlot
  {
    if !IsPowerOfTwo(n) then Err(NotPowerOfTwo)
    else if n < 2 then Err(SingleSlot)
    else Ok(())
  }

  /** With an accepted capacity the test is exact for every stamp a slot can carry. */
  lemma StampTestExact(s: nat, n: nat)
    requires StampedCapacity(n).Ok?
    ensures !HasData(s, s % n, n) && HasData(s + 1, s % n, n)
  {
    FreeStampHasNoData(s, s % n, n);
    WrittenStampHasData(s, s % n, n);
  }

  // ---------------------------------------------------------------------------
  // The order in which the drop meets the unread values

  /** Slot i is the slot of sequence head + Offset(Index(head), N, i). */
  lemma OffsetSlot(head: nat, i: nat, n: nat)
    requires IsPowerOfTwo(n) && i < n
    ensures Index(head + Offset(Index(head, n), n, i), n) == i
  {
    OffsetLands(head, i, n);
  }

  function Min(a: nat, b: nat): nat
  {
    if a < b then a else b
  }

  /**
   * The unread values q (oldest first, starting in slot r) in the order a
   * scan of slots 0, 1, ..., N - 1 meets them: first those that wrapped
   * round to the low slots, then those from slot r upwards.
   */
  function SlotOrder<T>(q: seq<T>, r: nat, n: nat): (o: seq<T>)
    requires |q| <= n && r < n
    ensures multiset(o) == multiset(q) && |o| == |q|
  {
    var a := Min(|q|, n - r);
    assert q == q[..a] + q[a..];
    q[a..] + q[..a]
  }

  /** A queue that does not run past the last slot is met in FIFO order. */
  lemma SlotOrderNoWrap<T>(q: seq<T>, r: nat, n: nat)
    requires r < n && r + |q| <= n
    ensures SlotOrder(q, r, n) == q
  {
    assert Min(|q|, n - r) == |q|;
    assert q[|q|..] == [] && q[..|q|] == q;
  }

  /** The value slot i holds when the queue q starts in slot r. */
  function Found<T>(q: seq<T>, r: nat, n: nat, i: nat): Option<T>
    requires r < n && i < n
  {
    if Offset(r, n, i) < |q| then Some(q[Offset(r, n, i)]) else None
  }

  /** What a scan of slots 0, ..., i - 1 meets, slot by slot. */
  function ScanOrder<T>(q: seq<T>, r: nat, n: nat, i: nat): seq<T>
    requires r < n && i <= n
  {
    if i == 0 then []
    else ScanOrder(q, r, n, i - 1) + (if Found(q, r, n, i - 1).Some? then [Found(q, r, n, i - 1).value] else [])
  }

  /** The same prefix in closed form. */
  function ScanPrefix<T>(q: seq<T>, r: nat, n: nat, i: nat): seq<T>
    requires |q| <= n && r < n && i <= n
  {
    var a := Min(|q|, n - r);
    if i <= r then q[a..Min(|q|, n - r + i)] else q[a..] + q[..Min(|q|, i - r)]
  }

  /** A step in the slots that the wrapped part of the queue occupies. */
  lemma WrappedStep<T>(q: seq<T>, r: nat, n: nat, i: nat)
    requires |q| <= n && i < r < n
    ensures ScanPrefix(q, r, n, i + 1) ==
      ScanPrefix(q, r, n, i) + (if Found(q, r, n, i).Some? then [Found(q, r, n, i).value] else [])
  {
    var a := Min(|q|, n - r);
    var k := n - r + i;
    assert Offset(r, n, i) == k;
    if k < |q| {
      assert a == n - r && Min(|q|, k) == k && Min(|q|, k + 1) == k + 1;
      assert q[a..k + 1] == q[a..k] + [q[k]];
    } else {
      assert Min(|q|, k) == |q| && Min(|q|, k + 1) == |q|;
    }
  }

  /** A step in the slots from the queue's first slot upwards. */
  lemma UnwrappedStep<T>(q: seq<T>, r: nat, n: nat, i: nat)
    requires |q| <= n && r <= i < n
    ensures ScanPrefix(q, r, n, i + 1) ==
      ScanPrefix(q, r, n, i) + (if Found(q, r, n, i).Some? then [Found(q, r, n, i).value] else [])
  {
    var a := Min(|q|, n - r);
    var k := i - r;
    if i == r {
      StartOfQueue(q, r, n);
    }
    assert ScanPrefix(q, r, n, i) == q[a..] + q[..Min(|q|, k)];
    HeadGrows(q, a, k);
  }

  /** Taking one more element from the front of q. */
  lemma HeadGrows<T>(q: seq<T>, a: nat, k: nat)
    requires a <= |q|
    ensures q[a..] + q[..Min(|q|, k + 1)] == q[a..] + q[..Min(|q|, k)] + (if k < |q| then [q[k]] else [])
  {
    if k < |q| {
      assert q[..k + 1] == q[..k] + [q[k]];
    }
  }

  /** At the queue's first slot, the scan has met exactly the wrapped part. */
  lemma StartOfQueue<T>(q: seq<T>, r: nat, n: nat)
    requires |q| <= n && r < n
    ensures ScanPrefix(q, r, n, r) == q[Min(|q|, n - r)..] + q[..Min(|q|, 0)]
  {
    var a := Min(|q|, n - r);
    assert Min(|q|, n - r + r) == |q|;
    assert q[a..|q|] == q[a..];
    assert q[..Min(|q|, 0)] == [];
  }

  lemma ScanPrefixEmpty<T>(q: seq<T>, r: nat, n: nat)
    requires |q| <= n && r < n
    ensures ScanPrefix(q, r, n, 0) == []
  {
    var a := Min(|q|, n - r);
    assert Min(|q|, n - r + 0) == a;
  }

  /** One slot more: the recursive and the closed form grow by the same value. */
  lemma ScanStep<T>(q: seq<T>, r: nat, n: nat, i: nat)
    requires |q| <= n && r < n && 0 < i <= n
    requires ScanOrder(q, r, n, i - 1) == ScanPrefix(q, r, n, i - 1)
    ensures ScanOrder(q, r, n, i) == ScanPrefix(q, r, n, i)
  {
    var j := i - 1;
    if j < r {
      WrappedStep(q, r, n, j);
    } else {
      UnwrappedStep(q, r, n, j);
    }
    assert j + 1 == i;
  }

  lemma {:induction false} ScanOrderIsPrefix<T>(q: seq<T>, r: nat, n: nat, i: nat)
    requires |q| <= n && r < n && i <= n
    ensures ScanOrder(q, r, n, i) == ScanPrefix(q, r, n, i)
  {
    if i == 0 {
      ScanPrefixEmpty(q, r, n);
    } else {
      ScanOrderIsPrefix(q, r, n, i - 1);
      ScanStep(q, r, n, i);
    }
  }

  /** A full scan meets the unread values exactly in slot order: each once, none other. */
  lemma ScanIsSlotOrder<T>(q: seq<T>, r: nat, n: nat)
    requires |q| <= n && r < n
    ensures ScanOrder(q, r, n, n) == SlotOrder(q, r, n)
  {
    ScanOrderIsPrefix(q, r, n, n);
  }

  // ---------------------------------------------------------------------------
  // The channel

  class Channel<T> {
    const buffer: SlotRing<T>
    var closed: bool
    /** The consumer's private cursor (kept by the receiver handle). */
    var head: nat
    /** The producer's private cursor (kept by the sender handle). */
    var tail: nat

    ghost var Contents: seq<T>
    /** The values whose destructor the channel's drop has run, in order. */
    var destroyed: seq<T>

    ghost predicate Valid()
      reads this, buffer.Repr()
    {
      buffer.Valid() && buffer.capacity >= 2 &&
      head <= tail <= head + buffer.capacity &&
      |Contents| == tail - head &&
      forall s :: head <= s < head + buffer.capacity ==>
        buffer.slots[Index(s, buffer.capacity)].stamp == (if s < tail then s + 1 else s) &&
        buffer.slots[Index(s, buffer.capacity)].value == (if s < tail then Some(Contents[s - head]) else None)
    }

    constructor Init(ring: SlotRing<T>)
      requires ring.Valid() && ring.capacity >= 2
      requires forall i :: 0 <= i < ring.capacity ==> ring.slots[i].stamp == i && ring.slots[i].value == None
      ensures Valid() && buffer == ring && !closed && head == 0 && tail == 0 && Contents == [] && destroyed == []
    {
      buffer := ring;
      closed := false;
      head := 0;
      tail := 0;
      Contents := [];
      destroyed := [];
      new;
      forall s | 0 <= s < ring.capacity
        ensures Index(s, ring.capacity) == s
      {
        DivModUnique(s, ring.capacity, 0, s);
      }
    }

    /**
     * `Channel::default`: slot i starts with stamp i and no value, the channel
     * is open, and both private cursors start at 0.  Capacities the stamp
     * protocol cannot run on are refused (StampedCapacity).
     */
    static method Default(n: nat) returns (r: Result<Channel<T>, CapacityError>)
      ensures StampedCapacity(n).Err? ==> r == Err(StampedCapacity(n).error)
      ensures StampedCapacity(n).Ok? ==> r.Ok?
      ensures r.Ok? ==> (fresh(r.value) && fresh(r.value.buffer) && r.value.Valid() && r.value.buffer.capacity == n)
      ensures r.Ok? ==> (!r.value.closed && r.value.head == 0 && r.value.tail == 0 &&
        r.value.Contents == [] && r.value.destroyed == [])
      ensures r.Ok? ==> forall i :: 0 <= i < n ==>
        fresh(r.value.buffer.slots[i]) && r.value.buffer.slots[i].stamp == i && r.value.buffer.slots[i].value == None
    {
      var cap := StampedCapacity(n);
      if cap.Err? {
        return Err(cap.error);
      }
      var ring := SlotRing<T>.Default(n);
      var c := new Channel.Init(ring.value);
      return Ok(c);
    }

    /**
     * `try_send` of the stamp protocol: Disconnected when closed; otherwise the
     * slot of `tail` is free exactly when its stamp equals `tail`, which is
     * exactly when `tail - head < N`.  A free slot takes the value, its stamp
     * becomes `tail + 1`, and `tail` advances.
     */
    method TrySend(value: T) returns (r: Result<(), TrySendErr<T>>)
      requires Valid()
      modifies this, buffer.Repr()
      ensures Valid()
      ensures old(closed) ==> r == Err(TrySendErr.Disconnected(value))
      ensures !old(closed) && old(tail - head) >= buffer.capacity ==> r == Err(Full(value))
      ensures r.Err? ==> (Contents == old(Contents) && tail == old(tail) &&
        forall j :: 0 <= j < buffer.capacity ==> unchanged(buffer.slots[j]))
      ensures !old(closed) && old(tail - head) < buffer.capacity ==>
        r == Ok(()) && Contents == old(Contents) + [value] && tail == old(tail) + 1 &&
        buffer.slots[Index(old(tail), buffer.capacity)].stamp == old(tail) + 1
      ensures head == old(head) && closed == old(closed) && destroyed == old(destroyed)
    {
      if closed {
        return Err(TrySendErr.Disconnected(value));
      }
      var n := buffer.capacity;
      var t := tail;
      var slot := buffer.slots[Index(t, n)];
      var stamp := slot.LoadStamp();
      if t - head < n {
        assert stamp == t;
      } else {
        IndexShift(head, n);
        assert stamp == head + 1;
      }
      if stamp != t {
        return Err(Full(value));
      }
      Publish(value);
      r := Ok(());
    }

    /**
     * The producer's half of a successful `try_send`: write into the free slot
     * of `tail`, publish stamp `tail + 1`, and advance `tail`.
     */
    method Publish(value: T)
      requires Valid() && tail - head < buffer.capacity
      modifies this, buffer.Repr()
      ensures Valid() && Contents == old(Contents) + [value] && tail == old(tail) + 1
      ensures buffer.slots[Index(old(tail), buffer.capacity)].stamp == old(tail) + 1
      ensures head == old(head) && closed == old(closed) && destroyed == old(destroyed)
    {
      var n := buffer.capacity;
      var t := tail;
      var slot := buffer.slots[Index(t, n)];
      ghost var q := Contents;
      slot.Write(value);
      slot.StoreStamp(t + 1);
      tail := t + 1;
      Contents := Contents + [value];
      forall s | head <= s < head + n
        ensures buffer.slots[Index(s, n)].stamp == (if s < tail then s + 1 else s)
        ensures buffer.slots[Index(s, n)].value == (if s < tail then Some(Contents[s - head]) else None)
      {
        if s == t {
          assert Contents[s - head] == value;
        } else {
          IndexInjective(head, s, t, n);
          assert old(buffer.slots[Index(s, n)].stamp) == (if s < t then s + 1 else s);
          assert old(buffer.slots[Index(s, n)].value) == (if s < t then Some(q[s - head]) else None);
          if s < t {
            assert Contents[s - head] == q[s - head];
          }
        }
      }
    }

    /**
     * `try_recv` of the stamp protocol: the slot of `head` holds data exactly
     * when its stamp equals `head + 1`, which is exactly when the queue is not
     * empty.  Then the value is moved out, the stamp becomes `head + N` (free
     * for the next lap) and `head` advances; otherwise Disconnected if closed,
     * and Ok(None) if not.
     */
    method TryRecv() returns (r: Result<Option<T>, TryRecvError>)
      requires Valid()
      modifies this, buffer.Repr()
      ensures Valid()
      ensures old(Contents) == [] ==>
        r == (if old(closed) then Err(TryRecvError.Disconnected) else Ok(None)) &&
        Contents == old(Contents) && head == old(head) &&
        forall j :: 0 <= j < buffer.capacity ==> unchanged(buffer.slots[j])
      ensures old(Contents) != [] ==>
        r == Ok(Some(old(Contents[0]))) && Contents == old(Contents[1..]) && head == old(head) + 1 &&
        buffer.slots[Index(old(head), buffer.capacity)].stamp == old(head) + buffer.capacity
      ensures tail == old(tail) && closed == old(closed) && destroyed == old(destroyed)
    {
      var n := buffer.capacity;
      var h := head;
      var slot := buffer.slots[Index(h, n)];
      var stamp := slot.LoadStamp();
      if h < tail {
        assert stamp == h + 1;
      } else {
        assert stamp == h;
      }
      if stamp != h + 1 {
        if closed {
          return Err(TryRecvError.Disconnected);
        }
        return Ok(None);
      }
      var v := slot.Read();
      slot.StoreStamp(h + n);
      head := h + 1;
      Contents := Contents[1..];
      forall s | h + 1 <= s < h + 1 + n
        ensures buffer.slots[Index(s, n)].stamp == (if s < tail then s + 1 else s)
        ensures buffer.slots[Index(s, n)].value == (if s < tail then Some(Contents[s - (h + 1)]) else None)
      {
        if s == h + n {
          IndexShift(h, n);
        } else {
          IndexDistinct(h, s, n);
        }
      }
      r := Ok(Some(v));
    }

    /**
     * The channel's drop: visit every slot once, in index order, and destruct
     * the value of each slot passing the has-data test.  Exactly the unread
     * values are destructed, each once (in slot order, a rotation of the
     * queue), and afterwards no slot holds a value; stamps are left alone.
     */
    method Drop()
      requires Valid()
      modifies this, buffer.Repr()
      ensures forall j :: 0 <= j < buffer.capacity ==>
        buffer.slots[j].value == None && buffer.slots[j].stamp == old(buffer.slots[j].stamp)
      ensures destroyed == old(destroyed) + SlotOrder(old(Contents), Index(old(head), buffer.capacity), buffer.capacity)
      ensures multiset(destroyed) == multiset(old(destroyed)) + multiset(old(Contents))
      ensures head == old(head) && tail == old(tail) && closed == old(closed)
    {
      var n := buffer.capacity;
      ghost var q := Contents;
      ghost var r := Index(head, n);
      forall j | 0 <= j < n
        ensures buffer.slots[j].value == Found(q, r, n, j)
        ensures MarksUnread(buffer.slots[j].stamp, j, n) <==> Found(q, r, n, j).Some?
      {
        ScanPlan(this, j);
      }
      Scan(q, r);
      ScanIsSlotOrder(q, r, n);
    }

    /**
     * The loop of the drop: slots 0, ..., N - 1 in turn, destructing the value
     * of every slot whose stamp passes the has-data test.
     */
    method Scan(ghost q: seq<T>, ghost r: nat)
      requires buffer.Valid() && |q| <= buffer.capacity && r < buffer.capacity
      requires forall j :: 0 <= j < buffer.capacity ==> buffer.slots[j].value == Found(q, r, buffer.capacity, j)
      requires forall j :: 0 <= j < buffer.capacity ==>
        (MarksUnread(buffer.slots[j].stamp, j, buffer.capacity) <==> Found(q, r, buffer.capacity, j).Some?)
      modifies this`destroyed, buffer.Repr()
      ensures forall j :: 0 <= j < buffer.capacity ==>
        buffer.slots[j].value == None && buffer.slots[j].stamp == old(buffer.slots[j].stamp)
      ensures destroyed == old(destroyed) + ScanOrder(q, r, buffer.capacity, buffer.capacity)
    {
      var n := buffer.capacity;
      for i := 0 to n
        invariant forall j :: 0 <= j < n ==> buffer.slots[j].stamp == old(buffer.slots[j].stamp)
        invariant forall j :: 0 <= j < n ==> buffer.slots[j].value == (if j < i then None else Found(q, r, n, j))
        invariant destroyed == old(destroyed) + ScanOrder(q, r, n, i)
      {
        ScanSlot(q, r, i);
      }
    }

    /** One step of the drop's loop: test the stamp of slot i and destruct its value if it has one. */
    method ScanSlot(ghost q: seq<T>, ghost r: nat, i: nat)
      requires buffer.Valid() && |q| <= buffer.capacity && r < buffer.capacity && i < buffer.capacity
      requires buffer.slots[i].value == Found(q, r, buffer.capacity, i)
      requires MarksUnread(buffer.slots[i].stamp, i, buffer.capacity) <==> Found(q, r, buffer.capacity, i).Some?
      modifies this`destroyed, buffer.slots[i]
      ensures buffer.slots[i].value == None && buffer.slots[i].stamp == old(buffer.slots[i].stamp)
      ensures destroyed == old(destroyed) +
        (if Found(q, r, buffer.capacity, i).Some? then [Found(q, r, buffer.capacity, i).value] else [])
    {
      var slot := buffer.slots[i];
      var stamp := slot.LoadStamp();
      HasDataIsModulo(stamp, i, buffer.capacity);
      if HasData(stamp, i, buffer.capacity) {
        var v := slot.value.value;
        slot.DropInPlace();
        destroyed := destroyed + [v];
      }
    }
  }

  /**
   * What the drop's scan finds in slot j of a valid channel: a value exactly
   * when j is the slot of an unread sequence, and the stamp test agreeing.
   */
  lemma ScanPlan<T>(c: Channel<T>, j: nat)
    requires c.Valid() && j < c.buffer.capacity
    ensures c.buffer.slots[j].value == Found(c.Contents, Index(c.head, c.buffer.capacity), c.buffer.capacity, j)
    ensures MarksUnread(c.buffer.slots[j].stamp, j, c.buffer.capacity) <==>
      Found(c.Contents, Index(c.head, c.buffer.capacity), c.buffer.capacity, j).Some?
  {
    var n := c.buffer.capacity;
    var s := c.head + Offset(Index(c.head, n), n, j);
    OffsetSlot(c.head, j, n);
    HasDataIsModulo(c.buffer.slots[j].stamp, j, n);
    if s < c.tail {
      WrittenStampHasData(s, j, n);
    } else {
      FreeStampHasNoData(s, j, n);
    }
  }

  // ---------------------------------------------------------------------------
  // The drop-accounting tests of src/spsc/vyukov/channel.rs (N = 4)

  /** Send each of xs in turn into an open channel with room for all of them. */
  method SendAll<T>(c: Channel<T>, xs: seq<T>)
    requires c.Valid() && !c.closed && c.tail - c.head + |xs| <= c.buffer.capacity
    modifies c, c.buffer.Repr()
    ensures c.Valid() && c.Contents == old(c.Contents) + xs
    ensures c.head == old(c.head) && c.tail == old(c.tail) + |xs| && !c.closed && c.destroyed == old(c.destroyed)
  {
    for k := 0 to |xs|
      invariant c.Valid() && c.Contents == old(c.Contents) + xs[..k]
      invariant c.head == old(c.head) && c.tail == old(c.tail) + k && !c.closed && c.destroyed == old(c.destroyed)
    {
      var _ := c.TrySend(xs[k]);
      assert xs[..k + 1] == xs[..k] + [xs[k]];
    }
    assert xs[..|xs|] == xs;
  }

  /** Receive k values from a channel holding at least k: they are the k oldest. */
  method RecvTimes<T>(c: Channel<T>, k: nat) returns (out: seq<T>)
    requires c.Valid() && k <= |c.Contents|
    modifies c, c.buffer.Repr()
    ensures c.Valid() && out == old(c.Contents)[..k] && c.Contents == old(c.Contents)[k..]
    ensures c.head == old(c.head) + k && c.tail == old(c.tail) && c.closed == old(c.closed) && c.destroyed == old(c.destroyed)
  {
    out := [];
    ghost var q := c.Contents;
    for j := 0 to k
      invariant c.Valid() && out == q[..j] && c.Contents == q[j..]
      invariant c.head == old(c.head) + j && c.tail == old(c.tail) && c.closed == old(c.closed) && c.destroyed == old(c.destroyed)
    {
      var r := c.TryRecv();
      out := out + [r.value.value];
      assert q[..j + 1] == q[..j] + [q[j]];
    }
  }

  /** One full lap on an empty channel: N values sent, then read back in order. */
  method FullLap<T>(c: Channel<T>, xs: seq<T>) returns (out: seq<T>)
    requires c.Valid() && !c.closed && c.Contents == [] && |xs| == c.buffer.capacity
    modifies c, c.buffer.Repr()
    ensures c.Valid() && out == xs && c.Contents == []
    ensures c.head == old(c.head) + |xs| && c.tail == old(c.tail) + |xs| && !c.closed && c.destroyed == old(c.destroyed)
  {
    SendAll(c, xs);
    assert c.Contents == xs;
    out := RecvTimes(c, |xs|);
  }

  /** `test_channel_drop_partial_consumption`: 3 sent, 1 read; the drop destructs the other 2. */
  method DropPartialConsumption() returns (read: seq<int>, destroyed: seq<int>)
    ensures read == [1] && destroyed == [2, 3]
  {
    var ch := Channel<int>.Default(4);
    var c := ch.value;
    assert fresh(c.buffer.Repr());
    SendAll(c, [1, 2, 3]);
    read := RecvTimes(c, 1);
    assert Index(1, 4) == 1 by {
      DivModUnique(1, 4, 0, 1);
    }
    SlotOrderNoWrap([2, 3], 1, 4);
    c.Drop();
    destroyed := c.destroyed;
  }

  /**
   * The two laps of `test_channel_drop_after_wraparound` on a fresh channel:
   * 4 sent and read, then 3 sent and 1 read, leaving the last 2 of the
   * second lap unread.
   */
  method TwoLaps(c: Channel<int>) returns (read: seq<int>)
    requires c.Valid() && !c.closed && c.Contents == [] && c.head == 0 && c.tail == 0 && c.buffer.capacity == 4
    modifies c, c.buffer.Repr()
    ensures c.Valid() && read == [1, 2, 3, 4, 5] && c.Contents == [6, 7] && c.head == 5
    ensures c.destroyed == old(c.destroyed)
  {
    var lap := FullLap(c, [1, 2, 3, 4]);
    SendAll(c, [5, 6, 7]);
    assert c.Contents == [5, 6, 7];
    var one := RecvTimes(c, 1);
    read := lap + one;
  }

  /**
   * `test_channel_drop_after_wraparound`: a full lap sent and read, then 3 sent
   * and 1 read; the drop destructs the 2 left.
   */
  method DropAfterWraparound() returns (read: seq<int>, destroyed: seq<int>)
    ensures read == [1, 2, 3, 4, 5] && destroyed == [6, 7]
  {
    var ch := Channel<int>.Default(4);
    var c := ch.value;
    assert fresh(c.buffer.Repr());
    read := TwoLaps(c);
    assert Index(5, 4) == 1 by {
      DivModUnique(5, 4, 1, 1);
    }
    SlotOrderNoWrap([6, 7], 1, 4);
    c.Drop();
    destroyed := c.destroyed;
  }

  /** `test_channel_drop_empty`: a channel never written destructs nothing. */
  method DropEmpty() returns (destroyed: seq<int>)
    ensures destroyed == []
  {
    var ch := Channel<int>.Default(4);
    var c := ch.value;
    assert fresh(c.buffer.Repr());
    SlotOrderNoWrap<int>([], 0, 4);
    c.Drop();
    destroyed := c.destroyed;
  }

  /**
   * `test_same_stamp_different_slots_integration`: after a full lap, one more
   * value lands in slot 0; slots 0 and 1 both carry stamp 5, yet the drop
   * destructs only the value of slot 0.
   */
  method DropSameStamp() returns (stamp0: nat, stamp1: nat, destroyed: seq<int>)
    ensures stamp0 == 5 && stamp1 == 5 && destroyed == [5]
  {
    var ch := Channel<int>.Default(4);
    var c := ch.value;
    assert fresh(c.buffer.Repr());
    var _ := FullLap(c, [1, 2, 3, 4]);
    SendAll(c, [5]);
    assert Index(4, 4) == 0 && Index(5, 4) == 1 by {
      DivModUnique(4, 4, 1, 0);
      DivModUnique(5, 4, 1, 1);
    }
    stamp0 := c.buffer.slots[0].LoadStamp();
    stamp1 := c.buffer.slots[1].LoadStamp();
    SlotOrderNoWrap([5], 0, 4);
    c.Drop();
    destroyed := c.destroyed;
  }

  /** `test_channel_drop_full`: 4 sent and none read; the drop destructs all 4. */
  method DropFull() returns (destroyed: seq<int>)
    ensures destroyed == [1, 2, 3, 4]
  {
    var ch := Channel<int>.Default(4);
    var c := ch.value;
    assert fresh(c.buffer.Repr());
    SendAll(c, [1, 2, 3, 4]);
    SlotOrderNoWrap([1, 2, 3, 4], 0, 4);
    c.Drop();
    destroyed := c.destroyed;
  }

  /** 4 sent, 3 read, 2 more sent: 4, 5, 6 sit in slots 3, 0, 1. */
  method WrapQueue(c: Channel<int>)
    requires c.Valid() && !c.closed && c.Contents == [] && c.head == 0 && c.tail == 0 && c.buffer.capacity == 4
    modifies c, c.buffer.Repr()
    ensures c.Valid() && c.Contents == [4, 5, 6] && c.head == 3 && c.destroyed == old(c.destroyed)
  {
    SendAll(c, [1, 2, 3, 4]);
    var _ := RecvTimes(c, 3);
    SendAll(c, [5, 6]);
  }

  lemma WrappedOrder()
    ensures SlotOrder([4, 5, 6], 3, 4) == [5, 6, 4]
  {
    assert Min(3, 4 - 3) == 1;
    assert [4, 5, 6][1..] == [5, 6] && [4, 5, 6][..1] == [4];
  }

  /**
   * A queue that wraps round the end of the ring: the drop meets 5 and 6
   * (slots 0 and 1) before 4 (slot 3).
   */
  method DropWrappedQueue() returns (destroyed: seq<int>)
    ensures destroyed == [5, 6, 4]
  {
    var ch := Channel<int>.Default(4);
    var c := ch.value;
    assert fresh(c.buffer.Repr());
    WrapQueue(c);
    assert Index(3, 4) == 3 by {
      DivModUnique(3, 4, 0, 3);
    }
    WrappedOrder();
    c.Drop();
    destroyed := c.destroyed;
  }
}
