/**
 * The shared-cursor ("Lamport") SPSC channel: src/spsc/channel.rs, sender.rs,
 * receiver.rs and the bounded drain of src/spsc/lamport/receiver.rs.
 *
 * The producer owns `tail`, the consumer owns `head`; the buffer is full when
 * `tail - head >= N` and empty when `tail == head`.  Each producer step and
 * each consumer step is one atomic sequential step of the model.
 *
 * Ghost state says what the cursors mean:
 *   - `Contents` is the queue of values not yet taken, oldest first;
 *   - `pending` counts values a live `Drain` has moved out but not yet
 *     committed to the shared `head`;
 *   - `senderAlive` / `receiverAlive` record which handles have been dropped;
 *   - `destroyed` lists the values the channel's own drop destructed.
 */
module Spsc {
  import opened Wrappers
  import opened Errors
  import opened Ring

  /** A futures `AtomicWaker`, reduced to "is a waker stored" and "how many wake-ups were delivered". */
  datatype WakerCell = WakerCell(registered: bool, wakes: nat)

  /** `register`: a waker is stored. */
  function Register(w: WakerCell): WakerCell
  {
    WakerCell(true, w.wakes)
  }

  /** `wake`: the stored waker, if any, is taken out and woken once. */
  function Wake(w: WakerCell): WakerCell
  {
    WakerCell(false, if w.registered then w.wakes + 1 else w.wakes)
  }

  /** The two wakers of the async bridge (`Wakers` in src/spsc/channel.rs). */
  class Wakers {
    var sender: WakerCell
    var receiver: WakerCell

    constructor ()
      ensures sender == WakerCell(false, 0) && receiver == WakerCell(false, 0)
    {
      sender := WakerCell(false, 0);
      receiver := WakerCell(false, 0);
    }

    method WakeSender()
      modifies this
      ensures sender == Wake(old(sender)) && receiver == old(receiver)
    {
      sender := Wake(sender);
    }

    method WakeReceiver()
      modifies this
      ensures receiver == Wake(old(receiver)) && sender == old(sender)
    {
      receiver := Wake(receiver);
    }

    method RegisterSender()
      modifies this
      ensures sender == Register(old(sender)) && receiver == old(receiver)
    {
      sender := Register(sender);
    }

    method RegisterReceiver()
      modifies this
      ensures receiver == Register(old(receiver)) && sender == old(sender)
    {
      receiver := Register(receiver);
    }
  }

  class Channel<T> {
    const buffer: RingBuffer<T>
    const wakers: Wakers
    /** The consumer's cursor: advanced by the receiver only. */
    var head: nat
    /** The producer's cursor: advanced by the sender only. */
    var tail: nat
    var closed: bool

    ghost var Contents: seq<T>
    ghost var pending: nat
    ghost var drainLive: bool
    ghost var senderAlive: bool
    ghost var receiverAlive: bool
    /** The values whose destructor the channel has run, in order (what a drop counter observes). */
    var destroyed: seq<T>

    /**
     * The cell of sequence s, for s in the window [head, head + N), holds
     * Contents[s - head - pending] when s is in [head + pending, tail), and
     * nothing otherwise; `closed` is set exactly when a handle was dropped.
     */
    ghost predicate Valid()
      reads this, buffer.cells
    {
      buffer.Valid() &&
      head + pending <= tail <= head + buffer.capacity &&
      |Contents| == tail - head - pending &&
      (pending > 0 ==> drainLive) &&
      (closed <==> !senderAlive || !receiverAlive) &&
      forall s :: head <= s < head + buffer.capacity ==>
        buffer.cells[Index(s, buffer.capacity)] ==
          (if head + pending <= s < tail then Some(Contents[s - head - pending]) else None)
    }

    constructor Init(ring: RingBuffer<T>)
      requires ring.Valid()
      requires forall i :: 0 <= i < ring.capacity ==> ring.cells[i] == None
      ensures Valid() && buffer == ring && fresh(wakers)
      ensures head == 0 && tail == 0 && !closed
      ensures Contents == [] && pending == 0 && !drainLive && senderAlive && receiverAlive && destroyed == []
      ensures wakers.sender == WakerCell(false, 0) && wakers.receiver == WakerCell(false, 0)
    {
      buffer := ring;
      wakers := new Wakers();
      head := 0;
      tail := 0;
      closed := false;
      Contents := [];
      pending := 0;
      drainLive := false;
      senderAlive := true;
      receiverAlive := true;
      destroyed := [];
    }

    /** `Channel::default`: an empty, open channel over a fresh ring, or the ring's capacity error. */
    static method Default(n: nat) returns (r: Result<Channel<T>, CapacityError>)
      ensures CheckCapacity(n).Err? ==> r == Err(CheckCapacity(n).error)
      ensures CheckCapacity(n).Ok? ==> r.Ok?
      ensures r.Ok? ==> (fresh(r.value) && fresh(r.value.buffer) && fresh(r.value.buffer.cells) &&
        fresh(r.value.wakers) && r.value.Valid() && r.value.buffer.capacity == n)
      ensures r.Ok? ==> (r.value.head == 0 && r.value.tail == 0 && !r.value.closed &&
        r.value.Contents == [] && r.value.pending == 0 && !r.value.drainLive &&
        r.value.senderAlive && r.value.receiverAlive && r.value.destroyed == [])
      ensures r.Ok? ==> r.value.wakers.sender == WakerCell(false, 0) && r.value.wakers.receiver == WakerCell(false, 0)
    {
      var ring := RingBuffer<T>.Default(n);
      if ring.Err? {
        return Err(ring.error);
      }
      var c := new Channel.Init(ring.value);
      return Ok(c);
    }

    /** `split`: one sender and one receiver sharing this channel. */
    method Split() returns (tx: Sender<T>, rx: Receiver<T>)
      ensures fresh(tx) && fresh(rx) && tx.inner == this && rx.inner == this
    {
      tx := new Sender(this);
      rx := new Receiver(this);
    }

    /** `is_closed`: the flag says whether either handle has been dropped. */
    function IsClosed(): (r: bool)
      requires Valid()
      reads this, buffer.cells
      ensures r <==> !senderAlive || !receiverAlive
    {
      closed
    }

    /**
     * The channel's own drop, once both handles are gone: destruct the values
     * of sequences head, head + 1, ..., tail - 1.  These are exactly the
     * unread values, each destructed once, and afterwards no cell is live.
     */
    method Drop()
      requires Valid() && !senderAlive && !receiverAlive && !drainLive
      modifies this, buffer.cells
      ensures forall i :: 0 <= i < buffer.capacity ==> buffer.cells[i] == None
      ensures destroyed == old(destroyed) + old(Contents)
      ensures head == old(head) && tail == old(tail) && closed == old(closed)
    {
      var n := buffer.capacity;
      var count := tail - head;
      for s := 0 to count
        invariant head == old(head) && tail == old(tail) && closed == old(closed)
        invariant Contents == old(Contents) && |Contents| == count
        invariant destroyed == old(destroyed) + Contents[..s]
        invariant forall t :: head <= t < head + n ==>
          buffer.cells[Index(t, n)] == (if head + s <= t < tail then Some(Contents[t - head]) else None)
      {
        DropSeq(s);
        assert Contents[..s + 1] == Contents[..s] + [Contents[s]];
      }
      assert Contents[..count] == Contents;
      forall i | 0 <= i < n
        ensures buffer.cells[i] == None
      {
        var t := WindowSeq(head, i, n);
      }
    }

    /** One step of the drop: destruct the value of sequence head + s. */
    method DropSeq(s: nat)
      requires buffer.Valid() && head + s < tail <= head + buffer.capacity && |Contents| == tail - head
      requires forall t :: head <= t < head + buffer.capacity ==>
        buffer.cells[Index(t, buffer.capacity)] == (if head + s <= t < tail then Some(Contents[t - head]) else None)
      modifies this`destroyed, buffer.cells
      ensures destroyed == old(destroyed) + [Contents[s]]
      ensures forall t :: head <= t < head + buffer.capacity ==>
        buffer.cells[Index(t, buffer.capacity)] == (if head + s + 1 <= t < tail then Some(Contents[t - head]) else None)
    {
      var n := buffer.capacity;
      var i := Index(head + s, n);
      var v := buffer.cells[i].value;
      buffer.DropInPlace(i);
      destroyed := destroyed + [v];
      forall t | head <= t < head + n && t != head + s
        ensures Index(t, n) != i
      {
        IndexInjective(head, t, head + s, n);
      }
    }
  }

  class Sender<T> {
    const inner: Channel<T>

    constructor (inner: Channel<T>)
      ensures this.inner == inner
    {
      this.inner := inner;
    }

    /**
     * `try_send`: Disconnected hands the value back when the channel is closed,
     * Full hands it back when `tail - head >= N`; otherwise the value goes into
     * the slot of `tail`, `tail` advances and the value joins the queue at its back.
     */
    method TrySend(value: T) returns (r: Result<(), TrySendErr<T>>)
      requires inner.Valid()
      modifies inner, inner.buffer.cells
      ensures inner.Valid()
      ensures old(inner.closed) ==> r == Err(TrySendErr.Disconnected(value))
      ensures !old(inner.closed) && old(inner.tail - inner.head) >= inner.buffer.capacity ==> r == Err(Full(value))
      ensures r.Err? ==> unchanged(inner) && unchanged(inner.buffer.cells)
      ensures !old(inner.closed) && old(inner.tail - inner.head) < inner.buffer.capacity ==>
        r == Ok(()) && inner.Contents == old(inner.Contents) + [value] &&
        inner.tail == old(inner.tail) + 1 &&
        inner.buffer.cells[..] == old(inner.buffer.cells[..])[Index(old(inner.tail), inner.buffer.capacity) := Some(value)]
      ensures inner.head == old(inner.head) && inner.pending == old(inner.pending) &&
        inner.closed == old(inner.closed) && inner.drainLive == old(inner.drainLive) &&
        inner.senderAlive == old(inner.senderAlive) && inner.receiverAlive == old(inner.receiverAlive) &&
        inner.destroyed == old(inner.destroyed)
    {
      if inner.closed {
        return Err(TrySendErr.Disconnected(value));
      }
      var t := inner.tail;
      var h := inner.head;
      var n := inner.buffer.capacity;
      if t - h >= n {
        return Err(Full(value));
      }
      var i := Index(t, n);
      inner.buffer.Write(i, value);
      inner.tail := t + 1;
      inner.Contents := inner.Contents + [value];
      forall s | h <= s < h + n && s != t
        ensures inner.buffer.cells[Index(s, n)] == old(inner.buffer.cells[Index(s, n)])
      {
        IndexInjective(h, s, t, n);
      }
      r := Ok(());
    }

    /**
     * `send_spin`: retry `try_send` while the channel is full.  The spin is
     * bounded by `attempts`; None means every attempt found the channel full.
     * A finished spin is never Full, and Disconnected carries the original value.
     */
    method SendSpin(value: T, attempts: nat) returns (r: Option<Result<(), TrySendErr<T>>>)
      requires inner.Valid()
      modifies inner, inner.buffer.cells
      ensures inner.Valid()
      ensures r.Some? ==> r.value == Ok(()) || r.value == Err(TrySendErr.Disconnected(value))
      ensures r == Some(Err(TrySendErr.Disconnected(value))) <==> attempts > 0 && old(inner.closed)
      ensures r == Some(Ok(())) <==> attempts > 0 && !old(inner.closed) && old(inner.tail - inner.head) < inner.buffer.capacity
      ensures r == Some(Ok(())) ==> inner.Contents == old(inner.Contents) + [value]
      ensures r != Some(Ok(())) ==> unchanged(inner) && unchanged(inner.buffer.cells)
    {
      var v := value;
      var k := 0;
      while k < attempts
        invariant 0 <= k <= attempts && v == value
        invariant k > 0 ==> !inner.closed && inner.tail - inner.head >= inner.buffer.capacity
        invariant unchanged(inner) && unchanged(inner.buffer.cells)
      {
        var res := TrySend(v);
        if res.Ok? {
          return Some(Ok(()));
        } else if res.error.Disconnected? {
          return Some(res);
        }
        v := res.error.value;
        k := k + 1;
      }
      return None;
    }

    /** `send`: a future owning the value to send. */
    method Send(value: T) returns (f: SendFuture<T>)
      ensures fresh(f) && f.sender == this && f.value == Some(value)
    {
      f := new SendFuture(this, value);
    }

    /** `is_closed` on the sender: true once the receiver has been dropped. */
    function IsClosed(): (r: bool)
      requires inner.Valid() && inner.senderAlive
      reads inner, inner.buffer.cells
      ensures r <==> !inner.receiverAlive
    {
      inner.IsClosed()
    }

    /** Dropping the sender closes the channel and wakes the receiver's waker. */
    method Drop()
      requires inner.Valid()
      modifies inner, inner.wakers
      ensures inner.Valid()
      ensures inner.closed && !inner.senderAlive && inner.receiverAlive == old(inner.receiverAlive)
      ensures inner.wakers.receiver == Wake(old(inner.wakers.receiver)) && inner.wakers.sender == old(inner.wakers.sender)
      ensures inner.head == old(inner.head) && inner.tail == old(inner.tail) && inner.Contents == old(inner.Contents)
      ensures inner.pending == old(inner.pending) && inner.drainLive == old(inner.drainLive) && inner.destroyed == old(inner.destroyed)
    {
      inner.closed := true;
      inner.senderAlive := false;
      inner.wakers.WakeReceiver();
    }
  }

  /** `SendFuture`: the sender it borrows and the value not yet sent. */
  class SendFuture<T> {
    const sender: Sender<T>
    var value: Option<T>

    constructor (sender: Sender<T>, value: T)
      ensures this.sender == sender && this.value == Some(value)
    {
      this.sender := sender;
      this.value := Some(value);
    }

    /**
     * One poll: the attempt (`try_send`, and on Full the waker registered)
     * followed by the re-check.  With no peer step between the two, a full
     * channel is still full at the re-check, so this poll never self-wakes;
     * SpscScenarios.SendWakeupNotMissed runs a consumer step between them.
     */
    method Poll() returns (p: Poll<Result<(), TrySendErr<T>>>, selfWake: bool)
      requires sender.inner.Valid() && value.Some?
      modifies this, sender.inner, sender.inner.buffer.cells, sender.inner.wakers
      ensures sender.inner.Valid()
      ensures old(sender.inner.closed) ==>
        p == Ready(Err(TrySendErr.Disconnected(old(value.value)))) && value == None && !selfWake &&
        unchanged(sender.inner) && unchanged(sender.inner.buffer.cells) && unchanged(sender.inner.wakers)
      ensures !old(sender.inner.closed) && old(sender.inner.tail - sender.inner.head) < sender.inner.buffer.capacity ==>
        p == Ready(Ok(())) && value == None && !selfWake &&
        sender.inner.Contents == old(sender.inner.Contents) + [old(value.value)] &&
        sender.inner.tail == old(sender.inner.tail) + 1 && sender.inner.head == old(sender.inner.head) &&
        sender.inner.wakers.receiver == Wake(old(sender.inner.wakers.receiver)) &&
        sender.inner.wakers.sender == old(sender.inner.wakers.sender)
      ensures !old(sender.inner.closed) && old(sender.inner.tail - sender.inner.head) >= sender.inner.buffer.capacity ==>
        p == Pending && value == old(value) && !selfWake &&
        unchanged(sender.inner) && unchanged(sender.inner.buffer.cells) &&
        sender.inner.wakers.sender == Register(old(sender.inner.wakers.sender)) &&
        sender.inner.wakers.receiver == old(sender.inner.wakers.receiver)
    {
      p := Attempt();
      selfWake := false;
      if p.Pending? {
        selfWake := Recheck();
      }
    }

    /**
     * The first half of a poll: one `try_send` attempt.  Success wakes the
     * receiver and completes; Disconnected completes with the value handed
     * back; Full puts the value back and registers the sender's waker.
     */
    method Attempt() returns (p: Poll<Result<(), TrySendErr<T>>>)
      requires sender.inner.Valid() && value.Some?
      modifies this, sender.inner, sender.inner.buffer.cells, sender.inner.wakers
      ensures sender.inner.Valid()
      ensures old(sender.inner.closed) ==>
        p == Ready(Err(TrySendErr.Disconnected(old(value.value)))) && value == None &&
        unchanged(sender.inner) && unchanged(sender.inner.buffer.cells) && unchanged(sender.inner.wakers)
      ensures !old(sender.inner.closed) && old(sender.inner.tail - sender.inner.head) < sender.inner.buffer.capacity ==>
        p == Ready(Ok(())) && value == None &&
        sender.inner.Contents == old(sender.inner.Contents) + [old(value.value)] &&
        sender.inner.tail == old(sender.inner.tail) + 1 && sender.inner.head == old(sender.inner.head) &&
        sender.inner.wakers.receiver == Wake(old(sender.inner.wakers.receiver)) &&
        sender.inner.wakers.sender == old(sender.inner.wakers.sender)
      ensures !old(sender.inner.closed) && old(sender.inner.tail - sender.inner.head) >= sender.inner.buffer.capacity ==>
        p == Pending && value == old(value) &&
        unchanged(sender.inner) && unchanged(sender.inner.buffer.cells) &&
        sender.inner.wakers.sender == Register(old(sender.inner.wakers.sender)) &&
        sender.inner.wakers.receiver == old(sender.inner.wakers.receiver)
      ensures sender.inner.pending == old(sender.inner.pending) && sender.inner.drainLive == old(sender.inner.drainLive) &&
        sender.inner.closed == old(sender.inner.closed)
    {
      var v := value.value;
      value := None;
      var res := sender.TrySend(v);
      if res.Ok? {
        sender.inner.wakers.WakeReceiver();
        p := Ready(Ok(()));
      } else if res.error.Disconnected? {
        p := Ready(res);
      } else {
        value := Some(res.error.value);
        sender.inner.wakers.RegisterSender();
        p := Pending;
      }
    }

    /**
     * The second half of a pending poll: after registering, look at the
     * cursors again and ask for a self-wake exactly when the consumer has
     * freed a slot in the meantime, so a wake-up it sent before the
     * registration is not missed.
     */
    method Recheck() returns (selfWake: bool)
      requires sender.inner.Valid()
      ensures selfWake <==> |sender.inner.Contents| + sender.inner.pending < sender.inner.buffer.capacity
    {
      var h := sender.inner.head;
      var t := sender.inner.tail;
      selfWake := t - h < sender.inner.buffer.capacity;
    }
  }

  class Receiver<T> {
    const inner: Channel<T>

    constructor (inner: Channel<T>)
      ensures this.inner == inner
    {
      this.inner := inner;
    }

    /**
     * `try_recv`: on an empty channel, Disconnected if closed and Ok(None)
     * otherwise, changing nothing; on a non-empty one, even a closed one, the
     * oldest value is moved out of the slot of `head` and `head` advances.
     */
    method TryRecv() returns (r: Result<Option<T>, TryRecvError>)
      requires inner.Valid() && !inner.drainLive
      modifies inner, inner.buffer.cells
      ensures inner.Valid()
      ensures old(inner.Contents) == [] ==>
        r == (if old(inner.closed) then Err(TryRecvError.Disconnected) else Ok(None)) &&
        unchanged(inner) && unchanged(inner.buffer.cells)
      ensures old(inner.Contents) != [] ==>
        r == Ok(Some(old(inner.Contents[0]))) && inner.Contents == old(inner.Contents[1..]) &&
        inner.head == old(inner.head) + 1 &&
        inner.buffer.cells[..] == old(inner.buffer.cells[..])[Index(old(inner.head), inner.buffer.capacity) := None]
      ensures inner.tail == old(inner.tail) && inner.pending == old(inner.pending) &&
        inner.closed == old(inner.closed) && inner.drainLive == old(inner.drainLive) &&
        inner.senderAlive == old(inner.senderAlive) && inner.receiverAlive == old(inner.receiverAlive) &&
        inner.destroyed == old(inner.destroyed)
    {
      var h := inner.head;
      var t := inner.tail;
      var n := inner.buffer.capacity;
      if h == t {
        if inner.closed {
          return Err(TryRecvError.Disconnected);
        }
        return Ok(None);
      }
      var i := Index(h, n);
      var v := inner.buffer.Read(i);
      inner.head := h + 1;
      inner.Contents := inner.Contents[1..];
      forall s | h + 1 <= s < h + 1 + n
        ensures inner.buffer.cells[Index(s, n)] ==
          (if h + 1 <= s < t then Some(inner.Contents[s - (h + 1)]) else None)
      {
        if s == h + n {
          IndexShift(h, n);
        } else {
          IndexDistinct(h, s, n);
        }
      }
      r := Ok(Some(v));
    }

    /**
     * `recv_spin`: retry `try_recv` while the channel is empty and open.  The
     * spin is bounded by `attempts`; None means every attempt found nothing.
     * A finished spin yields the oldest value or reports disconnection.
     */
    method RecvSpin(attempts: nat) returns (r: Option<Result<T, TryRecvError>>)
      requires inner.Valid() && !inner.drainLive
      modifies inner, inner.buffer.cells
      ensures inner.Valid()
      ensures r.Some? && r.value.Ok? <==> attempts > 0 && old(inner.Contents) != []
      ensures r.Some? && r.value.Ok? ==>
        r.value.value == old(inner.Contents[0]) && inner.Contents == old(inner.Contents[1..]) &&
        inner.head == old(inner.head) + 1
      ensures r == Some(Err(TryRecvError.Disconnected)) <==> attempts > 0 && old(inner.Contents) == [] && old(inner.closed)
      ensures r == None ==> attempts == 0 || (old(inner.Contents) == [] && !old(inner.closed))
      ensures !(r.Some? && r.value.Ok?) ==> unchanged(inner) && unchanged(inner.buffer.cells)
    {
      var k := 0;
      while k < attempts
        invariant 0 <= k <= attempts
        invariant k > 0 ==> inner.Contents == [] && !inner.closed
        invariant unchanged(inner) && unchanged(inner.buffer.cells)
      {
        var res := TryRecv();
        match res {
          case Ok(Some(v)) =>
            return Some(Ok(v));
          case Err(e) =>
            return Some(Err(e));
          case Ok(None) =>
        }
        k := k + 1;
      }
      return None;
    }

    /** `recv`: a future polling this receiver. */
    method Recv() returns (f: RecvFuture<T>)
      ensures fresh(f) && f.receiver == this
    {
      f := new RecvFuture(this);
    }

    /** `is_closed` on the receiver: true once the sender has been dropped. */
    function IsClosed(): (r: bool)
      requires inner.Valid() && inner.receiverAlive
      reads inner, inner.buffer.cells
      ensures r <==> !inner.senderAlive
    {
      inner.IsClosed()
    }

    /** `is_empty`: no value is queued and none is held by a live drain. */
    function IsEmpty(): (r: bool)
      requires inner.Valid()
      reads inner, inner.buffer.cells
      ensures r <==> inner.Contents == [] && inner.pending == 0
    {
      inner.head == inner.tail
    }

    /** `len`: the queued values plus those a live drain has not committed. */
    function Len(): (r: nat)
      requires inner.Valid()
      reads inner, inner.buffer.cells
      ensures r == |inner.Contents| + inner.pending
      ensures r <= inner.buffer.capacity
    {
      inner.tail - inner.head
    }

    /** `drain()` of src/spsc/receiver.rs: a drain over the snapshot [head, tail). */
    method Drain() returns (d: Drain<T>)
      requires inner.Valid() && !inner.drainLive
      modifies inner
      ensures fresh(d) && d.rx == this && d.Valid()
      ensures d.originalHead == old(inner.head) && d.head == old(inner.head) && d.tail == old(inner.tail)
      ensures d.Remaining() == |old(inner.Contents)|
      ensures inner.drainLive
      ensures inner.head == old(inner.head) && inner.tail == old(inner.tail) && inner.Contents == old(inner.Contents) &&
        inner.pending == old(inner.pending) && inner.closed == old(inner.closed) &&
        inner.senderAlive == old(inner.senderAlive) && inner.receiverAlive == old(inner.receiverAlive) &&
        inner.destroyed == old(inner.destroyed)
    {
      var h := inner.head;
      var t := inner.tail;
      d := new Drain(this, h, t);
      inner.drainLive := true;
    }

    /**
     * `drain(max)` of src/spsc/lamport/receiver.rs: a drain over at most
     * `max` of the available values, comparing counts, never raw cursors.
     */
    method DrainUpTo(max: nat) returns (d: Drain<T>)
      requires inner.Valid() && !inner.drainLive
      modifies inner
      ensures fresh(d) && d.rx == this && d.Valid()
      ensures d.originalHead == old(inner.head) && d.head == old(inner.head)
      ensures d.Remaining() == (if max < |old(inner.Contents)| then max else |old(inner.Contents)|)
      ensures inner.drainLive
      ensures inner.head == old(inner.head) && inner.tail == old(inner.tail) && inner.Contents == old(inner.Contents) &&
        inner.pending == old(inner.pending) && inner.closed == old(inner.closed) &&
        inner.senderAlive == old(inner.senderAlive) && inner.receiverAlive == old(inner.receiverAlive) &&
        inner.destroyed == old(inner.destroyed)
    {
      var h := inner.head;
      var t := inner.tail;
      var available := t - h;
      if max < available {
        t := h + max;
      }
      d := new Drain(this, h, t);
      inner.drainLive := true;
    }

    /** Dropping the receiver closes the channel and wakes the sender's waker. */
    method Drop()
      requires inner.Valid() && !inner.drainLive
      modifies inner, inner.wakers
      ensures inner.Valid()
      ensures inner.closed && !inner.receiverAlive && inner.senderAlive == old(inner.senderAlive)
      ensures inner.wakers.sender == Wake(old(inner.wakers.sender)) && inner.wakers.receiver == old(inner.wakers.receiver)
      ensures inner.head == old(inner.head) && inner.tail == old(inner.tail) && inner.Contents == old(inner.Contents)
      ensures inner.pending == old(inner.pending) && inner.drainLive == old(inner.drainLive) && inner.destroyed == old(inner.destroyed)
    {
      inner.closed := true;
      inner.receiverAlive := false;
      inner.wakers.WakeSender();
    }
  }

  /**
   * The draining iterator: a private head running from `originalHead` up to the
   * snapshot `tail`.  Values it yields count as `pending` in the channel until
   * the drain commits its head to the shared one.
   */
  class Drain<T> {
    const rx: Receiver<T>
    const originalHead: nat
    var head: nat
    const tail: nat

    ghost predicate Valid()
      reads this, rx.inner, rx.inner.buffer.cells
    {
      rx.inner.Valid() && rx.inner.drainLive &&
      rx.inner.head == originalHead &&
      head == originalHead + rx.inner.pending &&
      head <= tail <= rx.inner.tail
    }

    constructor (rx: Receiver<T>, head: nat, tail: nat)
      requires head <= tail
      ensures this.rx == rx && originalHead == head && this.head == head && this.tail == tail
    {
      this.rx := rx;
      originalHead := head;
      this.head := head;
      this.tail := tail;
    }

    /**
     * `remaining`: how many values this drain will still yield, all of them
     * queued in the channel, and all of the queue for a drain up to the
     * channel's tail.  `Next` yields a value exactly while this is positive.
     */
    function Remaining(): (r: nat)
      requires Valid()
      reads this, rx.inner, rx.inner.buffer.cells
      ensures head + r == tail
      ensures r <= |rx.inner.Contents|
      ensures tail == rx.inner.tail ==> r == |rx.inner.Contents|
    {
      tail - head
    }

    /** `size_hint`: exact, both bounds equal to `remaining`. */
    function SizeHint(): (r: (nat, Option<nat>))
      requires Valid()
      reads this, rx.inner, rx.inner.buffer.cells
      ensures r.0 <= |rx.inner.Contents|
      ensures r.1 == Some(r.0) && r.0 == Remaining()
    {
      var k := tail - head;
      (k, Some(k))
    }

    /** `is_closed` on the drain: the sender has been dropped. */
    function IsClosed(): (r: bool)
      requires Valid() && rx.inner.receiverAlive
      reads this, rx.inner, rx.inner.buffer.cells
      ensures r <==> !rx.inner.senderAlive
    {
      rx.IsClosed()
    }

    /**
     * `next`: None once the private head reaches the snapshot tail; otherwise
     * the oldest queued value, moved out of the slot of the private head, which
     * alone advances: the shared head stays where it was.
     */
    method Next() returns (r: Option<T>)
      requires Valid()
      modifies this, rx.inner, rx.inner.buffer.cells
      ensures Valid()
      ensures old(head) == tail ==> r == None && unchanged(this) && unchanged(rx.inner) && unchanged(rx.inner.buffer.cells)
      ensures old(head) < tail ==>
        r == Some(old(rx.inner.Contents[0])) && rx.inner.Contents == old(rx.inner.Contents[1..]) &&
        head == old(head) + 1 && Remaining() == old(Remaining()) - 1 &&
        rx.inner.pending == old(rx.inner.pending) + 1 &&
        rx.inner.buffer.cells[..] == old(rx.inner.buffer.cells[..])[Index(old(head), rx.inner.buffer.capacity) := None]
      ensures rx.inner.head == old(rx.inner.head) && rx.inner.tail == old(rx.inner.tail) &&
        rx.inner.closed == old(rx.inner.closed) && rx.inner.drainLive == old(rx.inner.drainLive) &&
        rx.inner.senderAlive == old(rx.inner.senderAlive) && rx.inner.receiverAlive == old(rx.inner.receiverAlive) &&
        rx.inner.destroyed == old(rx.inner.destroyed)
    {
      if head == tail {
        return None;
      }
      var c := rx.inner;
      var n := c.buffer.capacity;
      var h := head;
      var i := Index(h, n);
      var v := c.buffer.Read(i);
      head := h + 1;
      c.pending := c.pending + 1;
      c.Contents := c.Contents[1..];
      forall s | c.head <= s < c.head + n && s != h
        ensures c.buffer.cells[Index(s, n)] == old(c.buffer.cells[Index(s, n)])
      {
        IndexInjective(c.head, s, h, n);
      }
      r := Some(v);
    }

    /**
     * `commit` followed by the end of the drain (the `Drop` of src/spsc/receiver.rs):
     * store the private head into the shared head.  The shared head becomes the
     * original head plus the number of values yielded, and the queue is unchanged.
     */
    method Commit()
      requires Valid()
      modifies rx.inner
      ensures rx.inner.Valid() && !rx.inner.drainLive
      ensures rx.inner.head == originalHead + old(rx.inner.pending) && rx.inner.head == head
      ensures rx.inner.pending == 0 && rx.inner.Contents == old(rx.inner.Contents)
      ensures rx.inner.tail == old(rx.inner.tail) && rx.inner.closed == old(rx.inner.closed) &&
        rx.inner.senderAlive == old(rx.inner.senderAlive) && rx.inner.receiverAlive == old(rx.inner.receiverAlive) &&
        rx.inner.destroyed == old(rx.inner.destroyed)
    {
      var c := rx.inner;
      CommittedWindow(c, head);
      c.head := head;
      c.pending := 0;
      c.drainLive := false;
    }

    /**
     * `commit_head` followed by the end of the drain (the `Drop` of
     * src/spsc/lamport/receiver.rs): the shared head is written only when at
     * least one value was consumed; either way it ends at the private head.
     */
    method CommitHead()
      requires Valid()
      modifies rx.inner
      ensures rx.inner.Valid() && !rx.inner.drainLive
      ensures rx.inner.head == originalHead + old(rx.inner.pending) && rx.inner.head == head
      ensures rx.inner.head == old(rx.inner.head) <==> head == originalHead
      ensures rx.inner.pending == 0 && rx.inner.Contents == old(rx.inner.Contents)
      ensures rx.inner.tail == old(rx.inner.tail) && rx.inner.closed == old(rx.inner.closed) &&
        rx.inner.senderAlive == old(rx.inner.senderAlive) && rx.inner.receiverAlive == old(rx.inner.receiverAlive) &&
        rx.inner.destroyed == old(rx.inner.destroyed)
    {
      var c := rx.inner;
      CommittedWindow(c, head);
      if originalHead != head {
        c.head := head;
      }
      c.pending := 0;
      c.drainLive := false;
    }
  }

  /**
   * Moving the shared head forward over the `pending` values a drain took
   * leaves a state that satisfies the channel invariant with no drain.
   */
  lemma CommittedWindow<T>(c: Channel<T>, h: nat)
    requires c.Valid() && h == c.head + c.pending
    ensures forall s :: h <= s < h + c.buffer.capacity ==>
      c.buffer.cells[Index(s, c.buffer.capacity)] ==
        (if h <= s < c.tail then Some(c.Contents[s - h]) else None)
  {
    var n := c.buffer.capacity;
    forall s | h <= s < h + n
      ensures c.buffer.cells[Index(s, n)] == (if h <= s < c.tail then Some(c.Contents[s - h]) else None)
    {
      if s >= c.head + n {
        IndexShift(s - n, n);
        assert c.buffer.cells[Index(s - n, n)] == None;
      }
    }
  }

  /** `RecvFuture`: the receiver it borrows. */
  class RecvFuture<T> {
    const receiver: Receiver<T>

    constructor (receiver: Receiver<T>)
      ensures this.receiver == receiver
    {
      this.receiver := receiver;
    }

    /**
     * One poll: the attempt (`try_recv`, and on an empty open channel the
     * waker registered) followed by the re-check.  With no peer step between
     * the two, an empty channel is still empty at the re-check, so this poll
     * never self-wakes; SpscScenarios.RecvWakeupNotMissed runs a producer
     * step between them.
     */
    method Poll() returns (p: Poll<Result<T, TryRecvError>>, selfWake: bool)
      requires receiver.inner.Valid() && !receiver.inner.drainLive
      modifies receiver.inner, receiver.inner.buffer.cells, receiver.inner.wakers
      ensures receiver.inner.Valid()
      ensures old(receiver.inner.Contents) != [] ==>
        p == Ready(Ok(old(receiver.inner.Contents[0]))) && !selfWake &&
        receiver.inner.Contents == old(receiver.inner.Contents[1..]) &&
        receiver.inner.head == old(receiver.inner.head) + 1 && receiver.inner.tail == old(receiver.inner.tail) &&
        receiver.inner.wakers.sender == Wake(old(receiver.inner.wakers.sender)) &&
        receiver.inner.wakers.receiver == old(receiver.inner.wakers.receiver)
      ensures old(receiver.inner.Contents) == [] && old(receiver.inner.closed) ==>
        p == Ready(Err(TryRecvError.Disconnected)) && !selfWake &&
        unchanged(receiver.inner) && unchanged(receiver.inner.buffer.cells) && unchanged(receiver.inner.wakers)
      ensures old(receiver.inner.Contents) == [] && !old(receiver.inner.closed) ==>
        p == Pending && !selfWake && unchanged(receiver.inner) && unchanged(receiver.inner.buffer.cells) &&
        receiver.inner.wakers.receiver == Register(old(receiver.inner.wakers.receiver)) &&
        receiver.inner.wakers.sender == old(receiver.inner.wakers.sender)
    {
      p := Attempt();
      selfWake := false;
      if p.Pending? {
        selfWake := Recheck();
      }
    }

    /**
     * The first half of a poll: one `try_recv` attempt.  A value wakes the
     * sender and completes; disconnection completes with the error; an empty
     * open channel registers the receiver's waker.
     */
    method Attempt() returns (p: Poll<Result<T, TryRecvError>>)
      requires receiver.inner.Valid() && !receiver.inner.drainLive
      modifies receiver.inner, receiver.inner.buffer.cells, receiver.inner.wakers
      ensures receiver.inner.Valid()
      ensures old(receiver.inner.Contents) != [] ==>
        p == Ready(Ok(old(receiver.inner.Contents[0]))) &&
        receiver.inner.Contents == old(receiver.inner.Contents[1..]) &&
        receiver.inner.head == old(receiver.inner.head) + 1 && receiver.inner.tail == old(receiver.inner.tail) &&
        receiver.inner.wakers.sender == Wake(old(receiver.inner.wakers.sender)) &&
        receiver.inner.wakers.receiver == old(receiver.inner.wakers.receiver)
      ensures old(receiver.inner.Contents) == [] && old(receiver.inner.closed) ==>
        p == Ready(Err(TryRecvError.Disconnected)) &&
        unchanged(receiver.inner) && unchanged(receiver.inner.buffer.cells) && unchanged(receiver.inner.wakers)
      ensures old(receiver.inner.Contents) == [] && !old(receiver.inner.closed) ==>
        p == Pending && unchanged(receiver.inner) && unchanged(receiver.inner.buffer.cells) &&
        receiver.inner.wakers.receiver == Register(old(receiver.inner.wakers.receiver)) &&
        receiver.inner.wakers.sender == old(receiver.inner.wakers.sender)
      ensures receiver.inner.pending == old(receiver.inner.pending) && receiver.inner.drainLive == old(receiver.inner.drainLive) &&
        receiver.inner.closed == old(receiver.inner.closed)
    {
      var res := receiver.TryRecv();
      match res {
        case Ok(Some(v)) =>
          receiver.inner.wakers.WakeSender();
          p := Ready(Ok(v));
        case Ok(None) =>
          receiver.inner.wakers.RegisterReceiver();
          p := Pending;
        case Err(e) =>
          p := Ready(Err(e));
      }
    }

    /**
     * The second half of a pending poll: after registering, look at the
     * cursors again and ask for a self-wake exactly when the producer has
     * published a value in the meantime (`tail != head`).
     */
    method Recheck() returns (selfWake: bool)
      requires receiver.inner.Valid()
      ensures selfWake <==> |receiver.inner.Contents| + receiver.inner.pending > 0
    {
      var t := receiver.inner.tail;
      var h := receiver.inner.head;
      selfWake := t != h;
    }
  }

  /** `channel()`: `Channel::default().split()`. */
  method NewChannel<T>(n: nat) returns (r: Result<(Sender<T>, Receiver<T>), CapacityError>)
    ensures CheckCapacity(n).Err? ==> r == Err(CheckCapacity(n).error)
    ensures CheckCapacity(n).Ok? ==> r.Ok?
    ensures r.Ok? ==> r.value.0.inner == r.value.1.inner && fresh(r.value.0) && fresh(r.value.1)
    ensures r.Ok? ==> var c := r.value.0.inner;
      fresh(c) && fresh(c.buffer.cells) && fresh(c.wakers) && c.Valid() && c.buffer.capacity == n &&
      c.head == 0 && c.tail == 0 && !c.closed && c.Contents == [] && c.pending == 0 && !c.drainLive &&
      c.senderAlive && c.receiverAlive && c.destroyed == []
  {
    var ch := Channel<T>.Default(n);
    if ch.Err? {
      return Err(ch.error);
    }
    var tx, rx := ch.value.Split();
    return Ok((tx, rx));
  }
}
