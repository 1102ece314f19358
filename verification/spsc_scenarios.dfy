/**
 * The behavioural tests of src/spsc/mod.rs and the drain scenarios of
 * src/spsc/lamport/receiver.rs, driven step by step against the channel model.
 */
module SpscScenarios {
  import opened Wrappers
  import opened Errors
  import opened Ring
  import opened Spsc

  /** `test_full`: after N = 4 sends and no receive, the next send is Full. */
  method TestFull() returns (r: Result<(), TrySendErr<()>>)
    ensures r == Err(Full(()))
  {
    var ch := NewChannel<()>(4);
    var tx := ch.value.0;
    for k := 0 to 4
      invariant tx.inner.Valid() && !tx.inner.closed
      invariant tx.inner.head == 0 && tx.inner.tail == k && tx.inner.buffer.capacity == 4
    {
      var _ := tx.TrySend(());
    }
    r := tx.TrySend(());
  }

  /**
   * `test_disconnected`: both halves alive, neither reports closed; with the
   * receiver dropped the sender reports closed, and with the sender dropped the
   * receiver does.
   */
  method TestDisconnected() returns (txOpen: bool, rxOpen: bool, txSeesDrop: bool, rxSeesDrop: bool)
    ensures !txOpen && !rxOpen && txSeesDrop && rxSeesDrop
  {
    var a := NewChannel<()>(16);
    txOpen := a.value.0.IsClosed();
    rxOpen := a.value.1.IsClosed();

    var b := NewChannel<()>(16);
    b.value.1.Drop();
    txSeesDrop := b.value.0.IsClosed();

    var c := NewChannel<()>(16);
    c.value.0.Drop();
    rxSeesDrop := c.value.1.IsClosed();
  }

  /**
   * `test_proper_consumption`, for every power-of-two capacity n: fill the
   * channel with 0, 1, ..., n - 1, drop the sender, and every value still comes
   * out, in order, before the receiver reports disconnection.
   */
  method ProperConsumption(n: nat) returns (received: seq<int>, last: Result<Option<int>, TryRecvError>)
    requires IsPowerOfTwo(n)
    ensures |received| == n && forall k :: 0 <= k < n ==> received[k] == k
    ensures last == Err(TryRecvError.Disconnected)
  {
    var ch := NewChannel<int>(n);
    var tx, rx := ch.value.0, ch.value.1;
    var c := tx.inner;
    for k := 0 to n
      invariant c.Valid() && !c.closed && c.senderAlive && c.receiverAlive && !c.drainLive && c.pending == 0
      invariant c.head == 0 && c.tail == k && c.buffer.capacity == n
      invariant |c.Contents| == k && forall j :: 0 <= j < k ==> c.Contents[j] == j
    {
      var _ := tx.TrySend(k);
    }
    tx.Drop();
    received := [];
    for k := 0 to n
      invariant c.Valid() && c.closed && !c.drainLive && c.pending == 0
      invariant |received| == k && forall j :: 0 <= j < k ==> received[j] == j
      invariant |c.Contents| == n - k && forall j :: 0 <= j < n - k ==> c.Contents[j] == k + j
    {
      var r := rx.TryRecv();
      received := received + [r.value.value];
    }
    last := rx.TryRecv();
  }

  /** The example of src/spsc/mod.rs: send 1 then 2; they come out in that order, then nothing. */
  method FifoExample() returns (first: Result<Option<int>, TryRecvError>, second: Result<Option<int>, TryRecvError>,
                                third: Result<Option<int>, TryRecvError>)
    ensures first == Ok(Some(1)) && second == Ok(Some(2)) && third == Ok(None)
  {
    var ch := NewChannel<int>(4);
    var tx, rx := ch.value.0, ch.value.1;
    var _ := tx.TrySend(1);
    var _ := tx.TrySend(2);
    first := rx.TryRecv();
    second := rx.TryRecv();
    third := rx.TryRecv();
  }

  /**
   * `test_drop_unread_items`: two values sent and never read are destructed,
   * each once, when both halves have been dropped.
   */
  method DropUnreadItems() returns (destroyed: seq<string>)
    ensures destroyed == ["dropper", "dropper"]
  {
    var ch := NewChannel<string>(4);
    var tx, rx := ch.value.0, ch.value.1;
    var c := tx.inner;
    var _ := tx.TrySend("dropper");
    var _ := tx.TrySend("dropper");
    rx.Drop();
    tx.Drop();
    c.Drop();
    destroyed := c.destroyed;
  }

  /** Send each of `xs` in turn into an open channel with room for all of them: they join the queue in order. */
  method SendAll<T>(tx: Sender<T>, xs: seq<T>)
    requires tx.inner.Valid() && !tx.inner.closed
    requires tx.inner.tail - tx.inner.head + |xs| <= tx.inner.buffer.capacity
    modifies tx.inner, tx.inner.buffer.cells
    ensures tx.inner.Valid() && tx.inner.Contents == old(tx.inner.Contents) + xs
    ensures tx.inner.head == old(tx.inner.head) && tx.inner.tail == old(tx.inner.tail) + |xs|
    ensures tx.inner.pending == old(tx.inner.pending) && tx.inner.drainLive == old(tx.inner.drainLive)
    ensures tx.inner.closed == old(tx.inner.closed) && tx.inner.senderAlive == old(tx.inner.senderAlive)
    ensures tx.inner.receiverAlive == old(tx.inner.receiverAlive) && tx.inner.destroyed == old(tx.inner.destroyed)
  {
    var c := tx.inner;
    for k := 0 to |xs|
      invariant c.Valid() && c.Contents == old(c.Contents) + xs[..k]
      invariant c.head == old(c.head) && c.tail == old(c.tail) + k
      invariant c.pending == old(c.pending) && c.drainLive == old(c.drainLive)
      invariant c.closed == old(c.closed) && c.senderAlive == old(c.senderAlive)
      invariant c.receiverAlive == old(c.receiverAlive) && c.destroyed == old(c.destroyed)
    {
      var _ := tx.TrySend(xs[k]);
      assert xs[..k + 1] == xs[..k] + [xs[k]];
    }
    assert xs[..|xs|] == xs;
  }

  /**
   * Drain every value a drain yields, then end it with `commit_head`.  The
   * values are the first k of the queue, in order, and the shared head moves
   * by exactly k.
   */
  method DrainCollect<T>(rx: Receiver<T>, max: nat) returns (out: seq<T>)
    requires rx.inner.Valid() && !rx.inner.drainLive
    modifies rx.inner, rx.inner.buffer.cells
    ensures rx.inner.Valid() && !rx.inner.drainLive
    ensures var k := if max < |old(rx.inner.Contents)| then max else |old(rx.inner.Contents)|;
      out == old(rx.inner.Contents)[..k] && rx.inner.Contents == old(rx.inner.Contents)[k..] &&
      rx.inner.head == old(rx.inner.head) + k
    ensures rx.inner.tail == old(rx.inner.tail) && rx.inner.closed == old(rx.inner.closed)
  {
    var c := rx.inner;
    ghost var q := c.Contents;
    var d := rx.DrainUpTo(max);
    ghost var k := d.Remaining();
    out := [];
    while true
      invariant d.Valid() && d.rx == rx && d.originalHead == old(c.head)
      invariant d.tail == old(c.head) + k && c.tail == old(c.tail) && c.closed == old(c.closed)
      invariant |out| == c.pending && out == q[..|out|] && c.Contents == q[|out|..]
      invariant d.head == old(c.head) + |out| && |out| <= k
      decreases k - |out|
    {
      var r := d.Next();
      if r.None? {
        break;
      }
      out := out + [r.value];
    }
    d.CommitHead();
  }

  /**
   * The same batch through `try_recv`: up to `max` values, stopping at the first
   * empty answer.  The values and the final head are those of `DrainCollect`.
   */
  method TryRecvCollect<T>(rx: Receiver<T>, max: nat) returns (out: seq<T>)
    requires rx.inner.Valid() && !rx.inner.drainLive
    modifies rx.inner, rx.inner.buffer.cells
    ensures rx.inner.Valid() && !rx.inner.drainLive
    ensures var k := if max < |old(rx.inner.Contents)| then max else |old(rx.inner.Contents)|;
      out == old(rx.inner.Contents)[..k] && rx.inner.Contents == old(rx.inner.Contents)[k..] &&
      rx.inner.head == old(rx.inner.head) + k
    ensures rx.inner.tail == old(rx.inner.tail) && rx.inner.closed == old(rx.inner.closed)
  {
    var c := rx.inner;
    ghost var q := c.Contents;
    out := [];
    while |out| < max
      invariant c.Valid() && !c.drainLive && c.tail == old(c.tail) && c.closed == old(c.closed)
      invariant |out| <= max && |out| <= |q| && out == q[..|out|] && c.Contents == q[|out|..]
      invariant c.head == old(c.head) + |out|
      decreases max - |out|
    {
      var r := rx.TryRecv();
      if !r.Ok? || r.value.None? {
        break;
      }
      out := out + [r.value.value];
    }
  }

  /**
   * Draining is observably the same as calling `try_recv` in a loop: two
   * channels holding the same values, one drained up to `max` and the other
   * read by `try_recv` up to `max` times, hand out the same values and end
   * with the same shared head.
   */
  method DrainMatchesTryRecv(n: nat, xs: seq<int>, max: nat) returns (drained: seq<int>, received: seq<int>,
                                                                     drainHead: nat, recvHead: nat)
    requires IsPowerOfTwo(n) && |xs| <= n
    ensures drained == received && drainHead == recvHead
    ensures drained == xs[..if max < |xs| then max else |xs|]
  {
    drained, drainHead := BatchFrom(n, xs, max, true);
    received, recvHead := BatchFrom(n, xs, max, false);
  }

  /** A fresh channel of capacity n holding xs, read up to max values by a drain or by `try_recv`. */
  method BatchFrom(n: nat, xs: seq<int>, max: nat, useDrain: bool) returns (out: seq<int>, head: nat)
    requires IsPowerOfTwo(n) && |xs| <= n
    ensures var k := if max < |xs| then max else |xs|;
      out == xs[..k] && head == k
  {
    var ch := NewChannel<int>(n);
    var tx, rx := ch.value.0, ch.value.1;
    SendAll(tx, xs);
    if useDrain {
      out := DrainCollect(rx, max);
    } else {
      out := TryRecvCollect(rx, max);
    }
    head := rx.inner.head;
  }

  /**
   * Dropping a drain early after one value commits exactly one: a later drain
   * yields the remaining values, none repeated and none lost.
   */
  method EarlyDrainDrop() returns (first: seq<int>, rest: seq<int>)
    ensures first == [1] && rest == [2, 3]
  {
    var ch := NewChannel<int>(4);
    var tx, rx := ch.value.0, ch.value.1;
    SendAll(tx, [1, 2, 3]);
    var c := rx.inner;
    first := DrainCollect(rx, 1);
    assert c.Contents == [1, 2, 3][1..];
    rest := DrainCollect(rx, 256);
  }

  /**
   * A drain after the sender is gone still yields what was sent (a drain does
   * not report disconnection); the next `try_recv` then does.
   */
  method DrainAfterClose() returns (out: seq<int>, after: Result<Option<int>, TryRecvError>)
    ensures out == [1, 2] && after == Err(TryRecvError.Disconnected)
  {
    var ch := NewChannel<int>(4);
    var tx, rx := ch.value.0, ch.value.1;
    var _ := tx.TrySend(1);
    var _ := tx.TrySend(2);
    tx.Drop();
    out := DrainCollect(rx, 256);
    after := rx.TryRecv();
  }

  /**
   * The unbounded drain of src/spsc/receiver.rs: a snapshot of the two queued
   * values, read in order, then committed: the shared head ends two further on.
   */
  method UnboundedDrain() returns (a: Option<int>, b: Option<int>, c: Option<int>, head: nat)
    ensures a == Some(10) && b == Some(20) && c == None && head == 2
  {
    var ch := NewChannel<int>(8);
    var tx, rx := ch.value.0, ch.value.1;
    var _ := tx.TrySend(10);
    var _ := tx.TrySend(20);
    var d := rx.Drain();
    a := d.Next();
    b := d.Next();
    c := d.Next();
    d.Commit();
    head := rx.inner.head;
  }

  /**
   * The missed-wakeup guard of the send future (src/spsc/sender.rs:171-188).
   * A send future finds the channel full and registers its waker; then,
   * before its re-check, the consumer takes the oldest value, either with a
   * plain `try_recv`, which wakes nobody, or with a receive future's poll,
   * which wakes the registered sender.  The re-check sees the freed slot and
   * asks for a self-wake either way, so the sender is never left asleep with
   * room in the ring.
   */
  method SendWakeupNotMissed<T>(f: SendFuture<T>, rx: Receiver<T>, asyncPeer: bool)
      returns (p: Poll<Result<(), TrySendErr<T>>>, got: Option<T>, selfWake: bool)
    requires f.sender.inner == rx.inner && rx.inner.Valid() && !rx.inner.closed && !rx.inner.drainLive
    requires f.value.Some? && rx.inner.tail - rx.inner.head >= rx.inner.buffer.capacity
    modifies f, rx.inner, rx.inner.buffer.cells, rx.inner.wakers
    ensures p == Pending && f.value == old(f.value) && selfWake
    ensures got == Some(old(rx.inner.Contents[0])) && rx.inner.Contents == old(rx.inner.Contents[1..])
    ensures asyncPeer ==> rx.inner.wakers.sender == Wake(Register(old(rx.inner.wakers.sender)))
    ensures !asyncPeer ==> rx.inner.wakers.sender == Register(old(rx.inner.wakers.sender))
  {
    p := f.Attempt();
    if asyncPeer {
      var rf := rx.Recv();
      var q, _ := rf.Poll();
      got := Some(q.value.value);
    } else {
      var r := rx.TryRecv();
      got := r.value;
    }
    selfWake := f.Recheck();
  }

  /**
   * The missed-wakeup guard of the receive future (src/spsc/receiver.rs:229-243).
   * A receive future finds the channel empty and open and registers its
   * waker; then, before its re-check, the producer publishes `v`, either with
   * a plain `try_send`, which wakes nobody, or with a send future's poll,
   * which wakes the registered receiver.  The re-check sees the new value and
   * asks for a self-wake either way.
   */
  method RecvWakeupNotMissed<T>(f: RecvFuture<T>, tx: Sender<T>, v: T, asyncPeer: bool)
      returns (p: Poll<Result<T, TryRecvError>>, selfWake: bool)
    requires f.receiver.inner == tx.inner && tx.inner.Valid() && !tx.inner.closed && !tx.inner.drainLive
    requires tx.inner.tail == tx.inner.head
    modifies tx.inner, tx.inner.buffer.cells, tx.inner.wakers
    ensures p == Pending && selfWake
    ensures tx.inner.Contents == [v]
    ensures asyncPeer ==> tx.inner.wakers.receiver == Wake(Register(old(tx.inner.wakers.receiver)))
    ensures !asyncPeer ==> tx.inner.wakers.receiver == Register(old(tx.inner.wakers.receiver))
  {
    p := f.Attempt();
    if asyncPeer {
      var sf := tx.Send(v);
      var _, _ := sf.Poll();
    } else {
      var _ := tx.TrySend(v);
    }
    selfWake := f.Recheck();
  }
}
