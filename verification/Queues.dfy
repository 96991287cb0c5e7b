/** The bounded message-queue of a shard, and the loops that fill and drain it. */
module Queues {
  import opened Basics
  import opened Messages

  /** With the values that remain, for sending, or that were received. */
  datatype QueueStatus =
    | Finished(values: seq<Message>)
    | Block(values: seq<Message>)
    | Disconnected(values: seq<Message>)

  datatype Sending = Sent | Full | NoReceiver
  datatype Receiving = Received(message: Message) | Empty | NoSender

  /** A channel at one moment, with what was received from it so far, and the scripts of the other threads. */
  datatype Snap = Snap(
    received: seq<Message>,
    queue: seq<Message>,
    capacity: nat,
    hasReceiver: bool,
    hasSenders: bool,
    turns: seq<nat>,
    arrivals: seq<seq<Message>>)

  /** The receiver's turn. */
  function TurnOf(c: Snap): Snap {
    if c.turns == [] then c
    else
      var n := if c.hasReceiver then Min(c.turns[0], |c.queue|) else 0;
      c.(received := c.received + c.queue[..n], queue := c.queue[n..], turns := c.turns[1..])
  }

  /** How many more messages the channel takes. */
  function Room(c: Snap): nat {
    if |c.queue| < c.capacity then c.capacity - |c.queue| else 0
  }

  /** The other senders' turn: what they send arrives as far as there is room. */
  function ArrivalOf(c: Snap): Snap {
    if c.arrivals == [] then c
    else
      var n := if c.hasSenders then Min(|c.arrivals[0]|, Room(c)) else 0;
      c.(queue := c.queue + c.arrivals[0][..n], arrivals := c.arrivals[1..])
  }

  predicate Takes(c: Snap) {
    c.hasReceiver && |c.queue| < c.capacity
  }

  function WithSent(c: Snap, m: Message): Snap {
    c.(queue := c.queue + [m])
  }

  /** Sending, with a turn of the receiver before each attempt: the channel afterwards, and what is left to send. */
  function Play(c: Snap, msgs: seq<Message>): (Snap, seq<Message>)
    decreases |msgs|
  {
    if msgs == [] then (c, [])
    else if Takes(TurnOf(c)) then Play(WithSent(TurnOf(c), msgs[0]), msgs[1..])
    else (TurnOf(c), msgs)
  }

  function Took(c: Snap): Snap
    requires c.queue != []
  {
    c.(received := c.received + [c.queue[0]], queue := c.queue[1..])
  }

  /** Receiving up to `n` messages, with a turn of the senders before each attempt. */
  function Drain(c: Snap, n: nat): (Snap, seq<Message>)
    decreases n
  {
    var c1 := ArrivalOf(c);
    if n == 0 then (c, [])
    else if c1.queue == [] then (c1, [])
    else
      var (c2, ms) := Drain(Took(c1), n - 1);
      (c2, [c1.queue[0]] + ms)
  }

  /**
   A bounded channel, `mpsc::sync_channel`. The other ends run in other threads: `turns` is an arbitrary script
   of how many messages the receiver takes before each attempt to send, and `arrivals` one of what other
   senders have before each attempt to receive.
   */
  class Channel {
    const capacity: nat
    var queue: seq<Message>
    var hasReceiver: bool
    var hasSenders: bool
    var turns: seq<nat>
    var arrivals: seq<seq<Message>>
    ghost var received: seq<Message>

    constructor (capacity: nat, turns: seq<nat>, arrivals: seq<seq<Message>>)
      ensures Now() == Snap([], [], capacity, true, true, turns, arrivals)
    {
      this.capacity := capacity;
      queue, hasReceiver, hasSenders := [], true, true;
      this.turns, this.arrivals := turns, arrivals;
      received := [];
    }

    ghost function Now(): Snap
      reads this
    {
      Snap(received, queue, capacity, hasReceiver, hasSenders, turns, arrivals)
    }

    method Turn()
      modifies this`queue, this`turns, this`received
      ensures Now() == TurnOf(old(Now()))
    {
      if turns != [] {
        var n := if hasReceiver then Min(turns[0], |queue|) else 0;
        received := received + queue[..n];
        queue := queue[n..];
        turns := turns[1..];
      }
    }

    method Arrive()
      modifies this`queue, this`arrivals
      ensures Now() == ArrivalOf(old(Now()))
    {
      if arrivals != [] {
        var room := if |queue| < capacity then capacity - |queue| else 0;
        var n := if hasSenders then Min(|arrivals[0]|, room) else 0;
        queue := queue + arrivals[0][..n];
        arrivals := arrivals[1..];
      }
    }

    method TrySend(m: Message) returns (r: Sending)
      modifies this`queue
      ensures r == if !hasReceiver then NoReceiver else if |old(queue)| < capacity then Sent else Full
      ensures Now() == if Takes(old(Now())) then WithSent(old(Now()), m) else old(Now())
    {
      if !hasReceiver {
        return NoReceiver;
      }
      if |queue| < capacity {
        queue := queue + [m];
        return Sent;
      }
      return Full;
    }

    method TryRecv() returns (r: Receiving)
      modifies this`queue, this`received
      ensures old(queue) != [] ==> r == Received(old(queue)[0]) && Now() == Took(old(Now()))
      ensures old(queue) == [] ==> r == (if hasSenders then Empty else NoSender) && Now() == old(Now())
    {
      if queue != [] {
        r := Received(queue[0]);
        received := received + [queue[0]];
        queue := queue[1..];
      } else {
        r := if hasSenders then Empty else NoSender;
      }
    }
  }

  /** How many of `n` messages a channel still takes. */
  function Taken(n: nat, queued: nat, capacity: nat, hasReceiver: bool): (k: nat)
    ensures k <= n
  {
    if !hasReceiver || queued >= capacity then 0 else Min(n, capacity - queued)
  }

  /**
   Of `msgs`, all but the rest have gone into the channel, in order, and the rest is left only if the
   channel was full or has no receiver; how many went is known if nothing was received meanwhile.
   */
  ghost predicate Flushed(c': Snap, rest: seq<Message>, c: Snap, msgs: seq<Message>) {
    var k := |msgs| - |rest|;
    && k >= 0 && rest == msgs[k..] && c'.received + c'.queue == c.received + c.queue + msgs[..k]
    && c'.capacity == c.capacity && c'.hasReceiver == c.hasReceiver && c.received <= c'.received
    && (rest != [] && c.hasReceiver ==> |c'.queue| >= c.capacity)
    && (!c.hasReceiver ==> k == 0)
    && (c.turns == [] ==>
          && k == Taken(|msgs|, |c.queue|, c.capacity, c.hasReceiver)
          && c'.queue == c.queue + msgs[..k] && c'.received == c.received)
  }

  lemma TurnKeeps(c: Snap)
    ensures var c1 := TurnOf(c);
            && c1.received + c1.queue == c.received + c.queue && c.received <= c1.received
            && c1.capacity == c.capacity && c1.hasReceiver == c.hasReceiver
            && (!c.hasReceiver ==> c1.received == c.received && c1.queue == c.queue)
            && (c.turns == [] ==> c1 == c)
  {
  }

  /** One message more in front. */
  lemma FlushedMore(c': Snap, rest: seq<Message>, c: Snap, c1: Snap, msgs: seq<Message>)
    requires msgs != [] && c1 == TurnOf(c) && Takes(c1) && Flushed(c', rest, WithSent(c1, msgs[0]), msgs[1..])
    ensures Flushed(c', rest, c, msgs)
  {
    TurnKeeps(c);
    OneSent(c1.received, c1.queue, msgs, |msgs| - |rest|);
  }

  lemma OneSent(r: seq<Message>, q: seq<Message>, msgs: seq<Message>, k: nat)
    requires 0 < k <= |msgs|
    ensures msgs[1..][k - 1..] == msgs[k..]
    ensures r + (q + [msgs[0]]) + msgs[1..][..k - 1] == r + q + msgs[..k]
    ensures q + [msgs[0]] + msgs[1..][..k - 1] == q + msgs[..k]
  {
    assert msgs[..k] == [msgs[0]] + msgs[1..][..k - 1];
  }

  /** That is what sending does, whatever the receiver takes meanwhile. */
  lemma {:induction false} PlayFlushes(c: Snap, msgs: seq<Message>)
    ensures Flushed(Play(c, msgs).0, Play(c, msgs).1, c, msgs)
    decreases |msgs|
  {
    TurnKeeps(c);
    if msgs == [] {
      assert c.received + c.queue + [] == c.received + c.queue && c.queue + [] == c.queue;
    } else if Takes(TurnOf(c)) {
      var c1 := WithSent(TurnOf(c), msgs[0]);
      PlayFlushes(c1, msgs[1..]);
      FlushedMore(Play(c, msgs).0, Play(c, msgs).1, c, TurnOf(c), msgs);
    } else {
      assert msgs[..0] == [] && msgs[0..] == msgs;
    }
  }

  class MsgTx {
    const tx: Channel
    var count: nat

    constructor (tx: Channel)
      ensures this.tx == tx && count == 0
    {
      this.tx, count := tx, 0;
    }

    /** Messages are sent, in order, up to the first that is refused; that and the others come back, in order. */
    method TrySends(msgs: seq<Message>) returns (status: QueueStatus)
      modifies this`count, tx`queue, tx`turns, tx`received
      ensures (tx.Now(), status.values) == Play(old(tx.Now()), msgs)
      ensures count == old(count) + |msgs| - |status.values|
      ensures if status.values == [] then status.Finished?
              else if tx.hasReceiver then status.Block? else status.Disconnected?
    {
      var i := 0;
      ghost var was := tx.Now();
      assert msgs[0..] == msgs;
      while i < |msgs|
        invariant i <= |msgs| && count == old(count) + i
        invariant Play(tx.Now(), msgs[i..]) == Play(was, msgs)
      {
        tx.Turn();
        assert msgs[i..][0] == msgs[i] && msgs[i..][1..] == msgs[i + 1..] && [msgs[i]] + msgs[i + 1..] == msgs[i..];
        var r := tx.TrySend(msgs[i]);
        match r {
          case Sent =>
            count := count + 1;
            i := i + 1;
          case Full =>
            return Block([msgs[i]] + msgs[i + 1..]);
          case NoReceiver =>
            return Disconnected([msgs[i]] + msgs[i + 1..]);
        }
      }
      return Finished([]);
    }
  }

  /** Of the first `n` scripted arrivals, what has come in. */
  ghost predicate Drained(c': Snap, ms: seq<Message>, c: Snap, n: nat) {
    && |ms| <= n && c'.received == c.received + ms && c'.hasSenders == c.hasSenders && c'.capacity == c.capacity
    && c.queue <= ms + c'.queue
    && (|ms| < n ==> c'.queue == [])
    && (c.arrivals == [] ==> ms + c'.queue == c.queue && c'.arrivals == [])
  }

  lemma DrainedMore(c': Snap, ms: seq<Message>, c: Snap, n: nat)
    requires n > 0 && ArrivalOf(c).queue != [] && Drained(c', ms, Took(ArrivalOf(c)), n - 1)
    ensures Drained(c', [ArrivalOf(c).queue[0]] + ms, c, n)
  {
    var c1 := ArrivalOf(c);
    var m := c1.queue[0];
    assert c1.received + [m] + ms == c1.received + ([m] + ms);
    assert c1.queue == [m] + c1.queue[1..] && [m] + ms + c'.queue == [m] + (ms + c'.queue);
    assert c.queue <= c1.queue <= [m] + (ms + c'.queue);
  }

  /**
   Whatever arrives meanwhile: the oldest messages are received, in order, up to `n`, fewer only if the channel
   is empty then.
   */
  lemma {:induction false} DrainTakes(c: Snap, n: nat)
    ensures Drained(Drain(c, n).0, Drain(c, n).1, c, n)
    decreases n
  {
    if n > 0 && ArrivalOf(c).queue != [] {
      DrainTakes(Took(ArrivalOf(c)), n - 1);
      var (c', ms) := Drain(Took(ArrivalOf(c)), n - 1);
      DrainedMore(c', ms, c, n);
    } else {
      assert c.received + [] == c.received && [] + c.queue == c.queue;
    }
  }

  class MsgRx {
    const rx: Channel
    const batchSize: nat

    constructor (rx: Channel, batchSize: nat)
      ensures this.rx == rx && this.batchSize == batchSize
    {
      this.rx, this.batchSize := rx, batchSize;
    }

    /** One message more than the batch size is received at most. */
    method TryRecvs() returns (status: QueueStatus)
      modifies rx`queue, rx`arrivals, rx`received
      ensures (rx.Now(), status.values) == Drain(old(rx.Now()), batchSize + 1)
      ensures status.Finished? <==> |status.values| == batchSize + 1
      ensures status.Disconnected? <==> |status.values| <= batchSize && !rx.hasSenders
    {
      var msgs := [];
      ghost var was := rx.Now();
      BehindNone(Drain(was, batchSize + 1));
      while true
        invariant |msgs| <= batchSize && rx.hasSenders == was.hasSenders
        invariant Drain(was, batchSize + 1) == Behind(msgs, Drain(rx.Now(), batchSize + 1 - |msgs|))
        decreases batchSize - |msgs|
      {
        rx.Arrive();
        var r := rx.TryRecv();
        match r {
          case Received(m) =>
            BehindMore(msgs, m, Drain(rx.Now(), batchSize - |msgs|));
            msgs := msgs + [m];
            if |msgs| > batchSize {
              assert msgs + [] == msgs;
              return Finished(msgs);
            }
          case Empty =>
            assert msgs + [] == msgs;
            return Block(msgs);
          case NoSender =>
            assert msgs + [] == msgs;
            return Disconnected(msgs);
        }
      }
    }
  }

  /** With `msgs` received before. */
  function Behind(msgs: seq<Message>, r: (Snap, seq<Message>)): (Snap, seq<Message>) {
    (r.0, msgs + r.1)
  }

  lemma BehindNone(r: (Snap, seq<Message>))
    ensures Behind([], r) == r
  {
    assert [] + r.1 == r.1;
  }

  lemma BehindMore(msgs: seq<Message>, m: Message, r: (Snap, seq<Message>))
    ensures Behind(msgs, (r.0, [m] + r.1)) == Behind(msgs + [m], r)
  {
    assert msgs + ([m] + r.1) == msgs + [m] + r.1;
  }
}
