/** What a shard does, as steps of the transition system of all shards: so its runs are runs of that. */
module ShardSteps {
  import opened Basics
  import opened Subscriptions
  import opened Messages
  import opened Fanout
  import opened Routing
  import opened Queues
  import Shards

  type Books = Shards.Books

  type Acks = map<nat, nat>

  ghost predicate LogAt(logs: Shards.Logs, s: State, i: nat, j: nat) {
    (j in logs <==> (i, j) in s.backLog) && Get(logs, j) == Get(s.backLog, (i, j))
  }

  ghost predicate StampAt(t: Shards.Stamps, s: State, i: nat, j: nat) {
    (j in t <==> (i, j) in s.stamps) && (j in t ==> t[j] == s.stamps[(i, j)])
  }

  ghost predicate StampsAgree(t: Shards.Stamps, s: State, i: nat) {
    forall j :: StampAt(t, s, i, j)
  }

  /** The books of shard `i` are what the state of all shards says of it. */
  ghost predicate Agrees(b: Books, s: State, i: nat) {
    b.seqno == NextSeqno(s, i) && (forall j :: LogAt(b.backLog, s, i, j)) && StampsAgree(b.timestamp, s, i)
  }

  ghost predicate AckAt(acks: Acks, s: State, i: nat, j: nat) {
    (j in acks <==> (i, j) in s.acks) && (j in acks ==> acks[j] == s.acks[(i, j)])
  }

  /** So are the acknowledgements that are due. */
  ghost predicate AcksAgree(acks: Acks, s: State, i: nat) {
    forall j :: AckAt(acks, s, i, j)
  }

  // ---------------------------------------------------------------------------- publishing

  function RouteAction(p: Shards.Publishing, subs: seq<Subscription>): Action
    requires subs != []
  {
    Route(p.shardId, subs[0].shardId, p.publisher, subs, p.publish, Shards.ToBeAcked(p))
  }

  /** What routing does to back-logs and entries. */
  lemma RouteLogs(s: State, a: Action)
    requires a.Route? && Enabled(s, a)
    ensures var s', k, n := Step(s, a), (a.i, a.j), NextSeqno(s, a.i);
            var m := Packet(a.clientId, a.i, n, a.subscriptions, a.publish);
            && s'.backLog == s.backLog[k := Get(s.backLog, k) + [m]]
            && s'.stamps == (if a.acked then Entered(s.stamps, k, n) else s.stamps)
            && NextSeqno(s', a.i) == SaturatingIncr(n) && Idle(s', a.i)
  {
  }

  lemma RouteIsStep(b: Books, s: State, p: Shards.Publishing, subs: seq<Subscription>)
    requires subs != [] && Agrees(b, s, p.shardId) && Idle(s, p.shardId)
    ensures Enabled(s, RouteAction(p, subs))
    ensures var s' := Step(s, RouteAction(p, subs));
            Agrees(Shards.RouteOne(b, p, subs), s', p.shardId) && Idle(s', p.shardId)
  {
    RouteLogs(s, RouteAction(p, subs));
    RouteAgrees(b, s, Step(s, RouteAction(p, subs)), p, subs);
  }

  lemma RouteAgrees(b: Books, s: State, s': State, p: Shards.Publishing, subs: seq<Subscription>)
    requires subs != [] && Agrees(b, s, p.shardId) && NextSeqno(s', p.shardId) == SaturatingIncr(b.seqno)
    requires var k, m := (p.shardId, subs[0].shardId), Shards.PacketOf(p, b.seqno, subs);
             && s'.backLog == s.backLog[k := Get(s.backLog, k) + [m]]
             && s'.stamps == if Shards.ToBeAcked(p) then Entered(s.stamps, k, b.seqno) else s.stamps
    ensures Agrees(Shards.RouteOne(b, p, subs), s', p.shardId)
  {
    var b', i, t := Shards.RouteOne(b, p, subs), p.shardId, subs[0].shardId;
    assert LogAt(b.backLog, s, i, t) && StampAt(b.timestamp, s, i, t);
    forall j ensures LogAt(b'.backLog, s', i, j) {
      assert LogAt(b.backLog, s, i, j);
    }
    forall j ensures StampAt(b'.timestamp, s', i, j) {
      assert StampAt(b.timestamp, s, i, j);
    }
  }

  /** One route after the other, to the clients served. */
  function RouteActions(p: Shards.Publishing, groups: Groups, clients: seq<Bytes>): seq<Action> {
    if clients == [] then []
    else if Get(groups, clients[0]) == [] then RouteActions(p, groups, clients[1..])
    else [RouteAction(p, Get(groups, clients[0]))] + RouteActions(p, groups, clients[1..])
  }

  /** The loop of `do_publish` is a row of routing steps. */
  lemma {:induction false} PublishIsSteps(b: Books, s: State, p: Shards.Publishing, groups: Groups, clients: seq<Bytes>)
    requires Agrees(b, s, p.shardId) && Idle(s, p.shardId)
    ensures var r := Perform(s, RouteActions(p, groups, clients));
            r.Some? && Agrees(Shards.RouteAll(b, p, groups, clients), r.value, p.shardId) && Idle(r.value, p.shardId)
    decreases |clients|
  {
    if clients != [] {
      var subs := Get(groups, clients[0]);
      if subs == [] {
        PublishIsSteps(b, s, p, groups, clients[1..]);
      } else {
        RouteIsStep(b, s, p, subs);
        PublishIsSteps(Shards.RouteOne(b, p, subs), Step(s, RouteAction(p, subs)), p, groups, clients[1..]);
        assert RouteActions(p, groups, clients)[1..] == RouteActions(p, groups, clients[1..]);
      }
    }
  }

  // -------------------------------------------------------------------------- acknowledging

  function AckActions(i: nat, order: seq<nat>): seq<Action> {
    if order == [] then [] else [Acknowledge(i, order[0])] + AckActions(i, order[1..])
  }

  /** Every key once. */
  ghost predicate Orders(order: seq<nat>, keys: set<nat>) {
    && (forall k :: k in order <==> k in keys)
    && forall a, b :: 0 <= a < b < |order| ==> order[a] != order[b]
  }

  lemma OrdersNext(order: seq<nat>, keys: set<nat>)
    requires Orders(order, keys) && order != []
    ensures Orders(order[1..], keys - {order[0]}) && order[0] in keys
  {
    assert order == [order[0]] + order[1..];
  }

  lemma AckLogs(s: State, i: nat, k: nat)
    requires Enabled(s, Acknowledge(i, k))
    ensures var s' := Step(s, Acknowledge(i, k));
            && s'.backLog == s.backLog[(i, k) := Get(s.backLog, (i, k)) + [LocalAck(k, s.acks[(i, k)])]]
            && s'.acks == s.acks - {(i, k)} && s'.stamps == s.stamps && s'.seqno == s.seqno && Idle(s', i)
  {
  }

  lemma AckIsStep(b: Books, s: State, i: nat, acks: Acks, k: nat)
    requires Idle(s, i) && AcksAgree(acks, s, i) && k in acks && Agrees(b, s, i)
    ensures Enabled(s, Acknowledge(i, k))
    ensures var s' := Step(s, Acknowledge(i, k));
            && Idle(s', i) && AcksAgree(acks - {k}, s', i)
            && Agrees(b.(backLog := Shards.Pushed(b.backLog, k, LocalAck(k, acks[k]))), s', i)
  {
    assert AckAt(acks, s, i, k);
    AckLogs(s, i, k);
    var s', acks', logs' := Step(s, Acknowledge(i, k)), acks - {k}, Shards.Pushed(b.backLog, k, LocalAck(k, acks[k]));
    assert LogAt(b.backLog, s, i, k);
    forall j ensures AckAt(acks', s', i, j) {
      assert AckAt(acks, s, i, j);
    }
    forall j ensures LogAt(logs', s', i, j) {
      assert LogAt(b.backLog, s, i, j);
    }
    forall j ensures StampAt(b.timestamp, s', i, j) {
      assert StampAt(b.timestamp, s, i, j);
    }
  }

  /** The back-logs after acknowledgements in that order. */
  function AckLogsAfter(logs: Shards.Logs, acks: Acks, order: seq<nat>): Shards.Logs
    requires forall k :: k in order ==> k in acks
    decreases |order|
  {
    if order == [] then logs
    else AckLogsAfter(Shards.Pushed(logs, order[0], LocalAck(order[0], acks[order[0]])), acks, order[1..])
  }

  lemma AckLogsSame(logs: Shards.Logs, acks: Acks, order: seq<nat>, k: nat)
    requires (forall x :: x in order ==> x in acks) && k !in order
    ensures AckLogsAfter(logs, acks, order) == AckLogsAfter(logs, acks - {k}, order)
    decreases |order|
  {
    if order != [] {
      assert order[0] in order;
      AckLogsSame(Shards.Pushed(logs, order[0], LocalAck(order[0], acks[order[0]])), acks, order[1..], k);
    }
  }

  lemma {:induction false} AcksAreSteps(b: Books, s: State, i: nat, acks: Acks, order: seq<nat>)
    requires Idle(s, i) && AcksAgree(acks, s, i) && Orders(order, acks.Keys) && Agrees(b, s, i)
    ensures var r := Perform(s, AckActions(i, order));
            && r.Some? && Idle(r.value, i) && AcksAgree(map[], r.value, i)
            && Agrees(b.(backLog := AckLogsAfter(b.backLog, acks, order)), r.value, i)
    decreases |order|
  {
    if order == [] {
      assert acks == map[];
    } else {
      var k := order[0];
      OrdersNext(order, acks.Keys);
      AckIsStep(b, s, i, acks, k);
      assert (acks - {k}).Keys == acks.Keys - {k};
      var b' := b.(backLog := Shards.Pushed(b.backLog, k, LocalAck(k, acks[k])));
      AcksAreSteps(b', Step(s, Acknowledge(i, k)), i, acks - {k}, order[1..]);
      AckLogsSame(b'.backLog, acks, order[1..], k);
      assert AckActions(i, order)[1..] == AckActions(i, order[1..]);
    }
  }

  /** What the methods leave is what those pushes leave. */
  lemma {:induction false} AckedAfter(logs: Shards.Logs, acks: Acks, order: seq<nat>, j: nat)
    requires Orders(order, acks.Keys)
    ensures Shards.AckedAt(AckLogsAfter(logs, acks, order), logs, acks, j)
    decreases |order|
  {
    if order == [] {
      assert Get(logs, j) + [] == Get(logs, j);
    } else {
      var k := order[0];
      OrdersNext(order, acks.Keys);
      var logs', acks' := Shards.Pushed(logs, k, LocalAck(k, acks[k])), acks - {k};
      assert acks'.Keys == acks.Keys - {k};
      AckedAfter(logs', acks', order[1..], j);
      AckLogsSame(logs', acks, order[1..], k);
      assert Get(logs', j) + [] == Get(logs', j) && Get(logs, j) + [] == Get(logs, j);
    }
  }

  /** `ack_messages` is a row of acknowledging steps, in whatever order. */
  lemma AckMessagesIsSteps(b: Books, s: State, i: nat, acks: Acks, order: seq<nat>, b': Books)
    requires Agrees(b, s, i) && Idle(s, i) && AcksAgree(acks, s, i) && Orders(order, acks.Keys)
    requires Shards.Acked(b'.backLog, b.backLog, acks) && b' == b.(backLog := b'.backLog)
    ensures var r := Perform(s, AckActions(i, order));
            r.Some? && Agrees(b', r.value, i) && Idle(r.value, i) && AcksAgree(map[], r.value, i)
  {
    AcksAreSteps(b, s, i, acks, order);
    var r, logs := Perform(s, AckActions(i, order)).value, AckLogsAfter(b.backLog, acks, order);
    forall j ensures LogAt(b'.backLog, r, i, j) {
      AckedAfter(b.backLog, acks, order, j);
      assert Shards.AckedAt(b'.backLog, b.backLog, acks, j) && LogAt(logs, r, i, j);
    }
  }

  // ------------------------------------------------------------------------------ receiving

  function Repeat(a: Action, n: nat): seq<Action> {
    if n == 0 then [] else [a] + Repeat(a, n - 1)
  }

  function Untag(ts: seq<Tagged>): (r: seq<Message>)
    ensures |r| == |ts| && forall k :: 0 <= k < |ts| ==> r[k] == ts[k].message
  {
    seq(|ts|, k requires 0 <= k < |ts| => ts[k].message)
  }

  lemma UntagParts(a: seq<Tagged>, b: seq<Tagged>)
    ensures Untag(a + b) == Untag(a) + Untag(b)
    ensures b != [] ==> Untag(b)[1..] == Untag(b[1..]) && a + [b[0]] + b[1..] == a + b
  {
  }

  /** The channel holds what the state of all shards says of the queue of `j`; whoever takes turns can receive. */
  ghost predicate SnapAgrees(c: Snap, s: State, j: nat) {
    && c.queue == Untag(Get(s.queue, j)) && c.received == Untag(Get(s.handled, j) + Get(s.inbox, j))
    && c.capacity == s.capacity && c.hasReceiver == (j !in s.closed)
    && (c.turns != [] ==> j !in s.flushing && j !in s.panicked)
  }

  /** The same apart from what is about to leave `i` for `j`, and what `j` has in its queue and received. */
  ghost predicate SameElse(s': State, s: State, i: nat, j: nat) {
    && s'.capacity == s.capacity && s'.backLog == s.backLog && s'.flushing == s.flushing && s'.closed == s.closed
    && s'.acks == s.acks && s'.stamps == s.stamps && s'.panicked == s.panicked && s'.seqno == s.seqno
    && s'.handled == s.handled
    && s'.leaving - {(i, j)} == s.leaving - {(i, j)} && ((i, j) in s'.leaving <==> (i, j) in s.leaving)
    && s'.queue - {j} == s.queue - {j} && s'.inbox - {j} == s.inbox - {j}
  }

  lemma Forgotten<K, V>(m: map<K, V>, k: K, v: V)
    ensures m[k := v] - {k} == m - {k}
  {
  }

  lemma ReceiveFields(s: State, j: nat)
    requires Enabled(s, Receive(j))
    ensures var s', q := Step(s, Receive(j)), Get(s.queue, j);
            && s'.queue == s.queue[j := q[1..]] && s'.inbox == s.inbox[j := Get(s.inbox, j) + [q[0]]]
            && s'.leaving == s.leaving && s'.capacity == s.capacity && s'.backLog == s.backLog
            && s'.flushing == s.flushing && s'.closed == s.closed && s'.acks == s.acks && s'.stamps == s.stamps
            && s'.panicked == s.panicked && s'.seqno == s.seqno && s'.handled == s.handled
  {
  }

  lemma TookAgrees(q: seq<Tagged>, inbox: seq<Tagged>, handled: seq<Tagged>)
    requires q != []
    ensures Untag(q)[1..] == Untag(q[1..])
    ensures Untag(handled + (inbox + [q[0]])) == Untag(handled + inbox) + [Untag(q)[0]]
  {
    UntagParts(handled + inbox, [q[0]]);
    assert handled + (inbox + [q[0]]) == handled + inbox + [q[0]];
  }

  /** A message is received. */
  lemma ReceiveIsStep(c: Snap, s: State, i: nat, j: nat)
    requires SnapAgrees(c, s, j) && c.queue != [] && c.hasReceiver && j !in s.flushing && j !in s.panicked
    ensures Enabled(s, Receive(j))
    ensures var s' := Step(s, Receive(j));
            SnapAgrees(Took(c), s', j) && SameElse(s', s, i, j) && s'.leaving == s.leaving
  {
    ReceiveFields(s, j);
    var q := Get(s.queue, j);
    TookAgrees(q, Get(s.inbox, j), Get(s.handled, j));
    Forgotten(s.queue, j, q[1..]);
    Forgotten(s.inbox, j, Get(s.inbox, j) + [q[0]]);
  }

  /** The channel after `n` messages were taken. */
  function TookMany(c: Snap, n: nat): Snap
    requires n <= |c.queue|
  {
    c.(received := c.received + c.queue[..n], queue := c.queue[n..])
  }

  lemma TookNext(c: Snap, n: nat)
    requires 0 < n <= |c.queue|
    ensures TookMany(Took(c), n - 1) == TookMany(c, n)
  {
    assert c.received + [c.queue[0]] + c.queue[1..][..n - 1] == c.received + c.queue[..n];
    assert c.queue[1..][n - 1..] == c.queue[n..];
  }

  lemma TookNone(c: Snap)
    ensures TookMany(c, 0) == c
  {
    assert c.received + c.queue[..0] == c.received && c.queue[0..] == c.queue;
  }

  lemma RepeatNext(s: State, a: Action, n: nat)
    requires n > 0 && Enabled(s, a)
    ensures Perform(s, Repeat(a, n)) == Perform(Step(s, a), Repeat(a, n - 1))
  {
    assert Repeat(a, n)[1..] == Repeat(a, n - 1);
  }

  /** So many have been taken, and the rest is as before. */
  ghost predicate ReceivedMany(r: Option<State>, c: Snap, s: State, i: nat, j: nat, n: nat) {
    && n <= |c.queue| && r.Some? && SnapAgrees(TookMany(c, n), r.value, j)
    && SameElse(r.value, s, i, j) && r.value.leaving == s.leaving
  }

  lemma ReceivedMore(r: Option<State>, c: Snap, s: State, s': State, i: nat, j: nat, n: nat)
    requires n > 0 && c.queue != [] && SameElse(s', s, i, j) && s'.leaving == s.leaving
    requires ReceivedMany(r, Took(c), s', i, j, n - 1)
    ensures ReceivedMany(r, c, s, i, j, n)
  {
    TookNext(c, n);
    SameElseTwice(s, s', r.value, i, j);
  }

  function Receiving(s: State, j: nat, n: nat): Option<State> {
    Perform(s, Repeat(Receive(j), n))
  }

  lemma ReceivedFirst(c: Snap, s: State, i: nat, j: nat, n: nat) returns (s': State)
    requires SnapAgrees(c, s, j) && 0 < n <= |c.queue| && c.hasReceiver && j !in s.flushing && j !in s.panicked
    ensures Receiving(s, j, n) == Receiving(s', j, n - 1)
    ensures SnapAgrees(Took(c), s', j) && SameElse(s', s, i, j) && s'.leaving == s.leaving
  {
    ReceiveIsStep(c, s, i, j);
    RepeatNext(s, Receive(j), n);
    s' := Step(s, Receive(j));
  }

  lemma ReceivedNone(c: Snap, s: State, i: nat, j: nat)
    requires SnapAgrees(c, s, j)
    ensures ReceivedMany(Receiving(s, j, 0), c, s, i, j, 0)
  {
    TookNone(c);
  }

  /** `try_recvs` is a row of receiving steps. */
  lemma {:induction false} ReceivesAreSteps(c: Snap, s: State, i: nat, j: nat, n: nat)
    requires SnapAgrees(c, s, j) && n <= |c.queue| && c.hasReceiver && j !in s.flushing && j !in s.panicked
    ensures ReceivedMany(Receiving(s, j, n), c, s, i, j, n)
    decreases n
  {
    if n == 0 {
      ReceivedNone(c, s, i, j);
    } else {
      var s' := ReceivedFirst(c, s, i, j, n);
      ReceivesAreSteps(Took(c), s', i, j, n - 1);
      ReceivedMore(Receiving(s', j, n - 1), c, s, s', i, j, n);
    }
  }

  // ------------------------------------------------------------------------- looking at a batch

  function Looked(acks: Acks, m: Message): Acks {
    if m.Packet? then acks[m.shardId := m.seqno] else acks
  }

  lemma LookAgrees(s: State, s': State, j: nat, acks: Acks, t: Shards.Stamps)
    requires AcksAgree(acks, s, j) && StampsAgree(t, s, j) && Get(s.inbox, j) != [] && HandleEffect(s', s, j)
    ensures var m := Get(s.inbox, j)[0].message;
            AcksAgree(Looked(acks, m), s', j) && StampsAgree(Shards.BookAll(t, [m]), s', j)
  {
    var m := Get(s.inbox, j)[0].message;
    var acks', t' := Looked(acks, m), Shards.BookAll(t, [m]);
    Shards.BookOne(t, m);
    forall k ensures AckAt(acks', s', j, k) {
      assert AckAt(acks, s, j, k);
    }
    if m.LocalAck? {
      assert StampAt(t, s, j, m.shardId);
    }
    forall k ensures StampAt(t', s', j, k) {
      assert StampAt(t, s, j, k);
    }
  }

  lemma HandleIsStep(s: State, j: nat, acks: Acks, t: Shards.Stamps)
    requires AcksAgree(acks, s, j) && StampsAgree(t, s, j) && Enabled(s, Handle(j))
    requires !Shards.Unbookable(t, Get(s.inbox, j)[0].message)
    ensures var b, s' := Get(s.inbox, j), Step(s, Handle(j));
            && Get(s'.inbox, j) == b[1..] && Get(s'.handled, j) == Get(s.handled, j) + [b[0]]
            && s'.panicked == s.panicked
            && AcksAgree(Looked(acks, b[0].message), s', j) && StampsAgree(Shards.BookAll(t, [b[0].message]), s', j)
  {
    var m := Get(s.inbox, j)[0].message;
    if m.LocalAck? {
      assert StampAt(t, s, j, m.shardId);
    }
    HandleBooks(s, j);
    LookAgrees(s, Step(s, Handle(j)), j, acks, t);
  }

  ghost predicate Bookable(t: Shards.Stamps, msgs: seq<Message>) {
    forall k :: 0 <= k < |msgs| ==> !Shards.Unbookable(t, msgs[k])
  }

  lemma BookableRest(t: Shards.Stamps, msgs: seq<Message>)
    requires msgs != [] && Bookable(t, msgs)
    ensures Bookable(Shards.BookAll(t, [msgs[0]]), msgs[1..]) && !Shards.Unbookable(t, msgs[0])
  {
    Shards.BookAllAt(t, [msgs[0]], 0);
    forall k | 0 <= k < |msgs[1..]| ensures !Shards.Unbookable(Shards.BookAll(t, [msgs[0]]), msgs[1..][k]) {
      assert msgs[1..][k] == msgs[k + 1];
    }
  }

  /** The first loop of `in_messages` is a row of handling steps. */
  lemma {:induction false} HandlesAreSteps(s: State, j: nat, acks: Acks, t: Shards.Stamps, n: nat)
    requires AcksAgree(acks, s, j) && StampsAgree(t, s, j) && n == |Get(s.inbox, j)| && j !in s.panicked
    requires Bookable(t, Untag(Get(s.inbox, j)))
    ensures var r, msgs := Perform(s, Repeat(Handle(j), n)), Untag(Get(s.inbox, j));
            && r.Some? && Get(r.value.inbox, j) == [] && j !in r.value.panicked
            && Get(r.value.handled, j) == Get(s.handled, j) + Get(s.inbox, j)
            && AcksAgree(Shards.StampAll(acks, msgs), r.value, j) && StampsAgree(Shards.BookAll(t, msgs), r.value, j)
    decreases n
  {
    if n == 0 {
      assert Get(s.handled, j) + [] == Get(s.handled, j);
    } else {
      var b := Get(s.inbox, j);
      BookableRest(t, Untag(b));
      HandleIsStep(s, j, acks, t);
      UntagParts(Get(s.handled, j), b);
      Shards.FirstOf(acks, t, map[], Untag(b));
      HandlesAreSteps(Step(s, Handle(j)), j, Looked(acks, b[0].message), Shards.BookAll(t, [b[0].message]), n - 1);
      assert Repeat(Handle(j), n)[1..] == Repeat(Handle(j), n - 1);
      assert [Untag(b)[0]][1..] == [];
    }
  }

  /** If it stops with a panic, so does that row. */
  lemma {:induction false} HandlesPanic(s: State, j: nat, acks: Acks, t: Shards.Stamps, k: nat)
    requires AcksAgree(acks, s, j) && StampsAgree(t, s, j) && k < |Get(s.inbox, j)| && j !in s.panicked
    requires var msgs := Untag(Get(s.inbox, j)); Bookable(t, msgs[..k]) && Shards.Unbookable(t, msgs[k])
    ensures var r := Perform(s, Repeat(Handle(j), k + 1)); r.Some? && j in r.value.panicked
    decreases k
  {
    var b := Get(s.inbox, j);
    var msgs := Untag(b);
    assert Repeat(Handle(j), k + 1)[1..] == Repeat(Handle(j), k);
    if k == 0 {
      if msgs[0].LocalAck? {
        assert StampAt(t, s, j, msgs[0].shardId);
      }
      HandlePanics(s, j);
    } else {
      assert msgs[..k][0] == msgs[0];
      BookableRest(t, msgs[..k]);
      HandleIsStep(s, j, acks, t);
      UntagParts([], b);
      Shards.BookAllAt(t, [msgs[0]], 0);
      assert msgs[..k][1..] == msgs[1..][..k - 1];
      HandlesPanic(Step(s, Handle(j)), j, Looked(acks, msgs[0]), Shards.BookAll(t, [msgs[0]]), k - 1);
    }
  }

  // ------------------------------------------------------------------------------- flushing

  lemma SendFlushFields(s: State, i: nat, j: nat)
    requires Enabled(s, FlushSend(i, j))
    ensures var s', ms := Step(s, FlushSend(i, j)), s.leaving[(i, j)];
            && s'.leaving == s.leaving[(i, j) := ms[1..]]
            && s'.queue == s.queue[j := Get(s.queue, j) + [Tagged(i, ms[0])]]
            && s'.inbox == s.inbox && s'.capacity == s.capacity && s'.backLog == s.backLog
            && s'.flushing == s.flushing && s'.closed == s.closed && s'.acks == s.acks && s'.stamps == s.stamps
            && s'.panicked == s.panicked && s'.seqno == s.seqno && s'.handled == s.handled
  {
  }

  /** A message is sent. */
  lemma SendIsStep(c: Snap, s: State, i: nat, j: nat)
    requires SnapAgrees(c, s, j) && Takes(c) && (i, j) in s.leaving && s.leaving[(i, j)] != []
    ensures Enabled(s, FlushSend(i, j))
    ensures var s', ms := Step(s, FlushSend(i, j)), s.leaving[(i, j)];
            && SnapAgrees(WithSent(c, ms[0]), s', j) && SameElse(s', s, i, j) && s'.leaving[(i, j)] == ms[1..]
  {
    SendFlushFields(s, i, j);
    var q, ms := Get(s.queue, j), s.leaving[(i, j)];
    UntagParts(q, [Tagged(i, ms[0])]);
    Forgotten(s.leaving, (i, j), ms[1..]);
    Forgotten(s.queue, j, q + [Tagged(i, ms[0])]);
  }

  /** How many messages the receiver takes in its turn. */
  function TurnTakes(c: Snap): (n: nat)
    ensures n <= |c.queue| && (n > 0 ==> c.turns != [] && c.hasReceiver)
  {
    if c.turns == [] || !c.hasReceiver then 0 else Min(c.turns[0], |c.queue|)
  }

  lemma TurnIs(c: Snap)
    ensures TurnOf(c) == TookMany(c, TurnTakes(c)).(turns := TurnOf(c).turns)
    ensures TurnOf(c).turns != [] ==> c.turns != []
  {
    TookNone(c);
  }

  lemma NewTurns(c: Snap, turns: seq<nat>, s: State, j: nat)
    requires SnapAgrees(c, s, j) && (turns != [] ==> c.turns != [])
    ensures SnapAgrees(c.(turns := turns), s, j)
  {
  }

  lemma TurnIsSteps(c: Snap, s: State, i: nat, j: nat)
    requires SnapAgrees(c, s, j)
    ensures var r := Perform(s, Repeat(Receive(j), TurnTakes(c)));
            && r.Some? && SnapAgrees(TurnOf(c), r.value, j)
            && SameElse(r.value, s, i, j) && r.value.leaving == s.leaving
  {
    var n := TurnTakes(c);
    TurnIs(c);
    if n == 0 {
      TookNone(c);
      NewTurns(c, TurnOf(c).turns, s, j);
    } else {
      ReceivesAreSteps(c, s, i, j, n);
      NewTurns(TookMany(c, n), TurnOf(c).turns, Perform(s, Repeat(Receive(j), n)).value, j);
    }
  }

  /** Receives and sends by turns. */
  function PlayActions(c: Snap, msgs: seq<Message>, i: nat, j: nat): seq<Action>
    decreases |msgs|
  {
    if msgs == [] then []
    else
      Repeat(Receive(j), TurnTakes(c)) +
      if Takes(TurnOf(c)) then [FlushSend(i, j)] + PlayActions(WithSent(TurnOf(c), msgs[0]), msgs[1..], i, j) else []
  }

  lemma SameElseTwice(a: State, b: State, c: State, i: nat, j: nat)
    requires SameElse(b, a, i, j) && SameElse(c, b, i, j)
    ensures SameElse(c, a, i, j)
  {
  }

  /** What the steps of a channel leave. */
  ghost predicate Played(r: State, s: State, i: nat, j: nat, c: Snap, rest: seq<Message>) {
    && SnapAgrees(c, r, j) && SameElse(r, s, i, j) && (i, j) in r.leaving && r.leaving[(i, j)] == rest
    && (rest == [] || !Takes(c))
  }

  lemma PlayedNone(c: Snap, s: State, i: nat, j: nat)
    requires SnapAgrees(c, s, j) && (i, j) in s.leaving && s.leaving[(i, j)] == []
    ensures Played(s, s, i, j, c, [])
  {
  }

  /** One turn, and one message sent. */
  lemma PlayOne(c: Snap, s: State, i: nat, j: nat) returns (t: State)
    requires SnapAgrees(c, s, j) && (i, j) in s.leaving && s.leaving[(i, j)] != [] && Takes(TurnOf(c))
    ensures Perform(s, Repeat(Receive(j), TurnTakes(c)) + [FlushSend(i, j)]) == Some(t)
    ensures SnapAgrees(WithSent(TurnOf(c), s.leaving[(i, j)][0]), t, j) && SameElse(t, s, i, j)
    ensures (i, j) in t.leaving && t.leaving[(i, j)] == s.leaving[(i, j)][1..]
  {
    TurnIsSteps(c, s, i, j);
    var u := Perform(s, Repeat(Receive(j), TurnTakes(c))).value;
    SendIsStep(TurnOf(c), u, i, j);
    PerformNext(s, Repeat(Receive(j), TurnTakes(c)), FlushSend(i, j));
    t := Step(u, FlushSend(i, j));
    SameElseTwice(s, u, t, i, j);
  }

  lemma PlayActionsMore(c: Snap, msgs: seq<Message>, i: nat, j: nat)
    requires msgs != [] && Takes(TurnOf(c))
    ensures PlayActions(c, msgs, i, j) ==
            (Repeat(Receive(j), TurnTakes(c)) + [FlushSend(i, j)]) +
            PlayActions(WithSent(TurnOf(c), msgs[0]), msgs[1..], i, j)
  {
  }

  /** Whatever the receiver takes meanwhile, the sending loop is a row of receiving and sending steps. */
  lemma {:induction false} PlayIsSteps(c: Snap, s: State, i: nat, j: nat, msgs: seq<Message>)
    requires SnapAgrees(c, s, j) && (i, j) in s.leaving && s.leaving[(i, j)] == msgs
    ensures var r := Perform(s, PlayActions(c, msgs, i, j));
            r.Some? && Played(r.value, s, i, j, Play(c, msgs).0, Play(c, msgs).1)
    decreases |msgs|
  {
    if msgs == [] {
      PlayedNone(c, s, i, j);
    } else if Takes(TurnOf(c)) {
      var t := PlayOne(c, s, i, j);
      var c1 := WithSent(TurnOf(c), msgs[0]);
      PlayIsSteps(c1, t, i, j, msgs[1..]);
      PlayActionsMore(c, msgs, i, j);
      PerformAppend(s, Repeat(Receive(j), TurnTakes(c)) + [FlushSend(i, j)], PlayActions(c1, msgs[1..], i, j));
      SameElseTwice(s, t, Perform(t, PlayActions(c1, msgs[1..], i, j)).value, i, j);
    } else {
      TurnIsSteps(c, s, i, j);
      assert PlayActions(c, msgs, i, j) == Repeat(Receive(j), TurnTakes(c));
    }
  }

  /** The same apart from shard `j`: where the flush of `i` to `j` is over. */
  ghost predicate FlushedOne(r: State, s: State, i: nat, j: nat, c: Snap, rest: seq<Message>) {
    && SnapAgrees(c, r, j)
    && r.backLog == s.backLog[(i, j) := rest] && r.leaving == s.leaving - {(i, j)}
    && r.queue - {j} == s.queue - {j} && r.inbox - {j} == s.inbox - {j} && SameRest(r, s)
  }

  ghost predicate SameRest(s': State, s: State) {
    && s'.capacity == s.capacity && s'.flushing == s.flushing && s'.closed == s.closed && s'.acks == s.acks
    && s'.stamps == s.stamps && s'.panicked == s.panicked && s'.seqno == s.seqno && s'.handled == s.handled
  }

  lemma StopFields(s: State, i: nat, j: nat)
    requires Enabled(s, FlushStop(i, j))
    ensures var s' := Step(s, FlushStop(i, j));
            && s'.backLog == s.backLog[(i, j) := s.leaving[(i, j)]] && s'.leaving == s.leaving - {(i, j)}
            && s'.queue == s.queue && s'.inbox == s.inbox && SameRest(s', s)
  {
  }

  function FlushOneActions(c: Snap, msgs: seq<Message>, i: nat, j: nat): seq<Action> {
    PlayActions(c, msgs, i, j) + [FlushStop(i, j)]
  }

  lemma FlushOneIsSteps(c: Snap, s: State, i: nat, j: nat, msgs: seq<Message>)
    requires SnapAgrees(c, s, j) && (i, j) in s.leaving && s.leaving[(i, j)] == msgs
    ensures var r := Perform(s, FlushOneActions(c, msgs, i, j));
            r.Some? && FlushedOne(r.value, s, i, j, Play(c, msgs).0, Play(c, msgs).1)
  {
    PlayIsSteps(c, s, i, j, msgs);
    var u := Perform(s, PlayActions(c, msgs, i, j)).value;
    StopFields(u, i, j);
    PerformNext(s, PlayActions(c, msgs, i, j), FlushStop(i, j));
  }

  /** Every channel agrees. */
  ghost predicate QueuesAgree(queues: map<nat, Snap>, s: State) {
    forall j :: QueueAt(queues, s, j)
  }

  ghost predicate QueueAt(queues: map<nat, Snap>, s: State, j: nat) {
    j in queues ==> SnapAgrees(queues[j], s, j)
  }

  /** The shards that shard `i` is about to send to, each once, and all have a channel. */
  ghost predicate Leaves(s: State, i: nat, order: seq<nat>, queues: map<nat, Snap>) {
    && (forall j :: j in order <==> (i, j) in s.leaving) && (forall j :: j in order ==> j in queues)
    && forall a, b :: 0 <= a < b < |order| ==> order[a] != order[b]
  }

  /** What a flush of `i` makes of what it has for `j`, and of the channel of `j`. */
  ghost predicate FlushedAt(r: State, s: State, i: nat, queues: map<nat, Snap>, j: nat) {
    if (i, j) in s.leaving && j in queues then
      var (c, rest) := Play(queues[j], s.leaving[(i, j)]);
      SnapAgrees(c, r, j) && (i, j) in r.backLog && r.backLog[(i, j)] == rest
    else
      && ((i, j) in r.backLog <==> (i, j) in s.backLog) && Get(r.backLog, (i, j)) == Get(s.backLog, (i, j))
      && QueueAt(queues, r, j) && Get(r.inbox, j) == Get(s.inbox, j)
  }

  function FlushActions(s: State, i: nat, order: seq<nat>, queues: map<nat, Snap>): seq<Action>
    requires forall j :: j in order ==> j in queues
    decreases |order|
  {
    if order == [] then []
    else
      var j := order[0];
      var msgs := Get(s.leaving, (i, j));
      FlushOneActions(queues[j], msgs, i, j) +
      FlushActions(s.(leaving := s.leaving - {(i, j)}), i, order[1..], queues[j := Play(queues[j], msgs).0])
  }

  /** Of the state, the actions depend on what is leaving. */
  lemma {:induction false} SameFlush(s: State, t: State, i: nat, order: seq<nat>, queues: map<nat, Snap>)
    requires (forall j :: j in order ==> j in queues) && s.leaving == t.leaving
    ensures FlushActions(s, i, order, queues) == FlushActions(t, i, order, queues)
    decreases |order|
  {
    if order != [] {
      var j := order[0];
      assert j in order;
      SameFlush(s.(leaving := s.leaving - {(i, j)}), t.(leaving := t.leaving - {(i, j)}), i, order[1..],
                queues[j := Play(queues[j], Get(s.leaving, (i, j))).0]);
    }
  }

  lemma LeavesNext(s: State, t: State, i: nat, order: seq<nat>, queues: map<nat, Snap>, c: Snap)
    requires Leaves(s, i, order, queues) && order != [] && t.leaving == s.leaving - {(i, order[0])}
    ensures (i, order[0]) in s.leaving && order[0] in queues && Leaves(t, i, order[1..], queues[order[0] := c])
  {
    assert order == [order[0]] + order[1..] && order[0] in order;
  }

  /** Where a map is the same without `j`, it is the same elsewhere. */
  lemma SameWithout<V>(m: map<nat, seq<V>>, m': map<nat, seq<V>>, j: nat, k: nat)
    requires m - {j} == m' - {j} && k != j
    ensures Get(m, k) == Get(m', k)
  {
    assert k in m - {j} <==> k in m;
    assert k in m' - {j} <==> k in m';
    if k in m {
      assert (m - {j})[k] == (m' - {j})[k];
    }
  }

  lemma OthersAgree(queues: map<nat, Snap>, r: State, s: State, i: nat, j: nat, c: Snap, rest: seq<Message>)
    requires QueuesAgree(queues, s) && FlushedOne(r, s, i, j, c, rest)
    ensures QueuesAgree(queues[j := c], r)
  {
    var queues' := queues[j := c];
    forall k ensures QueueAt(queues', r, k) {
      assert QueueAt(queues, s, k);
      if k != j {
        SameWithout(r.queue, s.queue, j, k);
        SameWithout(r.inbox, s.inbox, j, k);
      }
    }
  }

  /** The flush of one shard more. */
  lemma FlushedMore(r: State, t: State, s: State, i: nat, j: nat, queues: map<nat, Snap>, k: nat)
    requires (i, j) in s.leaving && j in queues
    requires var (c, rest) := Play(queues[j], s.leaving[(i, j)]);
             FlushedOne(t, s, i, j, c, rest) && FlushedAt(r, t, i, queues[j := c], k)
    ensures FlushedAt(r, s, i, queues, k)
  {
    var c := Play(queues[j], s.leaving[(i, j)]).0;
    assert QueueAt(queues[j := c], r, k) ==> k == j || QueueAt(queues, r, k);
    if k != j {
      SameWithout(t.inbox, s.inbox, j, k);
    }
  }

  /** The loop of `flush_to_shards`, in whatever order. */
  lemma {:induction false} FlushLoopIsSteps(s: State, i: nat, order: seq<nat>, queues: map<nat, Snap>)
    requires Leaves(s, i, order, queues) && QueuesAgree(queues, s)
    ensures var r := Perform(s, FlushActions(s, i, order, queues));
            && r.Some? && SameRest(r.value, s) && (forall j :: (i, j) !in r.value.leaving)
            && (forall j :: FlushedAt(r.value, s, i, queues, j))
    decreases |order|
  {
    if order == [] {
      forall j ensures FlushedAt(s, s, i, queues, j) {
        assert QueueAt(queues, s, j);
      }
    } else {
      var j := order[0];
      assert j in order;
      var msgs := s.leaving[(i, j)];
      var (c, rest) := Play(queues[j], msgs);
      assert QueueAt(queues, s, j);
      FlushOneIsSteps(queues[j], s, i, j, msgs);
      var t := Perform(s, FlushOneActions(queues[j], msgs, i, j)).value;
      LeavesNext(s, t, i, order, queues, c);
      OthersAgree(queues, t, s, i, j, c, rest);
      FlushLoopIsSteps(t, i, order[1..], queues[j := c]);
      SameFlush(s.(leaving := s.leaving - {(i, j)}), t, i, order[1..], queues[j := c]);
      PerformAppend(s, FlushOneActions(queues[j], msgs, i, j), FlushActions(t, i, order[1..], queues[j := c]));
      var r := Perform(t, FlushActions(t, i, order[1..], queues[j := c])).value;
      forall k ensures FlushedAt(r, s, i, queues, k) {
        FlushedMore(r, t, s, i, j, queues, k);
      }
    }
  }

  lemma BeginFields(s: State, i: nat)
    requires Enabled(s, FlushBegin(i))
    ensures var t := Step(s, FlushBegin(i));
            && t.leaving == s.leaving + OwnLogs(s.backLog, i) && t.backLog == OtherLogs(s.backLog, i)
            && t.flushing == s.flushing + {i} && t.queue == s.queue && t.inbox == s.inbox
            && t.capacity == s.capacity && t.closed == s.closed && t.acks == s.acks && t.stamps == s.stamps
            && t.panicked == s.panicked && t.seqno == s.seqno && t.handled == s.handled
  {
  }

  /** What was in the back-logs of `i` is about to leave. */
  lemma BeginLogs(s: State, t: State, i: nat, j: nat)
    requires (i, j) !in s.leaving
    requires t.leaving == s.leaving + OwnLogs(s.backLog, i) && t.backLog == OtherLogs(s.backLog, i)
    ensures ((i, j) in t.leaving <==> (i, j) in s.backLog) && (i, j) !in t.backLog
    ensures (i, j) in s.backLog ==> t.leaving[(i, j)] == s.backLog[(i, j)]
  {
  }

  /** The shard that flushes does not receive meanwhile. */
  lemma BeginAgrees(queues: map<nat, Snap>, s: State, t: State, i: nat)
    requires QueuesAgree(queues, s) && (i in queues ==> queues[i].turns == [])
    requires t.queue == s.queue && t.inbox == s.inbox && t.handled == s.handled && t.capacity == s.capacity
    requires t.closed == s.closed && t.panicked == s.panicked && t.flushing == s.flushing + {i}
    ensures QueuesAgree(queues, t)
  {
    forall j ensures QueueAt(queues, t, j) {
      assert QueueAt(queues, s, j);
    }
  }

  lemma EndFields(s: State, i: nat)
    requires Enabled(s, FlushEnd(i))
    ensures var r := Step(s, FlushEnd(i));
            && r.flushing == s.flushing - {i} && r.backLog == s.backLog && r.leaving == s.leaving
            && r.queue == s.queue && r.inbox == s.inbox && r.handled == s.handled && r.capacity == s.capacity
            && r.closed == s.closed && r.panicked == s.panicked && r.stamps == s.stamps && r.seqno == s.seqno
  {
  }

  lemma EndEnabled(s: State, i: nat)
    requires i in s.flushing && forall j :: (i, j) !in s.leaving
    ensures Enabled(s, FlushEnd(i))
  {
    forall k | k in s.leaving ensures k.0 != i {
      assert k == (k.0, k.1);
    }
  }

  function FlushAllActions(s: State, i: nat, order: seq<nat>, queues: map<nat, Snap>): seq<Action>
    requires Enabled(s, FlushBegin(i)) && forall j :: j in order ==> j in queues
  {
    [FlushBegin(i)] + (FlushActions(Step(s, FlushBegin(i)), i, order, queues) + [FlushEnd(i)])
  }

  /** All of `flush_to_shards`, on the state of all shards: it begins as `t`, and ends after `u`. */
  lemma FlushPerforms(s: State, i: nat, order: seq<nat>, queues: map<nat, Snap>) returns (t: State, u: State)
    requires Idle(s, i) && QueuesAgree(queues, s) && (i in queues ==> queues[i].turns == [])
    requires Leaves(Step(s, FlushBegin(i)), i, order, queues)
    ensures t == Step(s, FlushBegin(i)) && SameRest(u, t) && (forall j :: (i, j) !in u.leaving)
    ensures Enabled(u, FlushEnd(i)) && Perform(s, FlushAllActions(s, i, order, queues)) == Some(Step(u, FlushEnd(i)))
    ensures forall j :: FlushedAt(u, t, i, queues, j)
  {
    t := Step(s, FlushBegin(i));
    BeginFields(s, i);
    BeginAgrees(queues, s, t, i);
    var loop := FlushActions(t, i, order, queues);
    FlushLoopIsSteps(t, i, order, queues);
    u := Perform(t, loop).value;
    EndEnabled(u, i);
    PerformNext(t, loop, FlushEnd(i));
    assert ([FlushBegin(i)] + (loop + [FlushEnd(i)]))[1..] == loop + [FlushEnd(i)];
  }

  /** At one shard: what the methods leave is what the steps leave. */
  lemma FlushAgrees(b: Books, b': Books, s: State, t: State, u: State, r: State, i: nat, j: nat,
                    queues: map<nat, Snap>, queues': map<nat, Snap>)
    requires LogAt(b.backLog, s, i, j) && (i, j) !in s.leaving && FlushedAt(u, t, i, queues, j)
    requires Shards.FlushedAll(queues', b'.backLog, queues, b.backLog, b.backLog.Keys)
    requires t.leaving == s.leaving + OwnLogs(s.backLog, i) && t.backLog == OtherLogs(s.backLog, i)
    requires r.backLog == u.backLog && r.queue == u.queue && r.inbox == u.inbox && r.handled == u.handled
    requires r.capacity == u.capacity && r.closed == u.closed && r.panicked == u.panicked && r.flushing <= u.flushing
    ensures LogAt(b'.backLog, r, i, j) && QueueAt(queues', r, j)
  {
    BeginLogs(s, t, i, j);
    if j in b.backLog {
      assert j in queues;
    }
  }

  /** Its own channel did not move, so the shard has received nothing. */
  lemma StillIdle(u: State, t: State, i: nat, queues: map<nat, Snap>)
    requires FlushedAt(u, t, i, queues, i) && Get(t.inbox, i) == [] && u.handled == t.handled
    requires i in queues ==> queues[i].turns == [] && SnapAgrees(queues[i], t, i)
    ensures Get(u.inbox, i) == []
  {
    if (i, i) in t.leaving && i in queues {
      PlayFlushes(queues[i], t.leaving[(i, i)]);
      var c := Play(queues[i], t.leaving[(i, i)]).0;
      assert |c.received| == |queues[i].received|;
    }
  }

  /**
   `flush_to_shards` is a flush of the transition system, with receives of the other shards in between, in
   whatever order it takes the shards and whatever they receive meanwhile.
   */
  lemma FlushIsSteps(b: Books, b': Books, s: State, i: nat, order: seq<nat>,
                     queues: map<nat, Snap>, queues': map<nat, Snap>)
    requires Agrees(b, s, i) && Idle(s, i) && QueuesAgree(queues, s) && (i in queues ==> queues[i].turns == [])
    requires (forall j :: (i, j) !in s.leaving) && Leaves(Step(s, FlushBegin(i)), i, order, queues)
    requires Shards.FlushedAll(queues', b'.backLog, queues, b.backLog, b.backLog.Keys)
    requires b'.seqno == b.seqno && b'.timestamp == b.timestamp
    ensures var r := Perform(s, FlushAllActions(s, i, order, queues));
            r.Some? && Agrees(b', r.value, i) && Idle(r.value, i) && QueuesAgree(queues', r.value)
  {
    var t, u := FlushPerforms(s, i, order, queues);
    var r := Step(u, FlushEnd(i));
    BeginFields(s, i);
    EndFields(u, i);
    BeginAgrees(queues, s, t, i);
    assert FlushedAt(u, t, i, queues, i) && QueueAt(queues, t, i);
    StillIdle(u, t, i, queues);
    forall j ensures LogAt(b'.backLog, r, i, j) && QueueAt(queues', r, j) {
      assert LogAt(b.backLog, s, i, j) && FlushedAt(u, t, i, queues, j);
      FlushAgrees(b, b', s, t, u, r, i, j, queues, queues');
    }
    forall j ensures StampAt(b'.timestamp, r, i, j) {
      assert StampAt(b.timestamp, s, i, j);
    }
  }

  // -------------------------------------------------------------------- what is acknowledged

  /** In every run a batch with an acknowledgement panics exactly as follows. */
  lemma BatchAcks(capacity: nat, actions: seq<Action>, j: nat, m: Message)
    requires Run(capacity, actions).Some? && m in Untag(Get(Run(capacity, actions).value.inbox, j))
    ensures !m.ClientAck? && (m.LocalAck? ==> m.shardId == j)
  {
    var inbox := Get(Run(capacity, actions).value.inbox, j);
    var k :| 0 <= k < |inbox| && Untag(inbox)[k] == m;
    ReceivedAckNamesReceiver(capacity, actions, j, k);
  }

  /**
   In every run, a batch that shard `j` has received leaves the entries of all other shards as they are. Looking
   at it panics exactly if an acknowledgement is among it, and `j` has not routed a packet to itself that is to
   be acknowledged.
   */
  lemma AcksBookOwnEntry(capacity: nat, actions: seq<Action>, j: nat, t: Shards.Stamps)
    requires Run(capacity, actions).Some? && StampsAgree(t, Run(capacity, actions).value, j)
    ensures var msgs := Untag(Get(Run(capacity, actions).value.inbox, j));
            && (forall i :: i in t && i != j ==> i in Shards.BookAll(t, msgs) && Shards.BookAll(t, msgs)[i] == t[i])
            && ((exists m :: m in msgs && Shards.Unbookable(t, m)) <==>
                (exists m :: m in msgs && m.LocalAck?) && !HasRouted(actions, j, j))
  {
    var msgs := Untag(Get(Run(capacity, actions).value.inbox, j));
    forall m | m in msgs ensures !m.ClientAck? && (m.LocalAck? ==> m.shardId == j) {
      BatchAcks(capacity, actions, j, m);
    }
    RunEntries(capacity, actions, j, j);
    assert StampAt(t, Run(capacity, actions).value, j, j);
    forall i | i in t && i != j ensures i in Shards.BookAll(t, msgs) && Shards.BookAll(t, msgs)[i] == t[i] {
      Shards.BookAllAt(t, msgs, i);
      Shards.NoAckOfOthers(msgs, j, i, t[i].1);
    }
  }
}
