/** A run of two shards in which the first panics on the acknowledgement of its packet. */
module AckRun {
  import opened Basics
  import opened Subscriptions
  import opened Messages
  import opened Routing
  import opened ShardSteps

  lemma Two(s: State, a: Action, b: Action)
    requires Enabled(s, a) && Enabled(Step(s, a), b)
    ensures Perform(s, [a, b]) == Some(Step(Step(s, a), b))
  {
    assert [a][1..] == [] && [a] + [b] == [a, b];
    PerformNext(s, [a], b);
  }

  // ------------------------------------------------------------------------ one message flushed

  /** One message is in the back-logs of `i`, and nothing is about to leave. */
  ghost predicate Sole(s: State, i: nat, j: nat, m: Message) {
    && s.leaving == map[] && (i, j) in s.backLog && s.backLog[(i, j)] == [m]
    && (forall k :: k in s.backLog && k.0 == i ==> k == (i, j))
    && j !in s.closed && |Get(s.queue, j)| < s.capacity
  }

  /** The actions that flush it. */
  function FlushSole(i: nat, j: nat): seq<Action> {
    [FlushBegin(i), FlushSend(i, j)] + [FlushStop(i, j), FlushEnd(i)]
  }

  lemma SoleLogs(s: State, i: nat, j: nat, m: Message)
    requires Sole(s, i, j, m)
    ensures s.leaving + OwnLogs(s.backLog, i) == map[(i, j) := [m]]
    ensures OtherLogs(s.backLog, i)[(i, j) := []] == s.backLog[(i, j) := []]
  {
  }

  ghost predicate SameBooks(s': State, s: State) {
    && s'.inbox == s.inbox && s'.acks == s.acks && s'.stamps == s.stamps && s'.panicked == s.panicked
    && s'.closed == s.closed && s'.capacity == s.capacity
  }

  /** What it comes to. */
  ghost predicate SoleFlushed(r: State, s: State, i: nat, j: nat, m: Message) {
    && r.leaving == map[] && r.backLog == s.backLog[(i, j) := []] && r.flushing == s.flushing
    && r.queue == s.queue[j := Get(s.queue, j) + [Tagged(i, m)]] && SameBooks(r, s)
  }

  lemma SoleBegun(s: State, i: nat, j: nat, m: Message)
    requires Idle(s, i) && Sole(s, i, j, m)
    ensures Enabled(s, FlushBegin(i)) && Enabled(Step(s, FlushBegin(i)), FlushSend(i, j))
    ensures var u := Step(s, FlushBegin(i));
            && u.leaving == map[(i, j) := [m]] && u.backLog == OtherLogs(s.backLog, i)
            && u.flushing == s.flushing + {i} && u.queue == s.queue && SameBooks(u, s)
  {
    SoleLogs(s, i, j, m);
    BeginFields(s, i);
    assert Step(s, FlushBegin(i)).leaving[(i, j)] == [m];
  }

  lemma SoleTaken(u: State, i: nat, j: nat, m: Message)
    requires u.leaving == map[(i, j) := [m]] && Enabled(u, FlushSend(i, j))
    ensures var t := Step(u, FlushSend(i, j));
            && t.leaving == map[(i, j) := []] && t.backLog == u.backLog && t.flushing == u.flushing
            && t.queue == u.queue[j := Get(u.queue, j) + [Tagged(i, m)]] && SameBooks(t, u)
  {
    SendFlushFields(u, i, j);
    assert [m][1..] == [];
  }

  lemma SoleSent(s: State, i: nat, j: nat, m: Message) returns (t: State)
    requires Idle(s, i) && Sole(s, i, j, m)
    ensures Perform(s, [FlushBegin(i), FlushSend(i, j)]) == Some(t) && SameBooks(t, s)
    ensures t.leaving == map[(i, j) := []] && t.backLog == OtherLogs(s.backLog, i) && t.flushing == s.flushing + {i}
    ensures t.queue == s.queue[j := Get(s.queue, j) + [Tagged(i, m)]]
  {
    SoleBegun(s, i, j, m);
    var u := Step(s, FlushBegin(i));
    SoleTaken(u, i, j, m);
    t := Step(u, FlushSend(i, j));
    Two(s, FlushBegin(i), FlushSend(i, j));
  }

  lemma SoleStopped(t: State, i: nat, j: nat) returns (r: State)
    requires t.leaving == map[(i, j) := []] && i in t.flushing
    ensures Perform(t, [FlushStop(i, j), FlushEnd(i)]) == Some(r) && SameBooks(r, t)
    ensures r.leaving == map[] && r.backLog == t.backLog[(i, j) := []] && r.flushing == t.flushing - {i}
    ensures r.queue == t.queue
  {
    StopFields(t, i, j);
    var u := Step(t, FlushStop(i, j));
    assert u.leaving == map[];
    EndFields(u, i);
    EndAcks(u, i);
    r := Step(u, FlushEnd(i));
    Two(t, FlushStop(i, j), FlushEnd(i));
  }

  lemma EndAcks(s: State, i: nat)
    requires Enabled(s, FlushEnd(i))
    ensures Step(s, FlushEnd(i)).acks == s.acks
  {
  }

  lemma SoleFlushes(s: State, i: nat, j: nat, m: Message) returns (r: State)
    requires Idle(s, i) && Sole(s, i, j, m)
    ensures Perform(s, FlushSole(i, j)) == Some(r) && SoleFlushed(r, s, i, j, m)
  {
    var t := SoleSent(s, i, j, m);
    r := SoleStopped(t, i, j);
    SoleLogs(s, i, j, m);
    PerformAppend(s, [FlushBegin(i), FlushSend(i, j)], [FlushStop(i, j), FlushEnd(i)]);
    assert s.flushing + {i} - {i} == s.flushing;
  }

  // ----------------------------------------------------------------------------------- the run

  /** Shard 1 routes a packet that is to be acknowledged to shard 2. */
  lemma Routed(a: Action) returns (r: State)
    requires a.Route? && a.i == 1 && a.j == 2 && a.acked
    ensures Perform(Initial(8), [a]) == Some(r) && Idle(r, 1)
    ensures Sole(r, 1, 2, Packet(a.clientId, 1, 1, a.subscriptions, a.publish))
    ensures r.backLog.Keys == {(1, 2)} && r.flushing == {} && r.queue == map[] && r.inbox == map[] && r.acks == map[]
    ensures r.stamps.Keys == {(1, 2)} && r.panicked == {} && r.closed == {} && r.capacity == 8
  {
    var s := Initial(8);
    r := Step(s, a);
    RouteLogs(s, a);
    assert [a][1..] == [];
  }

  /** Shard 2 receives the packet and looks at it. */
  lemma Looked(s: State, m: Message) returns (u: State)
    requires Idle(s, 2) && 2 !in s.closed && Get(s.queue, 2) == [Tagged(1, m)] && m.Packet? && m.shardId == m.seqno == 1
    requires s.acks == map[]
    ensures Perform(s, [Receive(2), Handle(2)]) == Some(u) && Idle(u, 2) && u.acks == map[(2, 1) := 1]
    ensures u.queue == s.queue[2 := []] && u.inbox == s.inbox[2 := []]
    ensures u.backLog == s.backLog && u.leaving == s.leaving
    ensures u.stamps == s.stamps && u.flushing == s.flushing && u.panicked == s.panicked
    ensures u.closed == s.closed && u.capacity == s.capacity
  {
    ReceiveFields(s, 2);
    var t := Step(s, Receive(2));
    assert Get(t.inbox, 2) == [Tagged(1, m)] && [Tagged(1, m)][1..] == [];
    HandleBooks(t, 2);
    u := Step(t, Handle(2));
    Two(s, Receive(2), Handle(2));
  }

  /** And acknowledges it. */
  lemma Acknowledged(s: State, m: Message) returns (r: State)
    requires Idle(s, 2) && 2 !in s.closed && Get(s.queue, 2) == [Tagged(1, m)] && m.Packet? && m.shardId == m.seqno == 1
    requires s.acks == map[] && s.backLog == map[(1, 2) := []]
    ensures Perform(s, [Receive(2), Handle(2)] + [Acknowledge(2, 1)]) == Some(r) && Idle(r, 2)
    ensures r.backLog == map[(1, 2) := [], (2, 1) := [LocalAck(1, 1)]]
    ensures r.queue == s.queue[2 := []] && r.inbox == s.inbox[2 := []] && r.leaving == s.leaving
    ensures r.stamps == s.stamps && r.flushing == s.flushing && r.panicked == s.panicked
    ensures r.closed == s.closed && r.capacity == s.capacity
  {
    var u := Looked(s, m);
    AckLogs(u, 2, 1);
    AckRest(u, 2, 1);
    r := Step(u, Acknowledge(2, 1));
    PerformNext(s, [Receive(2), Handle(2)], Acknowledge(2, 1));
    assert [] + [LocalAck(1, 1)] == [LocalAck(1, 1)];
    assert r.backLog == u.backLog[(2, 1) := [LocalAck(1, 1)]];
  }

  lemma AckRest(s: State, j: nat, i: nat)
    requires Enabled(s, Acknowledge(j, i))
    ensures var r := Step(s, Acknowledge(j, i));
            && r.queue == s.queue && r.leaving == s.leaving && r.inbox == s.inbox && r.flushing == s.flushing
            && r.panicked == s.panicked && r.closed == s.closed && r.capacity == s.capacity
  {
  }

  /** Shard 1 receives the acknowledgement, and panics. */
  lemma Panicked(s: State) returns (r: State)
    requires Idle(s, 1) && 1 !in s.closed && Get(s.queue, 1) == [Tagged(2, LocalAck(1, 1))] && (1, 1) !in s.stamps
    ensures Perform(s, [Receive(1), Handle(1)]) == Some(r) && 1 in r.panicked
  {
    ReceiveFields(s, 1);
    var t := Step(s, Receive(1));
    assert Get(t.inbox, 1) == [Tagged(2, LocalAck(1, 1))];
    HandlePanics(t, 1);
    r := Step(t, Handle(1));
    Two(s, Receive(1), Handle(1));
  }

  function There(c: Bytes, subs: seq<Subscription>, publ: Publish): seq<Action> {
    [Route(1, 2, c, subs, publ, true)] + FlushSole(1, 2)
  }

  function Back(): seq<Action> {
    [Receive(2), Handle(2)] + [Acknowledge(2, 1)] + FlushSole(2, 1)
  }

  lemma GoesThere(c: Bytes, subs: seq<Subscription>, publ: Publish) returns (r: State)
    ensures Run(8, There(c, subs, publ)) == Some(r) && Idle(r, 1) && Idle(r, 2)
    ensures r.queue == map[2 := [Tagged(1, Packet(c, 1, 1, subs, publ))]] && r.backLog == map[(1, 2) := []]
    ensures r.leaving == map[] && r.inbox == map[] && r.acks == map[] && r.stamps.Keys == {(1, 2)}
    ensures r.flushing == {} && r.panicked == {} && r.closed == {} && r.capacity == 8
  {
    var a, m := Route(1, 2, c, subs, publ, true), Packet(c, 1, 1, subs, publ);
    var s := Routed(a);
    r := SoleFlushes(s, 1, 2, m);
    assert r.backLog == map[(1, 2) := []];
    assert [] + [Tagged(1, m)] == [Tagged(1, m)];
    RunGoesOn(8, [a], FlushSole(1, 2));
  }

  lemma ComesBack(s: State, m: Message) returns (r: State)
    requires Idle(s, 2) && s.queue == map[2 := [Tagged(1, m)]] && m.Packet? && m.shardId == m.seqno == 1
    requires s.backLog == map[(1, 2) := []] && s.leaving == map[] && s.inbox == map[] && s.acks == map[]
    requires s.flushing == {} && s.panicked == {} && s.closed == {} && s.capacity == 8
    ensures Perform(s, Back()) == Some(r) && Idle(r, 1) && r.closed == {} && r.stamps == s.stamps
    ensures Get(r.queue, 1) == [Tagged(2, LocalAck(1, 1))]
  {
    var t := Acknowledged(s, m);
    r := SoleFlushes(t, 2, 1, LocalAck(1, 1));
    PerformAppend(s, [Receive(2), Handle(2)] + [Acknowledge(2, 1)], FlushSole(2, 1));
    assert [] + [Tagged(2, LocalAck(1, 1))] == [Tagged(2, LocalAck(1, 1))];
  }

  /** One packet from shard 1 to shard 2, and its acknowledgement back: shard 1 panics. */
  lemma AckPanics(c: Bytes, subs: seq<Subscription>, publ: Publish)
    ensures var r := Run(8, There(c, subs, publ) + Back() + [Receive(1), Handle(1)]); r.Some? && 1 in r.value.panicked
  {
    var s := GoesThere(c, subs, publ);
    var t := ComesBack(s, Packet(c, 1, 1, subs, publ));
    var r := Panicked(t);
    RunGoesOn(8, There(c, subs, publ), Back());
    RunGoesOn(8, There(c, subs, publ) + Back(), [Receive(1), Handle(1)]);
  }
}
