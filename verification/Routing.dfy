/**
 Shards of one node routing messages to each other: back-logs, flushing into bounded queues, batch
 receiving and acknowledging, with one step for every send and every receive on a queue.
 */
module Routing {
  import opened Basics
  import opened Subscriptions
  import opened Messages

  /** A message in a queue, with the shard that sent it. */
  datatype Tagged = Tagged(sender: nat, message: Message)

  /**
   All shards and their queues. Keys `(i, j)` are of what shard `i` has for shard `j`.

   While a shard flushes, its back-log is in a local variable, `leaving`; what it has received and not
   yet looked at is in another, `inbox`. `stamps` are the entries of `cinp.timestamp`: the last number routed
   to the shard, and the last acknowledged. A shard that has panicked takes no more steps. The last three
   fields record what happened.
   */
  datatype State = State(
    capacity: nat,
    backLog: map<(nat, nat), seq<Message>>,
    leaving: map<(nat, nat), seq<Message>>,
    flushing: set<nat>,
    queue: map<nat, seq<Tagged>>,
    closed: set<nat>,
    inbox: map<nat, seq<Tagged>>,
    acks: map<(nat, nat), nat>,
    stamps: map<(nat, nat), (nat, nat)>,
    panicked: set<nat>,
    seqno: map<nat, nat>,
    appended: map<(nat, nat), seq<Message>>,
    handled: map<nat, seq<Tagged>>,
    routes: map<nat, nat>)

  function Initial(capacity: nat): State {
    State(capacity, map[], map[], {}, map[], {}, map[], map[], map[], {}, map[], map[], map[], map[])
  }

  /** `acked` says whether the packet is to be acknowledged. */
  datatype Action =
    | Route(i: nat, j: nat, clientId: Bytes, subscriptions: seq<Subscription>, publish: Publish, acked: bool)
    | FlushBegin(i: nat)
    | FlushSend(i: nat, j: nat)
    | FlushStop(i: nat, j: nat)
    | FlushEnd(i: nat)
    | Receive(j: nat)
    | Handle(j: nat)
    | Acknowledge(j: nat, i: nat)
    | Close(j: nat)

  function NextSeqno(s: State, i: nat): nat {
    if i in s.seqno then s.seqno[i] else 1
  }

  function Routes(s: State, i: nat): nat {
    if i in s.routes then s.routes[i] else 0
  }

  /** Neither flushing nor with received messages to look at. */
  predicate Idle(s: State, i: nat) {
    i !in s.flushing && i !in s.panicked && Get(s.inbox, i) == []
  }

  predicate Enabled(s: State, a: Action) {
    match a
    case Route(i, _, _, _, _, _) => Idle(s, i)
    case FlushBegin(i) => Idle(s, i)
    case FlushSend(i, j) =>
      (i, j) in s.leaving && s.leaving[(i, j)] != [] && j !in s.closed && |Get(s.queue, j)| < s.capacity
    case FlushStop(i, j) =>
      && (i, j) in s.leaving
      && (s.leaving[(i, j)] == [] || j in s.closed || |Get(s.queue, j)| >= s.capacity)
    case FlushEnd(i) => i in s.flushing && forall k :: k in s.leaving ==> k.0 != i
    case Receive(j) => j !in s.flushing && j !in s.panicked && j !in s.closed && Get(s.queue, j) != []
    case Handle(j) => j !in s.panicked && Get(s.inbox, j) != []
    case Acknowledge(j, i) => Idle(s, j) && (j, i) in s.acks
    case Close(_) => true
  }

  /** Pushes to a back-log, and records it. */
  function Push(s: State, i: nat, j: nat, m: Message): State {
    s.(backLog := s.backLog[(i, j) := Get(s.backLog, (i, j)) + [m]],
       appended := s.appended[(i, j) := Get(s.appended, (i, j)) + [m]])
  }

  /** The ack time-stamps after a message was looked at. */
  function Stamped(acks: map<(nat, nat), nat>, j: nat, m: Message): map<(nat, nat), nat> {
    if m.Packet? then acks[(j, m.shardId) := m.seqno] else acks
  }

  /** The entry after a packet to be acknowledged. */
  function Entered(stamps: map<(nat, nat), (nat, nat)>, k: (nat, nat), n: nat): map<(nat, nat), (nat, nat)> {
    stamps[k := (n, if k in stamps then stamps[k].1 else 0)]
  }

  /** A message that `in_messages` has no case, or no entry, for. */
  predicate Unbookable(s: State, j: nat, m: Message) {
    m.ClientAck? || (m.LocalAck? && (j, m.shardId) !in s.stamps)
  }

  /** The entries after a message was looked at. */
  function Acked(stamps: map<(nat, nat), (nat, nat)>, j: nat, m: Message): map<(nat, nat), (nat, nat)> {
    if m.LocalAck? && (j, m.shardId) in stamps then
      stamps[(j, m.shardId) := (stamps[(j, m.shardId)].0, m.lastReceivedAck)]
    else stamps
  }

  function OwnLogs(logs: map<(nat, nat), seq<Message>>, i: nat): map<(nat, nat), seq<Message>> {
    map k | k in logs && k.0 == i :: logs[k]
  }

  function OtherLogs(logs: map<(nat, nat), seq<Message>>, i: nat): map<(nat, nat), seq<Message>> {
    map k | k in logs && k.0 != i :: logs[k]
  }

  function Step(s: State, a: Action): State
    requires Enabled(s, a)
  {
    match a
    case Route(i, j, c, subs, publ, acked) =>
      var n := NextSeqno(s, i);
      Push(s, i, j, Packet(c, i, n, subs, publ))
        .(seqno := s.seqno[i := SaturatingIncr(n)], routes := s.routes[i := Routes(s, i) + 1],
          stamps := if acked then Entered(s.stamps, (i, j), n) else s.stamps)
    case FlushBegin(i) =>
      s.(leaving := s.leaving + OwnLogs(s.backLog, i), backLog := OtherLogs(s.backLog, i),
         flushing := s.flushing + {i})
    case FlushSend(i, j) =>
      var ms := s.leaving[(i, j)];
      s.(leaving := s.leaving[(i, j) := ms[1..]], queue := s.queue[j := Get(s.queue, j) + [Tagged(i, ms[0])]])
    case FlushStop(i, j) =>
      s.(backLog := s.backLog[(i, j) := s.leaving[(i, j)]], leaving := s.leaving - {(i, j)})
    case FlushEnd(i) => s.(flushing := s.flushing - {i})
    case Receive(j) =>
      var q := Get(s.queue, j);
      s.(queue := s.queue[j := q[1..]], inbox := s.inbox[j := Get(s.inbox, j) + [q[0]]])
    case Handle(j) =>
      var b := Get(s.inbox, j);
      if Unbookable(s, j, b[0].message) then s.(panicked := s.panicked + {j})
      else s.(inbox := s.inbox[j := b[1..]], handled := s.handled[j := Get(s.handled, j) + [b[0]]],
              acks := Stamped(s.acks, j, b[0].message), stamps := Acked(s.stamps, j, b[0].message))
    case Acknowledge(j, i) =>
      Push(s, j, i, LocalAck(i, s.acks[(j, i)])).(acks := s.acks - {(j, i)})
    case Close(j) => s.(closed := s.closed + {j})
  }

  /** A step that is neither of these leaves the books alone. */
  ghost predicate SameRecords(s': State, s: State) {
    && s'.seqno == s.seqno && s'.routes == s.routes && s'.appended == s.appended && s'.stamps == s.stamps
    && s'.acks == s.acks && s'.handled == s.handled && s'.panicked == s.panicked
  }

  lemma OtherSteps(s: State, a: Action)
    requires Enabled(s, a) && !a.Route? && !a.Acknowledge? && !a.Handle?
    ensures SameRecords(Step(s, a), s)
  {
    match a {
      case FlushBegin(_) =>
      case FlushSend(_, _) =>
      case FlushStop(_, _) =>
      case FlushEnd(_) =>
      case Receive(_) =>
      case Close(_) =>
    }
  }

  /** What routing does to the books. */
  ghost predicate RouteEffect(s': State, s: State, a: Action)
    requires a.Route?
  {
    var k, n := (a.i, a.j), NextSeqno(s, a.i);
    && s'.seqno == s.seqno[a.i := SaturatingIncr(n)] && s'.routes == s.routes[a.i := Routes(s, a.i) + 1]
    && s'.appended == s.appended[k := Get(s.appended, k) + [Packet(a.clientId, a.i, n, a.subscriptions, a.publish)]]
    && s'.stamps == (if a.acked then Entered(s.stamps, k, n) else s.stamps)
    && s'.acks == s.acks && s'.handled == s.handled && s'.panicked == s.panicked
  }

  lemma RouteFields(s: State, a: Action)
    requires a.Route? && Enabled(s, a)
    ensures RouteEffect(Step(s, a), s, a)
  {
  }

  ghost predicate AcknowledgeEffect(s': State, s: State, j: nat, i: nat)
    requires (j, i) in s.acks
  {
    && s'.appended == s.appended[(j, i) := Get(s.appended, (j, i)) + [LocalAck(i, s.acks[(j, i)])]]
    && s'.acks == s.acks - {(j, i)}
    && s'.seqno == s.seqno && s'.routes == s.routes && s'.stamps == s.stamps
    && s'.handled == s.handled && s'.panicked == s.panicked
  }

  lemma AcknowledgeFields(s: State, j: nat, i: nat)
    requires Enabled(s, Acknowledge(j, i))
    ensures AcknowledgeEffect(Step(s, Acknowledge(j, i)), s, j, i)
  {
  }

  /** Looking at messages changes nothing that is sent. */
  ghost predicate SameSending(s': State, s: State) {
    && s'.seqno == s.seqno && s'.routes == s.routes && s'.appended == s.appended
    && s'.backLog == s.backLog && s'.leaving == s.leaving && s'.flushing == s.flushing
    && s'.queue == s.queue && s'.closed == s.closed && s'.capacity == s.capacity
  }

  /** What looking at a message does, if it does not panic. */
  ghost predicate HandleEffect(s': State, s: State, j: nat)
    requires Get(s.inbox, j) != []
  {
    var b := Get(s.inbox, j);
    && SameSending(s', s) && s'.panicked == s.panicked
    && s'.inbox == s.inbox[j := b[1..]] && s'.handled == s.handled[j := Get(s.handled, j) + [b[0]]]
    && s'.acks == Stamped(s.acks, j, b[0].message) && s'.stamps == Acked(s.stamps, j, b[0].message)
  }

  /** The same, or the panic. */
  ghost predicate LookEffect(s': State, s: State, j: nat)
    requires Get(s.inbox, j) != []
  {
    if Unbookable(s, j, Get(s.inbox, j)[0].message) then
      && SameSending(s', s) && s'.inbox == s.inbox && s'.handled == s.handled
      && s'.acks == s.acks && s'.stamps == s.stamps && s'.panicked == s.panicked + {j}
    else HandleEffect(s', s, j)
  }

  lemma HandlePanics(s: State, j: nat)
    requires Enabled(s, Handle(j)) && Unbookable(s, j, Get(s.inbox, j)[0].message)
    ensures LookEffect(Step(s, Handle(j)), s, j)
  {
  }

  lemma HandleBooks(s: State, j: nat)
    requires Enabled(s, Handle(j)) && !Unbookable(s, j, Get(s.inbox, j)[0].message)
    ensures HandleEffect(Step(s, Handle(j)), s, j)
  {
  }

  lemma HandleFields(s: State, j: nat)
    requires Enabled(s, Handle(j))
    ensures LookEffect(Step(s, Handle(j)), s, j)
  {
    if Unbookable(s, j, Get(s.inbox, j)[0].message) {
      HandlePanics(s, j);
    } else {
      HandleBooks(s, j);
    }
  }

  /** What a step does to the books. */
  ghost predicate Effect(s': State, s: State, a: Action) {
    match a
    case Route(_, _, _, _, _, _) => RouteEffect(s', s, a)
    case Acknowledge(j, i) => (j, i) in s.acks && AcknowledgeEffect(s', s, j, i)
    case Handle(j) => Get(s.inbox, j) != [] && LookEffect(s', s, j)
    case _ => SameRecords(s', s)
  }

  lemma StepEffect(s: State, a: Action)
    requires Enabled(s, a)
    ensures Effect(Step(s, a), s, a)
  {
    match a {
      case Route(_, _, _, _, _, _) => RouteFields(s, a);
      case Acknowledge(j, i) => AcknowledgeFields(s, j, i);
      case Handle(j) => HandleFields(s, j);
      case _ => OtherSteps(s, a);
    }
  }

  /** The state after these actions, if every step is enabled. */
  function Perform(s: State, actions: seq<Action>): Option<State>
    decreases |actions|
  {
    if actions == [] then Some(s)
    else if Enabled(s, actions[0]) then Perform(Step(s, actions[0]), actions[1..])
    else None
  }

  lemma {:induction false} PerformAppend(s: State, a: seq<Action>, b: seq<Action>)
    ensures Perform(s, a + b) == if Perform(s, a).Some? then Perform(Perform(s, a).value, b) else None
    decreases |a|
  {
    if a == [] {
      assert a + b == b;
    } else {
      assert (a + b)[1..] == a[1..] + b;
      if Enabled(s, a[0]) {
        PerformAppend(Step(s, a[0]), a[1..], b);
      }
    }
  }

  lemma PerformNext(s: State, a: seq<Action>, act: Action)
    requires Perform(s, a).Some? && Enabled(Perform(s, a).value, act)
    ensures Perform(s, a + [act]) == Some(Step(Perform(s, a).value, act))
  {
    PerformAppend(s, a, [act]);
  }

  function Next(s: Option<State>, act: Action): Option<State> {
    if s.Some? && Enabled(s.value, act) then Some(Step(s.value, act)) else None
  }

  lemma PerformLast(s: State, a: seq<Action>, act: Action)
    ensures Perform(s, a + [act]) == Next(Perform(s, a), act)
  {
    PerformAppend(s, a, [act]);
  }

  /** The state after a run from the start. */
  function Run(capacity: nat, actions: seq<Action>): Option<State> {
    Perform(Initial(capacity), actions)
  }

  lemma RunLast(capacity: nat, actions: seq<Action>)
    requires actions != []
    ensures var n := |actions| - 1; Run(capacity, actions) == Next(Run(capacity, actions[..n]), actions[n])
  {
    var n := |actions| - 1;
    assert actions == actions[..n] + [actions[n]];
    PerformLast(Initial(capacity), actions[..n], actions[n]);
  }

  /** A run goes on with what can be performed. */
  lemma RunGoesOn(capacity: nat, a: seq<Action>, b: seq<Action>)
    requires Run(capacity, a).Some?
    ensures Run(capacity, a + b) == Perform(Run(capacity, a).value, b)
  {
    PerformAppend(Initial(capacity), a, b);
  }

  // ------------------------------------------------------------------------- conservation

  /** The messages of one sender, in order. */
  function From(i: nat, ts: seq<Tagged>): seq<Message> {
    if ts == [] then []
    else if ts[0].sender == i then [ts[0].message] + From(i, ts[1..])
    else From(i, ts[1..])
  }

  lemma {:induction false} FromAppend(i: nat, a: seq<Tagged>, b: seq<Tagged>)
    ensures From(i, a + b) == From(i, a) + From(i, b)
  {
    if a == [] {
      assert a + b == b;
    } else {
      assert (a + b)[1..] == a[1..] + b;
      FromAppend(i, a[1..], b);
    }
  }

  /** Handled, received, in the queue, about to leave, and in the back-log, one after the other. */
  function Total(h: seq<Message>, r: seq<Message>, q: seq<Message>, l: seq<Message>, b: seq<Message>): seq<Message> {
    h + (r + (q + (l + b)))
  }

  lemma TotalMoves(x: seq<Message>, h: seq<Message>, r: seq<Message>, q: seq<Message>, l: seq<Message>, b: seq<Message>)
    ensures Total(h, x + r, q, l, b) == Total(h + x, r, q, l, b)
    ensures Total(h, r, x + q, l, b) == Total(h, r + x, q, l, b)
    ensures Total(h, r, q, x + l, b) == Total(h, r, q + x, l, b)
    ensures Total(h, r, q, l, b) + x == Total(h, r, q, l, b + x)
  {
  }

  lemma TotalFlush(h: seq<Message>, r: seq<Message>, q: seq<Message>, x: seq<Message>)
    ensures Total(h, r, q, [], x) == Total(h, r, q, x, [])
  {
    assert [] + x == x == x + [];
  }

  /** Everything shard `i` has appended for shard `j`, by where it is now. */
  function Whereabouts(s: State, i: nat, j: nat): seq<Message> {
    Total(From(i, Get(s.handled, j)), From(i, Get(s.inbox, j)), From(i, Get(s.queue, j)),
          Get(s.leaving, (i, j)), Get(s.backLog, (i, j)))
  }

  ghost predicate Conserved(s: State, i: nat, j: nat) {
    && Get(s.appended, (i, j)) == Whereabouts(s, i, j)
    && ((i, j) in s.leaving ==> i in s.flushing && Get(s.backLog, (i, j)) == [])
  }

  /** Messages of one sender in a sequence whose first element moves to the end of another. */
  lemma FromMoves(i: nat, a: seq<Tagged>, b: seq<Tagged>) returns (x: seq<Message>)
    requires b != []
    ensures From(i, a + [b[0]]) == From(i, a) + x && From(i, b) == x + From(i, b[1..])
  {
    x := From(i, [b[0]]);
    FromAppend(i, a, [b[0]]);
    FromAppend(i, [b[0]], b[1..]);
    assert [b[0]] + b[1..] == b;
  }

  lemma PushConserves(s: State, i: nat, j: nat, m: Message, i': nat, j': nat)
    requires Conserved(s, i', j') && i !in s.flushing
    ensures Conserved(Push(s, i, j, m), i', j')
  {
    TotalMoves([m], From(i, Get(s.handled, j)), From(i, Get(s.inbox, j)), From(i, Get(s.queue, j)),
               Get(s.leaving, (i, j)), Get(s.backLog, (i, j)));
  }

  lemma FlushBeginConserves(s: State, i: nat, i': nat, j': nat)
    requires Conserved(s, i', j') && Enabled(s, FlushBegin(i))
    ensures Conserved(Step(s, FlushBegin(i)), i', j')
  {
    var s' := Step(s, FlushBegin(i));
    if i == i' {
      assert Get(s.leaving, (i', j')) == [] && Get(s'.backLog, (i', j')) == [];
      assert Get(s'.leaving, (i', j')) == Get(s.backLog, (i', j'));
      TotalFlush(From(i, Get(s.handled, j')), From(i, Get(s.inbox, j')), From(i, Get(s.queue, j')),
                 Get(s.backLog, (i, j')));
    } else {
      assert Get(s'.leaving, (i', j')) == Get(s.leaving, (i', j'));
      assert Get(s'.backLog, (i', j')) == Get(s.backLog, (i', j'));
    }
  }

  /** Nothing but the places of messages from `i` to `j` may differ. */
  ghost predicate SameBooks(s: State, s': State, i: nat, j: nat) {
    && Get(s'.appended, (i, j)) == Get(s.appended, (i, j)) && Get(s'.backLog, (i, j)) == Get(s.backLog, (i, j))
    && ((i, j) in s.leaving <==> (i, j) in s'.leaving) && s'.flushing == s.flushing
  }

  lemma SentConserves(s: State, s': State, i: nat, j: nat, x: seq<Message>)
    requires Conserved(s, i, j) && SameBooks(s, s', i, j)
    requires Get(s'.handled, j) == Get(s.handled, j) && Get(s'.inbox, j) == Get(s.inbox, j)
    requires From(i, Get(s'.queue, j)) == From(i, Get(s.queue, j)) + x
    requires Get(s.leaving, (i, j)) == x + Get(s'.leaving, (i, j))
    ensures Conserved(s', i, j)
  {
    TotalMoves(x, From(i, Get(s.handled, j)), From(i, Get(s.inbox, j)), From(i, Get(s.queue, j)),
               Get(s'.leaving, (i, j)), Get(s.backLog, (i, j)));
  }

  lemma ReceivedConserves(s: State, s': State, i: nat, j: nat, x: seq<Message>)
    requires Conserved(s, i, j) && SameBooks(s, s', i, j)
    requires Get(s'.handled, j) == Get(s.handled, j) && Get(s'.leaving, (i, j)) == Get(s.leaving, (i, j))
    requires From(i, Get(s'.inbox, j)) == From(i, Get(s.inbox, j)) + x
    requires From(i, Get(s.queue, j)) == x + From(i, Get(s'.queue, j))
    ensures Conserved(s', i, j)
  {
    TotalMoves(x, From(i, Get(s.handled, j)), From(i, Get(s.inbox, j)), From(i, Get(s'.queue, j)),
               Get(s.leaving, (i, j)), Get(s.backLog, (i, j)));
  }

  lemma HandledConserves(s: State, s': State, i: nat, j: nat, x: seq<Message>)
    requires Conserved(s, i, j) && SameBooks(s, s', i, j)
    requires Get(s'.queue, j) == Get(s.queue, j) && Get(s'.leaving, (i, j)) == Get(s.leaving, (i, j))
    requires From(i, Get(s'.handled, j)) == From(i, Get(s.handled, j)) + x
    requires From(i, Get(s.inbox, j)) == x + From(i, Get(s'.inbox, j))
    ensures Conserved(s', i, j)
  {
    TotalMoves(x, From(i, Get(s.handled, j)), From(i, Get(s'.inbox, j)), From(i, Get(s.queue, j)),
               Get(s.leaving, (i, j)), Get(s.backLog, (i, j)));
  }

  lemma FromPushed(i: nat, ts: seq<Tagged>, t: Tagged)
    ensures From(i, ts + [t]) == if t.sender == i then From(i, ts) + [t.message] else From(i, ts)
  {
    FromAppend(i, ts, [t]);
    assert From(i, ts) + [] == From(i, ts);
  }

  lemma SendFields(s: State, i: nat, j: nat)
    requires Enabled(s, FlushSend(i, j))
    ensures var s', ms := Step(s, FlushSend(i, j)), s.leaving[(i, j)];
            && s'.leaving == s.leaving[(i, j) := ms[1..]]
            && s'.queue == s.queue[j := Get(s.queue, j) + [Tagged(i, ms[0])]]
  {
  }

  lemma QueueMoves(q: seq<Tagged>, ms: seq<Message>, i: nat, i': nat)
    requires ms != []
    ensures From(i', q + [Tagged(i, ms[0])]) == From(i', q) + if i == i' then [ms[0]] else []
    ensures ms == [ms[0]] + ms[1..]
  {
    FromPushed(i', q, Tagged(i, ms[0]));
    assert From(i', q) + [] == From(i', q);
  }

  lemma FlushSendMoves(s: State, i: nat, j: nat, i': nat)
    requires Enabled(s, FlushSend(i, j))
    ensures var s', m := Step(s, FlushSend(i, j)), s.leaving[(i, j)][0];
            var x := if i == i' then [m] else [];
            && From(i', Get(s'.queue, j)) == From(i', Get(s.queue, j)) + x
            && Get(s.leaving, (i', j)) == x + Get(s'.leaving, (i', j))
  {
    SendFields(s, i, j);
    QueueMoves(Get(s.queue, j), s.leaving[(i, j)], i, i');
    assert i != i' ==> [] + Get(s.leaving, (i', j)) == Get(s.leaving, (i', j));
  }

  lemma FlushSendConserves(s: State, i: nat, j: nat, i': nat, j': nat)
    requires Conserved(s, i', j') && Enabled(s, FlushSend(i, j))
    ensures Conserved(Step(s, FlushSend(i, j)), i', j')
  {
    if j == j' {
      FlushSendMoves(s, i, j, i');
      SentConserves(s, Step(s, FlushSend(i, j)), i', j, if i == i' then [s.leaving[(i, j)][0]] else []);
    }
  }

  lemma FlushStopConserves(s: State, i: nat, j: nat, i': nat, j': nat)
    requires Conserved(s, i', j') && Enabled(s, FlushStop(i, j))
    ensures Conserved(Step(s, FlushStop(i, j)), i', j')
  {
    TotalFlush(From(i, Get(s.handled, j)), From(i, Get(s.inbox, j)), From(i, Get(s.queue, j)), Get(s.leaving, (i, j)));
  }

  lemma ReceiveConserves(s: State, j: nat, i': nat, j': nat)
    requires Conserved(s, i', j') && Enabled(s, Receive(j))
    ensures Conserved(Step(s, Receive(j)), i', j')
  {
    if j == j' {
      var x := FromMoves(i', Get(s.inbox, j), Get(s.queue, j));
      ReceivedConserves(s, Step(s, Receive(j)), i', j, x);
    }
  }

  lemma HandlingConserves(s: State, s': State, j: nat, i': nat, j': nat)
    requires Conserved(s, i', j') && Get(s.inbox, j) != [] && HandleEffect(s', s, j)
    ensures Conserved(s', i', j')
  {
    if j == j' {
      var x := FromMoves(i', Get(s.handled, j), Get(s.inbox, j));
      HandledConserves(s, s', i', j, x);
    }
  }

  lemma LookConserves(s: State, s': State, j: nat, i': nat, j': nat)
    requires Conserved(s, i', j') && Get(s.inbox, j) != [] && LookEffect(s', s, j)
    ensures Conserved(s', i', j')
  {
    if !Unbookable(s, j, Get(s.inbox, j)[0].message) {
      HandlingConserves(s, s', j, i', j');
    }
  }

  lemma HandleConserves(s: State, j: nat, i': nat, j': nat)
    requires Conserved(s, i', j') && Enabled(s, Handle(j))
    ensures Conserved(Step(s, Handle(j)), i', j')
  {
    HandleFields(s, j);
    LookConserves(s, Step(s, Handle(j)), j, i', j');
  }

  /** No step loses, duplicates or reorders a message from one shard to another. */
  lemma StepConserves(s: State, a: Action, i: nat, j: nat)
    requires Conserved(s, i, j) && Enabled(s, a)
    ensures Conserved(Step(s, a), i, j)
  {
    match a {
      case Route(i', j', c, subs, publ, _) =>
        PushConserves(s, i', j', Packet(c, i', NextSeqno(s, i'), subs, publ), i, j);
      case FlushBegin(i') => FlushBeginConserves(s, i', i, j);
      case FlushSend(i', j') => FlushSendConserves(s, i', j', i, j);
      case FlushStop(i', j') => FlushStopConserves(s, i', j', i, j);
      case FlushEnd(_) =>
      case Receive(j') => ReceiveConserves(s, j', i, j);
      case Handle(j') => HandleConserves(s, j', i, j);
      case Acknowledge(j', i') => PushConserves(s, j', i', LocalAck(i', s.acks[(j', i')]), i, j);
      case Close(_) =>
    }
  }

  /** After every run, what was ever appended is what was handled and what is on the way, in order. */
  lemma {:induction false} RunConserves(capacity: nat, actions: seq<Action>, i: nat, j: nat)
    requires Run(capacity, actions).Some?
    ensures Conserved(Run(capacity, actions).value, i, j)
  {
    if actions != [] {
      var n := |actions| - 1;
      RunLast(capacity, actions);
      RunConserves(capacity, actions[..n], i, j);
      StepConserves(Run(capacity, actions[..n]).value, actions[n], i, j);
    }
  }

  // --------------------------------------------------------------------- sequence numbers

  lemma SeqnosPushed(ms: seq<Message>, m: Message)
    ensures Seqnos(ms + [m]) == if m.Packet? then Seqnos(ms) + [m.seqno] else Seqnos(ms)
  {
    SeqnosAppend(ms, [m]);
    assert Seqnos(ms) + [] == Seqnos(ms);
  }

  lemma IncreasingPushed(xs: seq<nat>, n: nat)
    requires Increasing(xs) && forall x :: x in xs ==> x < n
    ensures Increasing(xs + [n])
  {
    assert forall k :: 0 <= k < |xs| ==> (xs + [n])[k] == xs[k] && xs[k] in xs;
  }

  /** Packets carry their sender `i` and, until the numbers are used up, ever larger ones. */
  ghost predicate NumberedBy(ms: seq<Message>, i: nat, routes: nat) {
    && (forall m :: m in ms && m.Packet? ==> m.shardId == i)
    && (forall n :: n in Seqnos(ms) ==> n <= routes)
    && (routes <= U64_MAX ==> Increasing(Seqnos(ms)))
  }

  ghost predicate Numbered(s: State, i: nat, j: nat) {
    && NextSeqno(s, i) == Min(Routes(s, i) + 1, U64_MAX)
    && NumberedBy(Get(s.appended, (i, j)), i, Routes(s, i))
  }

  lemma MoreRoutes(ms: seq<Message>, i: nat, routes: nat)
    requires NumberedBy(ms, i, routes)
    ensures NumberedBy(ms, i, routes + 1)
  {
  }

  lemma AckNumbers(ms: seq<Message>, i: nat, routes: nat, m: Message)
    requires NumberedBy(ms, i, routes) && !m.Packet?
    ensures NumberedBy(ms + [m], i, routes)
  {
    SeqnosPushed(ms, m);
  }

  lemma RouteNumbers(ms: seq<Message>, i: nat, routes: nat, m: Message)
    requires NumberedBy(ms, i, routes)
    requires m.Packet? && m.shardId == i && m.seqno == Min(routes + 1, U64_MAX)
    ensures NumberedBy(ms + [m], i, routes + 1)
  {
    SeqnosPushed(ms, m);
    if routes < U64_MAX {
      IncreasingPushed(Seqnos(ms), m.seqno);
    }
  }

  lemma RouteNumbered(s: State, s': State, a: Action, i: nat, j: nat)
    requires Numbered(s, i, j) && a.Route? && RouteEffect(s', s, a)
    ensures Numbered(s', i, j)
  {
    if a.i == i {
      var ms, r := Get(s.appended, (i, j)), Routes(s, i);
      MoreRoutes(ms, i, r);
      RouteNumbers(ms, i, r, Packet(a.clientId, i, NextSeqno(s, i), a.subscriptions, a.publish));
    }
  }

  lemma AckNumbered(s: State, s': State, j': nat, i': nat, i: nat, j: nat)
    requires Numbered(s, i, j) && (j', i') in s.acks && AcknowledgeEffect(s', s, j', i')
    ensures Numbered(s', i, j)
  {
    AckNumbers(Get(s.appended, (i, j)), i, Routes(s, i), LocalAck(i', s.acks[(j', i')]));
  }

  lemma SameNumbers(s: State, s': State, i: nat, j: nat)
    requires Numbered(s, i, j) && s'.seqno == s.seqno && s'.routes == s.routes && s'.appended == s.appended
    ensures Numbered(s', i, j)
  {
  }

  lemma EffectNumbers(s: State, s': State, a: Action, i: nat, j: nat)
    requires Numbered(s, i, j) && Effect(s', s, a)
    ensures Numbered(s', i, j)
  {
    if a.Route? {
      RouteNumbered(s, s', a, i, j);
    } else if a.Acknowledge? {
      AckNumbered(s, s', a.j, a.i, i, j);
    } else {
      SameNumbers(s, s', i, j);
    }
  }

  lemma StepNumbers(s: State, a: Action, i: nat, j: nat)
    requires Numbered(s, i, j) && Enabled(s, a)
    ensures Numbered(Step(s, a), i, j)
  {
    StepEffect(s, a);
    EffectNumbers(s, Step(s, a), a, i, j);
  }

  lemma {:induction false} RunNumbers(capacity: nat, actions: seq<Action>, i: nat, j: nat)
    requires Run(capacity, actions).Some?
    ensures Numbered(Run(capacity, actions).value, i, j)
  {
    if actions != [] {
      var n := |actions| - 1;
      RunLast(capacity, actions);
      RunNumbers(capacity, actions[..n], i, j);
      StepNumbers(Run(capacity, actions[..n]).value, actions[n], i, j);
    }
  }

  lemma SeqnosTotal(h: seq<Message>, r: seq<Message>, q: seq<Message>, l: seq<Message>, b: seq<Message>)
    ensures Seqnos(Total(h, r, q, l, b)) == Seqnos(h) + (Seqnos(r) + (Seqnos(q) + (Seqnos(l) + Seqnos(b))))
  {
    SeqnosAppend(h, r + (q + (l + b)));
    SeqnosAppend(r, q + (l + b));
    SeqnosAppend(q, l + b);
    SeqnosAppend(l, b);
  }

  lemma IncreasingParts(a: seq<nat>, b: seq<nat>)
    requires Increasing(a + b)
    ensures Increasing(a) && Increasing(b)
    ensures forall x, y :: x in a && y in b ==> x < y
  {
    assert forall k :: 0 <= k < |a| ==> (a + b)[k] == a[k];
    assert forall k :: 0 <= k < |b| ==> (a + b)[|a| + k] == b[k];
  }

  /**
   As long as a shard has routed no more than 2^64 - 1 packets, their sequence numbers strictly
   increase in each of its back-logs, and in each queue among its own.
   */
  lemma SeqnosIncrease(capacity: nat, actions: seq<Action>, i: nat, j: nat)
    requires Run(capacity, actions).Some? && Routes(Run(capacity, actions).value, i) <= 0xFFFF_FFFF_FFFF_FFFF
    ensures var s := Run(capacity, actions).value;
            && Increasing(Seqnos(Get(s.backLog, (i, j)))) && Increasing(Seqnos(Get(s.leaving, (i, j))))
            && Increasing(Seqnos(From(i, Get(s.queue, j)))) && Increasing(Seqnos(From(i, Get(s.inbox, j))))
            && Increasing(Seqnos(From(i, Get(s.handled, j))))
  {
    var s := Run(capacity, actions).value;
    RunConserves(capacity, actions, i, j);
    RunNumbers(capacity, actions, i, j);
    var h, r, q := From(i, Get(s.handled, j)), From(i, Get(s.inbox, j)), From(i, Get(s.queue, j));
    var l, b := Get(s.leaving, (i, j)), Get(s.backLog, (i, j));
    SeqnosTotal(h, r, q, l, b);
    IncreasingParts(Seqnos(h), Seqnos(r) + (Seqnos(q) + (Seqnos(l) + Seqnos(b))));
    IncreasingParts(Seqnos(r), Seqnos(q) + (Seqnos(l) + Seqnos(b)));
    IncreasingParts(Seqnos(q), Seqnos(l) + Seqnos(b));
    IncreasingParts(Seqnos(l), Seqnos(b));
  }

  /** One more, and the last two numbers are the same. */
  lemma SeqnosSaturate(s: State, i: nat, j: nat, c: Bytes, subs: seq<Subscription>, publ: Publish, acked: bool)
    requires Idle(s, i) && NextSeqno(s, i) == 0xFFFF_FFFF_FFFF_FFFF
    ensures var a := Route(i, j, c, subs, publ, acked);
            var s1, n := Step(s, a), 0xFFFF_FFFF_FFFF_FFFF;
            && Enabled(s1, a)
            && Seqnos(Get(Step(s1, a).backLog, (i, j))) == Seqnos(Get(s.backLog, (i, j))) + [n, n]
  {
    var m := Packet(c, i, U64_MAX, subs, publ);
    SeqnosPushed(Get(s.backLog, (i, j)), m);
    SeqnosPushed(Get(s.backLog, (i, j)) + [m], m);
  }

  // ------------------------------------------------------------------------- bounded queues

  /** A queue holds no more than its capacity. */
  ghost predicate Bounded(s: State, j: nat) {
    |Get(s.queue, j)| <= s.capacity
  }

  /** A step that neither sends nor receives leaves the queues alone. */
  lemma SameQueues(s: State, a: Action)
    requires Enabled(s, a) && !a.FlushSend? && !a.Receive?
    ensures Step(s, a).queue == s.queue && Step(s, a).capacity == s.capacity && s.closed <= Step(s, a).closed
  {
    match a {
      case Route(_, _, _, _, _, _) =>
      case FlushBegin(_) =>
      case FlushStop(_, _) =>
      case FlushEnd(_) =>
      case Handle(j) => HandleFields(s, j);
      case Acknowledge(_, _) =>
      case Close(_) =>
    }
  }

  lemma SendQueues(s: State, i: nat, k: nat, j: nat)
    requires Enabled(s, FlushSend(i, k))
    ensures var s' := Step(s, FlushSend(i, k));
            && s'.capacity == s.capacity && s'.closed == s.closed
            && (if j == k then |Get(s'.queue, j)| == |Get(s.queue, j)| + 1 && j !in s.closed
                else Get(s'.queue, j) == Get(s.queue, j))
  {
  }

  lemma ReceiveQueues(s: State, k: nat, j: nat)
    requires Enabled(s, Receive(k))
    ensures var s' := Step(s, Receive(k));
            && s'.capacity == s.capacity && s'.closed == s.closed
            && (if j == k then |Get(s'.queue, j)| == |Get(s.queue, j)| - 1 && j !in s.closed
                else Get(s'.queue, j) == Get(s.queue, j))
  {
  }

  lemma StepQueues(s: State, a: Action, j: nat)
    requires Enabled(s, a)
    ensures Bounded(s, j) ==> Bounded(Step(s, a), j)
    ensures j in s.closed ==> j in Step(s, a).closed && Get(Step(s, a).queue, j) == Get(s.queue, j)
  {
    if a.FlushSend? {
      SendQueues(s, a.i, a.j, j);
    } else if a.Receive? {
      ReceiveQueues(s, a.j, j);
    } else {
      SameQueues(s, a);
    }
  }

  lemma {:induction false} RunBounded(capacity: nat, actions: seq<Action>, j: nat)
    requires Run(capacity, actions).Some?
    ensures |Get(Run(capacity, actions).value.queue, j)| <= Run(capacity, actions).value.capacity
  {
    if actions != [] {
      var n := |actions| - 1;
      RunLast(capacity, actions);
      RunBounded(capacity, actions[..n], j);
      StepQueues(Run(capacity, actions[..n]).value, actions[n], j);
    }
  }

  /** In every run, what a flush puts back it could not send: the receiver is gone, or its queue is at capacity. */
  lemma KeptBackIf(capacity: nat, actions: seq<Action>, i: nat, j: nat)
    requires Run(capacity, actions + [FlushStop(i, j)]).Some?
    ensures var s := Run(capacity, actions + [FlushStop(i, j)]).value;
            Get(s.backLog, (i, j)) != [] ==> j in s.closed || |Get(s.queue, j)| == s.capacity
  {
    PerformLast(Initial(capacity), actions, FlushStop(i, j));
    RunBounded(capacity, actions, j);
  }

  /** A receiver that is gone stays gone, and its queue stays as it is. */
  lemma {:induction false} ClosedStays(s: State, actions: seq<Action>, j: nat)
    requires j in s.closed && Perform(s, actions).Some?
    ensures var s' := Perform(s, actions).value; j in s'.closed && Get(s'.queue, j) == Get(s.queue, j)
    decreases |actions|
  {
    if actions != [] {
      StepQueues(s, actions[0], j);
      ClosedStays(Step(s, actions[0]), actions[1..], j);
    }
  }

  /** A receiver can go at any time, and whatever happens then its queue stays as it was. */
  lemma CloseFreezes(s: State, actions: seq<Action>, j: nat)
    ensures Perform(s, [Close(j)]).Some?
    ensures Perform(s, [Close(j)] + actions).Some? ==>
              Get(Perform(s, [Close(j)] + actions).value.queue, j) == Get(s.queue, j)
  {
    assert [Close(j)][1..] == [] && ([Close(j)] + actions)[1..] == actions;
    if Perform(s, [Close(j)] + actions).Some? {
      ClosedStays(Step(s, Close(j)), actions, j);
    }
  }

  // --------------------------------------------------------------------- acknowledgements

  predicate LastIs(xs: seq<nat>, n: nat) {
    xs != [] && xs[|xs| - 1] == n
  }

  /** The time-stamp that `j` keeps for `i` is the number of the last packet it has looked at. */
  ghost predicate StampedBy(acks: map<(nat, nat), nat>, handled: seq<Tagged>, j: nat, i: nat) {
    (j, i) in acks ==> LastIs(Seqnos(From(i, handled)), acks[(j, i)])
  }

  ghost predicate StampedLast(s: State, j: nat, i: nat) {
    StampedBy(s.acks, Get(s.handled, j), j, i)
  }

  lemma {:induction false} FromContains(ts: seq<Tagged>, k: nat)
    requires k < |ts|
    ensures ts[k].message in From(ts[k].sender, ts)
    decreases |ts|
  {
    if k > 0 {
      assert ts[1..][k - 1] == ts[k];
      FromContains(ts[1..], k - 1);
    }
  }

  /** A received packet names the shard it came from. */
  lemma ReceivedNamesSender(s: State, j: nat)
    requires Get(s.inbox, j) != []
    requires var k := Get(s.inbox, j)[0].sender; Conserved(s, k, j) && Numbered(s, k, j)
    ensures var t := Get(s.inbox, j)[0]; t.message.Packet? ==> t.message.shardId == t.sender
  {
    var t := Get(s.inbox, j)[0];
    FromContains(Get(s.inbox, j), 0);
    assert t.message in Get(s.appended, (t.sender, j));
  }

  lemma HandleStamps(acks: map<(nat, nat), nat>, handled: seq<Tagged>, t: Tagged, j: nat, i: nat)
    requires StampedBy(acks, handled, j, i) && (t.message.Packet? ==> t.message.shardId == t.sender)
    ensures StampedBy(Stamped(acks, j, t.message), handled + [t], j, i)
  {
    FromPushed(i, handled, t);
    if t.sender == i {
      SeqnosPushed(From(i, handled), t.message);
    }
  }

  lemma HandlingStamps(s: State, s': State, j': nat, j: nat, i: nat)
    requires StampedLast(s, j, i) && Get(s.inbox, j') != [] && HandleEffect(s', s, j')
    requires forall k :: Conserved(s, k, j) && Numbered(s, k, j)
    ensures StampedLast(s', j, i)
  {
    if j' == j {
      ReceivedNamesSender(s, j);
      HandleStamps(s.acks, Get(s.handled, j), Get(s.inbox, j)[0], j, i);
    }
  }

  lemma EffectStamps(s: State, s': State, a: Action, j: nat, i: nat)
    requires Effect(s', s, a) && StampedLast(s, j, i)
    requires forall k :: Conserved(s, k, j) && Numbered(s, k, j)
    ensures StampedLast(s', j, i)
  {
    if a.Handle? && !Unbookable(s, a.j, Get(s.inbox, a.j)[0].message) {
      HandlingStamps(s, s', a.j, j, i);
    }
  }

  lemma StepStamps(s: State, a: Action, j: nat, i: nat)
    requires Enabled(s, a) && StampedLast(s, j, i)
    requires forall k :: Conserved(s, k, j) && Numbered(s, k, j)
    ensures StampedLast(Step(s, a), j, i)
  {
    StepEffect(s, a);
    EffectStamps(s, Step(s, a), a, j, i);
  }

  lemma {:induction false} RunStamps(capacity: nat, actions: seq<Action>, j: nat, i: nat)
    requires Run(capacity, actions).Some?
    ensures StampedLast(Run(capacity, actions).value, j, i)
  {
    if actions != [] {
      var n := |actions| - 1;
      RunLast(capacity, actions);
      RunStamps(capacity, actions[..n], j, i);
      var s := Run(capacity, actions[..n]).value;
      forall k ensures Conserved(s, k, j) && Numbered(s, k, j) {
        RunConserves(capacity, actions[..n], k, j);
        RunNumbers(capacity, actions[..n], k, j);
      }
      StepStamps(Run(capacity, actions[..n]).value, actions[n], j, i);
    }
  }

  lemma LastIsLargest(xs: seq<nat>)
    requires Increasing(xs)
    ensures xs != [] ==> xs[|xs| - 1] in xs && forall n :: n in xs ==> n <= xs[|xs| - 1]
  {
  }

  lemma AcknowledgeStep(s: State, j: nat, i: nat)
    requires Enabled(s, Acknowledge(j, i)) && StampedLast(s, j, i) && Increasing(Seqnos(From(i, Get(s.handled, j))))
    ensures var got, top := Seqnos(From(i, Get(s.handled, j))), s.acks[(j, i)];
            && From(i, Get(s.inbox, j)) == [] && top in got && (forall n :: n in got ==> n <= top)
            && Get(Step(s, Acknowledge(j, i)).backLog, (j, i)) == Get(s.backLog, (j, i)) + [LocalAck(i, top)]
  {
    LastIsLargest(Seqnos(From(i, Get(s.handled, j))));
  }

  /**
   The acknowledgement that a shard queues for a publishing shard carries the largest sequence
   number it has received from it so far.
   */
  lemma AcknowledgesLargest(capacity: nat, actions: seq<Action>, j: nat, i: nat)
    requires Run(capacity, actions).Some? && Enabled(Run(capacity, actions).value, Acknowledge(j, i))
    requires Routes(Run(capacity, actions).value, i) <= U64_MAX
    ensures var s := Run(capacity, actions).value;
            var got, top := Seqnos(From(i, Get(s.handled, j))), s.acks[(j, i)];
            && From(i, Get(s.inbox, j)) == [] && top in got && (forall n :: n in got ==> n <= top)
            && Get(Step(s, Acknowledge(j, i)).backLog, (j, i)) == Get(s.backLog, (j, i)) + [LocalAck(i, top)]
  {
    RunStamps(capacity, actions, j, i);
    SeqnosIncrease(capacity, actions, i, j);
    AcknowledgeStep(Run(capacity, actions).value, j, i);
  }

  /** Acknowledgements name the shard they are for, and those of clients are not sent. */
  ghost predicate AcksNameReceiver(ms: seq<Message>, j: nat) {
    forall m :: m in ms ==> !m.ClientAck? && (m.LocalAck? ==> m.shardId == j)
  }

  lemma AcksPushed(ms: seq<Message>, m: Message, j: nat)
    requires AcksNameReceiver(ms, j) && !m.ClientAck? && (m.LocalAck? ==> m.shardId == j)
    ensures AcksNameReceiver(ms + [m], j)
  {
  }

  lemma EffectAcks(s: State, s': State, a: Action, i: nat, j: nat)
    requires Effect(s', s, a) && AcksNameReceiver(Get(s.appended, (i, j)), j)
    ensures AcksNameReceiver(Get(s'.appended, (i, j)), j)
  {
    var ms := Get(s.appended, (i, j));
    match a {
      case Route(i', j', c, subs, publ, _) => AcksPushed(ms, Packet(c, i', NextSeqno(s, i'), subs, publ), j);
      case Acknowledge(j', i') =>
        if j' == i && i' == j {
          AcksPushed(ms, LocalAck(i', s.acks[(j', i')]), j);
        }
      case _ => assert s'.appended == s.appended;
    }
  }

  lemma StepAcks(s: State, a: Action, i: nat, j: nat)
    requires Enabled(s, a) && AcksNameReceiver(Get(s.appended, (i, j)), j)
    ensures AcksNameReceiver(Get(Step(s, a).appended, (i, j)), j)
  {
    StepEffect(s, a);
    EffectAcks(s, Step(s, a), a, i, j);
  }

  lemma {:induction false} RunAcks(capacity: nat, actions: seq<Action>, i: nat, j: nat)
    requires Run(capacity, actions).Some?
    ensures AcksNameReceiver(Get(Run(capacity, actions).value.appended, (i, j)), j)
  {
    if actions != [] {
      var n := |actions| - 1;
      RunLast(capacity, actions);
      RunAcks(capacity, actions[..n], i, j);
      StepAcks(Run(capacity, actions[..n]).value, actions[n], i, j);
    }
  }

  /** In every run, an acknowledgement that a shard has received carries its own number, not that of the sender. */
  lemma ReceivedAckNamesReceiver(capacity: nat, actions: seq<Action>, j: nat, k: nat)
    requires Run(capacity, actions).Some? && k < |Get(Run(capacity, actions).value.inbox, j)|
    ensures var m := Get(Run(capacity, actions).value.inbox, j)[k].message;
            !m.ClientAck? && (m.LocalAck? ==> m.shardId == j)
  {
    var s := Run(capacity, actions).value;
    var t := Get(s.inbox, j)[k];
    RunConserves(capacity, actions, t.sender, j);
    RunAcks(capacity, actions, t.sender, j);
    FromContains(Get(s.inbox, j), k);
    assert t.message in Get(s.appended, (t.sender, j));
  }

  // ------------------------------------------------------------------ booked acknowledgements

  /** Shard `i` routes a packet that is to be acknowledged to shard `j`. */
  predicate RoutesAcked(a: Action, i: nat, j: nat) {
    a.Route? && a.i == i && a.j == j && a.acked
  }

  ghost predicate HasRouted(actions: seq<Action>, i: nat, j: nat) {
    exists k :: 0 <= k < |actions| && RoutesAcked(actions[k], i, j)
  }

  lemma EffectEntries(s: State, s': State, a: Action, i: nat, j: nat)
    requires Effect(s', s, a)
    ensures (i, j) in s'.stamps <==> (i, j) in s.stamps || RoutesAcked(a, i, j)
  {
  }

  lemma StepEntries(s: State, a: Action, i: nat, j: nat)
    requires Enabled(s, a)
    ensures (i, j) in Step(s, a).stamps <==> (i, j) in s.stamps || RoutesAcked(a, i, j)
  {
    StepEffect(s, a);
    EffectEntries(s, Step(s, a), a, i, j);
  }

  lemma HasRoutedNext(actions: seq<Action>, a: Action, i: nat, j: nat)
    ensures HasRouted(actions + [a], i, j) <==> HasRouted(actions, i, j) || RoutesAcked(a, i, j)
  {
    assert (actions + [a])[|actions|] == a;
    if k :| 0 <= k < |actions| && RoutesAcked(actions[k], i, j) {
      assert (actions + [a])[k] == actions[k];
    }
  }

  /** After every run, a shard has an entry for another, or itself, exactly if it has routed such a packet there. */
  lemma {:induction false} RunEntries(capacity: nat, actions: seq<Action>, i: nat, j: nat)
    requires Run(capacity, actions).Some?
    ensures (i, j) in Run(capacity, actions).value.stamps <==> HasRouted(actions, i, j)
  {
    if actions != [] {
      var n := |actions| - 1;
      RunLast(capacity, actions);
      RunEntries(capacity, actions[..n], i, j);
      StepEntries(Run(capacity, actions[..n]).value, actions[n], i, j);
      HasRoutedNext(actions[..n], actions[n], i, j);
      assert actions == actions[..n] + [actions[n]];
    }
  }

  /** The entry for another shard has no acknowledgement. */
  ghost predicate Unacked(s: State, i: nat, j: nat) {
    (i, j) in s.stamps ==> s.stamps[(i, j)].1 == 0
  }

  /** What is to be looked at next, if it is an acknowledgement, names the shard. */
  ghost predicate NextNames(s: State, a: Action, i: nat) {
    a.Handle? && a.j == i && Get(s.inbox, i) != [] ==>
      var m := Get(s.inbox, i)[0].message; m.LocalAck? ==> m.shardId == i
  }

  lemma EffectUnacked(s: State, s': State, a: Action, i: nat, j: nat)
    requires Effect(s', s, a) && Unacked(s, i, j) && i != j && NextNames(s, a, i)
    ensures Unacked(s', i, j)
  {
  }

  lemma StepUnacked(s: State, a: Action, i: nat, j: nat)
    requires Enabled(s, a) && Unacked(s, i, j) && i != j && NextNames(s, a, i)
    ensures Unacked(Step(s, a), i, j)
  {
    StepEffect(s, a);
    EffectUnacked(s, Step(s, a), a, i, j);
  }

  /** After every run, no acknowledgement is booked with the shard that it came from, or with any other. */
  lemma {:induction false} RunUnacked(capacity: nat, actions: seq<Action>, i: nat, j: nat)
    requires Run(capacity, actions).Some? && i != j
    ensures Unacked(Run(capacity, actions).value, i, j)
  {
    if actions != [] {
      var n := |actions| - 1;
      RunLast(capacity, actions);
      var s := Run(capacity, actions[..n]).value;
      RunUnacked(capacity, actions[..n], i, j);
      if actions[n].Handle? && actions[n].j == i {
        ReceivedAckNamesReceiver(capacity, actions[..n], i, 0);
      }
      StepUnacked(s, actions[n], i, j);
    }
  }

  /**
   In every run, a shard panics on the next message it looks at exactly if that is an acknowledgement, and the
   shard has not yet routed a packet to itself that is to be acknowledged.
   */
  lemma HandlePanicsIff(capacity: nat, actions: seq<Action>, j: nat)
    requires Run(capacity, actions).Some? && Enabled(Run(capacity, actions).value, Handle(j))
    ensures var s := Run(capacity, actions).value;
            j in Step(s, Handle(j)).panicked <==>
            Get(s.inbox, j)[0].message.LocalAck? && !HasRouted(actions, j, j)
  {
    ReceivedAckNamesReceiver(capacity, actions, j, 0);
    RunEntries(capacity, actions, j, j);
  }
}
