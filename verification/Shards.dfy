/** A shard's run loop: routing what its sessions publish, and its part in the exchange with other shards. */
module Shards {
  import opened Basics
  import opened Order
  import opened Topic
  import opened Subscriptions
  import opened SubscribedTrie
  import opened Messages
  import opened Fanout
  import opened Queues
  import Routing

  type Stamps = map<nat, (nat, nat)>

  /** What routing changes in a `RunLoop`. */
  datatype Books = Books(
    backLog: map<nat, seq<Message>>,
    seqno: nat,
    unacks: map<nat, Message>,
    timestamp: Stamps)

  function Pushed(b: map<nat, seq<Message>>, j: nat, m: Message): map<nat, seq<Message>> {
    b[j := Get(b, j) + [m]]
  }

  function Rank(q: QoS): nat {
    match q
    case AtMostOnce => 0
    case AtLeastOnce => 1
    case ExactlyOnce => 2
  }

  function Lower(p: QoS, q: QoS): QoS {
    if Rank(p) <= Rank(q) then p else q
  }

  /** Where and with whose packets a publish goes. */
  datatype Publishing = Publishing(shardId: nat, publisher: Bytes, publish: Publish, maximum: QoS)

  function Effective(p: Publishing): QoS {
    Lower(p.maximum, p.publish.qos)
  }

  /** Asked for exactly once, by a server that grants it. */
  predicate Unwritten(p: Publishing) {
    p.maximum == ExactlyOnce && p.publish.qos == ExactlyOnce
  }

  /** Asked for more than at most once, by a server that grants more. */
  predicate ToBeAcked(p: Publishing) {
    p.maximum != AtMostOnce && p.publish.qos != AtMostOnce && !Unwritten(p)
  }

  function PacketOf(p: Publishing, seqno: nat, subs: seq<Subscription>): Message {
    Packet(p.publisher, p.shardId, seqno, subs, p.publish)
  }

  function Stamp(t: Stamps, j: nat, seqno: nat): Stamps {
    t[j := (seqno, if j in t then t[j].1 else 0)]
  }

  /** `route_to_client`, short of exactly-once. */
  function RouteOne(b: Books, p: Publishing, subs: seq<Subscription>): Books
    requires subs != []
  {
    var j, m := subs[0].shardId, PacketOf(p, b.seqno, subs);
    var acked := ToBeAcked(p);
    Books(
      Pushed(b.backLog, j, m), SaturatingIncr(b.seqno),
      if acked then b.unacks[b.seqno := m] else b.unacks,
      if acked then Stamp(b.timestamp, j, b.seqno) else b.timestamp)
  }

  /** The loop of `do_publish`: a client that has no subscription left is passed over. */
  function RouteAll(b: Books, p: Publishing, groups: Groups, clients: seq<Bytes>): Books
    decreases |clients|
  {
    if clients == [] then b
    else RouteAll(
        if Get(groups, clients[0]) == [] then b else RouteOne(b, p, Get(groups, clients[0])),
        p, groups, clients[1..])
  }

  // ---------------------------------------------------------------------- ascending order

  lemma {:induction false} LeastExists(s: set<Bytes>) returns (c: Bytes)
    requires s != {}
    ensures c in s && forall d :: d in s ==> d == c || Less(c, d)
    decreases |s|
  {
    c :| c in s;
    if s - {c} != {} {
      var e := LeastExists(s - {c});
      Total(c, e);
      if Less(e, c) {
        c := e;
      } else {
        forall d | d in s ensures d == c || Less(c, d) {
          if d != c && d != e {
            Transitive(c, e, d);
          }
        }
      }
    }
  }

  /** The keys of a map in the order a `BTreeMap` yields them. */
  ghost function Ascending(s: set<Bytes>): (r: seq<Bytes>)
    decreases |s|
  {
    if s == {} then []
    else
      assert exists c :: c in s && forall d :: d in s ==> d == c || Less(c, d) by {
        var c := LeastExists(s);
      }
      var c :| c in s && forall d :: d in s ==> d == c || Less(c, d);
      [c] + Ascending(s - {c})
  }

  lemma LeastUnique(s: set<Bytes>, c: Bytes)
    requires c in s && forall d :: d in s ==> d == c || Less(c, d)
    ensures Ascending(s) == [c] + Ascending(s - {c})
  {
    var r := Ascending(s);
    if c != r[0] {
      Asymmetric(c, r[0]);
    }
  }

  /** Every key once, each before the larger ones. */
  lemma {:induction false} AscendingOrder(s: set<Bytes>)
    ensures forall c :: c in Ascending(s) <==> c in s
    ensures forall i, j :: 0 <= i < j < |Ascending(s)| ==> Less(Ascending(s)[i], Ascending(s)[j])
    decreases |s|
  {
    if s != {} {
      var r := Ascending(s);
      var c, rest := r[0], r[1..];
      assert r == [c] + rest && rest == Ascending(s - {c});
      AscendingOrder(s - {c});
      forall i, j | 0 <= i < j < |r| ensures Less(r[i], r[j]) {
        if i == 0 {
          assert rest[j - 1] in rest;
        } else {
          assert r[i] == rest[i - 1] && r[j] == rest[j - 1];
        }
      }
    }
  }

  // ------------------------------------------------------------------------- the run loop

  ghost function Senders(queues: map<nat, MsgTx>): set<MsgTx> {
    set j | j in queues :: queues[j]
  }

  ghost function Channels(queues: map<nat, MsgTx>): set<Channel> {
    set j | j in queues :: queues[j].tx
  }

  /** No two shards share a queue. */
  ghost predicate Distinct(queues: map<nat, MsgTx>) {
    forall i, j :: i in queues && j in queues && i != j ==> queues[i] != queues[j] && queues[i].tx != queues[j].tx
  }

  ghost function Snaps(queues: map<nat, MsgTx>): map<nat, Snap>
    reads Channels(queues)
  {
    map j | j in queues :: queues[j].tx.Now()
  }

  type Logs = map<nat, seq<Message>>

  /** Each back-log has got the acknowledgement that is due to its shard, if one is. */
  ghost predicate Acked(logs': Logs, logs: Logs, due: map<nat, nat>) {
    forall i :: AckedAt(logs', logs, due, i)
  }

  ghost predicate AckedAt(logs': Logs, logs: Logs, due: map<nat, nat>, i: nat) {
    && (i in logs' <==> i in logs || i in due)
    && Get(logs', i) == Get(logs, i) + if i in due then [LocalAck(i, due[i])] else []
  }

  lemma AckedNext(logs': Logs, logs: Logs, done: map<nat, nat>, i: nat, n: nat)
    requires Acked(logs', logs, done) && i !in done
    ensures Acked(logs'[i := Get(logs', i) + [LocalAck(i, n)]], logs, done[i := n])
  {
    var logs2, done2 := logs'[i := Get(logs', i) + [LocalAck(i, n)]], done[i := n];
    forall k ensures AckedAt(logs2, logs, done2, k) {
      assert AckedAt(logs', logs, done, k);
    }
    assert Acked(logs2, logs, done2);
  }

  /** The back-logs of the shards in `done` have gone into their queues, and nothing else has changed. */
  ghost predicate FlushedAll(queues': map<nat, Snap>, logs': Logs, queues: map<nat, Snap>, logs: Logs, done: set<nat>) {
    && queues'.Keys == queues.Keys
    && logs'.Keys == done <= logs.Keys && done <= queues.Keys
    && forall j :: j in queues ==> FlushedAt(queues', logs', queues, logs, done, j)
  }

  ghost predicate FlushedAt(queues': map<nat, Snap>, logs': Logs, queues: map<nat, Snap>, logs: Logs,
                            done: set<nat>, j: nat)
    requires queues'.Keys == queues.Keys && logs'.Keys == done <= logs.Keys && j in queues
  {
    if j in done then (queues'[j], logs'[j]) == Play(queues[j], logs[j]) else queues'[j] == queues[j]
  }

  lemma FlushNext(queues': map<nat, Snap>, logs': Logs, queues: map<nat, Snap>, logs: Logs, done: set<nat>,
                  j: nat, q: Snap, msgs: seq<Message>)
    requires FlushedAll(queues', logs', queues, logs, done)
    requires j in queues && j in logs && j !in done && (q, msgs) == Play(queues'[j], logs[j])
    ensures FlushedAll(queues'[j := q], logs'[j := msgs], queues, logs, done + {j})
  {
    var queues2, logs2 := queues'[j := q], logs'[j := msgs];
    forall k | k in queues ensures FlushedAt(queues2, logs2, queues, logs, done + {j}, k) {
      assert FlushedAt(queues', logs', queues, logs, done, k);
    }
  }

  lemma OnlyAt<T>(m': map<nat, T>, m: map<nat, T>, j: nat)
    requires m'.Keys == m.Keys && j in m && forall i :: i in m && i != j ==> m'[i] == m[i]
    ensures m' == m[j := m'[j]]
  {
  }

  class Shard {
    const shardId: nat
    const maximum: QoS
    var backLog: map<nat, seq<Message>>
    var seqno: nat
    var unacks: map<nat, Message>
    var timestamp: Stamps
    var ackTimestamp: map<nat, nat>

    constructor (shardId: nat, maximum: QoS)
      ensures this.shardId == shardId && this.maximum == maximum
      ensures Booked() == Books(map[], 1, map[], map[]) && ackTimestamp == map[]
    {
      this.shardId, this.maximum := shardId, maximum;
      backLog, seqno, unacks, timestamp, ackTimestamp := map[], 1, map[], map[], map[];
    }

    function Booked(): Books
      reads this
    {
      Books(backLog, seqno, unacks, timestamp)
    }

    method IncrSeqno() returns (n: nat)
      modifies this`seqno
      ensures n == old(seqno) && seqno == SaturatingIncr(n)
    {
      n := seqno;
      seqno := SaturatingIncr(seqno);
    }

    method InsertUnacks(j: nat, n: nat, m: Message)
      modifies this`unacks, this`timestamp
      ensures unacks == old(unacks)[n := m] && timestamp == Stamp(old(timestamp), j, n)
    {
      unacks := unacks[n := m];
      if j in timestamp {
        timestamp := timestamp[j := (n, timestamp[j].1)];
      } else {
        timestamp := timestamp[j := (n, 0)];
      }
    }

    /** `route_to_client`. Exactly-once is not written yet, and stops with the number already taken. */
    method RouteToClient(p: Publishing, subs: seq<Subscription>) returns (panicked: bool)
      requires subs != [] && p.shardId == shardId && p.maximum == maximum
      modifies this`backLog, this`seqno, this`unacks, this`timestamp
      ensures panicked <==> Unwritten(p)
      ensures Booked() ==
              if panicked then old(Booked()).(seqno := SaturatingIncr(old(seqno))) else RouteOne(old(Booked()), p, subs)
      ensures !panicked ==>
                var j, m := subs[0].shardId, Packet(p.publisher, shardId, old(seqno), subs, p.publish);
                && j in backLog && backLog == old(backLog)[j := Get(old(backLog), j) + [m]]
                && unacks == if ToBeAcked(p) then old(unacks)[old(seqno) := m] else old(unacks)
    {
      var j := subs[0].shardId;
      var n := IncrSeqno();
      var m := Packet(p.publisher, shardId, n, subs, p.publish);
      match Effective(p) {
        case AtMostOnce =>
        case AtLeastOnce => InsertUnacks(j, n, m);
        case ExactlyOnce => return true;
      }
      if j in backLog {
        backLog := backLog[j := backLog[j] + [m]];
      } else {
        assert [] + [m] == [m];
        backLog := backLog[j := [m]];
      }
      return false;
    }

    /** The loop of `do_publish`. */
    method RouteMatches(p: Publishing, groups: Groups) returns (panicked: bool)
      requires p.shardId == shardId && p.maximum == maximum
      modifies this`backLog, this`seqno, this`unacks, this`timestamp
      ensures panicked <==> Unwritten(p) && exists c :: c in groups && groups[c] != []
      ensures !panicked ==> Booked() == RouteAll(old(Booked()), p, groups, Ascending(groups.Keys))
      ensures panicked ==> Booked() == old(Booked()).(seqno := SaturatingIncr(old(seqno)))
    {
      var todo := groups.Keys;
      ghost var goal := RouteAll(Booked(), p, groups, Ascending(todo));
      while todo != {}
        invariant todo <= groups.Keys
        invariant RouteAll(Booked(), p, groups, Ascending(todo)) == goal
        invariant Unwritten(p) ==>
                    Booked() == old(Booked()) && forall c :: c in groups && c !in todo ==> groups[c] == []
        decreases |todo|
      {
        assert exists c :: c in todo && forall d :: d in todo ==> d == c || Less(c, d) by {
          var c := LeastExists(todo);
        }
        var c :| c in todo && forall d :: d in todo ==> d == c || Less(c, d);
        LeastUnique(todo, c);
        todo := todo - {c};
        if groups[c] != [] {
          panicked := RouteToClient(p, groups[c]);
          if panicked {
            return;
          }
        }
      }
      return false;
    }

    /** Matching and routing, as `do_publish` puts them together. */
    method Publish(filters: Subscribed, p: Publishing, topic: Bytes) returns (panicked: bool, found: seq<Subscription>)
      requires filters.Valid() && p.shardId == shardId && p.maximum == maximum
      modifies this`backLog, this`seqno, this`unacks, this`timestamp
      ensures forall v :: multiset(found)[v] ==
                |set f | f in filters.table && Selected(f, Split(topic), true) && v in filters.table[f]|
      ensures var groups := GroupsOf(found, p.publisher);
              && (panicked <==> Unwritten(p) && exists c :: c in groups && groups[c] != [])
              && (!panicked ==> Booked() == RouteAll(old(Booked()), p, groups, Ascending(groups.Keys)))
    {
      var groups;
      groups, found := MatchSubscribers(filters, p.publisher, topic);
      panicked := RouteMatches(p, groups);
    }

    /** `ack_messages`: one acknowledgement for each shard that packets came from, and none is due any more. */
    method AckMessages()
      modifies this`backLog, this`ackTimestamp
      ensures ackTimestamp == map[]
      ensures Acked(backLog, old(backLog), old(ackTimestamp))
    {
      var due := ackTimestamp;
      ackTimestamp := map[];
      var todo := due.Keys;
      ghost var done: map<nat, nat> := map[];
      assert forall i :: AckedAt(backLog, old(backLog), done, i);
      while todo != {}
        invariant todo !! done.Keys && todo + done.Keys == due.Keys && ackTimestamp == map[]
        invariant (forall i :: i in done ==> done[i] == due[i]) && Acked(backLog, old(backLog), done)
        decreases todo
      {
        var i :| i in todo;
        var m := LocalAck(i, due[i]);
        ghost var before := backLog;
        if i in backLog {
          backLog := backLog[i := backLog[i] + [m]];
        } else {
          assert [] + [m] == [m];
          backLog := backLog[i := [m]];
        }
        AckedNext(before, old(backLog), done, i, due[i]);
        todo, done := todo - {i}, done[i := due[i]];
      }
      assert done == due;
    }

    /** One shard's part of `flush_to_shards`: what its queue takes goes there and the rest stays, in order. */
    method FlushOne(j: nat, tx: MsgTx, msgs: seq<Message>)
      modifies this`backLog, tx`count, tx.tx`queue, tx.tx`turns, tx.tx`received
      ensures j in backLog && backLog == old(backLog)[j := backLog[j]]
      ensures (tx.tx.Now(), backLog[j]) == Play(old(tx.tx.Now()), msgs)
    {
      var status := tx.TrySends(msgs);
      backLog := backLog[j := status.values];
    }

    /** The other queues stay as they are. */
    method FlushAt(queues: map<nat, MsgTx>, j: nat, msgs: seq<Message>)
      requires Distinct(queues) && j in queues
      modifies this`backLog
      modifies Senders(queues)`count, Channels(queues)`queue, Channels(queues)`turns, Channels(queues)`received
      ensures j in backLog && backLog == old(backLog)[j := backLog[j]]
      ensures Snaps(queues) == old(Snaps(queues))[j := Snaps(queues)[j]]
      ensures (Snaps(queues)[j], backLog[j]) == Play(old(Snaps(queues))[j], msgs)
    {
      ghost var before := Snaps(queues);
      FlushOne(j, queues[j], msgs);
      forall i | i in before && i != j ensures Snaps(queues)[i] == before[i] {
        assert queues[i].tx != queues[j].tx;
      }
      OnlyAt(Snaps(queues), before, j);
    }

    /** `flush_to_shards`. It stops at a shard that has no queue. */
    method FlushToShards(queues: map<nat, MsgTx>) returns (panicked: bool)
      requires Distinct(queues)
      modifies this`backLog
      modifies Senders(queues)`count, Channels(queues)`queue, Channels(queues)`turns, Channels(queues)`received
      ensures panicked <==> exists j :: j in old(backLog) && j !in queues
      ensures !panicked ==>
                FlushedAll(Snaps(queues), backLog, old(Snaps(queues)), old(backLog), old(backLog).Keys)
    {
      ghost var before, done := Snaps(queues), {};
      var leaving := backLog;
      backLog := map[];
      var todo := leaving.Keys;
      assert Snaps(queues) == before;
      while todo != {}
        invariant forall j :: j in leaving <==> j in todo || j in done
        invariant todo !! done && forall j :: j in done ==> j in queues
        invariant FlushedAll(Snaps(queues), backLog, before, leaving, done)
        decreases todo
      {
        var j :| j in todo;
        if j !in queues {
          return true;
        }
        ghost var q, b := Snaps(queues), backLog;
        FlushAt(queues, j, leaving[j]);
        FlushNext(q, b, before, leaving, done, j, Snaps(queues)[j], backLog[j]);
        todo, done := todo - {j}, done + {j};
      }
      assert done == leaving.Keys;
      return false;
    }

    /** `book_local_ack`: panics without an entry for the shard. */
    method BookLocalAck(k: nat, n: nat) returns (panicked: bool)
      modifies this`timestamp
      ensures panicked <==> k !in old(timestamp)
      ensures timestamp == if panicked then old(timestamp) else old(timestamp)[k := (old(timestamp)[k].0, n)]
    {
      if k !in timestamp {
        return true;
      }
      timestamp := timestamp[k := (timestamp[k].0, n)];
      return false;
    }

    /** One message of a batch. */
    method StampOne(m: Message) returns (panicked: bool)
      modifies this`ackTimestamp, this`timestamp
      ensures panicked <==> Unbookable(old(timestamp), m)
      ensures !panicked ==>
                && ackTimestamp == StampAll(old(ackTimestamp), [m]) && timestamp == BookAll(old(timestamp), [m])
                && timestamp.Keys == old(timestamp).Keys
    {
      assert [m][1..] == [];
      match m {
        case LocalAck(i, n) => panicked := BookLocalAck(i, n);
        case Packet(_, i, n, _, _) =>
          ackTimestamp := ackTimestamp[i := n];
          panicked := false;
        case ClientAck(_) => panicked := true;
      }
    }

    /**
     The first loop of `in_messages`: for each shard the number of the last packet from it is kept,
     acknowledgements are booked, and packets are filed under the client they name.
     */
    method StampMessages(msgs: seq<Message>) returns (panicked: bool, filed: Filed)
      modifies this`ackTimestamp, this`timestamp
      ensures panicked <==> exists m :: m in msgs && Unbookable(old(timestamp), m)
      ensures !panicked ==>
                && ackTimestamp == StampAll(old(ackTimestamp), msgs) && timestamp == BookAll(old(timestamp), msgs)
                && filed == FileAll(map[], msgs)
    {
      filed := map[];
      for k := 0 to |msgs|
        invariant StampAll(ackTimestamp, msgs[k..]) == StampAll(old(ackTimestamp), msgs)
        invariant BookAll(timestamp, msgs[k..]) == BookAll(old(timestamp), msgs)
        invariant FileAll(filed, msgs[k..]) == FileAll(map[], msgs)
        invariant timestamp.Keys == old(timestamp).Keys
        invariant forall l :: 0 <= l < k ==> !Unbookable(old(timestamp), msgs[l])
      {
        FirstOf(ackTimestamp, timestamp, filed, msgs[k..]);
        assert msgs[k..][0] == msgs[k] && msgs[k..][1..] == msgs[k + 1..];
        panicked := StampOne(msgs[k]);
        if panicked {
          assert Unbookable(old(timestamp), msgs[k]);
          return;
        }
        filed := FileOne(filed, msgs[k]);
      }
      return false, filed;
    }
  }

  /** The packets of a batch by client. */
  type Filed = map<Bytes, seq<Message>>

  function FileOne(filed: Filed, m: Message): Filed {
    if m.Packet? then filed[m.clientId := Get(filed, m.clientId) + [m]] else filed
  }

  function FileAll(filed: Filed, msgs: seq<Message>): Filed
    decreases |msgs|
  {
    if msgs == [] then filed else FileAll(FileOne(filed, msgs[0]), msgs[1..])
  }

  lemma FirstOf(t: map<nat, nat>, stamps: Stamps, filed: Filed, msgs: seq<Message>)
    requires msgs != []
    ensures StampAll(t, msgs) == StampAll(StampAll(t, [msgs[0]]), msgs[1..])
    ensures BookAll(stamps, msgs) == BookAll(BookAll(stamps, [msgs[0]]), msgs[1..])
    ensures FileAll(filed, msgs) == FileAll(FileOne(filed, msgs[0]), msgs[1..])
  {
    assert [msgs[0]][1..] == [];
  }

  /** The packets that name a client, in order. */
  function PacketsOf(msgs: seq<Message>, client: Bytes): seq<Message> {
    if msgs == [] then []
    else (if msgs[0].Packet? && msgs[0].clientId == client then [msgs[0]] else []) + PacketsOf(msgs[1..], client)
  }

  lemma FileOneAt(filed: Filed, m: Message, client: Bytes, rest: seq<Message>)
    ensures var first := if m.Packet? && m.clientId == client then [m] else [];
            Get(FileOne(filed, m), client) + rest == Get(filed, client) + (first + rest)
  {
    var was, first := Get(filed, client), if m.Packet? && m.clientId == client then [m] else [];
    assert was + first + rest == was + (first + rest) && was + [] == was;
  }

  /** Under each client are the packets that name it, in order, and nothing else. */
  lemma {:induction false} FileAllAt(filed: Filed, msgs: seq<Message>, client: Bytes)
    ensures Get(FileAll(filed, msgs), client) == Get(filed, client) + PacketsOf(msgs, client)
    decreases |msgs|
  {
    if msgs == [] {
      assert Get(filed, client) + [] == Get(filed, client);
    } else {
      FileAllAt(FileOne(filed, msgs[0]), msgs[1..], client);
      FileOneAt(filed, msgs[0], client, PacketsOf(msgs[1..], client));
    }
  }

  /** The shards' messages that `in_messages` has no case or no entry for. */
  predicate Unbookable(t: Stamps, m: Message) {
    m.ClientAck? || (m.LocalAck? && m.shardId !in t)
  }

  function StampAll(t: map<nat, nat>, msgs: seq<Message>): map<nat, nat>
    decreases |msgs|
  {
    if msgs == [] then t
    else StampAll(if msgs[0].Packet? then t[msgs[0].shardId := msgs[0].seqno] else t, msgs[1..])
  }

  /** The last acknowledgement of each shard goes with its entry. */
  function BookAll(t: Stamps, msgs: seq<Message>): Stamps
    decreases |msgs|
  {
    if msgs == [] then t
    else BookAll(
        match msgs[0]
        case LocalAck(i, n) => if i in t then t[i := (t[i].0, n)] else t
        case _ => t,
        msgs[1..])
  }

  lemma BookOne(t: Stamps, m: Message)
    ensures BookAll(t, [m]) ==
            if m.LocalAck? && m.shardId in t then t[m.shardId := (t[m.shardId].0, m.lastReceivedAck)] else t
  {
    assert [m][1..] == [];
  }

  /** The number of the last acknowledgement under `i`, or `n` if there is none. */
  function LastAck(msgs: seq<Message>, i: nat, n: nat): nat {
    if msgs == [] then n
    else LastAck(msgs[1..], i, if msgs[0].LocalAck? && msgs[0].shardId == i then msgs[0].lastReceivedAck else n)
  }

  lemma {:induction false} BookAllAt(t: Stamps, msgs: seq<Message>, i: nat)
    ensures BookAll(t, msgs).Keys == t.Keys
    ensures i in t ==> BookAll(t, msgs)[i] == (t[i].0, LastAck(msgs, i, t[i].1))
    decreases |msgs|
  {
    if msgs != [] {
      match msgs[0] {
        case LocalAck(k, n) =>
          var t' := if k in t then t[k := (t[k].0, n)] else t;
          assert t'.Keys == t.Keys;
          BookAllAt(t', msgs[1..], i);
        case _ => BookAllAt(t, msgs[1..], i);
      }
    }
  }

  lemma {:induction false} NoAckOfOthers(msgs: seq<Message>, j: nat, i: nat, n: nat)
    requires Routing.AcksNameReceiver(msgs, j) && i != j
    ensures LastAck(msgs, i, n) == n
    decreases |msgs|
  {
    if msgs != [] {
      assert msgs[0] in msgs;
      NoAckOfOthers(msgs[1..], j, i, n);
    }
  }

  // ---------------------------------------------------------- what a publish appends, and where

  /** The packets of one publish with the shards they are for. */
  function Routed(p: Publishing, seqno: nat, groups: Groups, clients: seq<Bytes>): seq<(nat, Message)>
    decreases |clients|
  {
    if clients == [] then []
    else
      var subs := Get(groups, clients[0]);
      if subs == [] then Routed(p, seqno, groups, clients[1..])
      else [(subs[0].shardId, PacketOf(p, seqno, subs))] + Routed(p, SaturatingIncr(seqno), groups, clients[1..])
  }

  /** Those for one shard. */
  function To(j: nat, routed: seq<(nat, Message)>): seq<Message> {
    if routed == [] then []
    else if routed[0].0 == j then [routed[0].1] + To(j, routed[1..])
    else To(j, routed[1..])
  }

  /** Every back-log grows by its part of them, in order, and by nothing else. */
  lemma {:induction false} RouteAllAppends(b: Books, p: Publishing, groups: Groups, clients: seq<Bytes>, j: nat)
    ensures Get(RouteAll(b, p, groups, clients).backLog, j) ==
            Get(b.backLog, j) + To(j, Routed(p, b.seqno, groups, clients))
    decreases |clients|
  {
    if clients == [] {
      assert Get(b.backLog, j) + [] == Get(b.backLog, j);
    } else {
      var subs := Get(groups, clients[0]);
      if subs == [] {
        RouteAllAppends(b, p, groups, clients[1..], j);
      } else {
        var b' := RouteOne(b, p, subs);
        RouteAllAppends(b', p, groups, clients[1..], j);
        ToNext(j, Get(b.backLog, j), subs[0].shardId, PacketOf(p, b.seqno, subs),
               Routed(p, b'.seqno, groups, clients[1..]));
      }
    }
  }

  lemma ToNext(j: nat, log: seq<Message>, k: nat, m: Message, rest: seq<(nat, Message)>)
    ensures log + To(j, [(k, m)] + rest) == (if j == k then log + [m] else log) + To(j, rest)
  {
    assert ([(k, m)] + rest)[1..] == rest;
  }

  /** The clients that have a subscription left. */
  function Served(groups: Groups, clients: seq<Bytes>): seq<Bytes> {
    if clients == [] then []
    else if Get(groups, clients[0]) == [] then Served(groups, clients[1..])
    else [clients[0]] + Served(groups, clients[1..])
  }

  /** The `k`th number from `n` on. */
  function Numbered(n: nat, k: nat): nat
    decreases k
  {
    if k == 0 then n else Numbered(SaturatingIncr(n), k - 1)
  }

  lemma {:induction false} NumberedSum(n: nat, k: nat)
    requires n <= U64_MAX
    ensures Numbered(n, k) == Min(n + k, U64_MAX)
    decreases k
  {
    if k > 0 {
      NumberedSum(SaturatingIncr(n), k - 1);
    }
  }

  /** Exactly one packet for each client served, with its subscriptions, for the shard the first of them names. */
  lemma {:induction false} OnePacketEach(p: Publishing, seqno: nat, groups: Groups, clients: seq<Bytes>, k: nat)
    ensures |Routed(p, seqno, groups, clients)| == |Served(groups, clients)|
    ensures k < |Served(groups, clients)| ==>
              var subs := Get(groups, Served(groups, clients)[k]);
              && subs != []
              && Routed(p, seqno, groups, clients)[k] == (subs[0].shardId, PacketOf(p, Numbered(seqno, k), subs))
    decreases |clients|
  {
    if clients != [] {
      if Get(groups, clients[0]) == [] {
        OnePacketEach(p, seqno, groups, clients[1..], k);
      } else {
        OnePacketEach(p, SaturatingIncr(seqno), groups, clients[1..], if k == 0 then 0 else k - 1);
      }
    }
  }

  // ------------------------------------------------------------- what is kept until acknowledged

  lemma {:induction false} RouteAllNumbers(b: Books, p: Publishing, groups: Groups, clients: seq<Bytes>)
    requires b.seqno + |Served(groups, clients)| <= U64_MAX
    ensures RouteAll(b, p, groups, clients).seqno == b.seqno + |Served(groups, clients)|
    decreases |clients|
  {
    if clients != [] {
      var subs := Get(groups, clients[0]);
      RouteAllNumbers(if subs == [] then b else RouteOne(b, p, subs), p, groups, clients[1..]);
    }
  }

  /** Before the numbers run out, the packets of a publish are kept, each under its number, exactly if acknowledged. */
  lemma {:induction false} RouteAllKeeps(b: Books, p: Publishing, groups: Groups, clients: seq<Bytes>, n: nat)
    requires b.seqno + |Served(groups, clients)| <= U64_MAX
    ensures |Routed(p, b.seqno, groups, clients)| == |Served(groups, clients)|
    ensures var u, k := RouteAll(b, p, groups, clients).unacks, n - b.seqno;
            if ToBeAcked(p) && 0 <= k < |Served(groups, clients)|
            then n in u && u[n] == Routed(p, b.seqno, groups, clients)[k].1
            else n in u <==> n in b.unacks
    ensures var u, k := RouteAll(b, p, groups, clients).unacks, n - b.seqno;
            n in b.unacks && !(ToBeAcked(p) && 0 <= k < |Served(groups, clients)|) ==> u[n] == b.unacks[n]
    decreases |clients|
  {
    OnePacketEach(p, b.seqno, groups, clients, 0);
    if clients != [] {
      var subs := Get(groups, clients[0]);
      if subs == [] {
        RouteAllKeeps(b, p, groups, clients[1..], n);
      } else {
        RouteAllKeeps(RouteOne(b, p, subs), p, groups, clients[1..], n);
      }
    }
  }

  /** One publish after the other, each with its groups and the order of its clients. */
  datatype Job = Job(publishing: Publishing, groups: Groups, clients: seq<Bytes>)

  function PublishAll(b: Books, jobs: seq<Job>): Books
    decreases |jobs|
  {
    if jobs == [] then b
    else PublishAll(RouteAll(b, jobs[0].publishing, jobs[0].groups, jobs[0].clients), jobs[1..])
  }

  /** How many packets they come to. */
  function Count(jobs: seq<Job>): nat {
    if jobs == [] then 0 else |Served(jobs[0].groups, jobs[0].clients)| + Count(jobs[1..])
  }

  /** The `k`th packet of them all, numbered from `seqno` on, with the publish it is of. */
  function Nth(jobs: seq<Job>, seqno: nat, k: nat): (Publishing, Message)
    requires k < Count(jobs)
    decreases |jobs|
  {
    var p, served := jobs[0].publishing, |Served(jobs[0].groups, jobs[0].clients)|;
    OnePacketEach(p, seqno, jobs[0].groups, jobs[0].clients, 0);
    if k < served then (p, Routed(p, seqno, jobs[0].groups, jobs[0].clients)[k].1)
    else Nth(jobs[1..], seqno + served, k - served)
  }

  /**
   After any publishes, one of the numbers they took has a packet kept under it exactly if the packet that got it
   is to be acknowledged, and it is that packet; nothing else is kept or lost.
   */
  lemma {:induction false} UnacksAfter(b: Books, jobs: seq<Job>, n: nat)
    requires b.seqno + Count(jobs) <= U64_MAX
    ensures var u, k := PublishAll(b, jobs).unacks, n - b.seqno;
            if 0 <= k < Count(jobs) && ToBeAcked(Nth(jobs, b.seqno, k).0)
            then n in u && u[n] == Nth(jobs, b.seqno, k).1
            else (n in u <==> n in b.unacks) && (n in u ==> u[n] == b.unacks[n])
    decreases |jobs|
  {
    if jobs != [] {
      var j := jobs[0];
      var b1 := RouteAll(b, j.publishing, j.groups, j.clients);
      RouteAllNumbers(b, j.publishing, j.groups, j.clients);
      RouteAllKeeps(b, j.publishing, j.groups, j.clients, n);
      UnacksAfter(b1, jobs[1..], n);
    }
  }

  /** The subscription lists carried, together. */
  function Carried(routed: seq<(nat, Message)>): seq<Subscription> {
    if routed == [] then []
    else (if routed[0].1.Packet? then routed[0].1.subscriptions else []) + Carried(routed[1..])
  }

  /** Each client's list is carried once. */
  lemma {:induction false} CarriedCounts(
    p: Publishing, seqno: nat, groups: Groups, clients: seq<Bytes>, v: Subscription)
    requires forall c, w :: c in groups && w in groups[c] ==> w.clientId == c
    requires forall i, j :: 0 <= i < j < |clients| ==> clients[i] != clients[j]
    ensures multiset(Carried(Routed(p, seqno, groups, clients)))[v] ==
            if v.clientId in clients then multiset(Get(groups, v.clientId))[v] else 0
    decreases |clients|
  {
    if clients != [] {
      var c, subs := clients[0], Get(groups, clients[0]);
      assert clients == [c] + clients[1..] && c !in clients[1..];
      if subs == [] {
        CarriedCounts(p, seqno, groups, clients[1..], v);
      } else {
        CarriedCounts(p, SaturatingIncr(seqno), groups, clients[1..], v);
        var rest := Routed(p, SaturatingIncr(seqno), groups, clients[1..]);
        CarriedNext(subs[0].shardId, PacketOf(p, seqno, subs), rest, v);
        assert v.clientId != c ==> multiset(subs)[v] == 0;
      }
    }
  }

  lemma CarriedNext(j: nat, m: Message, rest: seq<(nat, Message)>, v: Subscription)
    requires m.Packet?
    ensures multiset(Carried([(j, m)] + rest))[v] == multiset(m.subscriptions)[v] + multiset(Carried(rest))[v]
  {
    assert ([(j, m)] + rest)[1..] == rest;
    assert Carried([(j, m)] + rest) == m.subscriptions + Carried(rest);
  }

  lemma GroupsAreOfClients(found: seq<Subscription>, publisher: Bytes)
    ensures var groups := GroupsOf(found, publisher);
            forall c, w :: c in groups && w in groups[c] ==> w.clientId == c
  {
    var groups := GroupsOf(found, publisher);
    forall c, w: Subscription | c in groups && w in groups[c] ensures w.clientId == c {
      GroupCounts(found, publisher, c, w);
      assert multiset(groups[c])[w] > 0;
    }
  }

  lemma FoundClient(found: seq<Subscription>, v: Subscription)
    ensures multiset(found)[v] > 0 ==> v.clientId in Clients(found)
  {
  }

  /**
   The subscription lists that one publish carries are together the matches, less the publisher's own
   no-local subscriptions.
   */
  lemma PublishCarriesMatches(p: Publishing, seqno: nat, found: seq<Subscription>, v: Subscription)
    ensures var groups := GroupsOf(found, p.publisher);
            multiset(Carried(Routed(p, seqno, groups, Ascending(groups.Keys))))[v] ==
            if v.clientId == p.publisher && v.noLocal then 0 else multiset(found)[v]
  {
    var groups := GroupsOf(found, p.publisher);
    var clients := Ascending(groups.Keys);
    GroupsAreOfClients(found, p.publisher);
    AscendingOrder(groups.Keys);
    forall i, j | 0 <= i < j < |clients| ensures clients[i] != clients[j] {
      Irreflexive(clients[i]);
    }
    CarriedCounts(p, seqno, groups, clients, v);
    FoundClient(found, v);
    if v.clientId in groups {
      GroupCounts(found, p.publisher, v.clientId, v);
    }
  }

  /**
   A packet names the client that published, not the one whose subscriptions it carries: so the shard that
   receives it files it under the latter exactly if the two are the same.
   */
  lemma FiledUnderPublisher(p: Publishing, seqno: nat, groups: Groups, clients: seq<Bytes>, k: nat)
    requires k < |Served(groups, clients)|
    ensures |Routed(p, seqno, groups, clients)| == |Served(groups, clients)|
    ensures var m, c := Routed(p, seqno, groups, clients)[k].1, Served(groups, clients)[k];
            && m.Packet? && m.subscriptions == Get(groups, c)
            && Get(FileAll(map[], [m]), p.publisher) == [m]
            && (Get(FileAll(map[], [m]), c) == [m] <==> c == p.publisher)
  {
    OnePacketEach(p, seqno, groups, clients, k);
    var m, c := Routed(p, seqno, groups, clients)[k].1, Served(groups, clients)[k];
    assert [m][1..] == [];
    FileAllAt(map[], [m], c);
    FileAllAt(map[], [m], p.publisher);
  }
}
