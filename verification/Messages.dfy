/** What shards send to each other. */
module Messages {
  import opened Basics
  import opened Subscriptions

  /** A PUBLISH, of which routing looks at the quality of service only. */
  datatype Publish = Publish(qos: QoS, content: Bytes)

  datatype Message =
    | LocalAck(shardId: nat, lastReceivedAck: nat)
    | Packet(clientId: Bytes, shardId: nat, seqno: nat, subscriptions: seq<Subscription>, publish: Publish)
    | ClientAck(content: Bytes)

  /** What is under `k`, or nothing. */
  function Get<K, V>(m: map<K, seq<V>>, k: K): seq<V> {
    if k in m then m[k] else []
  }

  /** The sequence numbers of the packets, in order. */
  function Seqnos(ms: seq<Message>): seq<nat> {
    if ms == [] then []
    else if ms[0].Packet? then [ms[0].seqno] + Seqnos(ms[1..])
    else Seqnos(ms[1..])
  }

  lemma {:induction false} SeqnosAppend(a: seq<Message>, b: seq<Message>)
    ensures Seqnos(a + b) == Seqnos(a) + Seqnos(b)
  {
    if a == [] {
      assert a + b == b;
    } else {
      assert (a + b)[1..] == a[1..] + b;
      SeqnosAppend(a[1..], b);
    }
  }

  predicate Increasing(xs: seq<nat>) {
    forall i, j :: 0 <= i < j < |xs| ==> xs[i] < xs[j]
  }
}
