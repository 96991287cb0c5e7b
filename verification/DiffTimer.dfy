/**
 The differential timer as the linked list it is, edited in place. `Head` and `Timeout` are
 one class here, told apart by the value, and `Sentinel` is null.
 */
module DiffTimer {
  import opened Basics
  import opened TimerSpec

  /** The value of the timer: shared with the index of retained topics, and marked through it. */
  class Retain {
    const topicName: Bytes
    var deleted: bool

    constructor (topicName: Bytes)
      ensures this.topicName == topicName && !deleted
    {
      this.topicName := topicName;
      deleted := false;
    }
  }

  class Titem {
    var delta: nat
    const value: Retain?
    var next: Titem?

    constructor (delta: nat, value: Retain?, next: Titem?)
      ensures this.delta == delta && this.value == value && this.next == next
    {
      this.delta := delta;
      this.value := value;
      this.next := next;
    }
  }

  /** Those of the entries' values that are marked deleted now. */
  ghost function DeadAmong(items: seq<Item<Retain>>): set<Retain>
    reads set i | 0 <= i < |items| :: items[i].value
  {
    set i | 0 <= i < |items| && items[i].value.deleted :: items[i].value
  }

  ghost predicate AllDead(items: seq<Item<Retain>>)
    reads set i | 0 <= i < |items| :: items[i].value
  {
    forall i :: 0 <= i < |items| ==> items[i].value.deleted
  }

  /** Each node is linked to the one after it. */
  ghost predicate LinkedAt(nodes: seq<Titem>, i: nat)
    requires i < |nodes|
    reads nodes`next
  {
    nodes[i].next == if i + 1 < |nodes| then nodes[i + 1] else null
  }

  /** The nodes behind the head hold the entries, in order. */
  ghost predicate HoldsAt(nodes: seq<Titem>, items: seq<Item<Retain>>, i: nat)
    requires |nodes| == |items| + 1 && i < |items|
    reads nodes`delta
  {
    nodes[i + 1].delta == items[i].delta && nodes[i + 1].value == items[i].value
  }

  ghost predicate Apart(nodes: seq<Titem>) {
    forall i, j :: 0 <= i < j < |nodes| ==> nodes[i] != nodes[j]
  }

  /** What an expiry makes of the list and the instant, and what it hands out. */
  ghost predicate PopsDue(items: seq<Item<Retain>>, instant: nat, dead: set<Retain>, now: nat,
                          items': seq<Item<Retain>>, instant': nat, expired: seq<Retain>) {
    var secs := ElapsedSecs(instant, now);
    && instant' == instant + secs * SECOND
    && items' == Left(items, secs)
    && expired == Handed(items[..PopCount(items, secs)], dead)
  }

  /**
   In clock readings: the instant moves on to within a second of the clock, and an entry is handed out exactly if
   it is not deleted and neither its own distance nor one before it exceeds the time since the instant.
   */
  lemma PopsDueMeans(items: seq<Item<Retain>>, instant: nat, dead: set<Retain>, now: nat,
                     items': seq<Item<Retain>>, instant': nat, expired: seq<Retain>, r: Retain)
    requires PopsDue(items, instant, dead, now, items', instant', expired)
    requires instant <= now && (now - instant) / 1_000_000_000 < 0x1_0000_0000
    ensures instant' <= now < instant' + 1_000_000_000
    ensures r in expired <==>
            r !in dead && exists i :: 0 <= i < |items| && items[i].value == r && Within(items, now - instant, i)
  {
    InstantMoves(instant, now);
    HandedIff(items, ElapsedSecs(instant, now), dead, r);
    forall i | 0 <= i < |items|
      ensures Within(items, now - instant, i) <==> Covered(items, ElapsedSecs(instant, now), i)
    {
      WithinIff(items, now - instant, i);
    }
  }

  lemma InstantMoves(instant: nat, now: nat)
    requires instant <= now && (now - instant) / 1_000_000_000 < 0x1_0000_0000
    ensures ElapsedSecs(instant, now) == (now - instant) / 1_000_000_000
    ensures instant + ElapsedSecs(instant, now) * SECOND <= now < instant + ElapsedSecs(instant, now) * SECOND + SECOND
  {
    WholeSeconds(now - instant);
  }

  lemma HandedIff(items: seq<Item<Retain>>, secs: nat, dead: set<Retain>, r: Retain)
    ensures r in Handed(items[..PopCount(items, secs)], dead) <==>
            r !in dead && exists i :: 0 <= i < |items| && items[i].value == r && Covered(items, secs, i)
  {
    var popped := items[..PopCount(items, secs)];
    HandedMembers(popped, dead, r);
    if r in Values(popped) {
      var i :| 0 <= i < |popped| && popped[i].value == r;
      PoppedIff(items, secs, i);
    }
    if i :| 0 <= i < |items| && items[i].value == r && Covered(items, secs, i) {
      PoppedIff(items, secs, i);
      assert Values(popped)[i] == r;
    }
  }

  /** No distance up to and including that of the entry exceeds the time passed. */
  ghost predicate Within(items: seq<Item<Retain>>, passed: nat, i: nat)
    requires i < |items|
  {
    forall k :: 0 <= k <= i ==> items[k].delta * SECOND <= passed
  }

  lemma WithinIff(items: seq<Item<Retain>>, passed: nat, i: nat)
    requires i < |items|
    ensures Within(items, passed, i) <==> Covered(items, passed / SECOND, i)
  {
    forall k | 0 <= k <= i ensures items[k].delta * SECOND <= passed <==> items[k].delta <= passed / SECOND {
      WholeIff(items[k].delta, passed);
    }
  }

  lemma WholeIff(delta: nat, passed: nat)
    ensures delta * SECOND <= passed <==> delta <= passed / SECOND
  {
    assert passed == passed / SECOND * SECOND + passed % SECOND;
  }

  /** The entry goes to the time to wait, less the whole seconds since the instant. */
  ghost predicate BookedAt(items': seq<Item<Retain>>, items: seq<Item<Retain>>, instant: nat, secs: nat, value: Retain,
                         now: nat) {
    instant <= now && (now - instant) / 1_000_000_000 < 0x1_0000_0000 ==>
      var e := (now - instant) / 1_000_000_000;
      Schedule(items', 0) == InsertDue(Schedule(items, 0), Due(if e <= secs then secs - e else 0, value))
  }

  lemma InsertBooks(items: seq<Item<Retain>>, instant: nat, secs: nat, value: Retain, now: nat)
    ensures BookedAt(Insert(items, Wait(secs, ElapsedSecs(instant, now)), value), items, instant, secs, value, now)
  {
    if instant <= now && (now - instant) / 1_000_000_000 < 0x1_0000_0000 {
      WaitIs(instant, secs, now);
      InsertSchedules(items, Wait(secs, ElapsedSecs(instant, now)), value, 0);
    }
  }

  class Timer {
    var instant: nat
    var head: Titem
    ghost var nodes: seq<Titem>
    ghost var items: seq<Item<Retain>>
    ghost var repr: set<Titem>
    ghost const start: nat
    ghost var history: seq<Op<Retain>>

    /** The head, then a node for each entry, each linked to the one after it. */
    ghost predicate Chained()
      reads this, repr
    {
      && nodes != [] && nodes[0] == head && Apart(nodes)
      && (forall n :: n in nodes ==> n in repr)
      && (forall i :: 0 <= i < |nodes| ==> LinkedAt(nodes, i))
    }

    /** And they hold the entries in order. */
    ghost predicate Valid()
      reads this, repr
    {
      Chained() && |nodes| == |items| + 1 && forall i :: 0 <= i < |items| ==> HoldsAt(nodes, items, i)
    }

    /** What was done so far, on values. */
    ghost function Record(): Clock<Retain>
      reads this
    {
      After(start, history)
    }

    /** The list is what the record says. */
    ghost predicate Recorded()
      reads this
    {
      Record().items == items && Record().instant == instant
    }

    /** No entry recorded as deleted has been brought back. */
    ghost predicate Truthful()
      reads this, set i | 0 <= i < |items| :: items[i].value
    {
      forall i :: 0 <= i < |items| && items[i].value in Record().dead ==> items[i].value.deleted
    }

    constructor (now: nat)
      ensures Valid() && Recorded() && Truthful()
      ensures fresh(repr) && instant == start == now && items == [] && history == []
    {
      instant, start := now, now;
      var h := new Titem(0, null, null);
      head := h;
      nodes, repr := [h], {h};
      items, history := [], [];
    }

    /** A new node behind `prev`. */
    method LinkNode(prev: Titem, ghost k: nat, node: Titem)
      requires Chained() && k < |nodes| && prev == nodes[k] && node !in repr && node.next == prev.next
      modifies prev`next, this`nodes, this`repr
      ensures Chained() && repr == old(repr) + {node}
      ensures nodes == old(nodes)[..k + 1] + [node] + old(nodes)[k + 1..]
    {
      prev.next := node;
      nodes := nodes[..k + 1] + [node] + nodes[k + 1..];
      repr := repr + {node};
      Spliced(old(nodes), k, node);
      assert old(LinkedAt(nodes, k));
      forall i | 0 <= i < |nodes| ensures LinkedAt(nodes, i) {
        if i < k {
          assert old(LinkedAt(nodes, i));
        } else if i > k + 1 {
          assert old(LinkedAt(nodes, i - 1));
        }
      }
    }

    /** A new entry between `prev` and its successor, which gives up what the new one takes. */
    method SpliceAfter(prev: Titem, ghost k: nat, ndelta: nat, value: Retain)
      requires Valid() && k < |nodes| && prev == nodes[k]
      requires prev.next != null ==> ndelta < prev.next.delta
      modifies this`nodes, this`items, this`repr, repr
      ensures Valid() && repr >= old(repr) && fresh(repr - old(repr))
      ensures items == old(items)[..k] + Insert(old(items)[k..], ndelta, value)
    {
      var nn := prev.next;
      assert LinkedAt(nodes, k) && (k < |items| ==> HoldsAt(nodes, items, k));
      InsertHere(items, k, ndelta, value);
      items := items[..k] + Insert(items[k..], ndelta, value);
      var node := new Titem(ndelta, value, nn);
      if nn != null {
        nn.delta := nn.delta - ndelta;
      }
      assert Chained() by {
        forall i | 0 <= i < |nodes| ensures LinkedAt(nodes, i) {
          assert old(LinkedAt(nodes, i));
        }
      }
      LinkNode(prev, k, node);
      Spliced(old(nodes), k, node);
      forall i | 0 <= i < |items| ensures HoldsAt(nodes, items, i) {
        if i < k {
          assert old(HoldsAt(nodes, items, i));
        } else if i > k {
          assert old(HoldsAt(nodes, items, i - 1));
        }
      }
    }

    /** The walk has come to the node at `k`, with `ndelta` left to go. */
    ghost predicate Reached(prev: Titem, k: nat, ndelta: nat, value: Retain, goal: seq<Item<Retain>>)
      reads this, repr
    {
      && Valid() && k < |nodes| && prev == nodes[k] && prev in repr
      && goal == items[..k] + Insert(items[k..], ndelta, value)
      && (prev.next == null <==> k == |items|)
      && (k < |items| ==> prev.next == nodes[k + 1] && prev.next in repr && prev.next.delta == items[k].delta)
    }

    lemma WalkStart(secs: nat, value: Retain)
      requires Valid()
      ensures Reached(head, 0, secs, value, Insert(items, secs, value))
    {
      assert items[..0] == [] && items[0..] == items && nodes[0] in nodes;
      Walk(0, secs, value, Insert(items, secs, value));
    }

    lemma WalkOn(prev: Titem, k: nat, ndelta: nat, rest: nat, value: Retain, goal: seq<Item<Retain>>)
      requires Reached(prev, k, ndelta, value, goal) && k < |items| && items[k].delta + rest == ndelta
      ensures Reached(prev.next, k + 1, rest, value, goal)
    {
      Walk(k, ndelta, value, goal);
      assert ndelta - items[k].delta == rest;
      Walk(k + 1, rest, value, goal);
    }

    /** One step of the walk, past an entry that is not later. */
    lemma Walk(k: nat, ndelta: nat, value: Retain, goal: seq<Item<Retain>>)
      requires Valid() && k < |nodes| && goal == items[..k] + Insert(items[k..], ndelta, value)
      ensures nodes[k].next == null <==> k == |items|
      ensures k < |items| ==>
                nodes[k].next == nodes[k + 1] && nodes[k + 1] in repr && nodes[k + 1].delta == items[k].delta
      ensures k < |items| && items[k].delta <= ndelta ==>
                goal == items[..k + 1] + Insert(items[k + 1..], ndelta - items[k].delta, value)
    {
      assert LinkedAt(nodes, k);
      if k < |items| {
        assert HoldsAt(nodes, items, k) && nodes[k + 1] in nodes;
        if items[k].delta <= ndelta {
          InsertStep(items, k, ndelta, value);
        }
      }
    }

    /** The walk: past every entry that is not later. */
    method FindPlace(secs: nat, ghost value: Retain) returns (prev: Titem, ghost k: nat, ndelta: nat)
      requires Valid()
      ensures k < |nodes| && prev == nodes[k] && (prev.next != null ==> ndelta < prev.next.delta)
      ensures Insert(items, secs, value) == items[..k] + Insert(items[k..], ndelta, value)
    {
      prev, k, ndelta := head, 0, secs;
      ghost var goal := Insert(items, ndelta, value);
      WalkStart(ndelta, value);
      while prev.next != null && prev.next.delta <= ndelta
        invariant Reached(prev, k, ndelta, value, goal)
        decreases |nodes| - k
      {
        var rest := ndelta - prev.next.delta;
        WalkOn(prev, k, ndelta, rest, value, goal);
        prev, k, ndelta := prev.next, k + 1, rest;
      }
    }

    /** `add_timeout`, on the nodes: it inserts as `Insert` does on values. */
    method LinkIn(secs: nat, value: Retain)
      requires Valid()
      modifies this`nodes, this`items, this`repr, repr
      ensures Valid() && repr >= old(repr) && fresh(repr - old(repr))
      ensures items == Insert(old(items), secs, value)
    {
      var prev, k, ndelta := FindPlace(secs, value);
      SpliceAfter(prev, k, ndelta, value);
    }

    /** `add_timeout`. */
    method AddTimeout(secs: U32, value: Retain, now: nat)
      requires Valid() && Recorded()
      modifies this`nodes, this`items, this`repr, this`history, repr
      ensures Valid() && Recorded() && repr >= old(repr) && fresh(repr - old(repr))
      ensures items == Insert(old(items), Wait(secs, ElapsedSecs(instant, now)), value)
      ensures BookedAt(items, old(items), instant, secs, value, now)
      ensures history == old(history) + [Add(value, secs, now)]
    {
      InsertBooks(items, instant, secs, value, now);
      LinkIn(Wait(secs, ElapsedSecs(instant, now)), value);
      AfterNext(start, history, Add(value, secs, now));
      history := history + [Add(value, secs, now)];
    }

    /** Unlink the first entry. */
    method PopFirst()
      requires Valid() && items != []
      modifies this`nodes, this`items, head
      ensures Valid() && items == old(items)[1..]
    {
      First();
      head.next := head.next.next;
      nodes := [head] + nodes[2..];
      items := items[1..];
      assert forall n :: n in nodes ==> n in old(nodes);
      forall i | 0 <= i < |nodes| ensures LinkedAt(nodes, i) {
        assert old(LinkedAt(nodes, i + 1));
      }
      forall i | 0 <= i < |items| ensures HoldsAt(nodes, items, i) {
        assert old(HoldsAt(nodes, items, i + 1));
      }
    }

    lemma First()
      requires Valid()
      ensures head.next == null <==> items == []
      ensures items != [] ==>
                && head.next == nodes[1] && head.next in repr && LinkedAt(nodes, 1)
                && head.next.delta == items[0].delta && head.next.value == items[0].value
    {
      assert LinkedAt(nodes, 0);
      if items != [] {
        assert HoldsAt(nodes, items, 0) && nodes[1] in nodes && LinkedAt(nodes, 1);
      }
    }

    /** The loop of `expired`, up to the first entry that is not covered. */
    method PopCovered(secs: nat) returns (expired: seq<Retain>)
      requires Valid()
      modifies this`nodes, this`items, head
      ensures Valid() && items == old(items)[PopCount(old(items), secs)..]
      ensures expired == Handed(old(items)[..PopCount(old(items), secs)], old(DeadAmong(items)))
    {
      expired := [];
      ghost var was, dead, c := items, DeadAmong(items), 0;
      First();
      while head.next != null && head.next.delta <= secs
        invariant Valid() && 0 <= c <= |was| && items == was[c..]
        invariant PopCount(was, secs) == c + PopCount(items, secs)
        invariant expired == Handed(was[..c], dead)
        decreases |items|
      {
        First();
        assert items[0] == was[c];
        PopStep(was, c, secs, dead);
        var r: Retain := head.next.value;
        assert r == was[c].value;
        if !r.deleted {
          expired := expired + [r];
        }
        PopFirst();
        c := c + 1;
      }
      First();
    }

    /** The first entry's distance shrinks, and the others move with it. */
    method ShiftFirst(secs: nat)
      requires Valid() && items != [] && secs <= items[0].delta
      modifies this`items, nodes[1]
      ensures Valid() && items == Shift(old(items), secs)
    {
      First();
      head.next.delta := head.next.delta - secs;
      items := Shift(items, secs);
      forall i | 0 <= i < |nodes| ensures LinkedAt(nodes, i) {
        assert old(LinkedAt(nodes, i));
      }
      forall i | 0 <= i < |items| ensures HoldsAt(nodes, items, i) {
        assert old(HoldsAt(nodes, items, i));
      }
    }

    /** `expired`, on the nodes: pops the entries whose own distance is covered, and hands out the undeleted ones. */
    method PopExpired(now: nat) returns (expired: seq<Retain>)
      requires Valid()
      modifies this`instant, this`nodes, this`items, repr
      ensures Valid()
      ensures PopsDue(old(items), old(instant), old(DeadAmong(items)), now, items, instant, expired)
    {
      var secs := ElapsedSecs(instant, now);
      instant := instant + secs * SECOND;
      expired := PopCovered(secs);
      First();
      if head.next != null {
        ShiftFirst(secs);
      }
    }

    /** Of what stays, no more is recorded as deleted than is. */
    twostate lemma StaysTruthful(secs: nat)
      requires old(Truthful()) && items == Left(old(items), secs)
      requires forall i :: 0 <= i < |old(items)| ==> old(items)[i].value.deleted == old(items[i].value.deleted)
      requires Record().dead == old(Record().dead) + old(DeadAmong(items))
      ensures Truthful()
    {
      var k := PopCount(old(items), secs);
      LeftSubset(old(items), secs);
      forall i | 0 <= i < |items| && items[i].value in Record().dead ensures items[i].value.deleted {
        var r := old(items)[k + i].value;
        assert r in old(Record().dead) || r in old(DeadAmong(items));
      }
    }

    /** `expired`, recorded. */
    method ExpireNoted(now: nat) returns (expired: seq<Retain>)
      requires Valid() && Recorded()
      modifies this`instant, this`nodes, this`items, this`history, repr
      ensures Valid() && Recorded()
      ensures PopsDue(old(items), old(instant), old(DeadAmong(items)), now, items, instant, expired)
      ensures history == old(history) + [Delete(old(DeadAmong(items))), Expire(now)]
      ensures Record().dead == old(Record().dead) + old(DeadAmong(items))
    {
      ghost var dead := DeadAmong(items);
      expired := PopExpired(now);
      Note(dead, now);
    }

    /**
     `expired`. In every run with a clock that does not go back, what is handed out was not handed out
     before, includes every entry that is not deleted and whose deadline has come, and includes another
     exactly if the entry is covered and was brought forward enough.
     */
    method Expired(now: nat) returns (expired: seq<Retain>)
      requires Valid() && Recorded()
      modifies this`instant, this`nodes, this`items, this`history, repr
      ensures Valid() && Recorded()
      ensures PopsDue(old(items), old(instant), old(DeadAmong(items)), now, items, instant, expired)
      ensures history == old(history) + [Delete(old(DeadAmong(items))), Expire(now)]
      ensures old(Truthful()) ==> Truthful() && Accounted(start, old(history), old(DeadAmong(items)), now, expired)
    {
      ghost var truthful := Truthful();
      if truthful {
        TruthfulAccount(now);
      }
      expired := ExpireNoted(now);
      if truthful {
        StaysTruthful(ElapsedSecs(old(instant), now));
      }
    }

    /** What an expiry now would hand out. */
    lemma TruthfulAccount(now: nat)
      requires Recorded() && Truthful()
      ensures Accounted(start, history, DeadAmong(items), now,
                        Handed(items[..PopCount(items, ElapsedSecs(instant, now))], DeadAmong(items)))
    {
      ExpireTruthful(start, history, DeadAmong(items), now);
    }

    /** An expiry is recorded. */
    ghost method Note(dead: set<Retain>, now: nat)
      requires var secs := ElapsedSecs(Record().instant, now);
               items == Left(Record().items, secs) && instant == Record().instant + secs * SECOND
      modifies this`history
      ensures Recorded() && history == old(history) + [Delete(dead), Expire(now)]
      ensures Record().dead == old(Record().dead) + dead
    {
      ExpireRecorded(start, history, dead, now);
      history := history + [Delete(dead), Expire(now)];
    }

    /** Taking out the leading deleted entries, on the nodes. */
    method DropDeleted() returns (panicked: bool, ghost c: nat)
      requires Valid()
      modifies this`nodes, this`items, repr
      ensures Valid()
      ensures c <= |old(items)| && items == old(items)[c..]
      ensures forall i :: 0 <= i < c ==> old(items)[i].value.deleted
      ensures panicked <==> c < |old(items)|
      ensures panicked ==> !old(items)[c].value.deleted
    {
      c := 0;
      while head.next != null
        invariant Valid()
        invariant 0 <= c <= |old(items)| && items == old(items)[c..]
        invariant forall i :: 0 <= i < c ==> old(items)[i].value.deleted
        decreases |items|
      {
        First();
        assert items[0] == old(items)[c];
        if !head.next.value.deleted {
          return true, c;
        }
        PopFirst();
        c := c + 1;
      }
      First();
      return false, c;
    }

    /**
     `gc`. Its `prev` is the head until a live entry is met, and at that point the code expects
     `prev` to be a timeout: it panics exactly when some entry is not deleted, and otherwise
     leaves the timer empty.
     */
    method Gc() returns (panicked: bool)
      requires Valid() && Recorded()
      modifies this`nodes, this`items, this`history, repr
      ensures Valid() && Recorded()
      ensures panicked <==> !old(AllDead(items))
      ensures !panicked ==>
                items == [] && history == old(history) + [Delete(old(DeadAmong(items))), Collect(|old(items)|)]
      ensures exists n: nat :: history == old(history) + [Delete(old(DeadAmong(items))), Collect(n)]
    {
      ghost var was, dead := items, DeadAmong(items);
      ghost var c;
      panicked, c := DropDeleted();
      CollectRecorded(start, history, dead, c);
      history := history + [Delete(dead), Collect(c)];
    }
  }

  /** A node more, at its place. */
  lemma Spliced(nodes: seq<Titem>, k: nat, node: Titem)
    requires Apart(nodes) && k < |nodes| && node !in nodes
    ensures var r := nodes[..k + 1] + [node] + nodes[k + 1..];
            && Apart(r) && |r| == |nodes| + 1 && r[k + 1] == node
            && (forall i :: 0 <= i <= k ==> r[i] == nodes[i])
            && (forall i :: k + 2 <= i < |r| ==> r[i] == nodes[i - 1])
            && forall n :: n in r ==> n == node || n in nodes
  {
  }

  // ------------------------------------------------------------------------- the record

  lemma TwoNext(start: nat, ops: seq<Op<Retain>>, a: Op<Retain>, b: Op<Retain>)
    ensures After(start, ops + [a, b]) == Apply(Apply(After(start, ops), a), b)
    ensures Feasible(start, ops + [a, b]) <==>
            Feasible(start, ops) && Possible(After(start, ops), a) && Possible(Apply(After(start, ops), a), b)
  {
    assert ops + [a, b] == ops + [a] + [b];
    AfterNext(start, ops, a);
    AfterNext(start, ops + [a], b);
  }

  lemma ExpireRecorded(start: nat, ops: seq<Op<Retain>>, dead: set<Retain>, now: nat)
    ensures var c, d := After(start, ops), After(start, ops + [Delete(dead), Expire(now)]);
            var secs := ElapsedSecs(c.instant, now);
            && d.items == Left(c.items, secs) && d.instant == c.instant + secs * SECOND
            && d.dead == c.dead + dead
            && d.handed == c.handed + Handed(c.items[..PopCount(c.items, secs)], c.dead + dead)
  {
    TwoNext(start, ops, Delete(dead), Expire(now));
  }

  lemma CollectRecorded(start: nat, ops: seq<Op<Retain>>, dead: set<Retain>, n: nat)
    ensures var c, d := After(start, ops), After(start, ops + [Delete(dead), Collect(n)]);
            d.instant == c.instant && (n <= |c.items| ==> d.items == c.items[n..])
  {
    TwoNext(start, ops, Delete(dead), Collect(n));
  }

  lemma {:induction false} HandedSame(items: seq<Item<Retain>>, a: set<Retain>, b: set<Retain>)
    requires forall i :: 0 <= i < |items| ==> (items[i].value in a <==> items[i].value in b)
    ensures Handed(items, a) == Handed(items, b)
  {
    if items != [] {
      HandedSame(items[1..], a, b);
    }
  }

  lemma LeftSubset(items: seq<Item<Retain>>, secs: nat)
    ensures forall i :: 0 <= i < |Left(items, secs)| ==>
              Left(items, secs)[i].value == items[PopCount(items, secs) + i].value
  {
  }

  /** Every entry that is not deleted and whose deadline has come is among these. */
  ghost predicate AllDue(c: Clock<Retain>, dead: set<Retain>, now: nat, expired: seq<Retain>) {
    forall i :: 0 <= i < |c.items| ==>
      (c.items[i].value !in dead && Deadline(c, c.items[i].value) <= now ==> c.items[i].value in expired)
  }

  /** Which of the others are among them. */
  ghost predicate EarlyExactly(c: Clock<Retain>, dead: set<Retain>, now: nat, expired: seq<Retain>) {
    forall i :: 0 <= i < |c.items| && c.items[i].value !in dead ==> EarlyAt(c, now, expired, i)
  }

  ghost predicate EarlyAt(c: Clock<Retain>, now: nat, expired: seq<Retain>, i: nat)
    requires i < |c.items|
  {
    var r := c.items[i].value;
    r in expired && now < Deadline(c, r) <==>
    && Covered(c.items, ElapsedSecs(c.instant, now), i)
    && now < c.instant + Offset(c.items, i) * SECOND + Early(c, r)
  }

  lemma PendingNotHanded(c: Clock<Retain>, i: nat)
    requires Inv(c) && i < |c.items|
    ensures c.items[i].value in c.deadline && c.items[i].value !in c.handed
  {
    var vs, h := Values(c.items), c.handed;
    assert (vs + h)[i] == c.items[i].value;
    forall j | 0 <= j < |h| ensures h[j] != c.items[i].value {
      assert (vs + h)[|vs| + j] == h[j];
    }
  }

  /**
   The record hands out what the list does; in a run that can be, nothing twice, all that is due and not
   deleted, and of the rest exactly what is early.
   */
  ghost predicate Accounted(start: nat, ops: seq<Op<Retain>>, dead: set<Retain>, now: nat, expired: seq<Retain>) {
    var c, next := After(start, ops), ops + [Delete(dead), Expire(now)];
    && After(start, next).handed == c.handed + expired
    && (Feasible(start, next) ==>
          Distinct(c.handed + expired) && AllDue(c, dead, now, expired) && EarlyExactly(c, dead, now, expired))
  }

  lemma AllDueAt(c: Clock<Retain>, dead: set<Retain>, now: nat, expired: seq<Retain>, i: nat)
    requires Inv(c) && Inv(Apply(c, Delete(dead))) && Possible(Apply(c, Delete(dead)), Expire(now))
    requires Apply(Apply(c, Delete(dead)), Expire(now)).handed == c.handed + expired
    requires i < |c.items| && c.items[i].value !in c.dead + dead
    ensures Deadline(c, c.items[i].value) <= now ==> c.items[i].value in expired
  {
    PendingNotHanded(c, i);
    if Deadline(c, c.items[i].value) <= now {
      HandedAt(Apply(c, Delete(dead)), now, c.items[i].value);
    }
  }

  lemma EarlyHolds(start: nat, ops: seq<Op<Retain>>, dead: set<Retain>, now: nat, expired: seq<Retain>, i: nat)
    requires Feasible(start, ops + [Delete(dead), Expire(now)])
    requires After(start, ops + [Delete(dead), Expire(now)]).handed == After(start, ops).handed + expired
    requires var c := After(start, ops); i < |c.items| && c.items[i].value !in c.dead + dead && Inv(c)
    ensures EarlyAt(After(start, ops), now, expired, i)
  {
    PendingNotHanded(After(start, ops), i);
    AfterNext(start, ops, Delete(dead));
    assert ops + [Delete(dead)] + [Expire(now)] == ops + [Delete(dead), Expire(now)];
    AfterNext(start, ops + [Delete(dead)], Expire(now));
    HandedEarlyIff(start, ops + [Delete(dead)], now, i);
  }

  lemma ExpireTruthful(start: nat, ops: seq<Op<Retain>>, dead: set<Retain>, now: nat)
    requires var c := After(start, ops);
             forall i :: 0 <= i < |c.items| && c.items[i].value in c.dead ==> c.items[i].value in dead
    ensures var c := After(start, ops);
            Accounted(start, ops, dead, now, Handed(c.items[..PopCount(c.items, ElapsedSecs(c.instant, now))], dead))
  {
    var c := After(start, ops);
    var popped := c.items[..PopCount(c.items, ElapsedSecs(c.instant, now))];
    ExpireRecorded(start, ops, dead, now);
    HandedSame(popped, dead, c.dead + dead);
    if Feasible(start, ops + [Delete(dead), Expire(now)]) {
      ExpireAccounts(start, ops, dead, now, Handed(popped, dead));
    }
  }

  lemma ExpireAccounts(start: nat, ops: seq<Op<Retain>>, dead: set<Retain>, now: nat, expired: seq<Retain>)
    requires Feasible(start, ops + [Delete(dead), Expire(now)])
    requires After(start, ops + [Delete(dead), Expire(now)]).handed == After(start, ops).handed + expired
    requires var c := After(start, ops);
             forall i :: 0 <= i < |c.items| && c.items[i].value in c.dead ==> c.items[i].value in dead
    ensures var c := After(start, ops);
            Distinct(c.handed + expired) && AllDue(c, dead, now, expired) && EarlyExactly(c, dead, now, expired)
  {
    var c := After(start, ops);
    TwoNext(start, ops, Delete(dead), Expire(now));
    HandedOnce(start, ops + [Delete(dead), Expire(now)]);
    RunInv(start, ops);
    StepInv(c, Delete(dead));
    forall i | 0 <= i < |c.items| && c.items[i].value !in dead
      ensures Deadline(c, c.items[i].value) <= now ==> c.items[i].value in expired
    {
      AllDueAt(c, dead, now, expired, i);
    }
    forall i | 0 <= i < |c.items| && c.items[i].value !in dead ensures EarlyAt(c, now, expired, i) {
      EarlyHolds(start, ops, dead, now, expired, i);
    }
  }
}
