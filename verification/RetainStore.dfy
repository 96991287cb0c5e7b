/**
 The index of retained topics and the timer's record side by side, on values: what makes them coherent, and
 that every change of the cluster thread keeps it.
 */
module RetainStore {
  import opened Basics
  import opened TimerSpec
  import opened DiffTimer

  datatype Publish = Publish(topicName: Bytes, payload: Bytes, messageExpiryInterval: Option<U32>)

  /**
   The index, the record of the timer, the entries that were ever made, those of them that are
   deleted, and the deadlines of the topics whose entry is in the timer.
   */
  datatype State = State(
    topics: map<Bytes, Retain>,
    clock: Clock<Retain>,
    known: set<Retain>,
    dead: set<Retain>,
    due: map<Bytes, nat>)

  /** The entry is that of its topic. */
  ghost predicate IsIndexed(s: State, r: Retain) {
    r.topicName in s.topics && s.topics[r.topicName] == r
  }

  ghost predicate Pending(s: State, r: Retain) {
    r in ValueSet(s.clock.items)
  }

  ghost predicate Booked(c: Clock<Retain>, r: Retain, deadline: nat) {
    r in c.deadline && c.deadline[r] == deadline
  }

  /**
   The entry of a topic is known, of that topic and not deleted. The topic is due exactly if the entry is in
   the timer, at the deadline it was booked for.
   */
  ghost predicate TopicAt(s: State, t: Bytes) {
    && (t in s.topics ==>
          && s.topics[t] in s.known && s.topics[t].topicName == t && s.topics[t] !in s.dead
          && (t in s.due <==> Pending(s, s.topics[t])))
    && (t in s.due ==> t in s.topics && Booked(s.clock, s.topics[t], s.due[t]))
  }

  /** A timer entry that is not deleted is that of its topic, and none recorded as deleted has come back. */
  ghost predicate EntryAt(s: State, r: Retain) {
    Pending(s, r) ==> (r !in s.dead ==> IsIndexed(s, r)) && (r in s.clock.dead ==> r in s.dead)
  }

  /** Every object that the timer mentions is known. */
  ghost predicate Owned(s: State) {
    ValueSet(s.clock.items) <= s.known && s.clock.dead <= s.known && s.clock.deadline.Keys <= s.known
  }

  ghost predicate Coherent(s: State) {
    && Owned(s) && Distinct(Values(s.clock.items))
    && (forall t :: TopicAt(s, t))
    && (forall r {:trigger EntryAt(s, r)} :: r in s.known ==> EntryAt(s, r))
  }

  type Store = s: State | Coherent(s) ghost witness NothingStored(0)

  ghost function NothingStored(now: nat): (s: State)
    ensures Coherent(s) && s == State(map[], Begin(now), {}, {}, map[])
  {
    var s := State(map[], Begin(now), {}, {}, map[]);
    assert forall t :: TopicAt(s, t);
    s
  }

  /** Those of the entries that are marked deleted now. */
  ghost function DeadOf(known: set<Retain>): set<Retain>
    reads known
  {
    set r | r in known && r.deleted
  }

  ghost function TopicsOf(rs: seq<Retain>): set<Bytes> {
    set i | 0 <= i < |rs| :: rs[i].topicName
  }

  // ------------------------------------------------------------------------- the changes

  /** A new entry takes its topic; the one it replaces is deleted. */
  ghost function Indexed(s: Store, retain: Retain): (r: Store)
    requires retain !in s.known && retain !in s.dead
    ensures r.topics == s.topics[retain.topicName := retain] && r.known == s.known + {retain} && r.clock == s.clock
    ensures r.due == s.due - {retain.topicName}
  {
    var t := retain.topicName;
    var r := s.(topics := s.topics[t := retain],
                known := s.known + {retain},
                dead := if t in s.topics then s.dead + {s.topics[t]} else s.dead,
                due := s.due - {t});
    assert Coherent(r) by {
      forall x ensures TopicAt(r, x) {
        assert TopicAt(s, x);
        assert TopicAt(s, t);
      }
      forall e | e in r.known ensures EntryAt(r, e) {
        assert e in s.known ==> EntryAt(s, e);
      }
    }
    r
  }

  /** The entry is that of its topic, and the timer does not hold it. */
  ghost predicate Expirable(s: State, r: Retain) {
    !Pending(s, r) && IsIndexed(s, r)
  }

  /** The entry of a topic is booked. */
  ghost function BookedFor(s: Store, retain: Retain, secs: nat, now: nat): (r: Store)
    requires Expirable(s, retain) && retain !in s.clock.dead
    ensures r == s.(clock := Apply(s.clock, Add(retain, secs, now)),
                    due := s.due[retain.topicName := now + secs * SECOND])
  {
    var r := s.(clock := Apply(s.clock, Add(retain, secs, now)), due := s.due[retain.topicName := now + secs * SECOND]);
    BookedKeeps(s, retain, secs, now, r);
    r
  }

  lemma BookedKeeps(s: Store, retain: Retain, secs: nat, now: nat, r: State)
    requires Expirable(s, retain) && retain !in s.clock.dead
    requires r == s.(clock := Apply(s.clock, Add(retain, secs, now)),
                     due := s.due[retain.topicName := now + secs * SECOND])
    ensures Coherent(r)
  {
    InsertAdds(s.clock.items, Wait(secs, ElapsedSecs(s.clock.instant, now)), retain);
    assert TopicAt(s, retain.topicName);
    forall x ensures TopicAt(r, x) {
      assert TopicAt(s, x);
    }
    forall e | e in r.known ensures EntryAt(r, e) {
      assert EntryAt(s, e);
    }
  }

  /** The entry of a topic is deleted and leaves the index. */
  ghost function Unindexed(s: Store, t: Bytes): (r: Store)
    ensures r.topics == s.topics - {t} && r.due == s.due - {t} && r.known == s.known && r.clock == s.clock
    ensures r.dead == if t in s.topics then s.dead + {s.topics[t]} else s.dead
  {
    var r := s.(topics := s.topics - {t},
                dead := if t in s.topics then s.dead + {s.topics[t]} else s.dead,
                due := s.due - {t});
    assert Coherent(r) by {
      assert TopicAt(s, t);
      forall x ensures TopicAt(r, x) {
        assert TopicAt(s, x);
      }
      forall e | e in r.known ensures EntryAt(r, e) {
        assert EntryAt(s, e);
      }
    }
    r
  }

  lemma UnindexNone(s: Store, t: Bytes)
    requires t !in s.topics
    ensures Unindexed(s, t) == s
  {
    assert TopicAt(s, t);
    assert s.topics - {t} == s.topics && s.due - {t} == s.due;
  }

  /** An entry that the timer no longer holds leaves the index. */
  ghost function Dropped(s: Store, item: Retain): (r: Store)
    requires Expirable(s, item)
    ensures r == s.(topics := s.topics - {item.topicName})
  {
    var r := s.(topics := s.topics - {item.topicName});
    assert Coherent(r) by {
      forall x ensures TopicAt(r, x) {
        assert TopicAt(s, x);
      }
      forall e | e in r.known ensures EntryAt(r, e) {
        assert EntryAt(s, e);
      }
    }
    r
  }

  // -------------------------------------------------------------------------- an expiry

  /** The clock after `expired`, told which of its entries are deleted. */
  ghost function ClockAtExpiry(c: Clock<Retain>, dead: set<Retain>, now: nat): Clock<Retain> {
    Apply(Apply(c, Delete(dead)), Expire(now))
  }

  /** What `expired` hands out. */
  ghost function HandedAtExpiry(c: Clock<Retain>, dead: set<Retain>, now: nat): seq<Retain> {
    Handed(c.items[..PopCount(c.items, ElapsedSecs(c.instant, now))], dead)
  }

  /** The deleted entries of the timer. */
  ghost function DeadPending(s: State): set<Retain> {
    ValueSet(s.clock.items) * s.dead
  }

  ghost function HandedFrom(s: State, now: nat): seq<Retain> {
    HandedAtExpiry(s.clock, DeadPending(s), now)
  }

  /** Entries leave the timer by being deleted or handed out. */
  lemma ExpirySplits(c: Clock<Retain>, dead: set<Retain>, now: nat)
    requires Distinct(Values(c.items))
    ensures var d := ValueSet(c.items) * dead;
            var c', expired := ClockAtExpiry(c, d, now), HandedAtExpiry(c, d, now);
            && Distinct(Values(c'.items)) && ValueSet(c'.items) <= ValueSet(c.items)
            && (forall i :: 0 <= i < |expired| ==>
                  expired[i] in ValueSet(c.items) && expired[i] !in ValueSet(c'.items) && expired[i] !in dead)
            && (forall r :: r in ValueSet(c.items) && r !in ValueSet(c'.items) && r !in dead ==> r in expired)
            && Distinct(expired)
  {
    var secs := ElapsedSecs(c.instant, now);
    ExpireKeeps(c.items, secs);
    ExpireHands(c.items[..PopCount(c.items, secs)], ValueSet(c.items) * dead);
  }

  lemma TopicOfMember(rs: seq<Retain>, r: Retain)
    requires r in rs
    ensures r.topicName in TopicsOf(rs)
  {
    var i :| 0 <= i < |rs| && rs[i] == r;
  }

  /** The timer has handed out what it popped, and the index does not know yet. */
  ghost function HandedOut(s: Store, now: nat): (r: Store)
    ensures r == s.(clock := ClockAtExpiry(s.clock, DeadPending(s), now), due := s.due - TopicsOf(HandedFrom(s, now)))
  {
    var r := s.(clock := ClockAtExpiry(s.clock, DeadPending(s), now), due := s.due - TopicsOf(HandedFrom(s, now)));
    ExpiryKeeps(s, now, r);
    r
  }

  lemma HandedParts(s: Store, now: nat, clock: Clock<Retain>, dead: set<Retain>)
    requires clock == s.clock && dead == ValueSet(clock.items) * s.dead
    ensures HandedFrom(s, now) == HandedAtExpiry(clock, dead, now)
    ensures var r := HandedOut(s, now);
            r.clock == ClockAtExpiry(clock, dead, now) && r.topics == s.topics && r.known == s.known && r.dead == s.dead
    ensures Punctually(s, now) <==> Accurate(clock, dead, now, HandedAtExpiry(clock, dead, now))
  {
  }

  /** A topic is handed out exactly if its entry was in the timer, and no longer is. */
  lemma ExpiryAt(s: Store, now: nat, r: State, t: Bytes)
    requires r == s.(clock := ClockAtExpiry(s.clock, DeadPending(s), now), due := s.due - TopicsOf(HandedFrom(s, now)))
    ensures TopicAt(r, t)
    ensures t in TopicsOf(HandedFrom(s, now)) ==> t in s.due
  {
    var expired := HandedFrom(s, now);
    ExpirySplits(s.clock, s.dead, now);
    assert TopicAt(s, t);
    if t in TopicsOf(expired) {
      var i :| 0 <= i < |expired| && expired[i].topicName == t;
      assert EntryAt(s, expired[i]);
    } else if t in s.topics && Pending(s, s.topics[t]) && !Pending(r, s.topics[t]) {
      TopicOfMember(expired, s.topics[t]);
    }
  }

  lemma ExpiryKeeps(s: Store, now: nat, r: State)
    requires r == s.(clock := ClockAtExpiry(s.clock, DeadPending(s), now), due := s.due - TopicsOf(HandedFrom(s, now)))
    ensures Coherent(r)
  {
    ExpirySplits(s.clock, s.dead, now);
    forall t ensures TopicAt(r, t) {
      ExpiryAt(s, now, r, t);
    }
    forall e | e in r.known ensures EntryAt(r, e) {
      assert EntryAt(s, e);
    }
  }

  /** What is handed out is expirable, each entry once. */
  lemma HandedExpirable(s: Store, now: nat)
    ensures var expired := HandedFrom(s, now);
            && (forall i :: 0 <= i < |expired| ==> Expirable(HandedOut(s, now), expired[i]))
            && Distinct(expired)
  {
    var expired := HandedFrom(s, now);
    ExpirySplits(s.clock, s.dead, now);
    forall i | 0 <= i < |expired| ensures Expirable(HandedOut(s, now), expired[i]) {
      assert EntryAt(s, expired[i]);
    }
  }

  /** Only topics that are due are handed out. */
  lemma HandedDue(s: Store, now: nat)
    ensures TopicsOf(HandedFrom(s, now)) <= s.due.Keys
  {
    forall t | t in TopicsOf(HandedFrom(s, now)) ensures t in s.due {
      ExpiryAt(s, now, HandedOut(s, now), t);
    }
  }

  /** The place in the timer of the entry of a topic that is due. */
  lemma DuePlace(s: Store, t: Bytes) returns (i: nat)
    requires t in s.due
    ensures t in s.topics && i < |s.clock.items| && s.clock.items[i].value == s.topics[t] && s.topics[t] !in s.dead
    ensures Deadline(s.clock, s.topics[t]) == s.due[t] && s.topics[t].topicName == t
  {
    assert TopicAt(s, t);
    i :| 0 <= i < |s.clock.items| && s.clock.items[i].value == s.topics[t];
  }

  /** Where all that is due is handed out, no topic is left with a deadline that has come. */
  lemma ExpiryOnTime(s: Store, now: nat)
    requires AllDue(s.clock, DeadPending(s), now, HandedFrom(s, now))
    ensures forall t :: t in HandedOut(s, now).due ==> HandedOut(s, now).due[t] > now
  {
    forall t | t in HandedOut(s, now).due ensures s.due[t] > now {
      var i := DuePlace(s, t);
      if s.due[t] <= now {
        TopicOfMember(HandedFrom(s, now), s.topics[t]);
      }
    }
  }

  /** The entry is covered, and the clock short of its offset with all that it was brought forward. */
  ghost predicate Forward(c: Clock<Retain>, now: nat, i: nat)
    requires i < |c.items|
  {
    && Covered(c.items, ElapsedSecs(c.instant, now), i)
    && now < c.instant + Offset(c.items, i) * SECOND + Early(c, c.items[i].value)
  }

  /** That is so of the entry of the topic. */
  ghost predicate BroughtForward(s: State, now: nat, t: Bytes) {
    && t in s.topics
    && exists i :: 0 <= i < |s.clock.items| && s.clock.items[i].value == s.topics[t] && Forward(s.clock, now, i)
  }

  lemma SamePlace(s: Store, i: nat, k: nat)
    requires i < |s.clock.items| && k < |s.clock.items| && s.clock.items[i].value == s.clock.items[k].value
    ensures i == k
  {
    assert Values(s.clock.items)[k] == Values(s.clock.items)[i];
  }

  lemma HandedTopic(s: Store, now: nat, t: Bytes)
    requires t in s.topics
    ensures t in TopicsOf(HandedFrom(s, now)) <==> s.topics[t] in HandedFrom(s, now)
  {
    var expired := HandedFrom(s, now);
    assert TopicAt(s, t);
    if t in TopicsOf(expired) {
      var n :| 0 <= n < |expired| && expired[n].topicName == t;
      HandedExpirable(s, now);
      assert Expirable(HandedOut(s, now), expired[n]);
    }
    if s.topics[t] in expired {
      TopicOfMember(expired, s.topics[t]);
    }
  }

  /** Exactly then a topic is handed out before its deadline, where `EarlyExactly` holds. */
  lemma ExpiryEarlyIff(s: Store, now: nat, t: Bytes)
    requires EarlyExactly(s.clock, DeadPending(s), now, HandedFrom(s, now)) && t in s.due
    ensures t in TopicsOf(HandedFrom(s, now)) && now < s.due[t] <==> BroughtForward(s, now, t)
  {
    var i := DuePlace(s, t);
    assert EarlyAt(s.clock, now, HandedFrom(s, now), i);
    HandedTopic(s, now, t);
    if k :| 0 <= k < |s.clock.items| && s.clock.items[k].value == s.topics[t] && Forward(s.clock, now, k) {
      SamePlace(s, i, k);
    }
  }

  /** What runs that can be promise of an expiry. */
  ghost predicate Accurate(c: Clock<Retain>, dead: set<Retain>, now: nat, expired: seq<Retain>) {
    AllDue(c, dead, now, expired) && EarlyExactly(c, dead, now, expired)
  }

  ghost predicate Punctually(s: State, now: nat) {
    Accurate(s.clock, DeadPending(s), now, HandedFrom(s, now))
  }

  // ------------------------------------------------------------------------- collecting

  ghost function ClockAtGc(c: Clock<Retain>, dead: set<Retain>): Clock<Retain> {
    Apply(Apply(c, Delete(dead)), Op.Collect(|c.items|))
  }

  /** An entry is live exactly if a topic is due. */
  lemma LiveIffDue(s: Store)
    ensures ValueSet(s.clock.items) <= s.dead <==> s.due == map[]
  {
    if t :| t in s.due {
      var i := DuePlace(s, t);
      assert s.topics[t] in ValueSet(s.clock.items);
    }
    if r :| r in ValueSet(s.clock.items) && r !in s.dead {
      assert EntryAt(s, r) && TopicAt(s, r.topicName);
    }
  }

  /** With only deleted entries in the timer no topic is due, and the timer can be emptied. */
  ghost function Emptied(s: Store): (r: Store)
    requires ValueSet(s.clock.items) <= s.dead
    ensures r == s.(clock := ClockAtGc(s.clock, DeadPending(s))) && r.clock.items == [] && r.due == map[]
  {
    LiveIffDue(s);
    var r := s.(clock := ClockAtGc(s.clock, DeadPending(s)));
    assert Coherent(r) by {
      assert ValueSet(r.clock.items) == {};
      forall x ensures TopicAt(r, x) {
        assert TopicAt(s, x);
      }
    }
    r
  }

  lemma NothingDue(s: Store, now: nat, messages: map<Bytes, Publish>)
    requires s.clock.items == []
    ensures HandedOut(s, now).clock.items == [] && messages - TopicsOf(HandedFrom(s, now)) == messages
  {
    assert HandedFrom(s, now) == [] && TopicsOf(HandedFrom(s, now)) == {};
  }

  // --------------------------------------------------------------------------- messages

  ghost function DueWith(due: map<Bytes, nat>, publish: Publish, now: nat): map<Bytes, nat> {
    match publish.messageExpiryInterval
    case Some(secs) => due[publish.topicName := now + secs * SECOND]
    case None => due - {publish.topicName}
  }

  /** What the timer is told of a message. */
  ghost function Bookings(publish: Publish, retain: Retain, now: nat): seq<Op<Retain>> {
    match publish.messageExpiryInterval
    case Some(secs) => [Add(retain, secs, now)]
    case None => []
  }

  /** The entry of a message is booked if the message expires. */
  ghost function Scheduled(s: Store, publish: Publish, retain: Retain, now: nat): (r: Store)
    requires Expirable(s, retain) && retain !in s.clock.dead
    ensures r.topics == s.topics && r.known == s.known && r.dead == s.dead
  {
    match publish.messageExpiryInterval
    case Some(secs) => BookedFor(s, retain, secs, now)
    case None => s
  }

  /** A new entry is not in the timer. */
  lemma NewExpirable(s: Store, retain: Retain)
    requires retain !in s.known && retain !in s.dead
    ensures Expirable(Indexed(s, retain), retain) && retain !in s.clock.dead && retain !in s.clock.deadline
  {
  }

  /** A message takes its topic under a new entry. */
  ghost function Stored(s: Store, publish: Publish, retain: Retain, now: nat): (r: Store)
    requires retain !in s.known && retain !in s.dead
  {
    NewExpirable(s, retain);
    Scheduled(Indexed(s, retain), publish, retain, now)
  }

  lemma Rebooked(due: map<Bytes, nat>, t: Bytes, deadline: nat)
    ensures (due - {t})[t := deadline] == due[t := deadline]
  {
  }

  lemma StoredIs(s: Store, publish: Publish, retain: Retain, now: nat)
    requires retain.topicName == publish.topicName && retain !in s.known && retain !in s.dead
    ensures var r := Stored(s, publish, retain, now);
            && r.topics == s.topics[publish.topicName := retain] && r.known == s.known + {retain}
            && r.due == DueWith(s.due, publish, now)
  {
    NewExpirable(s, retain);
    if publish.messageExpiryInterval.Some? {
      Rebooked(s.due, publish.topicName, now + publish.messageExpiryInterval.value * SECOND);
    }
  }

  lemma RemoveTopics<V>(m: map<Bytes, V>, rs: seq<Retain>, i: nat)
    requires i < |rs|
    ensures (m - TopicsOf(rs[..i])) - {rs[i].topicName} == m - TopicsOf(rs[..i + 1])
  {
    forall t ensures t in TopicsOf(rs[..i + 1]) <==> t in TopicsOf(rs[..i]) || t == rs[i].topicName {
      if t in TopicsOf(rs[..i]) {
        var j :| 0 <= j < i && rs[..i][j].topicName == t;
        assert rs[..i + 1][j].topicName == t;
      }
      assert rs[..i + 1][i] == rs[i];
    }
  }

  lemma StillExpirable(s: Store, expired: seq<Retain>, i: nat)
    requires i < |expired| && Distinct(expired)
    requires forall j :: i <= j < |expired| ==> Expirable(s, expired[j])
    ensures forall j :: i < j < |expired| ==> Expirable(Dropped(s, expired[i]), expired[j])
  {
    forall j | i < j < |expired| ensures Expirable(Dropped(s, expired[i]), expired[j]) {
      assert Expirable(s, expired[j]) && expired[i] != expired[j];
    }
  }

  /** A message is stored exactly for a topic indexed, and is due exactly if it has an expiry interval. */
  ghost predicate MirroredAt(messages: map<Bytes, Publish>, topics: map<Bytes, Retain>, due: map<Bytes, nat>,
                             t: Bytes)
  {
    && (t in messages <==> t in topics)
    && (t in messages ==> (t in due <==> messages[t].messageExpiryInterval.Some?))
  }

  ghost predicate Mirrored(messages: map<Bytes, Publish>, topics: map<Bytes, Retain>, due: map<Bytes, nat>) {
    forall t :: MirroredAt(messages, topics, due, t)
  }

  lemma MirroredKeys(messages: map<Bytes, Publish>, topics: map<Bytes, Retain>, due: map<Bytes, nat>)
    requires Mirrored(messages, topics, due)
    ensures messages.Keys == topics.Keys
  {
    forall t ensures t in messages <==> t in topics {
      assert MirroredAt(messages, topics, due, t);
    }
  }

  lemma MirroredWithout(messages: map<Bytes, Publish>, topics: map<Bytes, Retain>, due: map<Bytes, nat>, ts: set<Bytes>)
    requires Mirrored(messages, topics, due)
    ensures Mirrored(messages - ts, topics - ts, due - ts)
  {
    var messages', topics', due' := messages - ts, topics - ts, due - ts;
    forall t ensures MirroredAt(messages', topics', due', t) {
      assert MirroredAt(messages, topics, due, t);
    }
  }

  lemma MirroredWith(messages: map<Bytes, Publish>, topics: map<Bytes, Retain>, due: map<Bytes, nat>,
                     publish: Publish, retain: Retain, now: nat)
    requires Mirrored(messages, topics, due)
    ensures var p := publish.topicName;
            Mirrored(messages[p := publish], topics[p := retain], DueWith(due, publish, now))
  {
    var p := publish.topicName;
    var messages', topics', due' := messages[p := publish], topics[p := retain], DueWith(due, publish, now);
    forall t ensures MirroredAt(messages', topics', due', t) {
      assert MirroredAt(messages, topics, due, t);
    }
  }

  /** Some message has an expiry interval. */
  ghost predicate Expires(messages: map<Bytes, Publish>) {
    exists t :: t in messages && messages[t].messageExpiryInterval.Some?
  }

  lemma ExpiresIffDue(messages: map<Bytes, Publish>, s: Store)
    requires Mirrored(messages, s.topics, s.due)
    ensures Expires(messages) <==> s.due != map[]
  {
    if t :| t in s.due {
      assert TopicAt(s, t) && MirroredAt(messages, s.topics, s.due, t);
    }
    if t :| t in messages && messages[t].messageExpiryInterval.Some? {
      assert MirroredAt(messages, s.topics, s.due, t);
    }
  }
}
