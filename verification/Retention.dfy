/**
 Retained messages in the cluster thread: the trie, the index of topics and the timer, kept
 coherent through a `deleted` flag that the index and the timer share.
 */
module Retention {
  import opened Basics
  import opened RetainedTrie
  import opened TimerSpec
  import opened DiffTimer
  import opened RetainStore

  // -------------------------------------------------------------------------- the thread

  lemma OneMore<T>(xs: seq<T>, k: nat)
    requires k < |xs|
    ensures xs[..k + 1] == xs[..k] + [xs[k]]
  {
  }

  /** `Retain::delete`. */
  method MarkDeleted(r: Retain, ghost known: set<Retain>)
    requires r in known
    modifies r`deleted
    ensures r.deleted && DeadOf(known) == old(DeadOf(known)) + {r}
  {
    r.deleted := true;
  }

  class Cluster {
    const timer: Timer
    const retained: Retained<Publish>
    var topics: map<Bytes, Retain>
    ghost var store: Store

    /** The timer and the index are as `store` has them. */
    ghost predicate Timed()
      reads this, timer, timer.repr, store.known
    {
      && timer.Valid() && timer.Recorded()
      && store.topics == topics && store.clock == timer.Record() && store.dead == DeadOf(store.known)
    }

    /** And the trie has their messages. */
    ghost predicate Valid()
      reads this, timer, timer.repr, store.known, retained
    {
      Timed() && retained.Valid() && Mirrored(retained.messages, topics, store.due)
    }

    constructor (now: nat)
      ensures Valid() && retained.messages == map[] && topics == map[]
      ensures fresh(timer) && fresh(timer.repr) && fresh(retained) && store.known == {}
      ensures timer.start == now && timer.history == []
    {
      timer := new Timer(now);
      retained := new Retained();
      topics := map[];
      store := NothingStored(now);
      new;
      assert DeadOf({}) == {} && timer.Record() == Begin(now);
    }

    /** The new entry takes its topic, and the one it replaces is marked deleted. */
    method Index(topic: Bytes) returns (retain: Retain)
      requires Timed()
      modifies this, store.known
      ensures Timed() && fresh(retain) && retain.topicName == topic
      ensures retain !in old(store).known && retain !in old(store).dead && store == Indexed(old(store), retain)
    {
      retain := new Retain(topic);
      assert TopicAt(store, topic);
      ghost var next := Indexed(store, retain);
      if topic in topics {
        MarkDeleted(topics[topic], store.known);
      }
      topics := topics[topic := retain];
      store := next;
      assert DeadOf(store.known) == next.dead;
    }

    /** The indexed entry is booked for expiry. */
    method Book(retain: Retain, secs: U32, now: nat)
      requires Timed() && Expirable(store, retain) && retain !in store.clock.dead
      modifies this`store, timer`nodes, timer`items, timer`repr, timer`history, timer.repr
      ensures Timed() && store == BookedFor(old(store), retain, secs, now)
      ensures timer.history == old(timer.history) + [Add(retain, secs, now)]
      ensures timer.repr >= old(timer.repr) && fresh(timer.repr - old(timer.repr))
    {
      AfterNext(timer.start, timer.history, Add(retain, secs, now));
      timer.AddTimeout(secs, retain, now);
      store := BookedFor(store, retain, secs, now);
      assert DeadOf(store.known) == old(DeadOf(store.known));
    }

    /** The book keeping for message expiry. */
    method Schedule(publish: Publish, retain: Retain, now: nat)
      requires Timed() && Expirable(store, retain) && retain !in store.clock.dead
      modifies this`store, timer`nodes, timer`items, timer`repr, timer`history, timer.repr
      ensures Timed() && store == Scheduled(old(store), publish, retain, now)
      ensures timer.history == old(timer.history) + Bookings(publish, retain, now)
      ensures timer.repr >= old(timer.repr) && fresh(timer.repr - old(timer.repr))
    {
      if publish.messageExpiryInterval.Some? {
        Book(retain, publish.messageExpiryInterval.value, now);
      }
    }

    /** The message takes its topic, in index and trie. */
    method Remember(publish: Publish) returns (retain: Retain)
      requires Timed() && retained.Valid()
      modifies this, store.known, retained
      ensures Timed() && fresh(retain) && retain.topicName == publish.topicName
      ensures retain !in old(store).known && retain !in old(store).dead && store == Indexed(old(store), retain)
      ensures retained.Valid() && retained.messages == old(retained.messages)[publish.topicName := publish]
    {
      retain := Index(publish.topicName);
      retained.SetMessage(publish.topicName, publish);
    }

    /** The message takes its topic, in index, trie and timer. */
    method Replace(publish: Publish, now: nat) returns (retain: Retain)
      requires Timed() && retained.Valid()
      modifies this, timer, timer.repr, store.known, retained
      ensures Timed() && fresh(retain) && retain.topicName == publish.topicName
      ensures retain !in old(store).known && retain !in old(store).dead
      ensures store == Stored(old(store), publish, retain, now)
      ensures retained.Valid() && retained.messages == old(retained.messages)[publish.topicName := publish]
      ensures timer.history == old(timer.history) + Bookings(publish, retain, now)
      ensures timer.repr >= old(timer.repr) && fresh(timer.repr - old(timer.repr))
    {
      retain := Remember(publish);
      Schedule(publish, retain, now);
    }

    /**
     `handle_set_retain_topic`: the latest message replaces the one before, and its deadline, if it
     has one, the deadline before.
     */
    method SetRetainTopic(publish: Publish, now: nat) returns (ghost retain: Retain)
      requires Valid()
      modifies this, timer, timer.repr, store.known, retained
      ensures Valid() && retained.messages == old(retained.messages)[publish.topicName := publish]
      ensures fresh(retain) && retain !in old(store).known && store.known == old(store).known + {retain}
      ensures topics == old(topics)[publish.topicName := retain]
      ensures store.due == DueWith(old(store).due, publish, now)
      ensures publish.topicName in old(topics) ==> old(topics)[publish.topicName].deleted
      ensures timer.history == old(timer.history) + Bookings(publish, retain, now)
      ensures timer.repr >= old(timer.repr) && fresh(timer.repr - old(timer.repr))
    {
      retain := Replace(publish, now);
      MirroredWith(old(retained.messages), old(topics), old(store).due, publish, retain, now);
      StoredIs(old(store), publish, retain, now);
    }

    /** The entry of a topic is marked deleted and leaves the index. */
    method Detach(topic: Bytes)
      requires Timed() && topic in topics
      modifies this`topics, this`store, store.known
      ensures Timed() && store == Unindexed(old(store), topic)
    {
      assert TopicAt(store, topic);
      ghost var next := Unindexed(store, topic);
      MarkDeleted(topics[topic], store.known);
      topics := topics - {topic};
      store := next;
    }

    /** The entry of a topic, if any. */
    method Unindex(topic: Bytes)
      requires Timed()
      modifies this`topics, this`store, store.known
      ensures Timed() && store == Unindexed(old(store), topic)
    {
      if topic in topics {
        Detach(topic);
      } else {
        UnindexNone(store, topic);
      }
    }

    /**
     `handle_reset_retain_topic`: forgets the message of a topic. The trie panics exactly when
     the topic is not stored while a topic below it is.
     */
    method ResetRetainTopic(topic: Bytes) returns (panicked: bool)
      requires Valid()
      modifies this`topics, this`store, store.known, retained
      ensures panicked == Interior(old(retained.messages), topic)
      ensures Valid() && retained.messages == old(retained.messages) - {topic}
      ensures topics == old(topics) - {topic} && store == Unindexed(old(store), topic)
      ensures topic in old(topics) ==> old(topics)[topic].deleted
    {
      MirroredWithout(retained.messages, topics, store.due, {topic});
      Unindex(topic);
      panicked := retained.RemoveMessage(topic);
      assert topic in old(topics) ==> old(topics)[topic] in store.dead;
    }

    /** One turn of the loop of `retain_expires`; true would be a failed assertion. */
    method ForgetOne(item: Retain) returns (panicked: bool)
      requires Timed() && Expirable(store, item)
      requires retained.Valid() && item.topicName in retained.messages
      modifies this`topics, this`store, retained
      ensures !panicked && Timed() && store == Dropped(old(store), item)
      ensures retained.Valid() && retained.messages == old(retained.messages) - {item.topicName}
    {
      assert TopicAt(store, item.topicName);
      if item.deleted {
        return true;
      }
      panicked := retained.RemoveMessage(item.topicName);
      if panicked || item.topicName !in topics {
        return true;
      }
      store := Dropped(store, item);
      topics := topics - {item.topicName};
    }

    /** The loop of `retain_expires` over what the timer handed out. */
    method Forget(expired: seq<Retain>) returns (panicked: bool)
      requires Timed() && retained.Valid() && retained.messages.Keys == topics.Keys
      requires forall i :: 0 <= i < |expired| ==> Expirable(store, expired[i])
      requires Distinct(expired)
      modifies this`topics, this`store, retained
      ensures !panicked && Timed() && store == old(store).(topics := old(topics) - TopicsOf(expired))
      ensures retained.Valid() && retained.messages == old(retained.messages) - TopicsOf(expired)
    {
      ghost var was, index := retained.messages, topics;
      panicked := false;
      for i := 0 to |expired|
        invariant !panicked && Timed() && retained.Valid()
        invariant store == old(store).(topics := index - TopicsOf(expired[..i]))
        invariant retained.messages == was - TopicsOf(expired[..i])
        invariant forall j :: i <= j < |expired| ==> Expirable(store, expired[j])
      {
        StillExpirable(store, expired, i);
        panicked := ForgetOne(expired[i]);
        RemoveTopics(was, expired, i);
        RemoveTopics(index, expired, i);
      }
      assert expired[..|expired|] == expired;
    }

    /** The timer's entries that are deleted are those that `store` has so, and none came back. */
    lemma Trusted()
      requires Timed()
      ensures timer.Truthful() && DeadAmong(timer.items) == ValueSet(store.clock.items) * store.dead
      ensures AllDead(timer.items) <==> ValueSet(store.clock.items) <= store.dead
    {
      forall i | 0 <= i < |timer.items|
        ensures timer.items[i].value in store.known && EntryAt(store, timer.items[i].value)
      {
        assert timer.items[i].value in ValueSet(timer.items);
      }
    }

    /** The timer's part of an expiry. */
    method PopDue(now: nat) returns (expired: seq<Retain>)
      requires timer.Valid() && timer.Recorded() && timer.Truthful()
      modifies timer, timer.repr
      ensures timer.Valid() && timer.Recorded() && DeadOf(store.known) == old(DeadOf(store.known))
      ensures timer.Record() == ClockAtExpiry(old(timer.Record()), old(DeadAmong(timer.items)), now)
      ensures expired == HandedAtExpiry(old(timer.Record()), old(DeadAmong(timer.items)), now)
      ensures timer.repr == old(timer.repr)
      ensures timer.history == old(timer.history) + [Delete(old(DeadAmong(timer.items))), Op.Expire(now)]
      ensures Feasible(timer.start, timer.history) ==>
                Accurate(old(timer.Record()), old(DeadAmong(timer.items)), now, expired)
    {
      TwoNext(timer.start, timer.history, Delete(DeadAmong(timer.items)), Op.Expire(now));
      expired := timer.Expired(now);
    }

    /** The store is brought up to the timer. */
    ghost method Note(next: Store)
      requires timer.Valid() && timer.Recorded()
      requires next.topics == topics && next.clock == timer.Record() && next.dead == DeadOf(next.known)
      modifies this`store
      ensures Timed() && store == next
    {
      store := next;
    }

    /** The same, with the index alongside. */
    method HandOut(now: nat) returns (expired: seq<Retain>)
      requires Timed()
      modifies this`store, timer, timer.repr
      ensures Timed() && store == HandedOut(old(store), now) && expired == HandedFrom(old(store), now)
      ensures timer.repr == old(timer.repr)
      ensures timer.history == old(timer.history) + [Delete(old(DeadAmong(timer.items))), Op.Expire(now)]
      ensures Feasible(timer.start, timer.history) ==> Punctually(old(store), now)
    {
      Trusted();
      ghost var next := HandedOut(store, now);
      HandedParts(store, now, timer.Record(), DeadAmong(timer.items));
      expired := PopDue(now);
      Note(next);
    }

    /**
     What `retain_expires` does after `gc`: neither its assert nor its `unreachable!` is hit, and the
     messages whose entries the timer pops and that are not deleted are gone from trie, index and timer alike.
     In a run that can be, no message is left whose deadline has come, and one whose deadline has not come is
     gone exactly if its entry was brought forward enough.
     */
    method Expire(now: nat) returns (panicked: bool)
      requires Valid()
      modifies this`topics, this`store, timer, timer.repr, retained
      ensures !panicked && Valid()
      ensures var gone := TopicsOf(HandedFrom(old(store), now));
              && retained.messages == old(retained.messages) - gone
              && store == HandedOut(old(store), now).(topics := old(topics) - gone)
      ensures timer.repr == old(timer.repr)
      ensures timer.history == old(timer.history) + [Delete(old(DeadAmong(timer.items))), Op.Expire(now)]
      ensures Feasible(timer.start, timer.history) ==> ExactlyGone(old(store), now, store.due, retained.messages)
    {
      HandedExpirable(store, now);
      MirroredKeys(retained.messages, topics, store.due);
      MirroredWithout(retained.messages, topics, store.due, TopicsOf(HandedFrom(store, now)));
      var expired := HandOut(now);
      if Feasible(timer.start, timer.history) {
        GoneExactly(old(store), now, retained.messages);
      }
      panicked := Forget(expired);
    }

    /** The timer's part of `gc`. */
    method Sweep() returns (panicked: bool)
      requires timer.Valid() && timer.Recorded()
      modifies timer, timer.repr
      ensures panicked <==> !old(AllDead(timer.items))
      ensures timer.Valid() && timer.Recorded() && DeadOf(store.known) == old(DeadOf(store.known))
      ensures !panicked ==>
                && timer.items == []
                && timer.Record() == ClockAtGc(old(timer.Record()), old(DeadAmong(timer.items)))
      ensures timer.repr == old(timer.repr)
    {
      TwoNext(timer.start, timer.history, Delete(DeadAmong(timer.items)), Op.Collect(|timer.items|));
      panicked := timer.Gc();
    }

    /** `gc` with the index alongside: if it gets through, the timer is empty. */
    method Collect() returns (panicked: bool)
      requires Valid()
      modifies this`store, timer, timer.repr
      ensures panicked <==> Expires(old(retained.messages))
      ensures !panicked ==> Valid() && timer.items == [] && store.known == old(store).known
      ensures timer.repr == old(timer.repr)
    {
      Trusted();
      LiveIffDue(store);
      ExpiresIffDue(retained.messages, store);
      panicked := Sweep();
      if !panicked {
        store := Emptied(store);
      }
    }

    /** Nothing to expire. */
    method ExpireNone(now: nat) returns (panicked: bool)
      requires Valid() && timer.items == []
      modifies this`topics, this`store, timer, timer.repr, retained
      ensures !panicked && Valid() && timer.items == [] && retained.messages == old(retained.messages)
      ensures store.known == old(store).known
      ensures timer.repr == old(timer.repr)
    {
      NothingDue(store, now, retained.messages);
      panicked := Expire(now);
    }

    /**
     `retain_expires` as it stands: `gc` comes first and panics exactly when some entry is live, that is, when
     a retained message has an expiry interval; so the expiry is reached only with nothing to expire.
     */
    method RetainExpires(now: nat) returns (panicked: bool)
      requires Valid()
      modifies this`topics, this`store, timer, timer.repr, retained
      ensures panicked <==> Expires(old(retained.messages))
      ensures retained.messages == old(retained.messages)
      ensures !panicked ==> Valid() && timer.items == [] && store.known == old(store).known
      ensures timer.repr == old(timer.repr)
    {
      panicked := Collect();
      if !panicked {
        panicked := ExpireNone(now);
      }
    }

    /** What holds after a run of requests. */
    ghost predicate Served(done: seq<Request>)
      reads this, timer, retained
    {
      && Follows(retained.messages, store.due, Latest(done))
      && (Timely(timer.start, done) ==> Ready(timer.start, timer.history, LastTime(timer.start, done)))
      && Punctual(timer.start, done, store.due)
    }

    method ServeSet(publish: Publish, now: nat, ghost done: seq<Request>)
      requires Valid() && Served(done)
      modifies this, timer, timer.repr, store.known, retained
      ensures Valid() && Served(done + [SetTopic(publish, now)])
      ensures timer.repr >= old(timer.repr) && fresh(timer.repr - old(timer.repr))
      ensures fresh(store.known - old(store).known)
    {
      ghost var history := timer.history;
      ghost var retain := SetRetainTopic(publish, now);
      FollowsSet(old(retained.messages), old(store).due, done, publish, now);
      ReadySet(timer.start, history, done, publish, retain, now);
    }

    method ServeReset(topic: Bytes, ghost done: seq<Request>) returns (panicked: bool)
      requires Valid() && Served(done)
      modifies this`topics, this`store, store.known, retained
      ensures Valid() && panicked == Interior(old(retained.messages), topic)
      ensures panicked ==> Served(done) && retained.messages == old(retained.messages)
      ensures !panicked ==> Served(done + [ResetTopic(topic)])
      ensures store.known == old(store).known
    {
      FollowsReset(retained.messages, store.due, done, topic);
      if topic !in retained.messages {
        FollowsWithout(retained.messages, store.due, Latest(done), topic);
      }
      RequestNext(timer.start, done, ResetTopic(topic));
      panicked := ResetRetainTopic(topic);
    }

    method ServeTick(now: nat, ghost done: seq<Request>)
      requires Valid() && Served(done)
      modifies this`topics, this`store, timer, timer.repr, retained
      ensures Valid() && Served(done + [Tick(now)])
      ensures timer.repr == old(timer.repr)
      ensures store.known == old(store).known
    {
      ghost var history, dead := timer.history, DeadAmong(timer.items);
      FollowsTick(retained.messages, store, done, now);
      ReadyTick(timer.start, history, done, dead, now);
      var panicked := Expire(now);
    }

    /** One request. */
    method ServeOne(request: Request, ghost done: seq<Request>) returns (panicked: bool)
      requires Valid() && Served(done)
      modifies this, timer, timer.repr, store.known, retained
      ensures Valid() && Served(if panicked then done else done + [request])
      ensures panicked ==> request.ResetTopic? && Interior(retained.messages, request.topic)
      ensures timer.repr >= old(timer.repr) && fresh(timer.repr - old(timer.repr))
      ensures fresh(store.known - old(store).known)
    {
      panicked := false;
      match request {
        case SetTopic(publish, now) => ServeSet(publish, now, done);
        case ResetTopic(topic) => panicked := ServeReset(topic, done);
        case Tick(now) => ServeTick(now, done);
      }
    }

    /** Requests, up to a panic. */
    method ServeAll(requests: seq<Request>) returns (served: nat)
      requires Valid() && Served([])
      modifies this, timer, timer.repr, store.known, retained
      ensures Valid() && served <= |requests| && Served(requests[..served])
      ensures served < |requests| ==>
                requests[served].ResetTopic? && Interior(retained.messages, requests[served].topic)
    {
      served := 0;
      while served < |requests|
        invariant served <= |requests| && Valid() && Served(requests[..served])
        invariant fresh(timer.repr - old(timer.repr))
        invariant fresh(store.known - old(store).known)
      {
        OneMore(requests, served);
        var panicked := ServeOne(requests[served], requests[..served]);
        if panicked {
          return;
        }
        served := served + 1;
      }
    }

    method HandleSet(publish: Publish, now: nat, ghost done: seq<Request>)
      requires Valid() && Exact(retained.messages, Latest(done))
      modifies this, timer, timer.repr, store.known, retained
      ensures Valid() && Exact(retained.messages, Latest(done + [SetTopic(publish, now)]))
      ensures fresh(store.known - old(store).known)
      ensures timer.repr >= old(timer.repr) && fresh(timer.repr - old(timer.repr))
    {
      StopsNext(retained.messages, done, SetTopic(publish, now));
      ghost var retain := SetRetainTopic(publish, now);
    }

    method HandleReset(topic: Bytes, ghost done: seq<Request>) returns (panicked: bool)
      requires Valid() && Exact(retained.messages, Latest(done))
      modifies this`topics, this`store, store.known, retained
      ensures Valid() && panicked == Stops(Latest(done), ResetTopic(topic)) && store.known == old(store).known
      ensures Exact(retained.messages, Latest(if panicked then done else done + [ResetTopic(topic)]))
    {
      StopsNext(retained.messages, done, ResetTopic(topic));
      WithoutTopic(retained.messages, topic);
      panicked := ResetRetainTopic(topic);
    }

    method HandleTick(now: nat, ghost done: seq<Request>) returns (panicked: bool)
      requires Valid() && Exact(retained.messages, Latest(done))
      modifies this`topics, this`store, timer, timer.repr, retained
      ensures panicked == Stops(Latest(done), Tick(now)) && timer.repr == old(timer.repr)
      ensures !panicked ==> Valid() && store.known == old(store).known
      ensures Exact(retained.messages, Latest(if panicked then done else done + [Tick(now)]))
    {
      StopsNext(retained.messages, done, Tick(now));
      panicked := RetainExpires(now);
    }

    /** One request, as the thread is written. */
    method HandleOne(request: Request, ghost done: seq<Request>) returns (panicked: bool)
      requires Valid() && Exact(retained.messages, Latest(done))
      modifies this, timer, timer.repr, store.known, retained
      ensures panicked <==> Stops(Latest(done), request)
      ensures Exact(retained.messages, Latest(if panicked then done else done + [request]))
      ensures !panicked ==> Valid() && fresh(store.known - old(store).known)
      ensures timer.repr >= old(timer.repr) && fresh(timer.repr - old(timer.repr))
    {
      panicked := false;
      match request {
        case SetTopic(publish, now) => HandleSet(publish, now, done);
        case ResetTopic(topic) => panicked := HandleReset(topic, done);
        case Tick(now) => panicked := HandleTick(now, done);
      }
    }

    /** The next of several. */
    method HandleNext(requests: seq<Request>, k: nat) returns (panicked: bool)
      requires k < |requests| && Unstopped(requests, k)
      requires Valid() && Exact(retained.messages, Latest(requests[..k]))
      modifies this, timer, timer.repr, store.known, retained
      ensures panicked ==> StopsAt(requests, k) && Exact(retained.messages, Latest(requests[..k]))
      ensures !panicked ==>
                && Valid() && Exact(retained.messages, Latest(requests[..k + 1])) && Unstopped(requests, k + 1)
                && fresh(store.known - old(store).known)
      ensures fresh(timer.repr - old(timer.repr))
    {
      OneMore(requests, k);
      panicked := HandleOne(requests[k], requests[..k]);
      if !panicked {
        UnstoppedNext(requests, k);
      }
    }

    /** Requests, up to a panic. */
    method HandleAll(requests: seq<Request>) returns (served: nat)
      requires Valid() && Exact(retained.messages, map[])
      modifies this, timer, timer.repr, store.known, retained
      ensures served <= |requests| && Exact(retained.messages, Latest(requests[..served]))
      ensures Unstopped(requests, served)
      ensures if served < |requests| then StopsAt(requests, served) else Valid()
    {
      served := 0;
      while served < |requests|
        invariant served <= |requests| && Valid() && Exact(retained.messages, Latest(requests[..served]))
        invariant Unstopped(requests, served)
        invariant fresh(timer.repr - old(timer.repr))
        invariant fresh(store.known - old(store).known)
      {
        var panicked := HandleNext(requests, served);
        if panicked {
          return;
        }
        served := served + 1;
      }
    }
  }

  /**
   After an expiry no topic is left with a deadline that has come, and a message whose deadline has not come is
   gone exactly if its entry was brought forward enough.
   */
  ghost predicate ExactlyGone(s: State, now: nat, due': map<Bytes, nat>, messages': map<Bytes, Publish>) {
    && (forall t :: t in due' ==> due'[t] > now)
    && forall t :: t in s.due ==> (t !in messages' && now < s.due[t] <==> BroughtForward(s, now, t))
  }

  lemma GoneExactly(s: Store, now: nat, messages: map<Bytes, Publish>)
    requires Punctually(s, now) && Mirrored(messages, s.topics, s.due)
    ensures ExactlyGone(s, now, HandedOut(s, now).due, messages - TopicsOf(HandedFrom(s, now)))
  {
    ExpiryOnTime(s, now);
    var messages' := messages - TopicsOf(HandedFrom(s, now));
    forall t | t in s.due ensures t !in messages' && now < s.due[t] <==> BroughtForward(s, now, t) {
      assert TopicAt(s, t) && MirroredAt(messages, s.topics, s.due, t);
      ExpiryEarlyIff(s, now, t);
    }
  }

  // ------------------------------------------------------------------ runs of requests

  datatype Request = SetTopic(publish: Publish, now: nat) | ResetTopic(topic: Bytes) | Tick(now: nat)

  /** A message, and when it is to be forgotten if it has an expiry interval. */
  datatype Kept = Kept(publish: Publish, deadline: nat)

  ghost function Keep(publish: Publish, now: nat): Kept {
    match publish.messageExpiryInterval
    case Some(secs) => Kept(publish, now + secs * SECOND)
    case None => Kept(publish, now)
  }

  /** The last message set for each topic, if the topic was not reset since. */
  ghost function Latest(rs: seq<Request>): map<Bytes, Kept> {
    if rs == [] then map[]
    else
      var before := Latest(rs[..|rs| - 1]);
      match rs[|rs| - 1]
      case SetTopic(publish, now) => before[publish.topicName := Keep(publish, now)]
      case ResetTopic(topic) => before - {topic}
      case Tick(_) => before
  }

  /** The last reading of the clock. */
  ghost function LastTime(start: nat, rs: seq<Request>): nat {
    if rs == [] then start
    else
      match rs[|rs| - 1]
      case SetTopic(_, now) => now
      case ResetTopic(_) => LastTime(start, rs[..|rs| - 1])
      case Tick(now) => now
  }

  /** Clock readings do not go back, and the whole run fits the counter of seconds. */
  ghost predicate Timely(start: nat, rs: seq<Request>) {
    rs == [] ||
    (&& Timely(start, rs[..|rs| - 1])
     && LastTime(start, rs[..|rs| - 1]) <= LastTime(start, rs) < start + WIDTH * SECOND)
  }

  lemma RequestNext(start: nat, rs: seq<Request>, r: Request)
    ensures LastTime(start, rs + [r]) == if r.ResetTopic? then LastTime(start, rs) else r.now
    ensures Timely(start, rs + [r]) <==>
            Timely(start, rs) && LastTime(start, rs) <= LastTime(start, rs + [r]) < start + WIDTH * SECOND
    ensures Latest(rs + [r]) == match r
                                case SetTopic(publish, now) => Latest(rs)[publish.topicName := Keep(publish, now)]
                                case ResetTopic(topic) => Latest(rs) - {topic}
                                case Tick(_) => Latest(rs)
  {
    assert (rs + [r])[..|rs|] == rs;
  }

  /** What is retained is the latest for its topic, and what does not expire is retained. */
  ghost predicate FollowsAt(messages: map<Bytes, Publish>, due: map<Bytes, nat>, latest: map<Bytes, Kept>, t: Bytes) {
    && (t in messages ==>
          t in latest && messages[t] == latest[t].publish && (t in due ==> due[t] == latest[t].deadline))
    && (t in latest && latest[t].publish.messageExpiryInterval.None? ==> t in messages)
  }

  ghost predicate Follows(messages: map<Bytes, Publish>, due: map<Bytes, nat>, latest: map<Bytes, Kept>) {
    forall t :: FollowsAt(messages, due, latest, t)
  }

  lemma FollowsSet(messages: map<Bytes, Publish>, due: map<Bytes, nat>, done: seq<Request>, publish: Publish, now: nat)
    requires Follows(messages, due, Latest(done))
    ensures Follows(messages[publish.topicName := publish], DueWith(due, publish, now),
                    Latest(done + [SetTopic(publish, now)]))
  {
    RequestNext(0, done, SetTopic(publish, now));
    var messages', due' := messages[publish.topicName := publish], DueWith(due, publish, now);
    var latest' := Latest(done + [SetTopic(publish, now)]);
    forall t ensures FollowsAt(messages', due', latest', t) {
      assert FollowsAt(messages, due, Latest(done), t);
    }
  }

  lemma FollowsReset(messages: map<Bytes, Publish>, due: map<Bytes, nat>, done: seq<Request>, topic: Bytes)
    requires Follows(messages, due, Latest(done))
    ensures Follows(messages - {topic}, due - {topic}, Latest(done + [ResetTopic(topic)]))
  {
    RequestNext(0, done, ResetTopic(topic));
    var messages', due', latest' := messages - {topic}, due - {topic}, Latest(done + [ResetTopic(topic)]);
    forall t ensures FollowsAt(messages', due', latest', t) {
      assert FollowsAt(messages, due, Latest(done), t);
    }
  }

  /** A topic that is not stored does not matter. */
  lemma FollowsWithout(messages: map<Bytes, Publish>, due: map<Bytes, nat>, latest: map<Bytes, Kept>, topic: Bytes)
    requires Follows(messages, due, latest) && topic !in messages
    ensures messages - {topic} == messages && Follows(messages, due - {topic}, latest)
  {
    var due' := due - {topic};
    forall t ensures FollowsAt(messages, due', latest, t) {
      assert FollowsAt(messages, due, latest, t);
    }
  }

  lemma FollowsTick(messages: map<Bytes, Publish>, s: Store, done: seq<Request>, now: nat)
    requires Follows(messages, s.due, Latest(done)) && Mirrored(messages, s.topics, s.due)
    ensures var gone := TopicsOf(HandedFrom(s, now)); Follows(messages - gone, s.due - gone, Latest(done + [Tick(now)]))
  {
    HandedDue(s, now);
    RequestNext(0, done, Tick(now));
    var gone := TopicsOf(HandedFrom(s, now));
    var messages', due', latest' := messages - gone, s.due - gone, Latest(done + [Tick(now)]);
    forall t ensures FollowsAt(messages', due', latest', t) {
      assert FollowsAt(messages, s.due, Latest(done), t) && MirroredAt(messages, s.topics, s.due, t);
    }
  }

  lemma FollowsMeans(messages: map<Bytes, Publish>, due: map<Bytes, nat>, latest: map<Bytes, Kept>)
    requires Follows(messages, due, latest)
    ensures forall t :: t in messages ==> t in latest && messages[t] == latest[t].publish
    ensures forall t :: t in latest && t !in messages ==> latest[t].publish.messageExpiryInterval.Some?
  {
    forall t | t in messages ensures t in latest && messages[t] == latest[t].publish {
      assert FollowsAt(messages, due, latest, t);
    }
    forall t | t in latest && t !in messages ensures latest[t].publish.messageExpiryInterval.Some? {
      assert FollowsAt(messages, due, latest, t);
    }
  }

  lemma PunctualMeans(messages: map<Bytes, Publish>, topics: map<Bytes, Retain>, due: map<Bytes, nat>,
                      latest: map<Bytes, Kept>, now: nat)
    requires Follows(messages, due, latest) && Mirrored(messages, topics, due) && forall t :: t in due ==> due[t] > now
    ensures forall t :: t in messages && messages[t].messageExpiryInterval.Some? ==>
              t in latest && latest[t].deadline > now
  {
    forall t | t in messages && messages[t].messageExpiryInterval.Some?
      ensures t in latest && latest[t].deadline > now
    {
      assert FollowsAt(messages, due, latest, t) && MirroredAt(messages, topics, due, t);
    }
  }

  /** After an expiry no deadline has come, if the clock did not go back. */
  ghost predicate Punctual(start: nat, done: seq<Request>, due: map<Bytes, nat>) {
    done != [] && done[|done| - 1].Tick? && Timely(start, done) ==>
      forall t :: t in due ==> due[t] > done[|done| - 1].now
  }

  /** The timer's record is of a run that can be, up to `last`. */
  ghost predicate Ready(start: nat, history: seq<Op<Retain>>, last: nat) {
    var c := After(start, history);
    Feasible(start, history) && c.last <= last && start <= c.instant
  }

  lemma FitsCounter(start: nat, instant: nat, now: nat)
    requires start <= instant <= now < start + WIDTH * SECOND
    ensures (now - instant) / SECOND < WIDTH
  {
  }

  lemma ReadyAdd(start: nat, history: seq<Op<Retain>>, last: nat, retain: Retain, secs: nat, now: nat)
    requires Ready(start, history, last) && last <= now < start + WIDTH * SECOND
    requires retain !in After(start, history).deadline
    ensures Ready(start, history + [Add(retain, secs, now)], now)
  {
    RunInv(start, history);
    FitsCounter(start, After(start, history).instant, now);
    AfterNext(start, history, Add(retain, secs, now));
  }

  lemma ReadySet(start: nat, history: seq<Op<Retain>>, done: seq<Request>, publish: Publish, retain: Retain, now: nat)
    requires Timely(start, done) ==> Ready(start, history, LastTime(start, done))
    requires retain !in After(start, history).deadline
    ensures var next := done + [SetTopic(publish, now)];
            Timely(start, next) ==> Ready(start, history + Bookings(publish, retain, now), LastTime(start, next))
  {
    RequestNext(start, done, SetTopic(publish, now));
    if Timely(start, done + [SetTopic(publish, now)]) {
      match publish.messageExpiryInterval {
        case Some(secs) => ReadyAdd(start, history, LastTime(start, done), retain, secs, now);
        case None => assert history + [] == history;
      }
    }
  }

  lemma ReadyTick(start: nat, history: seq<Op<Retain>>, done: seq<Request>, dead: set<Retain>, now: nat)
    requires Timely(start, done) ==> Ready(start, history, LastTime(start, done))
    ensures var next := done + [Tick(now)];
            Timely(start, next) ==> Ready(start, history + [Delete(dead), Op.Expire(now)], LastTime(start, next))
  {
    RequestNext(start, done, Tick(now));
    if Timely(start, done + [Tick(now)]) {
      RunInv(start, history);
      FitsCounter(start, After(start, history).instant, now);
      TwoNext(start, history, Delete(dead), Op.Expire(now));
    }
  }

  /**
   The cluster thread from its start, over any requests, as far as it does not panic, which is at a
   reset of a topic that is not stored while one below it is. What is retained is the latest message
   of its topic; what does not expire is retained; and with a clock that does not go back nothing is
   left, after an expiry, whose deadline has come.
   */
  method Serve(start: nat, requests: seq<Request>) returns (c: Cluster, served: nat)
    ensures c.Valid() && served <= |requests|
    ensures served < |requests| ==>
              requests[served].ResetTopic? && Interior(c.retained.messages, requests[served].topic)
    ensures forall t :: t in c.retained.messages ==>
              t in Latest(requests[..served]) && c.retained.messages[t] == Latest(requests[..served])[t].publish
    ensures forall t :: t in Latest(requests[..served]) && t !in c.retained.messages ==>
              Latest(requests[..served])[t].publish.messageExpiryInterval.Some?
    ensures 0 < served && requests[served - 1].Tick? && Timely(start, requests[..served]) ==>
              forall t :: t in c.retained.messages && c.retained.messages[t].messageExpiryInterval.Some? ==>
                Latest(requests[..served])[t].deadline > requests[served - 1].now
  {
    c := new Cluster(start);
    served := c.ServeAll(requests);
    FollowsMeans(c.retained.messages, c.store.due, Latest(requests[..served]));
    if 0 < served && requests[served - 1].Tick? && Timely(start, requests[..served]) {
      PunctualMeans(c.retained.messages, c.topics, c.store.due, Latest(requests[..served]), requests[served - 1].now);
    }
  }

  // ------------------------------------------------------------------ the thread as written

  ghost predicate ExactAt(messages: map<Bytes, Publish>, latest: map<Bytes, Kept>, t: Bytes) {
    (t in messages <==> t in latest) && (t in messages ==> messages[t] == latest[t].publish)
  }

  /** The messages are the latest, all of them. */
  ghost predicate Exact(messages: map<Bytes, Publish>, latest: map<Bytes, Kept>) {
    forall t :: ExactAt(messages, latest, t)
  }

  /** The request at which the thread panics: a reset at an interior topic, or an expiry with a message that expires. */
  ghost predicate Stops(latest: map<Bytes, Kept>, request: Request) {
    match request
    case SetTopic(_, _) => false
    case ResetTopic(topic) => Interior(latest, topic)
    case Tick(_) => exists t :: t in latest && latest[t].publish.messageExpiryInterval.Some?
  }

  ghost predicate StopsAt(requests: seq<Request>, k: nat)
    requires k < |requests|
  {
    Stops(Latest(requests[..k]), requests[k])
  }

  /** None of the first `n` requests makes the thread panic. */
  ghost predicate Unstopped(requests: seq<Request>, n: nat)
    requires n <= |requests|
  {
    forall k :: 0 <= k < n ==> !StopsAt(requests, k)
  }

  lemma UnstoppedNext(requests: seq<Request>, n: nat)
    requires n < |requests| && Unstopped(requests, n) && !StopsAt(requests, n)
    ensures Unstopped(requests, n + 1)
  {
  }

  /** The messages after a request that does not panic. */
  ghost function Handled(messages: map<Bytes, Publish>, request: Request): map<Bytes, Publish> {
    match request
    case SetTopic(publish, _) => messages[publish.topicName := publish]
    case ResetTopic(topic) => messages - {topic}
    case Tick(_) => messages
  }

  lemma ExactNext(messages: map<Bytes, Publish>, done: seq<Request>, request: Request)
    requires Exact(messages, Latest(done))
    ensures Exact(Handled(messages, request), Latest(done + [request]))
  {
    RequestNext(0, done, request);
    var messages', latest' := Handled(messages, request), Latest(done + [request]);
    forall t ensures ExactAt(messages', latest', t) {
      assert ExactAt(messages, Latest(done), t);
    }
  }

  lemma ExactKeys(messages: map<Bytes, Publish>, latest: map<Bytes, Kept>)
    requires Exact(messages, latest)
    ensures messages.Keys == latest.Keys && forall t :: t in messages ==> messages[t] == latest[t].publish
  {
    forall t ensures t in messages <==> t in latest {
      assert ExactAt(messages, latest, t);
    }
    forall t | t in messages ensures messages[t] == latest[t].publish {
      assert ExactAt(messages, latest, t);
    }
  }

  /** Whether it panics, read off the messages. */
  lemma StopsIff(messages: map<Bytes, Publish>, latest: map<Bytes, Kept>, request: Request)
    requires Exact(messages, latest)
    ensures Stops(latest, request) <==>
            match request
            case SetTopic(_, _) => false
            case ResetTopic(topic) => Interior(messages, topic)
            case Tick(_) => Expires(messages)
  {
    ExactKeys(messages, latest);
  }

  lemma StopsNext(messages: map<Bytes, Publish>, done: seq<Request>, request: Request)
    requires Exact(messages, Latest(done))
    ensures Stops(Latest(done), request) <==>
            match request
            case SetTopic(_, _) => false
            case ResetTopic(topic) => Interior(messages, topic)
            case Tick(_) => Expires(messages)
    ensures Exact(Handled(messages, request), Latest(done + [request]))
  {
    StopsIff(messages, Latest(done), request);
    ExactNext(messages, done, request);
  }

  /**
   The cluster thread as written, from its start and over any requests, up to the first that makes it panic, which
   can be told from the requests alone. Up to there nothing ever expires: what is retained is exactly the latest.
   */
  method Handle(start: nat, requests: seq<Request>) returns (c: Cluster, served: nat)
    ensures served <= |requests|
    ensures var latest := Latest(requests[..served]);
            && c.retained.messages.Keys == latest.Keys
            && forall t :: t in latest ==> c.retained.messages[t] == latest[t].publish
    ensures Unstopped(requests, served)
    ensures if served < |requests| then StopsAt(requests, served) else c.Valid()
  {
    c := new Cluster(start);
    assert Exact(c.retained.messages, map[]) by {
      forall t ensures ExactAt(c.retained.messages, map[], t) {
      }
    }
    served := c.HandleAll(requests);
    ExactKeys(c.retained.messages, Latest(requests[..served]));
  }

  /** A message that expires, and an expiry: the thread panics in `gc`. */
  method GcExample(topic: Bytes, payload: Bytes, secs: U32) returns (panicked: bool)
    ensures panicked
  {
    var c := new Cluster(0);
    ghost var retain := c.SetRetainTopic(Publish(topic, payload, Some(secs)), 0);
    assert topic in c.retained.messages;
    panicked := c.RetainExpires(1);
  }
}
