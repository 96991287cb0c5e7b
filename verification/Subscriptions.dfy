/**
 The index of subscriptions: `sub` and `unsub` on the trie, and their refinement of a
 table from filter to set of subscriptions.
 */
module Subscriptions {
  import opened Basics
  import opened Order
  import opened Topic
  import opened Trie
  import opened TrieMatch

  datatype QoS = AtMostOnce | AtLeastOnce | ExactlyOnce

  datatype RetainForwardRule = OnEverySubscribe | OnNewSubscribe | Never

  datatype Subscription = Subscription(
    topicFilter: Bytes,
    clientId: Bytes,
    shardId: nat,
    subscriptionId: Option<nat>,
    qos: QoS,
    noLocal: bool,
    retainAsPublished: bool,
    retainForwardRule: RetainForwardRule)

  /** `PartialEq`: every field but the shard. */
  predicate Equal(a: Subscription, b: Subscription) {
    a.(shardId := b.shardId) == b
  }

  /** `Ord` compares the client and then the filter, and nothing else. */
  function Key(v: Subscription): seq<Bytes> {
    [v.clientId, v.topicFilter]
  }

  ghost predicate KeySorted(vals: seq<Subscription>) {
    forall i, j :: 0 <= i < j < |vals| ==> PathLess(Key(vals[i]), Key(vals[j]))
  }

  /** Of the same client and for the same filter. */
  predicate SameKey(a: Subscription, b: Subscription) {
    a.clientId == b.clientId && a.topicFilter == b.topicFilter
  }

  /** In every respect but the shard. */
  predicate SameOptions(a: Subscription, b: Subscription) {
    && a.topicFilter == b.topicFilter && a.clientId == b.clientId && a.subscriptionId == b.subscriptionId
    && a.qos == b.qos && a.noLocal == b.noLocal && a.retainAsPublished == b.retainAsPublished
    && a.retainForwardRule == b.retainForwardRule
  }

  /** The order of subscriptions, and when two are the same to it. */
  lemma KeyOrder(a: Subscription, b: Subscription)
    ensures Key(a) == Key(b) <==> SameKey(a, b)
    ensures PathLess(Key(a), Key(b)) <==>
            Less(a.clientId, b.clientId) || (a.clientId == b.clientId && Less(a.topicFilter, b.topicFilter))
  {
    var p: seq<Bytes>, q: seq<Bytes> := Key(a), Key(b);
    assert p[1..] == [a.topicFilter] && q[1..] == [b.topicFilter];
    assert !PathLess(p[1..][1..], q[1..][1..]);
    assert PathLess(p[1..], q[1..]) <==> Less(a.topicFilter, b.topicFilter);
    assert p == q <==> p[0] == q[0] && p[1] == q[1];
  }

  // ---------------------------------------------------------------- values of one node

  /** `binary_search` on sorted values. */
  function ValuePosition(vals: seq<Subscription>, v: Subscription): (off: nat)
    ensures off <= |vals|
    ensures forall i :: 0 <= i < off ==> PathLess(Key(vals[i]), Key(v))
    ensures off < |vals| ==> !PathLess(Key(vals[off]), Key(v))
  {
    if vals == [] || !PathLess(Key(vals[0]), Key(v)) then 0
    else
      var off := 1 + ValuePosition(vals[1..], v);
      assert forall i :: 0 < i < off ==> vals[i] == vals[1..][i - 1];
      off
  }

  predicate HasKey(vals: seq<Subscription>, v: Subscription) {
    ValuePosition(vals, v) < |vals| && Key(vals[ValuePosition(vals, v)]) == Key(v)
  }

  /** `insert_value`: (values, first, repeat). */
  function InsertValue(vals: seq<Subscription>, v: Subscription): (seq<Subscription>, bool, bool) {
    var off := ValuePosition(vals, v);
    if vals == [] then ([v], true, false)
    else if HasKey(vals, v) then (vals, false, true)
    else (vals[..off] + [v] + vals[off..], false, false)
  }

  /** `remove_value` on a node that holds values: (values, last, missing). */
  function RemoveValue(vals: seq<Subscription>, v: Subscription): (seq<Subscription>, bool, bool) {
    var off := ValuePosition(vals, v);
    if |vals| == 1 then if Equal(vals[0], v) then ([], true, false) else (vals, false, true)
    else if HasKey(vals, v) then (vals[..off] + vals[off + 1..], false, false)
    else (vals, false, true)
  }

  // ------------------------------------------------------------------- sub and unsub

  /** `Node::sub`: (node, first, repeat). */
  function Sub(n: Node<Subscription>, p: Path, v: Subscription): (Node<Subscription>, bool, bool)
    decreases |p|
  {
    if p == [] then
      var (vals, first, repeat) := InsertValue(ValuesOf(n), v);
      (WithValues(n, vals), first, repeat)
    else
      var (child, first, repeat) := Sub(ChildFor(n.children, p[0]), p[1..], v);
      (n.(children := Replaced(n.children, p[0], child)), first, repeat)
  }

  datatype UnsubResult =
    | Unreachable
    | Unsubbed(node: Option<Node<Subscription>>, last: bool, missing: bool)

  /** `Node::unsub`; it panics at a node that holds no value. */
  function Unsub(n: Node<Subscription>, p: Path, v: Subscription): UnsubResult
    decreases |p|
  {
    if p == [] then
      if ValuesOf(n) == [] then Unreachable
      else
        var (vals, last, missing) := RemoveValue(ValuesOf(n), v);
        var n' := WithValues(n, vals);
        Unsubbed(if IsEmpty(n') then None else Some(n'), last, missing)
    else if !Found(n.children, p[0]) then Unsubbed(Some(n), false, true)
    else
      match Unsub(ChildFor(n.children, p[0]), p[1..], v)
      case Unreachable => Unreachable
      case Unsubbed(Some(c), last, missing) =>
        Unsubbed(Some(n.(children := Replaced(n.children, p[0], c))), last, missing)
      case Unsubbed(None, last, missing) =>
        var n' := n.(children := Removed(n.children, p[0]));
        Unsubbed(if IsEmpty(n') then None else Some(n'), last, missing)
  }

  lemma {:induction false} SubIsPut(n: Node<Subscription>, p: Path, v: Subscription)
    requires n.Child? || p != []
    requires WellFormed(n)
    ensures var (vals, first, repeat) := InsertValue(Lookup(n, p), v);
            Put(n, p, vals) == Some(Sub(n, p, v).0) && Sub(n, p, v).1 == first && Sub(n, p, v).2 == repeat
    decreases |p|
  {
    if p != [] {
      var c := ChildFor(n.children, p[0]);
      assert Found(n.children, p[0]) ==> c in n.children;
      SubIsPut(c, p[1..], v);
      LookupStep(n, p);
    }
  }

  lemma {:induction false} UnsubIsPut(n: Node<Subscription>, p: Path, v: Subscription)
    requires n.Child? || p != []
    requires WellFormed(n)
    ensures Unsub(n, p, v).Unreachable? <==> HasNode(n, p) && Lookup(n, p) == []
    ensures var (vals, last, missing) := RemoveValue(Lookup(n, p), v);
            Lookup(n, p) != [] ==> Unsub(n, p, v) == Unsubbed(Put(n, p, vals), last, missing)
    ensures !HasNode(n, p) ==> Lookup(n, p) == [] && Unsub(n, p, v) == Unsubbed(Some(n), false, true)
    decreases |p|
  {
    if p != [] && Found(n.children, p[0]) {
      var c := n.children[Position(n.children, p[0])];
      assert c in n.children;
      UnsubIsPut(c, p[1..], v);
      if !HasNode(c, p[1..]) {
        ReplacedSame(n.children, p[0]);
      }
    }
  }

  lemma ReplacedSame<V>(cs: seq<Node<V>>, level: Level)
    requires Found(cs, level)
    ensures Replaced(cs, level, cs[Position(cs, level)]) == cs
  {
  }

  // ------------------------------------------------------- sets of subscriptions

  ghost function ToSet<T>(s: seq<T>): set<T> {
    set x | x in s
  }

  ghost predicate KeyUnique(s: set<Subscription>) {
    forall a, b :: a in s && b in s && SameKey(a, b) ==> a == b
  }

  /** Subscribing keeps the subscription that is already there for the same client and filter. */
  ghost function Added(s: set<Subscription>, v: Subscription): set<Subscription> {
    if exists w :: w in s && SameKey(w, v) then s else s + {v}
  }

  /** Alone, a subscription goes only if all its options agree; among others, its key is enough. */
  ghost predicate Claims(s: set<Subscription>, w: Subscription, v: Subscription) {
    if |s| == 1 then SameOptions(w, v) else SameKey(w, v)
  }

  ghost function Dropped(s: set<Subscription>, v: Subscription): set<Subscription> {
    set w | w in s && !Claims(s, w, v)
  }

  lemma KeySortedFacts(vals: seq<Subscription>)
    requires KeySorted(vals)
    ensures NoDuplicates(vals) && KeyUnique(ToSet(vals))
  {
    forall i, j | 0 <= i < j < |vals| ensures !SameKey(vals[i], vals[j]) {
      KeyOrder(vals[i], vals[j]);
      PathIrreflexive(Key(vals[i]));
    }
  }

  lemma HasKeyIff(vals: seq<Subscription>, v: Subscription)
    requires KeySorted(vals)
    ensures HasKey(vals, v) <==> exists w :: w in ToSet(vals) && SameKey(w, v)
    ensures forall i :: 0 <= i < |vals| && SameKey(vals[i], v) ==> i == ValuePosition(vals, v)
    ensures !HasKey(vals, v) ==> forall i :: ValuePosition(vals, v) <= i < |vals| ==> PathLess(Key(v), Key(vals[i]))
  {
    var off := ValuePosition(vals, v);
    forall i | 0 <= i < |vals| && SameKey(vals[i], v) ensures i == off {
      KeyOrder(vals[i], v);
      if i < off {
        PathIrreflexive(Key(v));
      }
    }
    if off < |vals| {
      KeyOrder(vals[off], v);
    }
    if !HasKey(vals, v) && off < |vals| {
      PathTotal(Key(vals[off]), Key(v));
      forall i | off <= i < |vals| ensures PathLess(Key(v), Key(vals[i])) {
        if off < i {
          PathTransitive(Key(v), Key(vals[off]), Key(vals[i]));
        }
      }
    }
  }

  lemma InsertSorted(vals: seq<Subscription>, v: Subscription)
    requires KeySorted(vals)
    ensures KeySorted(InsertValue(vals, v).0)
  {
    HasKeyIff(vals, v);
    var off := ValuePosition(vals, v);
    forall i, j | 0 <= i < off <= j < |vals| && !HasKey(vals, v)
      ensures PathLess(Key(vals[i]), Key(vals[j]))
    {
      PathTransitive(Key(vals[i]), Key(v), Key(vals[j]));
    }
  }

  lemma InsertedSet<T>(vals: seq<T>, v: T, off: nat)
    requires off <= |vals|
    ensures ToSet(vals[..off] + [v] + vals[off..]) == ToSet(vals) + {v}
  {
    assert vals == vals[..off] + vals[off..];
  }

  /** `insert_value` keeps values strictly sorted and adds to the set; the flags say what was there. */
  lemma InsertValueAdds(vals: seq<Subscription>, v: Subscription)
    requires KeySorted(vals)
    ensures var (r, first, repeat) := InsertValue(vals, v);
            && KeySorted(r) && ToSet(r) == Added(ToSet(vals), v) && r != []
            && first == (vals == []) && repeat == exists w :: w in ToSet(vals) && SameKey(w, v)
  {
    InsertSorted(vals, v);
    HasKeyIff(vals, v);
    if vals != [] && !HasKey(vals, v) {
      InsertedSet(vals, v, ValuePosition(vals, v));
    }
  }

  lemma WithoutOne(vals: seq<Subscription>, off: nat)
    requires KeySorted(vals) && off < |vals|
    ensures KeySorted(vals[..off] + vals[off + 1..])
    ensures forall w :: w in vals[..off] + vals[off + 1..] ==> w in vals
    ensures forall w :: w in vals && w != vals[off] ==> w in vals[..off] + vals[off + 1..]
  {
    assert vals == vals[..off] + [vals[off]] + vals[off + 1..];
  }

  /** Taking out the value that has the key leaves those that do not. */
  lemma RemovedKey(vals: seq<Subscription>, v: Subscription)
    requires KeySorted(vals) && HasKey(vals, v)
    ensures var off := ValuePosition(vals, v);
            var r := vals[..off] + vals[off + 1..];
            KeySorted(r) && forall w :: w in r <==> w in vals && !SameKey(w, v)
  {
    HasKeyIff(vals, v);
    var off := ValuePosition(vals, v);
    var r := vals[..off] + vals[off + 1..];
    WithoutOne(vals, off);
    forall w | w in r ensures !SameKey(w, v) {
      var i :| 0 <= i < |r| && r[i] == w;
      assert w == if i < off then vals[i] else vals[i + 1];
    }
  }

  lemma ClaimsOfMany(vals: seq<Subscription>, v: Subscription)
    requires KeySorted(vals) && |vals| > 1
    ensures forall w :: w in Dropped(ToSet(vals), v) <==> w in vals && !SameKey(w, v)
  {
    KeySortedFacts(vals);
    SetSize(vals);
  }

  /** `remove_value` drops what it claims; `last` says the set became empty, `missing` that it did not change. */
  lemma RemoveValueDrops(vals: seq<Subscription>, v: Subscription)
    requires KeySorted(vals) && vals != []
    ensures var (r, last, missing) := RemoveValue(vals, v);
            && KeySorted(r) && ToSet(r) == Dropped(ToSet(vals), v)
            && last == (r == []) && missing == (Dropped(ToSet(vals), v) == ToSet(vals))
  {
    if |vals| == 1 {
      RemoveSole(vals[0], v);
      assert vals == [vals[0]];
    } else {
      ClaimsOfMany(vals, v);
      HasKeyIff(vals, v);
      if HasKey(vals, v) {
        assert vals[ValuePosition(vals, v)] in ToSet(vals);
        RemovedKey(vals, v);
      }
    }
  }

  lemma RemoveSole(w: Subscription, v: Subscription)
    ensures var (r, last, missing) := RemoveValue([w], v);
            && KeySorted(r) && ToSet(r) == Dropped(ToSet([w]), v)
            && last == (r == []) && missing == (Dropped(ToSet([w]), v) == ToSet([w]))
  {
    assert ToSet([w]) == {w};
  }

  lemma {:induction false} SetSize<T>(s: seq<T>)
    requires NoDuplicates(s)
    ensures |ToSet(s)| == |s|
  {
    if s != [] {
      var rest := s[1..];
      assert s == [s[0]] + rest;
      SetSize(rest);
      assert ToSet(s) == ToSet(rest) + {s[0]};
    }
  }

  /**
   Whatever leaves is of the client and for the filter given. A sole value leaves exactly if it agrees with the
   one given in filter, client, identifier and all four options, whatever the shard; one of several, exactly if
   client and filter agree.
   */
  lemma RemovedIff(vals: seq<Subscription>, v: Subscription, w: Subscription)
    requires KeySorted(vals) && w in vals
    ensures w !in RemoveValue(vals, v).0 <==>
            && w.clientId == v.clientId && w.topicFilter == v.topicFilter
            && (|vals| == 1 ==>
                  && w.subscriptionId == v.subscriptionId && w.qos == v.qos && w.noLocal == v.noLocal
                  && w.retainAsPublished == v.retainAsPublished && w.retainForwardRule == v.retainForwardRule)
  {
    RemoveValueDrops(vals, v);
    KeySortedFacts(vals);
    SetSize(vals);
    assert w in RemoveValue(vals, v).0 <==> w in ToSet(RemoveValue(vals, v).0);
  }

  /** Subscribing is insertion into a set exactly when no other options are held under the key. */
  lemma AddedIsInsertion(s: set<Subscription>, v: Subscription)
    requires KeyUnique(s)
    ensures KeyUnique(Added(s, v))
    ensures Added(s, v) == s + {v} <==> forall w :: w in s && SameKey(w, v) ==> w == v
  {
    if w :| w in s && SameKey(w, v) && w != v {
      assert v !in s;
    }
  }

  /** Unsubscribing is removal from a set exactly when what it claims is the very value given. */
  lemma DroppedIsRemoval(s: set<Subscription>, v: Subscription)
    requires KeyUnique(s)
    ensures KeyUnique(Dropped(s, v)) && Dropped(s, v) <= s && |s - Dropped(s, v)| <= 1
    ensures Dropped(s, v) == s - {v} <==> forall w :: w in s && Claims(s, w, v) ==> w == v
  {
    var gone := s - Dropped(s, v);
    forall a, b | a in gone && b in gone ensures a == b {
      assert SameKey(a, b);
    }
    if gone != {} {
      var a :| a in gone;
      assert gone == {a};
    }
    if v in s {
      assert Claims(s, v, v);
    }
  }

  /**
   A consequence of comparing with two different relations: a client that subscribes again
   with other options keeps the old ones, and as the only subscriber of the filter it cannot
   be removed with the options it holds now.
   */
  lemma ResubscriptionSticks(a: Subscription, b: Subscription)
    requires SameKey(a, b) && !SameOptions(a, b)
    ensures Added({a}, b) == {a} && Dropped(Added({a}, b), b) == {a}
  {
  }
}
