/** The index of retained messages: `set` and `remove` on the trie, one value to a topic. */
module RetainedTrie {
  import opened Basics
  import opened Topic
  import opened Trie

  /** `Node::set`: (node, first). */
  function Set<V>(n: Node<V>, p: Path, v: V): (Node<V>, bool)
    decreases |p|
  {
    if p == [] then (WithValues(n, [v]), ValuesOf(n) == [])
    else
      var (child, first) := Set(ChildFor(n.children, p[0]), p[1..], v);
      (n.(children := Replaced(n.children, p[0], child)), first)
  }

  datatype RemoveResult<V> = Unreachable | Removed(node: Option<Node<V>>, missing: bool)

  /** `Node::remove`; it panics at a node that does not hold exactly one value. */
  function Remove<V>(n: Node<V>, p: Path): RemoveResult<V>
    decreases |p|
  {
    if p == [] then
      if |ValuesOf(n)| != 1 then Unreachable
      else
        var n' := WithValues(n, []);
        Removed(if IsEmpty(n') then None else Some(n'), false)
    else if !Found(n.children, p[0]) then Removed(Some(n), true)
    else
      match Remove(ChildFor(n.children, p[0]), p[1..])
      case Unreachable => Unreachable
      case Removed(Some(c), missing) => Removed(Some(n.(children := Replaced(n.children, p[0], c))), missing)
      case Removed(None, missing) =>
        var n' := n.(children := Trie.Removed(n.children, p[0]));
        Removed(if IsEmpty(n') then None else Some(n'), missing)
  }

  lemma {:induction false} SetIsPut<V>(n: Node<V>, p: Path, v: V)
    requires WellFormed(n) && (n.Child? || p != [])
    ensures Put(n, p, [v]) == Some(Set(n, p, v).0) && Set(n, p, v).1 == (Lookup(n, p) == [])
    decreases |p|
  {
    if p != [] {
      var c := ChildFor(n.children, p[0]);
      assert Found(n.children, p[0]) ==> c in n.children;
      SetIsPut(c, p[1..], v);
      LookupStep(n, p);
    }
  }

  lemma {:induction false} RemoveAbsent<V>(n: Node<V>, p: Path)
    requires WellFormed(n) && p != [] && !HasNode(n, p)
    ensures Lookup(n, p) == [] && Remove(n, p) == Removed(Some(n), true)
    decreases |p|
  {
    if Found(n.children, p[0]) {
      var c := n.children[Position(n.children, p[0])];
      assert c in n.children;
      RemoveAbsent(c, p[1..]);
      ReplacedBySame(n.children, p[0]);
    }
  }

  lemma ReplacedBySame<V>(cs: seq<Node<V>>, level: Level)
    requires Found(cs, level)
    ensures Replaced(cs, level, cs[Position(cs, level)]) == cs
  {
  }

  lemma {:induction false} RemoveIsPut<V>(n: Node<V>, p: Path)
    requires WellFormed(n) && (n.Child? || p != []) && HasNode(n, p)
    ensures if |Lookup(n, p)| == 1 then Remove(n, p) == Removed(Put(n, p, []), false) else Remove(n, p).Unreachable?
    decreases |p|
  {
    if p != [] {
      var c := n.children[Position(n.children, p[0])];
      assert c in n.children;
      RemoveIsPut(c, p[1..]);
    }
  }

  // ---------------------------------------------------------- the table of messages

  /** The message of a topic is at its path. */
  ghost predicate StoredAt<V>(n: Node<V>, m: map<Bytes, V>, t: Bytes) {
    t in m ==> Lookup(n, Split(t)) == [m[t]]
  }

  /** What is at a path is of a topic. */
  ghost predicate StoredFor<V>(n: Node<V>, m: map<Bytes, V>, p: Path) {
    p != [] && Lookup(n, p) != [] ==> exists t :: t in m && Split(t) == p
  }

  /** One message per topic, at the topic's path, and nothing else. */
  ghost predicate Holds<V>(n: Node<V>, m: map<Bytes, V>) {
    n.Root? && WellFormed(n) && (forall t :: StoredAt(n, m, t)) && forall p :: StoredFor(n, m, p)
  }

  /** The topic is not stored, but one below it is. */
  ghost predicate Interior<V>(m: map<Bytes, V>, topic: Bytes) {
    topic !in m && exists t :: t in m && Split(topic) <= Split(t)
  }

  lemma LookupIff<V>(n: Node<V>, m: map<Bytes, V>, topic: Bytes)
    requires Holds(n, m)
    ensures Lookup(n, Split(topic)) == if topic in m then [m[topic]] else []
  {
    assert StoredAt(n, m, topic) && StoredFor(n, m, Split(topic));
    if topic !in m && Lookup(n, Split(topic)) != [] {
      var t :| t in m && Split(t) == Split(topic);
      SplitInjective(t, topic);
    }
  }

  lemma NodeLeadsToTopic<V>(n: Node<V>, m: map<Bytes, V>, p: Path)
    requires Holds(n, m) && p != [] && HasNode(n, p)
    ensures exists t :: t in m && p <= Split(t)
  {
    HasNodeIff(n, p);
    var q :| Lookup(n, p + q) != [];
    assert StoredFor(n, m, p + q);
    var t :| t in m && Split(t) == p + q;
    assert p <= Split(t);
  }

  lemma TopicHasNodes<V>(n: Node<V>, m: map<Bytes, V>, p: Path, t: Bytes)
    requires Holds(n, m) && p != [] && t in m && p <= Split(t)
    ensures HasNode(n, p)
  {
    HasNodeIff(n, p);
    assert StoredAt(n, m, t) && Split(t) == p + Split(t)[|p|..];
    assert Lookup(n, p + Split(t)[|p|..]) != [];
  }

  lemma InteriorIff<V>(n: Node<V>, m: map<Bytes, V>, topic: Bytes)
    requires Holds(n, m)
    ensures HasNode(n, Split(topic)) && |Lookup(n, Split(topic))| != 1 <==> Interior(m, topic)
    ensures topic in m ==> HasNode(n, Split(topic))
  {
    var p := Split(topic);
    LookupIff(n, m, topic);
    if HasNode(n, p) {
      NodeLeadsToTopic(n, m, p);
    }
    if t :| t in m && p <= Split(t) {
      TopicHasNodes(n, m, p, t);
    }
    if topic in m {
      TopicHasNodes(n, m, p, topic);
    }
  }

  /** `set` refines updating the table; `first` says the topic was new. */
  lemma SetRefines<V>(n: Node<V>, m: map<Bytes, V>, topic: Bytes, v: V)
    requires Holds(n, m)
    ensures Holds(Set(n, Split(topic), v).0, m[topic := v]) && Set(n, Split(topic), v).1 == (topic !in m)
  {
    var p := Split(topic);
    SetIsPut(n, p, v);
    PutWellFormed(n, p, [v]);
    LookupIff(n, m, topic);
    PutRefines(n, m, topic, [v], m[topic := v]);
  }

  /** `remove` refines deleting from the table, and panics exactly at an interior topic. */
  lemma RemoveRefines<V>(n: Node<V>, m: map<Bytes, V>, topic: Bytes)
    requires Holds(n, m)
    ensures Remove(n, Split(topic)).Unreachable? <==> Interior(m, topic)
    ensures !Interior(m, topic) ==>
              match Remove(n, Split(topic))
              case Unreachable => false
              case Removed(n', missing) =>
                n'.Some? && Holds(n'.value, m - {topic}) && missing == (topic !in m)
  {
    var p := Split(topic);
    InteriorIff(n, m, topic);
    LookupIff(n, m, topic);
    if HasNode(n, p) {
      RemoveIsPut(n, p);
    } else {
      RemoveAbsent(n, p);
    }
    if topic in m {
      PutWellFormed(n, p, []);
      PutRefines(n, m, topic, [], m - {topic});
    } else {
      assert m - {topic} == m;
    }
  }

  /** What is stored for a topic of the new table. */
  lemma PutStores<V>(n: Node<V>, m: map<Bytes, V>, topic: Bytes, vals: seq<V>, m': map<Bytes, V>, t: Bytes)
    requires Holds(n, m) && Put(n, Split(topic), vals).Some? && |vals| <= 1
    requires m' == if vals == [] then m - {topic} else m[topic := vals[0]]
    ensures StoredAt(Put(n, Split(topic), vals).value, m', t)
  {
    PutLookup(n, Split(topic), vals, Split(t));
    assert StoredAt(n, m, t);
    if t != topic && Split(t) == Split(topic) {
      SplitInjective(t, topic);
    }
  }

  /** What is stored anywhere is of a topic of the new table. */
  lemma PutStoresOnly<V>(n: Node<V>, m: map<Bytes, V>, topic: Bytes, vals: seq<V>, m': map<Bytes, V>, q: Path)
    requires Holds(n, m) && Put(n, Split(topic), vals).Some? && |vals| <= 1
    requires m' == if vals == [] then m - {topic} else m[topic := vals[0]]
    ensures StoredFor(Put(n, Split(topic), vals).value, m', q)
  {
    if q != [] && Lookup(Put(n, Split(topic), vals).value, q) != [] {
      PutLookup(n, Split(topic), vals, q);
      if q == Split(topic) {
        assert topic in m' && Split(topic) == q;
      } else {
        assert StoredFor(n, m, q);
        var t :| t in m && Split(t) == q;
        assert t in m';
      }
    }
  }

  lemma PutRefines<V>(n: Node<V>, m: map<Bytes, V>, topic: Bytes, vals: seq<V>, m': map<Bytes, V>)
    requires Holds(n, m) && Put(n, Split(topic), vals).Some? && |vals| <= 1
    requires m' == if vals == [] then m - {topic} else m[topic := vals[0]]
    ensures Holds(Put(n, Split(topic), vals).value, m')
  {
    var n' := Put(n, Split(topic), vals).value;
    PutWellFormed(n, Split(topic), vals);
    forall t ensures StoredAt(n', m', t) {
      PutStores(n, m, topic, vals, m', t);
    }
    forall q ensures StoredFor(n', m', q) {
      PutStoresOnly(n, m, topic, vals, m', q);
    }
  }

  // --------------------------------------------------------------------- the wrapper

  lemma WithTopic<V>(m: map<Bytes, V>, topic: Bytes, v: V)
    ensures |m[topic := v]| == if topic in m then |m| else |m| + 1
  {
    assert m[topic := v].Keys == m.Keys + {topic};
  }

  lemma WithoutTopic<V>(m: map<Bytes, V>, topic: Bytes)
    ensures if topic in m then |m - {topic}| == |m| - 1 else m - {topic} == m
  {
    assert (m - {topic}).Keys == m.Keys - {topic};
  }

  /** A root together with the table it holds. */
  datatype Pair<V> = Pair(root: Node<V>, messages: map<Bytes, V>)

  type Table<V> = t: Pair<V> | Holds(t.root, t.messages) ghost witness EmptyTable()

  ghost function EmptyTable<V>(): (t: Pair<V>)
    ensures Holds(t.root, t.messages)
  {
    var root: Node<V> := Root([]);
    var none: map<Bytes, V> := map[];
    assert (forall p: Path :: StoredFor(root, none, p)) && forall t :: StoredAt(root, none, t);
    Pair(root, none)
  }

  /**
   `RetainedTrie` as the cluster thread uses it, with two of its statistics. `missing` is counted
   down from zero with saturation, so it stays zero.
   */
  class Retained<V> {
    var root: Node<V>
    var count: nat
    var missing: nat
    ghost var messages: map<Bytes, V>
    ghost var table: Table<V>

    /** The tree holds the messages. */
    ghost predicate Valid()
      reads this
    {
      table == Pair(root, messages) && missing == 0
    }

    /** The statistic says how many messages there are. */
    ghost predicate Counted()
      reads this
    {
      count == |messages|
    }

    constructor ()
      ensures Valid() && messages == map[] && Counted()
    {
      root := Root([]);
      count, missing := 0, 0;
      messages := map[];
      table := EmptyTable();
    }

    /** `do_set`. */
    method SetMessage(topic: Bytes, message: V)
      requires Valid()
      modifies this
      ensures Valid() && messages == old(messages)[topic := message]
      ensures old(Counted()) && |messages| <= U64_MAX ==> Counted()
    {
      SetRefines(root, messages, topic, message);
      WithTopic(messages, topic, message);
      var (node, first) := Set(root, Split(topic), message);
      if first {
        count := SaturatingIncr(count);
      }
      root := node;
      messages := messages[topic := message];
      table := Pair(root, messages);
    }

    /** `do_remove`. */
    method RemoveMessage(topic: Bytes) returns (panicked: bool)
      requires Valid()
      modifies this
      ensures Valid() && panicked == Interior(old(messages), topic)
      ensures messages == old(messages) - {topic}
      ensures old(Counted()) ==> Counted()
    {
      RemoveRefines(root, messages, topic);
      WithoutTopic(messages, topic);
      match Remove(root, Split(topic)) {
        case Unreachable =>
          panicked := true;
        case Removed(n, absent) =>
          panicked := false;
          if absent {
            missing := SaturatingDecr(missing);
          } else {
            count := SaturatingDecr(count);
          }
          root := n.value;
          messages := messages - {topic};
          table := Pair(root, messages);
      }
    }
  }

  lemma SplitExample()
    ensures Split([97]) == [[97]] && Split([97, SLASH, 98]) == [[97], [98]]
  {
    assert [97][1..] == [] && [98][1..] == [] && [97, SLASH, 98][1..] == [SLASH, 98] && [SLASH, 98][1..] == [98];
    var none: Bytes := [];
    assert Split(none) == [none] && [none][1..] == [] && [98] + none == [98] && [97] + none == [97];
    assert Split([98]) == [[98]];
    assert Split([SLASH, 98]) == [[], [98]];
  }

  /** With a message for `a/b`, removing that of `a` panics. */
  method RemoveExample<V>(message: V) returns (panicked: bool)
    ensures panicked
  {
    var trie := new Retained();
    SplitExample();
    trie.SetMessage([97, SLASH, 98], message);
    assert [97, SLASH, 98] in trie.messages && Split([97]) <= Split([97, SLASH, 98]);
    panicked := trie.RemoveMessage([97]);
  }
}
