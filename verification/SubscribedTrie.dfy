/**
 Whole runs of subscribe and unsubscribe: the trie refines a table, is determined by it,
 and answers matches as a scan of that table would.
 */
module SubscribedTrie {
  import opened Basics
  import opened Topic
  import opened Trie
  import opened TrieMatch
  import opened Subscriptions

  /** What the index is for: filter to non-empty set of subscriptions. */
  type Table = map<Path, set<Subscription>>

  ghost function At(m: Table, p: Path): set<Subscription> {
    if p in m then m[p] else {}
  }

  /** What is stored at a path is the table's set, sorted; sets in the table are not empty. */
  ghost predicate RepresentsAt(n: Node<Subscription>, m: Table, p: Path) {
    && (p in m ==> p != [] && m[p] != {})
    && (p != [] ==> KeySorted(Lookup(n, p)) && ToSet(Lookup(n, p)) == At(m, p))
  }

  ghost predicate Represents(n: Node<Subscription>, m: Table) {
    n.Root? && WellFormed(n) && forall p :: RepresentsAt(n, m, p)
  }

  ghost function TableSub(m: Table, p: Path, v: Subscription): Table {
    m[p := Added(At(m, p), v)]
  }

  ghost function TableUnsub(m: Table, p: Path, v: Subscription): Table {
    if p !in m then m
    else if Dropped(m[p], v) == {} then m - {p}
    else m[p := Dropped(m[p], v)]
  }

  /** The path ends at a node that only leads further down. */
  ghost predicate Interior(m: Table, p: Path) {
    p !in m && exists q :: q in m && p <= q
  }

  lemma LookupEmptyIff(n: Node<Subscription>, m: Table, p: Path)
    requires Represents(n, m) && p != []
    ensures Lookup(n, p) == [] <==> p !in m
  {
    assert RepresentsAt(n, m, p);
    EmptyToSet(Lookup(n, p));
  }

  lemma InteriorIff(n: Node<Subscription>, m: Table, p: Path)
    requires Represents(n, m) && p != []
    ensures HasNode(n, p) && Lookup(n, p) == [] <==> Interior(m, p)
    ensures p in m ==> HasNode(n, p)
  {
    HasNodeIff(n, p);
    LookupEmptyIff(n, m, p);
    if HasNode(n, p) {
      var q :| Lookup(n, p + q) != [];
      LookupEmptyIff(n, m, p + q);
      assert p <= p + q;
    }
    if q :| q in m && p <= q {
      LookupEmptyIff(n, m, q);
      assert q == p + q[|p|..];
    }
  }

  /** `sub` refines adding to the table, and reports what the table held. */
  lemma SubRefines(n: Node<Subscription>, m: Table, p: Path, v: Subscription)
    requires Represents(n, m) && p != []
    ensures var (n', first, repeat) := Sub(n, p, v);
            && Represents(n', TableSub(m, p, v))
            && first == (p !in m) && repeat == exists w :: w in At(m, p) && SameKey(w, v)
  {
    var (n', first, repeat) := Sub(n, p, v);
    var vals := InsertValue(Lookup(n, p), v).0;
    assert RepresentsAt(n, m, p);
    SubIsPut(n, p, v);
    InsertValueAdds(Lookup(n, p), v);
    LookupEmptyIff(n, m, p);
    PutWellFormed(n, p, vals);
    PutRepresents(n, m, p, vals, TableSub(m, p, v));
  }

  /**
   `unsub` refines removing from the table, reports what it did, and panics exactly at a path
   that is not stored while a longer one through it is.
   */
  lemma UnsubRefines(n: Node<Subscription>, m: Table, p: Path, v: Subscription)
    requires Represents(n, m) && p != []
    ensures Unsub(n, p, v).Unreachable? <==> Interior(m, p)
    ensures !Interior(m, p) ==>
              match Unsub(n, p, v)
              case Unreachable => false
              case Unsubbed(n', last, missing) =>
                && n'.Some? && Represents(n'.value, TableUnsub(m, p, v))
                && last == (p in m && p !in TableUnsub(m, p, v))
                && missing == (TableUnsub(m, p, v) == m)
  {
    UnsubIsPut(n, p, v);
    InteriorIff(n, m, p);
    LookupEmptyIff(n, m, p);
    if p in m {
      RemovalRefines(n, m, p, v);
    }
  }

  /**
   What leaves the tree leaves at the path given, and is of the client and for the filter given. A sole
   subscription leaves exactly if all else agrees as well but the shard; one of several leaves in any case.
   */
  lemma UnsubRemoves(n: Node<Subscription>, m: Table, p: Path, v: Subscription, q: Path, w: Subscription)
    requires Represents(n, m) && p != [] && q != [] && Unsub(n, p, v).Unsubbed? && w in Lookup(n, q)
    ensures var r := Unsub(n, p, v).node;
            r.Some? && (w !in Lookup(r.value, q) <==>
                        && q == p && w.clientId == v.clientId && w.topicFilter == v.topicFilter
                        && (|Lookup(n, p)| == 1 ==>
                              && w.subscriptionId == v.subscriptionId && w.qos == v.qos && w.noLocal == v.noLocal
                              && w.retainAsPublished == v.retainAsPublished
                              && w.retainForwardRule == v.retainForwardRule))
  {
    UnsubRefines(n, m, p, v);
    UnsubIsPut(n, p, v);
    assert RepresentsAt(n, m, p);
    if Lookup(n, p) != [] {
      PutLookup(n, p, RemoveValue(Lookup(n, p), v).0, q);
      if q == p {
        RemovedIff(Lookup(n, p), v, w);
      }
    }
  }

  /** Storing `vals` at one path represents the table with their set there. */
  lemma PutRepresents(n: Node<Subscription>, m: Table, p: Path, vals: seq<Subscription>, m': Table)
    requires Represents(n, m) && p != [] && Put(n, p, vals).Some? && KeySorted(vals)
    requires m' == if vals == [] then m - {p} else m[p := ToSet(vals)]
    ensures Represents(Put(n, p, vals).value, m')
  {
    PutWellFormed(n, p, vals);
    var n' := Put(n, p, vals).value;
    forall q ensures RepresentsAt(n', m', q) {
      PutRepresentsAt(n, m, p, vals, m', q);
    }
  }

  lemma PutRepresentsAt(n: Node<Subscription>, m: Table, p: Path, vals: seq<Subscription>, m': Table, q: Path)
    requires Represents(n, m) && p != [] && Put(n, p, vals).Some? && KeySorted(vals)
    requires m' == if vals == [] then m - {p} else m[p := ToSet(vals)]
    ensures RepresentsAt(Put(n, p, vals).value, m', q)
  {
    assert RepresentsAt(n, m, q);
    EmptyToSet(vals);
    if q != [] {
      PutLookup(n, p, vals, q);
    }
  }

  lemma EmptyToSet(vals: seq<Subscription>)
    ensures vals == [] <==> ToSet(vals) == {}
  {
    if vals != [] {
      assert vals[0] in ToSet(vals);
    }
  }

  lemma RemovalRefines(n: Node<Subscription>, m: Table, p: Path, v: Subscription)
    requires Represents(n, m) && p != [] && p in m
    ensures var (vals, last, missing) := RemoveValue(Lookup(n, p), v);
            && Put(n, p, vals).Some? && Represents(Put(n, p, vals).value, TableUnsub(m, p, v))
            && last == (p !in TableUnsub(m, p, v)) && missing == (TableUnsub(m, p, v) == m)
  {
    var (vals, last, missing) := RemoveValue(Lookup(n, p), v);
    assert RepresentsAt(n, m, p);
    LookupEmptyIff(n, m, p);
    PutWellFormed(n, p, vals);
    RemoveValueDrops(Lookup(n, p), v);
    EmptyToSet(vals);
    PutRepresents(n, m, p, vals, TableUnsub(m, p, v));
    assert missing ==> m[p := Dropped(m[p], v)] == m;
  }

  // ---------------------------------------------------------------------------- runs

  datatype Op =
    | Subscribe(path: Path, value: Subscription)
    | Unsubscribe(path: Path, value: Subscription)

  /** `Inner` with the one statistic that later code relies on. */
  datatype Index = Index(root: Node<Subscription>, count: nat)

  const EMPTY := Index(Root([]), 0)

  /** `do_subscribe` and `do_unsubscribe`; None is a panic. */
  function Apply(s: Index, op: Op): Option<Index> {
    match op
    case Subscribe(p, v) =>
      var (root, first, _) := Sub(s.root, p, v);
      Some(Index(root, if first then SaturatingIncr(s.count) else s.count))
    case Unsubscribe(p, v) =>
      match Unsub(s.root, p, v)
      case Unreachable => None
      case Unsubbed(None, _, _) => None
      case Unsubbed(Some(root), last, _) =>
        Some(Index(root, if last then SaturatingDecr(s.count) else s.count))
  }

  function Run(ops: seq<Op>): Option<Index> {
    if ops == [] then Some(EMPTY)
    else
      match Run(ops[..|ops| - 1])
      case None => None
      case Some(s) => Apply(s, ops[|ops| - 1])
  }

  ghost function TableApply(m: Table, op: Op): Option<Table> {
    match op
    case Subscribe(p, v) => Some(TableSub(m, p, v))
    case Unsubscribe(p, v) => if Interior(m, p) then None else Some(TableUnsub(m, p, v))
  }

  ghost function TableRun(ops: seq<Op>): Option<Table> {
    if ops == [] then Some(map[])
    else
      match TableRun(ops[..|ops| - 1])
      case None => None
      case Some(m) => TableApply(m, ops[|ops| - 1])
  }

  /** `split('/')` never yields an empty path. */
  predicate WellPathed(ops: seq<Op>) {
    forall i :: 0 <= i < |ops| ==> ops[i].path != []
  }

  lemma ApplyRefines(s: Index, m: Table, op: Op)
    requires Represents(s.root, m) && op.path != []
    ensures match (Apply(s, op), TableApply(m, op))
            case (None, None) => true
            case (Some(s'), Some(m')) =>
              && Represents(s'.root, m')
              && (s.count == |m| && |m'| <= U64_MAX ==> s'.count == |m'|)
            case _ => false
  {
    match op {
      case Subscribe(p, v) =>
        SubRefines(s.root, m, p, v);
        TableSubSize(m, p, v);
      case Unsubscribe(p, v) =>
        UnsubRefines(s.root, m, p, v);
        TableUnsubSize(m, p, v);
    }
  }

  lemma TableSubSize(m: Table, p: Path, v: Subscription)
    ensures |TableSub(m, p, v)| == if p in m then |m| else |m| + 1
  {
    assert TableSub(m, p, v).Keys == m.Keys + {p};
  }

  lemma TableUnsubSize(m: Table, p: Path, v: Subscription)
    ensures |TableUnsub(m, p, v)| == if p in m && p !in TableUnsub(m, p, v) then |m| - 1 else |m|
  {
    if p in m {
      assert (m - {p}).Keys == m.Keys - {p};
      assert m[p := Dropped(m[p], v)].Keys == m.Keys;
    }
  }

  /**
   Every run of subscribe and unsubscribe keeps the trie a faithful, sorted and pruned image
   of the table, and panics exactly when it unsubscribes an interior path.
   */
  lemma {:induction false} RunRefines(ops: seq<Op>)
    requires WellPathed(ops)
    ensures Run(ops).Some? <==> TableRun(ops).Some?
    ensures Run(ops).Some? ==> Represents(Run(ops).value.root, TableRun(ops).value)
  {
    if ops == [] {
      forall p: Path ensures RepresentsAt(EMPTY.root, map[], p) {
      }
    } else {
      var init := ops[..|ops| - 1];
      RunRefines(init);
      if Run(init).Some? {
        ApplyRefines(Run(init).value, TableRun(init).value, ops[|ops| - 1]);
      }
    }
  }

  /** Unsubscribing from a level that only leads on panics. */
  lemma UnsubExample(v: Subscription)
    ensures Run([Subscribe([[97], [98]], v)] + [Unsubscribe([[97]], v)]).None?
  {
    var p: Path := [[97], [98]];
    var one: seq<Op> := [Subscribe(p, v)];
    var ops := one + [Unsubscribe([[97]], v)];
    assert one[..0] == [] && ops[..1] == one;
    assert TableRun(one) == Some(TableSub(map[], p, v));
    assert p in TableSub(map[], p, v) && [[97]] <= p && [[97]] != p;
    RunRefines(ops);
  }

  /**
   A client that subscribes, and subscribes again with another `no_local`, cannot be taken out with what it holds
   now: the first subscription stays, and is said to be missing.
   */
  lemma LingeringRun(p: Path, a: Subscription, b: Subscription)
    requires p != [] && b == a.(noLocal := !a.noLocal)
    ensures Run([Subscribe(p, a)] + [Subscribe(p, b)] + [Unsubscribe(p, b)]).Some?
    ensures TableRun([Subscribe(p, a)] + [Subscribe(p, b)] + [Unsubscribe(p, b)]) == Some(map[p := {a}])
  {
    var one: seq<Op>, two: seq<Op> := [Subscribe(p, a)], [Subscribe(p, a)] + [Subscribe(p, b)];
    var ops := two + [Unsubscribe(p, b)];
    assert one[..0] == [] && two[..1] == one && ops[..2] == two;
    ResubscriptionSticks(a, b);
    var m: Table := map[p := {a}];
    assert TableRun(one) == Some(m);
    assert At(m, p) == {a} && TableSub(m, p, b) == m;
    assert two[1] == Subscribe(p, b) && TableRun(two) == Some(m);
    assert TableUnsub(m, p, b) == m && !Interior(m, p);
    RunRefines(ops);
  }

  /** No prefix of the run held more filters than the counter can count. */
  ghost predicate Countable(ops: seq<Op>) {
    forall k :: 0 <= k <= |ops| && TableRun(ops[..k]).Some? ==> |TableRun(ops[..k]).value| <= U64_MAX
  }

  /** `stats.count` is the number of distinct filters stored, after every run. */
  lemma {:induction false} CountIsExact(ops: seq<Op>)
    requires WellPathed(ops) && Countable(ops) && Run(ops).Some?
    ensures TableRun(ops).Some? && Run(ops).value.count == |TableRun(ops).value|
    ensures TableRun(ops).value.Keys == StoredPaths(Run(ops).value.root)
  {
    RunRefines(ops);
    var n, m := Run(ops).value.root, TableRun(ops).value;
    forall p ensures p in m.Keys <==> p in StoredPaths(n) {
      StoredPathsIff(n, p);
      assert RepresentsAt(n, m, p);
      if p != [] {
        LookupEmptyIff(n, m, p);
      }
    }
    if ops != [] {
      var init := ops[..|ops| - 1];
      RunRefines(init);
      assert forall k :: 0 <= k <= |init| ==> init[..k] == ops[..k];
      CountIsExact(init);
      assert ops[..|ops|] == ops;
      ApplyRefines(Run(init).value, TableRun(init).value, ops[|ops| - 1]);
    }
  }

  /** Two runs that end with the same table end with the same tree. */
  lemma RunsAreCanonical(xs: seq<Op>, ys: seq<Op>)
    requires WellPathed(xs) && WellPathed(ys) && Run(xs).Some? && Run(ys).Some?
    requires TableRun(xs) == TableRun(ys)
    ensures Run(xs).value.root == Run(ys).value.root
  {
    RunRefines(xs);
    RunRefines(ys);
    var a, b := Run(xs).value.root, Run(ys).value.root;
    SameTable(a, b, TableRun(xs).value);
  }

  lemma SameTable(a: Node<Subscription>, b: Node<Subscription>, m: Table)
    requires Represents(a, m) && Represents(b, m)
    ensures a == b
  {
    forall p | p != [] ensures Lookup(a, p) == Lookup(b, p) {
      assert RepresentsAt(a, m, p) && RepresentsAt(b, m, p);
      SortedUnique(Lookup(a, p), Lookup(b, p));
    }
    Canonical(a, b);
  }

  /** A strictly sorted list is determined by its elements. */
  lemma {:induction false} SortedUnique(xs: seq<Subscription>, ys: seq<Subscription>)
    requires KeySorted(xs) && KeySorted(ys) && ToSet(xs) == ToSet(ys)
    ensures xs == ys
  {
    KeySortedFacts(xs);
    KeySortedFacts(ys);
    SetSize(xs);
    SetSize(ys);
    if xs == [] {
      return;
    }
    assert xs == [xs[0]] + xs[1..] && ys == [ys[0]] + ys[1..];
    FirstIsLeast(xs, ys);
    FirstIsLeast(ys, xs);
    if xs[0] != ys[0] {
      Order.PathAsymmetric(Key(xs[0]), Key(ys[0]));
    }
    forall w ensures w in ToSet(xs[1..]) <==> w in ToSet(ys[1..]) {
      assert w in xs[1..] ==> w != xs[0] && w in ToSet(xs);
      assert w in ys[1..] ==> w != ys[0] && w in ToSet(ys);
    }
    SortedUnique(xs[1..], ys[1..]);
  }

  lemma FirstIsLeast(xs: seq<Subscription>, ys: seq<Subscription>)
    requires KeySorted(xs) && ys != [] && xs != [] && ToSet(xs) == ToSet(ys)
    ensures xs[0] == ys[0] || Order.PathLess(Key(xs[0]), Key(ys[0]))
  {
    assert ys[0] in ToSet(ys);
    var i :| 0 <= i < |xs| && xs[i] == ys[0];
  }

  /** Subscribing under a new key and unsubscribing again gives back the same tree. */
  lemma UnsubUndoesSub(n: Node<Subscription>, m: Table, p: Path, v: Subscription)
    requires Represents(n, m) && p != [] && !exists w :: w in At(m, p) && SameKey(w, v)
    ensures Unsub(Sub(n, p, v).0, p, v).Unsubbed?
    ensures Unsub(Sub(n, p, v).0, p, v).node == Some(n)
  {
    SubRefines(n, m, p, v);
    var n1, m1 := Sub(n, p, v).0, TableSub(m, p, v);
    UnsubRefines(n1, m1, p, v);
    assert RepresentsAt(n, m, p);
    TableUndone(m, p, v);
    SameTable(Unsub(n1, p, v).node.value, n, m);
  }

  lemma TableUndone(m: Table, p: Path, v: Subscription)
    requires (p in m ==> m[p] != {}) && !exists w :: w in At(m, p) && SameKey(w, v)
    ensures TableUnsub(TableSub(m, p, v), p, v) == m && !Interior(TableSub(m, p, v), p)
  {
    NewKeyDrops(At(m, p), v);
    PutBackIn(m, p, TableSub(m, p, v)[p]);
  }

  lemma PutBackIn(m: Table, p: Path, s: set<Subscription>)
    ensures if p in m then m[p := s][p := m[p]] == m else m[p := s] - {p} == m
  {
  }

  lemma NewKeyDrops(s: set<Subscription>, v: Subscription)
    requires !exists w :: w in s && SameKey(w, v)
    ensures Dropped(Added(s, v), v) == s
  {
    assert SameKey(v, v) && v !in s;
    assert Added(s, v) == s + {v};
    assert Claims(Added(s, v), v, v);
  }

  /**
   After every run, a match of a topic returns each subscription once for each filter of the
   table that selects the topic and holds it, and returns nothing else.
   */
  lemma MatchIsTableScan(ops: seq<Op>, t: Path, dollar: bool, v: Subscription)
    requires WellPathed(ops) && Run(ops).Some?
    ensures TableRun(ops).Some?
    ensures var found := FlatScan(ForestEntries(Run(ops).value.root.children), t, dollar);
            var m := TableRun(ops).value;
            multiset(found)[v] == |set p | p in m && Selected(p, t, dollar) && v in m[p]|
  {
    RunRefines(ops);
    MatchRepresented(Run(ops).value.root, TableRun(ops).value, t, dollar, v);
  }

  lemma StoredInTable(n: Node<Subscription>, m: Table, p: Path, v: Subscription)
    requires Represents(n, m)
    ensures p in StoredPaths(n) && v in Lookup(n, p) <==> p in m && v in m[p]
  {
    StoredPathsIff(n, p);
    assert RepresentsAt(n, m, p);
    if p != [] {
      LookupEmptyIff(n, m, p);
      assert v in Lookup(n, p) <==> v in ToSet(Lookup(n, p));
    }
  }

  lemma MatchRepresented(n: Node<Subscription>, m: Table, t: Path, dollar: bool, v: Subscription)
    requires Represents(n, m)
    ensures multiset(FlatScan(ForestEntries(n.children), t, dollar))[v] ==
            |set p | p in m && Selected(p, t, dollar) && v in m[p]|
  {
    var es := ForestEntries(n.children);
    ForestEntriesSorted(n.children);
    forall e | e in es ensures NoDuplicates(e.values) {
      ForestEntriesIff(n.children, e);
      assert RepresentsAt(n, m, e.filter);
      KeySortedFacts(Lookup(n, e.filter));
    }
    ScanCounts(es, t, dollar, v);
    HitFiltersStored(n, t, dollar, v);
    forall p ensures p in StoredPaths(n) && Selected(p, t, dollar) && v in Lookup(n, p)
                <==> p in m && Selected(p, t, dollar) && v in m[p] {
      StoredInTable(n, m, p, v);
    }
    assert HitFilters(es, t, dollar, v) == set p | p in m && Selected(p, t, dollar) && v in m[p];
  }

  // --------------------------------------------------------------------- the wrapper

  /** `SubscribedTrie` as one thread sees it: a root swapped whole, and its statistics. */
  class Subscribed {
    var index: Index
    ghost var table: Table

    ghost predicate Valid()
      reads this
    {
      Represents(index.root, table)
    }

    constructor ()
      ensures Valid() && table == map[] && index.count == 0
    {
      index := EMPTY;
      table := map[];
      new;
      RunRefines([]);
    }

    method Subscribe(filter: Bytes, value: Subscription)
      requires Valid()
      modifies this
      ensures Valid() && table == TableSub(old(table), Split(filter), value)
      ensures old(index.count == |table|) && |table| <= U64_MAX ==> index.count == |table|
    {
      var op := Op.Subscribe(Split(filter), value);
      ApplyRefines(index, table, op);
      index := Apply(index, op).value;
      table := TableSub(table, op.path, value);
    }

    method Unsubscribe(filter: Bytes, value: Subscription) returns (panicked: bool)
      requires Valid()
      modifies this
      ensures panicked == Interior(old(table), Split(filter))
      ensures panicked ==> index == old(index) && table == old(table)
      ensures !panicked ==> Valid() && table == TableUnsub(old(table), Split(filter), value)
      ensures old(index.count == |table|) && |table| <= U64_MAX ==> index.count == |table|
    {
      var op := Op.Unsubscribe(Split(filter), value);
      ApplyRefines(index, table, op);
      match Apply(index, op) {
        case None => panicked := true;
        case Some(next) =>
          panicked := false;
          index := next;
          table := TableUnsub(table, op.path, value);
      }
    }

    method MatchTopicName(topic: Bytes) returns (found: seq<Subscription>)
      requires Valid()
      ensures found == FlatScan(ForestEntries(index.root.children), Split(topic), true)
      ensures forall v :: multiset(found)[v] ==
                |set p | p in table && Selected(p, Split(topic), true) && v in table[p]|
    {
      var r := MatchTopic(index.root, Split(topic), true);
      found := r.value;
      forall v ensures multiset(found)[v] ==
                |set p | p in table && Selected(p, Split(topic), true) && v in table[p]|
      {
        MatchRepresented(index.root, table, Split(topic), true, v);
      }
    }
  }
}
