/**
 The nodes of the topic trie, whatever its values are: what is stored where, replacing
 the values at one path with the pruning the code does, and the uniqueness of the tree.
 */
module Trie {
  import opened Basics
  import opened Order
  import opened Topic

  datatype Node<V> =
    | Root(children: seq<Node<V>>)
    | Child(name: Level, children: seq<Node<V>>, values: seq<V>)

  /** `as_name`, which the code calls on children only. */
  function NameOf<V>(n: Node<V>): Level {
    if n.Child? then n.name else []
  }

  function ValuesOf<V>(n: Node<V>): seq<V> {
    if n.Child? then n.values else []
  }

  function WithValues<V>(n: Node<V>, vals: seq<V>): Node<V> {
    if n.Child? then n.(values := vals) else n
  }

  /** `Node::is_empty`. */
  predicate IsEmpty<V>(n: Node<V>) {
    n.Child? && n.children == [] && n.values == []
  }

  ghost predicate Sorted<V>(cs: seq<Node<V>>) {
    forall i, j :: 0 <= i < j < |cs| ==> Less(NameOf(cs[i]), NameOf(cs[j]))
  }

  /** Children strictly sorted by name, and no empty node below this one. */
  ghost predicate WellFormed<V>(n: Node<V>)
    decreases n
  {
    Sorted(n.children) && forall c :: c in n.children ==> c.Child? && !IsEmpty(c) && WellFormed(c)
  }

  // ------------------------------------------------------------------- finding a child

  /** `binary_search_by_key` on sorted children: where the level is, or where it goes. */
  function Position<V>(cs: seq<Node<V>>, level: Level): (off: nat)
    ensures off <= |cs|
    ensures forall i :: 0 <= i < off ==> Less(NameOf(cs[i]), level)
    ensures off < |cs| ==> !Less(NameOf(cs[off]), level)
  {
    if cs == [] || !Less(NameOf(cs[0]), level) then 0
    else
      var off := 1 + Position(cs[1..], level);
      assert forall i :: 0 < i < off ==> cs[i] == cs[1..][i - 1];
      off
  }

  predicate Found<V>(cs: seq<Node<V>>, level: Level) {
    Position(cs, level) < |cs| && NameOf(cs[Position(cs, level)]) == level
  }

  /** In sorted children a level is found exactly when some child bears it. */
  lemma FoundIff<V>(cs: seq<Node<V>>, level: Level)
    requires Sorted(cs)
    ensures Found(cs, level) <==> exists c :: c in cs && NameOf(c) == level
    ensures forall i :: 0 <= i < |cs| && NameOf(cs[i]) == level ==> i == Position(cs, level)
    ensures !Found(cs, level) ==> forall i :: Position(cs, level) <= i < |cs| ==> Less(level, NameOf(cs[i]))
  {
    var off := Position(cs, level);
    forall i | 0 <= i < |cs| && NameOf(cs[i]) == level ensures i == off {
      if i < off {
        Irreflexive(level);
      }
    }
    if !Found(cs, level) && off < |cs| {
      Total(NameOf(cs[off]), level);
      forall i | off <= i < |cs| ensures Less(level, NameOf(cs[i])) {
        if off < i {
          Transitive(level, NameOf(cs[off]), NameOf(cs[i]));
        }
      }
    }
  }

  // --------------------------------------------------------------------- what is stored

  /** The values stored at a path, none when the path is absent. */
  function Lookup<V>(n: Node<V>, p: Path): seq<V>
    decreases |p|
  {
    if p == [] then ValuesOf(n)
    else if Found(n.children, p[0]) then Lookup(n.children[Position(n.children, p[0])], p[1..])
    else []
  }

  /** Whether the walk down the path ends at a node. */
  predicate HasNode<V>(n: Node<V>, p: Path)
    decreases |p|
  {
    if p == [] then true
    else Found(n.children, p[0]) && HasNode(n.children[Position(n.children, p[0])], p[1..])
  }

  /** A non-empty node leads to some stored value. */
  ghost function SomeStored<V>(n: Node<V>): (p: Path)
    requires WellFormed(n) && n.Child? && !IsEmpty(n)
    ensures Lookup(n, p) != []
    decreases n
  {
    if n.values != [] then []
    else
      var c := n.children[0];
      FoundIff(n.children, c.name);
      var q := SomeStored(c);
      assert ([c.name] + q)[1..] == q;
      [c.name] + q
  }

  /** At one level. */
  lemma HasNodeOne<V>(n: Node<V>, level: Level)
    requires WellFormed(n)
    ensures HasNode(n, [level]) <==> exists q :: Lookup(n, [level] + q) != []
  {
    assert [level][1..] == [];
    if Found(n.children, level) {
      var c := n.children[Position(n.children, level)];
      assert c in n.children;
      var q := SomeStored(c);
      assert ([level] + q)[1..] == q;
      assert Lookup(n, [level] + q) != [];
    }
  }

  /** A node is where a path leads exactly when the path, or one below it, is stored. */
  lemma {:induction false} HasNodeIff<V>(n: Node<V>, p: Path)
    requires WellFormed(n) && p != []
    ensures HasNode(n, p) <==> exists q :: Lookup(n, p + q) != []
    decreases |p|
  {
    if |p| == 1 {
      HasNodeOne(n, p[0]);
      assert p == [p[0]];
    } else if Found(n.children, p[0]) {
      var c := n.children[Position(n.children, p[0])];
      assert c in n.children;
      HasNodeIff(c, p[1..]);
      if q :| Lookup(c, p[1..] + q) != [] {
        LookupBelow(n, p, q);
      }
      if q :| Lookup(n, p + q) != [] {
        LookupBelow(n, p, q);
      }
    }
  }

  lemma LookupBelow<V>(n: Node<V>, p: Path, q: Path)
    requires p != [] && Found(n.children, p[0])
    ensures Lookup(n, p + q) == Lookup(n.children[Position(n.children, p[0])], p[1..] + q)
  {
    assert (p + q)[1..] == p[1..] + q;
  }

  // ------------------------------------------------------------ replacing stored values

  function Replaced<V>(cs: seq<Node<V>>, level: Level, c: Node<V>): seq<Node<V>> {
    var off := Position(cs, level);
    cs[..off] + [c] + cs[if Found(cs, level) then off + 1 else off..]
  }

  function Removed<V>(cs: seq<Node<V>>, level: Level): seq<Node<V>> {
    var off := Position(cs, level);
    cs[..off] + cs[if Found(cs, level) then off + 1 else off..]
  }

  function ChildFor<V>(cs: seq<Node<V>>, level: Level): Node<V> {
    if Found(cs, level) then cs[Position(cs, level)] else Child(level, [], [])
  }

  /**
   The values at one path become `vals`, creating the nodes on the way down and pruning the
   ones left empty on the way up. None: the node itself has become empty.
   */
  function Put<V>(n: Node<V>, p: Path, vals: seq<V>): Option<Node<V>>
    decreases |p|
  {
    if p == [] then
      var n' := WithValues(n, vals);
      if IsEmpty(n') then None else Some(n')
    else
      match Put(ChildFor(n.children, p[0]), p[1..], vals)
      case Some(c) => Some(n.(children := Replaced(n.children, p[0], c)))
      case None =>
        var n' := n.(children := Removed(n.children, p[0]));
        if IsEmpty(n') then None else Some(n')
  }

  function Below<V>(cs: seq<Node<V>>, level: Level): seq<Node<V>> {
    cs[..Position(cs, level)]
  }

  function Above<V>(cs: seq<Node<V>>, level: Level): seq<Node<V>> {
    cs[if Found(cs, level) then Position(cs, level) + 1 else Position(cs, level)..]
  }

  /** A level cuts sorted children in two, and the child that bears it is in neither part. */
  lemma Cut<V>(cs: seq<Node<V>>, level: Level)
    requires Sorted(cs)
    ensures forall i :: 0 <= i < |Below(cs, level)| ==> Less(NameOf(Below(cs, level)[i]), level)
    ensures forall i :: 0 <= i < |Above(cs, level)| ==> Less(level, NameOf(Above(cs, level)[i]))
    ensures Sorted(Below(cs, level)) && Sorted(Above(cs, level))
  {
    var off := Position(cs, level);
    FoundIff(cs, level);
    if Found(cs, level) {
      assert forall i :: off < i < |cs| ==> Less(NameOf(cs[off]), NameOf(cs[i]));
    }
  }

  lemma CutMembers<V>(cs: seq<Node<V>>, level: Level, x: Node<V>)
    requires Sorted(cs)
    ensures x in Below(cs, level) || x in Above(cs, level) <==> x in cs && NameOf(x) != level
  {
    Cut(cs, level);
    FoundIff(cs, level);
    Irreflexive(level);
    var off := Position(cs, level);
    if x in cs && NameOf(x) != level {
      var i :| 0 <= i < |cs| && cs[i] == x;
      if i < off {
        assert x == Below(cs, level)[i];
      } else {
        assert x == Above(cs, level)[i - (|cs| - |Above(cs, level)|)];
      }
    }
  }

  lemma ReplacedSorted<V>(cs: seq<Node<V>>, level: Level, c: Node<V>)
    requires Sorted(cs) && NameOf(c) == level
    ensures Sorted(Replaced(cs, level, c)) && Sorted(Removed(cs, level))
  {
    Cut(cs, level);
    SplitSorted(Below(cs, level), Above(cs, level), level, c);
  }

  lemma RemovedMember<V>(cs: seq<Node<V>>, level: Level, x: Node<V>)
    requires Sorted(cs)
    ensures x in Removed(cs, level) <==> x in cs && NameOf(x) != level
  {
    CutMembers(cs, level, x);
    assert Removed(cs, level) == Below(cs, level) + Above(cs, level);
  }

  lemma ReplacedMember<V>(cs: seq<Node<V>>, level: Level, c: Node<V>, x: Node<V>)
    requires Sorted(cs)
    ensures x in Replaced(cs, level, c) <==> x == c || (x in cs && NameOf(x) != level)
  {
    CutMembers(cs, level, x);
    assert Replaced(cs, level, c) == Below(cs, level) + [c] + Above(cs, level);
  }

  lemma SplitSorted<V>(a: seq<Node<V>>, b: seq<Node<V>>, level: Level, c: Node<V>)
    requires Sorted(a) && Sorted(b) && NameOf(c) == level
    requires forall i :: 0 <= i < |a| ==> Less(NameOf(a[i]), level)
    requires forall i :: 0 <= i < |b| ==> Less(level, NameOf(b[i]))
    ensures Sorted(a + b) && Sorted(a + [c] + b)
  {
    forall i, j | 0 <= i < |a| && 0 <= j < |b| ensures Less(NameOf(a[i]), NameOf(b[j])) {
      Transitive(NameOf(a[i]), level, NameOf(b[j]));
    }
  }

  /** A level leads to the same child in two sorted lists that agree on it. */
  lemma SameChild<V>(xs: seq<Node<V>>, ys: seq<Node<V>>, level: Level)
    requires Sorted(xs) && Sorted(ys)
    requires forall x :: NameOf(x) == level ==> (x in xs <==> x in ys)
    ensures Found(xs, level) == Found(ys, level)
    ensures Found(xs, level) ==> xs[Position(xs, level)] == ys[Position(ys, level)]
  {
    FoundIff(xs, level);
    FoundIff(ys, level);
  }

  lemma FoundMember<V>(cs: seq<Node<V>>, c: Node<V>)
    requires Sorted(cs) && c in cs
    ensures Found(cs, NameOf(c)) && cs[Position(cs, NameOf(c))] == c
  {
    FoundIff(cs, NameOf(c));
  }

  /** What a child has to be. */
  ghost predicate GoodChild<V>(c: Node<V>) {
    c.Child? && !IsEmpty(c) && WellFormed(c)
  }

  lemma WellFormedIf<V>(n: Node<V>, cs: seq<Node<V>>)
    requires Sorted(cs) && forall c :: c in cs ==> GoodChild(c)
    ensures WellFormed(n.(children := cs))
  {
  }

  lemma RemovedWellFormed<V>(n: Node<V>, level: Level)
    requires WellFormed(n)
    ensures WellFormed(n.(children := Removed(n.children, level)))
  {
    var cs := Removed(n.children, level);
    ReplacedSorted(n.children, level, Child(level, [], []));
    forall x | x in cs ensures GoodChild(x) {
      RemovedMember(n.children, level, x);
    }
    WellFormedIf(n, cs);
  }

  lemma ReplacedWellFormed<V>(n: Node<V>, level: Level, c: Node<V>)
    requires WellFormed(n) && GoodChild(c) && c.name == level
    ensures WellFormed(n.(children := Replaced(n.children, level, c)))
  {
    var cs := Replaced(n.children, level, c);
    ReplacedSorted(n.children, level, c);
    forall x | x in cs ensures GoodChild(x) {
      ReplacedMember(n.children, level, c, x);
    }
    WellFormedIf(n, cs);
  }

  /** The result of `Put` stays well formed, keeps its name, and is dropped only when empty. */
  lemma {:induction false} PutWellFormed<V>(n: Node<V>, p: Path, vals: seq<V>)
    requires WellFormed(n)
    ensures var r := Put(n, p, vals);
            match r
            case Some(n') => WellFormed(n') && !IsEmpty(n') && n'.Child? == n.Child? && NameOf(n') == NameOf(n)
            case None => n.Child?
    ensures n.Child? && vals != [] ==> Put(n, p, vals).Some?
    decreases |p|
  {
    if p != [] {
      var child := ChildFor(n.children, p[0]);
      PutWellFormed(child, p[1..], vals);
      var r := Put(child, p[1..], vals);
      if r.Some? {
        ReplacedWellFormed(n, p[0], r.value);
      } else {
        RemovedWellFormed(n, p[0]);
      }
    }
  }

  /** Where a level leads after its child was replaced. */
  lemma ReplacedChild<V>(cs: seq<Node<V>>, level: Level, c: Node<V>, l: Level)
    requires Sorted(cs) && NameOf(c) == level
    ensures ChildFor(Replaced(cs, level, c), l) == if l == level then c else ChildFor(cs, l)
  {
    ReplacedSorted(cs, level, c);
    if l == level {
      ReplacedMember(cs, level, c, c);
      FoundMember(Replaced(cs, level, c), c);
    } else {
      forall x | NameOf(x) == l ensures x in cs <==> x in Replaced(cs, level, c) {
        ReplacedMember(cs, level, c, x);
      }
      SameChild(cs, Replaced(cs, level, c), l);
    }
  }

  /** Where a level leads after its child was removed. */
  lemma RemovedChild<V>(cs: seq<Node<V>>, level: Level, l: Level)
    requires Sorted(cs)
    ensures ChildFor(Removed(cs, level), l) == if l == level then Child(level, [], []) else ChildFor(cs, l)
  {
    ReplacedSorted(cs, level, Child(level, [], []));
    if l == level {
      FoundIff(Removed(cs, level), level);
      forall x | x in Removed(cs, level) ensures NameOf(x) != level {
        RemovedMember(cs, level, x);
      }
    } else {
      forall x | NameOf(x) == l ensures x in cs <==> x in Removed(cs, level) {
        RemovedMember(cs, level, x);
      }
      SameChild(cs, Removed(cs, level), l);
    }
  }

  /** A missing child stores what an empty one would: nothing. */
  lemma LookupStep<V>(n: Node<V>, q: Path)
    requires q != []
    ensures Lookup(n, q) == Lookup(ChildFor(n.children, q[0]), q[1..])
  {
    if !Found(n.children, q[0]) && q[1..] != [] {
      assert !Found(ChildFor(n.children, q[0]).children, q[1..][0]);
    }
  }

  /** The path itself keeps its values when another is updated. */
  lemma PutLookupHere<V>(n: Node<V>, p: Path, vals: seq<V>, q: Path)
    requires WellFormed(n) && (n.Child? || p != []) && (p == [] || q == [])
    ensures StoredAfter(Put(n, p, vals), q) == if q == p then vals else Lookup(n, q)
  {
  }

  lemma SamePath(p: Path, q: Path)
    requires p != [] && q != []
    ensures q == p <==> q[0] == p[0] && q[1..] == p[1..]
  {
    assert q == [q[0]] + q[1..] && p == [p[0]] + p[1..];
  }

  /** `Put` changes what is stored at its own path and nowhere else. */
  lemma {:induction false} PutLookup<V>(n: Node<V>, p: Path, vals: seq<V>, q: Path)
    requires WellFormed(n) && (n.Child? || p != [])
    ensures StoredAfter(Put(n, p, vals), q) == if q == p then vals else Lookup(n, q)
    decreases |p|
  {
    if p == [] || q == [] {
      PutLookupHere(n, p, vals, q);
    } else {
      var child := ChildFor(n.children, p[0]);
      assert WellFormed(child) && child.Child? && child.name == p[0] by {
        ChildGood(n, p[0]);
      }
      PutWellFormed(child, p[1..], vals);
      PutLookup(child, p[1..], vals, q[1..]);
      PutStep(n, p, vals, q);
      LookupStep(n, q);
      SamePath(p, q);
    }
  }

  lemma ChildGood<V>(n: Node<V>, level: Level)
    requires WellFormed(n)
    ensures var c := ChildFor(n.children, level); WellFormed(c) && c.Child? && c.name == level
  {
    if Found(n.children, level) {
      assert n.children[Position(n.children, level)] in n.children;
    }
  }

  function StoredAfter<V>(r: Option<Node<V>>, q: Path): seq<V> {
    match r
    case Some(n) => Lookup(n, q)
    case None => []
  }

  lemma PutStep<V>(n: Node<V>, p: Path, vals: seq<V>, q: Path)
    requires WellFormed(n) && p != [] && q != []
    requires var r := Put(ChildFor(n.children, p[0]), p[1..], vals); r.Some? ==> NameOf(r.value) == p[0]
    ensures StoredAfter(Put(n, p, vals), q) ==
            if q[0] == p[0] then StoredAfter(Put(ChildFor(n.children, p[0]), p[1..], vals), q[1..])
            else Lookup(ChildFor(n.children, q[0]), q[1..])
  {
    match Put(ChildFor(n.children, p[0]), p[1..], vals) {
      case Some(c) =>
        ReplacedChild(n.children, p[0], c, q[0]);
        LookupStep(n.(children := Replaced(n.children, p[0], c)), q);
      case None =>
        RemovedChild(n.children, p[0], q[0]);
        var n' := n.(children := Removed(n.children, p[0]));
        LookupStep(n', q);
    }
  }

  // --------------------------------------------------------------------------- canonical

  function ForestLookup<V>(cs: seq<Node<V>>, p: Path): seq<V> {
    Lookup(Root(cs), p)
  }

  /** Of two sorted lists, the first name of one is in the other if both store the same. */
  lemma FirstName<V>(xs: seq<Node<V>>, ys: seq<Node<V>>)
    requires WellFormed(Root(xs)) && WellFormed(Root(ys)) && xs != []
    requires forall p :: p != [] ==> ForestLookup(xs, p) == ForestLookup(ys, p)
    ensures ys != [] && !Less(NameOf(xs[0]), NameOf(ys[0]))
  {
    var a := xs[0];
    var p := [a.name] + SomeStored(a);
    FoundMember(xs, a);
    assert p[1..] == SomeStored(a);
    assert ForestLookup(xs, p) != [];
    assert Found(ys, a.name);
    var off := Position(ys, a.name);
    if off > 0 {
      Asymmetric(NameOf(ys[0]), a.name);
    }
  }

  /** Dropping the first child of each drops one name from what is stored. */
  lemma TailLookup<V>(cs: seq<Node<V>>, p: Path)
    requires WellFormed(Root(cs)) && cs != [] && p != []
    ensures WellFormed(Root(cs[1..]))
    ensures ForestLookup(cs[1..], p) == if p[0] == NameOf(cs[0]) then [] else ForestLookup(cs, p)
  {
    assert forall i :: 0 <= i < |cs| - 1 ==> cs[1..][i] == cs[i + 1];
    if p[0] == NameOf(cs[0]) {
      FoundIff(cs[1..], p[0]);
      Irreflexive(p[0]);
    } else {
      assert cs == [cs[0]] + cs[1..];
      SameChild(cs, cs[1..], p[0]);
    }
  }

  /** Well-formed forests that store the same are the same. */
  lemma {:induction false} CanonicalForest<V>(xs: seq<Node<V>>, ys: seq<Node<V>>)
    requires WellFormed(Root(xs)) && WellFormed(Root(ys))
    requires forall p :: p != [] ==> ForestLookup(xs, p) == ForestLookup(ys, p)
    ensures xs == ys
    decreases xs
  {
    if xs == [] || ys == [] {
      if xs != [] {
        FirstName(xs, ys);
      }
      if ys != [] {
        FirstName(ys, xs);
      }
      return;
    }
    FirstName(xs, ys);
    FirstName(ys, xs);
    var a, b := xs[0], ys[0];
    Total(a.name, b.name);
    FoundMember(xs, a);
    FoundMember(ys, b);
    assert WellFormed(Root(a.children)) && WellFormed(Root(b.children));
    forall p ensures Lookup(a, p) == Lookup(b, p) {
      assert ([a.name] + p)[1..] == p;
      assert ForestLookup(xs, [a.name] + p) == ForestLookup(ys, [a.name] + p);
    }
    assert a.values == Lookup(a, []) == Lookup(b, []) == b.values;
    forall p | p != [] ensures ForestLookup(a.children, p) == ForestLookup(b.children, p) {
      assert Lookup(a, p) == Lookup(b, p);
    }
    CanonicalForest(a.children, b.children);
    forall p | p != [] ensures ForestLookup(xs[1..], p) == ForestLookup(ys[1..], p) {
      TailLookup(xs, p);
      TailLookup(ys, p);
    }
    TailLookup(xs, [[]]);
    TailLookup(ys, [[]]);
    CanonicalForest(xs[1..], ys[1..]);
    assert xs == [a] + xs[1..] && ys == [b] + ys[1..];
  }

  /** The tree is a function of what it stores. */
  lemma Canonical<V>(a: Node<V>, b: Node<V>)
    requires a.Root? && b.Root? && WellFormed(a) && WellFormed(b)
    requires forall p :: p != [] ==> Lookup(a, p) == Lookup(b, p)
    ensures a == b
  {
    CanonicalForest(a.children, b.children);
  }

  /** Putting back what was there restores the tree itself, pruned nodes included. */
  lemma PutBack<V>(n: Node<V>, p: Path, vals: seq<V>)
    requires n.Root? && WellFormed(n) && p != []
    ensures Put(n, p, vals).Some?
    ensures Put(Put(n, p, vals).value, p, Lookup(n, p)) == Some(n)
  {
    PutWellFormed(n, p, vals);
    var m := Put(n, p, vals).value;
    PutWellFormed(m, p, Lookup(n, p));
    forall q | q != [] ensures Lookup(Put(m, p, Lookup(n, p)).value, q) == Lookup(n, q) {
      PutLookup(n, p, vals, q);
      PutLookup(m, p, Lookup(n, p), q);
    }
    Canonical(Put(m, p, Lookup(n, p)).value, n);
  }

  // ------------------------------------------------------------------- stored paths

  /** Every stored path, below a list of siblings. */
  function ForestPaths<V>(cs: seq<Node<V>>): set<Path>
    decreases cs, 0
  {
    if cs == [] then {} else PathsFrom(cs[0]) + ForestPaths(cs[1..])
  }

  function PathsFrom<V>(c: Node<V>): set<Path>
    decreases c, 1
  {
    (if ValuesOf(c) == [] then {} else {[NameOf(c)]})
    + (set q | q in ForestPaths(c.children) :: [NameOf(c)] + q)
  }

  function StoredPaths<V>(n: Node<V>): set<Path> {
    ForestPaths(n.children)
  }

  lemma {:induction false} ForestPathsIff<V>(cs: seq<Node<V>>, p: Path)
    requires WellFormed(Root(cs))
    ensures p in ForestPaths(cs) <==> p != [] && ForestLookup(cs, p) != []
    decreases cs, 0
  {
    if cs == [] {
      return;
    }
    var c := cs[0];
    assert c in cs;
    PathsFromIff(c, p);
    FoundMember(cs, c);
    if p != [] {
      TailLookup(cs, p);
    } else {
      TailLookup(cs, [[]]);
    }
    ForestPathsIff(cs[1..], p);
  }

  lemma {:induction false} PathsFromIff<V>(c: Node<V>, p: Path)
    requires WellFormed(c) && c.Child?
    ensures p in PathsFrom(c) <==> p != [] && p[0] == c.name && Lookup(c, p[1..]) != []
    decreases c, 1
  {
    assert WellFormed(Root(c.children));
    if p != [] && p[0] == c.name {
      var q := p[1..];
      assert p == [c.name] + q;
      ForestPathsIff(c.children, q);
      if p in (set r | r in ForestPaths(c.children) :: [c.name] + r) {
        var r :| r in ForestPaths(c.children) && p == [c.name] + r;
        assert r == q;
      }
      if q == [] {
        assert p == [c.name];
      } else {
        assert p != [c.name];
        assert Lookup(c, q) == ForestLookup(c.children, q);
        assert q in ForestPaths(c.children) ==>
            [c.name] + q in (set r | r in ForestPaths(c.children) :: [c.name] + r);
      }
    }
  }

  /** The stored paths are the ones that lead to values. */
  lemma StoredPathsIff<V>(n: Node<V>, p: Path)
    requires n.Root? && WellFormed(n)
    ensures p in StoredPaths(n) <==> p != [] && Lookup(n, p) != []
  {
    ForestPathsIff(n.children, p);
  }
}
