/**
 Matching a topic against the trie, and its agreement with a flat scan over the table of
 all stored filters.
 */
module TrieMatch {
  import opened Basics
  import opened Order
  import opened Topic
  import opened Trie

  datatype Entry<V> = Entry(filter: Path, values: seq<V>)

  // ------------------------------------------------------------------ the stored table

  function Prefixed<V>(name: Level, es: seq<Entry<V>>): (r: seq<Entry<V>>)
    ensures |r| == |es|
    ensures forall i :: 0 <= i < |es| ==> r[i] == Entry([name] + es[i].filter, es[i].values)
  {
    seq(|es|, i requires 0 <= i < |es| => Entry([name] + es[i].filter, es[i].values))
  }

  /** The table of stored filters, parents before children and siblings in order. */
  function ForestEntries<V>(cs: seq<Node<V>>): seq<Entry<V>>
    decreases cs, 0
  {
    if cs == [] then [] else EntriesFrom(cs[0]) + ForestEntries(cs[1..])
  }

  function OwnEntry<V>(c: Node<V>): seq<Entry<V>> {
    if ValuesOf(c) == [] then [] else [Entry([NameOf(c)], ValuesOf(c))]
  }

  function EntriesFrom<V>(c: Node<V>): seq<Entry<V>>
    decreases c, 1
  {
    OwnEntry(c) + Prefixed(NameOf(c), ForestEntries(c.children))
  }

  ghost predicate TableSorted<V>(es: seq<Entry<V>>) {
    forall i, j :: 0 <= i < j < |es| ==> PathLess(es[i].filter, es[j].filter)
  }

  /** The table is sorted by filter, so each filter is listed once. */
  lemma {:induction false} ForestEntriesSorted<V>(cs: seq<Node<V>>)
    requires WellFormed(Root(cs))
    ensures TableSorted(ForestEntries(cs))
    ensures forall e :: e in ForestEntries(cs) ==> e.filter != [] && exists c :: c in cs && NameOf(c) == e.filter[0]
    decreases cs, 0
  {
    if cs != [] {
      var c := cs[0];
      EntriesFromSorted(c);
      TailLookup(cs, [[]]);
      ForestEntriesSorted(cs[1..]);
      forall e, f | e in EntriesFrom(c) && f in ForestEntries(cs[1..]) ensures PathLess(e.filter, f.filter) {
        var d :| d in cs[1..] && NameOf(d) == f.filter[0];
      }
    }
  }

  lemma {:induction false} EntriesFromSorted<V>(c: Node<V>)
    requires WellFormed(c)
    ensures TableSorted(EntriesFrom(c))
    ensures forall e :: e in EntriesFrom(c) ==> e.filter != [] && e.filter[0] == NameOf(c)
    decreases c, 1
  {
    assert WellFormed(Root(c.children));
    ForestEntriesSorted(c.children);
    var below := ForestEntries(c.children);
    var pre := Prefixed(NameOf(c), below);
    forall i, j | 0 <= i < j < |pre| ensures PathLess(pre[i].filter, pre[j].filter) {
      assert pre[i].filter[1..] == below[i].filter && pre[j].filter[1..] == below[j].filter;
    }
    forall j | 0 <= j < |pre| ensures PathLess([NameOf(c)], pre[j].filter) {
      assert pre[j].filter[1..] == below[j].filter;
      assert below[j] in below;
    }
  }

  /** The table lists what is stored, all of it and nothing else. */
  lemma {:induction false} ForestEntriesIff<V>(cs: seq<Node<V>>, e: Entry<V>)
    requires WellFormed(Root(cs))
    ensures e in ForestEntries(cs) <==> e.filter != [] && e.values != [] && ForestLookup(cs, e.filter) == e.values
    decreases cs, 0
  {
    if cs != [] {
      var c := cs[0];
      assert c in cs;
      EntriesFromIff(c, e);
      FoundMember(cs, c);
      TailLookup(cs, if e.filter == [] then [[]] else e.filter);
      ForestEntriesIff(cs[1..], e);
    }
  }

  /** With a name in front, an entry is listed exactly if it was. */
  lemma PrefixedIff<V>(name: Level, below: seq<Entry<V>>, e: Entry<V>)
    ensures e in Prefixed(name, below) <==>
            e.filter != [] && e.filter[0] == name && Entry(e.filter[1..], e.values) in below
  {
    var pre := Prefixed(name, below);
    if e in pre {
      var i :| 0 <= i < |pre| && pre[i] == e;
      assert e.filter[1..] == below[i].filter;
      assert below[i] == Entry(e.filter[1..], e.values);
    }
    if e.filter != [] && e.filter[0] == name && Entry(e.filter[1..], e.values) in below {
      var i :| 0 <= i < |below| && below[i] == Entry(e.filter[1..], e.values);
      assert [name] + below[i].filter == e.filter;
      assert pre[i] == e;
    }
  }

  lemma {:induction false} EntriesFromIff<V>(c: Node<V>, e: Entry<V>)
    requires WellFormed(c) && c.Child?
    ensures e in EntriesFrom(c) <==>
            e.filter != [] && e.values != [] && e.filter[0] == c.name && Lookup(c, e.filter[1..]) == e.values
    decreases c, 1
  {
    assert WellFormed(Root(c.children));
    PrefixedIff(c.name, ForestEntries(c.children), e);
    if e.filter != [] {
      var d := Entry(e.filter[1..], e.values);
      ForestEntriesIff(c.children, d);
      if d.filter == [] {
        assert e.filter[0] == c.name ==> e.filter == [c.name];
      } else {
        assert e.filter != [c.name];
        assert Lookup(c, d.filter) == ForestLookup(c.children, d.filter);
      }
    }
  }

  // ------------------------------------------------------------------------- flat scan

  /** What a scan of the whole table selects, in table order. */
  function FlatScan<V>(es: seq<Entry<V>>, t: Path, dollar: bool): seq<V> {
    if es == [] then []
    else (if Selected(es[0].filter, t, dollar) then es[0].values else []) + FlatScan(es[1..], t, dollar)
  }

  lemma {:induction false} FlatScanAppend<V>(xs: seq<Entry<V>>, ys: seq<Entry<V>>, t: Path, dollar: bool)
    ensures FlatScan(xs + ys, t, dollar) == FlatScan(xs, t, dollar) + FlatScan(ys, t, dollar)
  {
    if xs == [] {
      assert xs + ys == ys;
    } else {
      assert (xs + ys)[1..] == xs[1..] + ys && (xs + ys)[0] == xs[0];
      FlatScanAppend(xs[1..], ys, t, dollar);
      var hit := if Selected(xs[0].filter, t, dollar) then xs[0].values else [];
      Regrouped(hit, FlatScan(xs[1..], t, dollar), FlatScan(ys, t, dollar));
    }
  }

  lemma Regrouped<V>(a: seq<V>, b: seq<V>, c: seq<V>)
    ensures a + (b + c) == a + b + c
  {
  }

  // ------------------------------------------------------------------- the trie's match

  /** `match_level`: (level matches, everything below matches too). */
  function MatchLevel(inLevel: Level, trieLevel: Level): (bool, bool) {
    if inLevel == MULTI || trieLevel == MULTI then (true, true)
    else if inLevel == SINGLE || trieLevel == SINGLE then (true, false)
    else (inLevel == trieLevel, false)
  }

  /** What one child contributes to the match of a non-empty topic. */
  function MatchAt<V>(c: Node<V>, t: Path, drop: bool): seq<V>
    requires t != []
    decreases c, 1
  {
    var (single, multi) := MatchLevel(t[0], NameOf(c));
    if drop && Wildcard(NameOf(c)) then []
    else if multi then ValuesOf(c)
    else if single then (if |t| == 1 then ValuesOf(c) else MatchBelow(c.children, t[1..], false))
    else []
  }

  function MatchBelow<V>(cs: seq<Node<V>>, t: Path, drop: bool): seq<V>
    requires t != []
    decreases cs, 0
  {
    if cs == [] then [] else MatchAt(cs[0], t, drop) + MatchBelow(cs[1..], t, drop)
  }

  lemma {:induction false} MatchBelowLast<V>(cs: seq<Node<V>>, t: Path, drop: bool)
    requires t != [] && cs != []
    ensures MatchBelow(cs, t, drop) == MatchBelow(cs[..|cs| - 1], t, drop) + MatchAt(cs[|cs| - 1], t, drop)
  {
    if |cs| > 1 {
      MatchBelowLast(cs[1..], t, drop);
      assert cs[1..][..|cs| - 2] == cs[..|cs| - 1][1..];
    }
  }

  lemma {:induction false} MatchBelowIsScan<V>(cs: seq<Node<V>>, t: Path, drop: bool)
    requires t != []
    ensures MatchBelow(cs, t, drop) == FlatScan(ForestEntries(cs), t, drop)
    decreases cs, 0
  {
    if cs != [] {
      MatchAtIsScan(cs[0], t, drop);
      MatchBelowIsScan(cs[1..], t, drop);
      FlatScanAppend(EntriesFrom(cs[0]), ForestEntries(cs[1..]), t, drop);
    }
  }

  lemma {:induction false} MatchAtIsScan<V>(c: Node<V>, t: Path, drop: bool)
    requires t != []
    ensures MatchAt(c, t, drop) == FlatScan(EntriesFrom(c), t, drop)
    decreases c, 1
  {
    var name, below := NameOf(c), ForestEntries(c.children);
    FlatScanAppend(OwnEntry(c), Prefixed(name, below), t, drop);
    EntriesNonEmpty(c.children);
    ScanPrefixed(name, below, t, drop);
    var own: Path := [name];
    assert own[1..] == [] && (t[1..] == [] <==> |t| == 1);
    assert Walks(own[1..], t[1..]) <==> |t| == 1;
    assert Selected(own, t, drop) <==>
        var (single, multi) := MatchLevel(t[0], name);
        (multi || (single && |t| == 1)) && !(drop && Wildcard(name));
    if |t| > 1 {
      MatchBelowIsScan(c.children, t[1..], false);
    }
  }

  lemma {:induction false} EntriesNonEmpty<V>(cs: seq<Node<V>>)
    ensures forall e :: e in ForestEntries(cs) ==> e.filter != []
    decreases cs
  {
    if cs != [] {
      EntriesNonEmpty(cs[1..]);
    }
  }

  /** A scan of the filters below one name is a scan of their remainders. */
  lemma {:induction false} ScanPrefixed<V>(name: Level, es: seq<Entry<V>>, t: Path, drop: bool)
    requires t != [] && forall e :: e in es ==> e.filter != []
    ensures FlatScan(Prefixed(name, es), t, drop) ==
            if MatchLevel(t[0], name) == (true, false) && |t| > 1 && !(drop && Wildcard(name))
            then FlatScan(es, t[1..], false)
            else []
  {
    if es != [] {
      assert Prefixed(name, es)[1..] == Prefixed(name, es[1..]);
      var f := Prefixed(name, es)[0].filter;
      assert es[0] in es && f[0] == name && |f| > 1 && f[1..] == es[0].filter;
      assert Walks(f, t) <==> MatchLevel(t[0], name) == (true, false) && Walks(es[0].filter, t[1..]);
      assert |t| == 1 ==> t[1..] == [];
      ScanPrefixed(name, es[1..], t, drop);
    }
  }

  /**
   `Node::match_topic`: the values gathered by walking the trie are those a scan of the
   table of stored filters selects, in the order of the table.
   */
  method MatchTopic<V>(n: Node<V>, t: Path, dollar: bool) returns (r: Option<seq<V>>)
    requires WellFormed(n)
    ensures t == [] ==> r == if n.Child? then Some(n.values) else None
    ensures t != [] ==> r == Some(FlatScan(ForestEntries(n.children), t, n.Root? && dollar))
    decreases |t|, 1
  {
    if t == [] {
      return if n.Child? then Some(n.values) else None;
    }
    var cs, drop := n.children, n.Root? && dollar;
    var acc := [];
    for i := 0 to |cs|
      invariant acc == MatchBelow(cs[..i], t, drop)
    {
      assert cs[i] in n.children;
      var found := MatchChild(cs[i], t, drop, dollar);
      acc := acc + found;
      MatchBelowLast(cs[..i + 1], t, drop);
      assert cs[..i + 1][..i] == cs[..i];
    }
    assert cs[..|cs|] == cs;
    MatchBelowIsScan(cs, t, drop);
    return Some(acc);
  }

  /** One turn of its loop: what a child contributes. */
  method MatchChild<V>(c: Node<V>, t: Path, drop: bool, dollar: bool) returns (found: seq<V>)
    requires WellFormed(c) && c.Child? && t != []
    ensures found == MatchAt(c, t, drop)
    decreases |t|, 0
  {
    found := [];
    if !(drop && Wildcard(NameOf(c))) {
      var (single, multi) := MatchLevel(t[0], NameOf(c));
      if multi {
        found := c.values;
      } else if single {
        var below := MatchTopic(c, t[1..], dollar);
        if below.Some? {
          found := below.value;
        }
        if |t| > 1 {
          MatchBelowIsScan(c.children, t[1..], false);
        }
      }
    }
  }

  // ------------------------------------------------------- the scan, without an order

  ghost predicate NoDuplicates<V>(s: seq<V>) {
    forall i, j :: 0 <= i < j < |s| ==> s[i] != s[j]
  }

  ghost function HitFilters<V>(es: seq<Entry<V>>, t: Path, dollar: bool, v: V): set<Path> {
    set e | e in es && Selected(e.filter, t, dollar) && v in e.values :: e.filter
  }

  lemma {:induction false} OccursOnce<V>(s: seq<V>, v: V)
    requires NoDuplicates(s)
    ensures multiset(s)[v] == if v in s then 1 else 0
  {
    if s != [] {
      assert s == [s[0]] + s[1..];
      OccursOnce(s[1..], v);
    }
  }

  lemma HitFiltersStep<V>(e: Entry<V>, rest: seq<Entry<V>>, t: Path, dollar: bool, v: V)
    requires TableSorted([e] + rest)
    ensures TableSorted(rest) && e.filter !in HitFilters(rest, t, dollar, v)
    ensures HitFilters([e] + rest, t, dollar, v) == HitFilters(rest, t, dollar, v) + HitFilters([e], t, dollar, v)
  {
    var es := [e] + rest;
    assert forall i :: 0 <= i < |rest| ==> rest[i] == es[i + 1];
    forall d | d in rest ensures d.filter != e.filter {
      var i :| 0 <= i < |rest| && rest[i] == d;
      assert PathLess(es[0].filter, es[i + 1].filter);
      PathIrreflexive(e.filter);
    }
  }

  lemma ScanNext<V>(e: Entry<V>, rest: seq<Entry<V>>, t: Path, dollar: bool, v: V)
    requires NoDuplicates(e.values)
    ensures multiset(FlatScan([e] + rest, t, dollar))[v] ==
            |HitFilters([e], t, dollar, v)| + multiset(FlatScan(rest, t, dollar))[v]
  {
    assert ([e] + rest)[1..] == rest;
    OccursOnce(e.values, v);
    var hit := Selected(e.filter, t, dollar) && v in e.values;
    assert HitFilters([e], t, dollar, v) == if hit then {e.filter} else {};
  }

  /** A value is returned once for each selected filter it is stored under. */
  lemma {:induction false} ScanCounts<V>(es: seq<Entry<V>>, t: Path, dollar: bool, v: V)
    requires TableSorted(es) && forall e :: e in es ==> NoDuplicates(e.values)
    ensures multiset(FlatScan(es, t, dollar))[v] == |HitFilters(es, t, dollar, v)|
  {
    if es == [] {
      assert HitFilters(es, t, dollar, v) == {};
    } else {
      var e, rest := es[0], es[1..];
      assert es == [e] + rest && e in es;
      HitFiltersStep(e, rest, t, dollar, v);
      ScanCounts(rest, t, dollar, v);
      ScanNext(e, rest, t, dollar, v);
      assert HitFilters(rest, t, dollar, v) !! HitFilters([e], t, dollar, v);
    }
  }

  /** The filters under which a match finds `v`, read off the stored values. */
  lemma HitFiltersStored<V>(n: Node<V>, t: Path, dollar: bool, v: V)
    requires n.Root? && WellFormed(n)
    ensures HitFilters(ForestEntries(n.children), t, dollar, v) ==
            set p | p in StoredPaths(n) && Selected(p, t, dollar) && v in Lookup(n, p)
  {
    var es := ForestEntries(n.children);
    forall p ensures p in HitFilters(es, t, dollar, v) <==>
                     p in StoredPaths(n) && Selected(p, t, dollar) && v in Lookup(n, p) {
      StoredPathsIff(n, p);
      var e := Entry(p, Lookup(n, p));
      ForestEntriesIff(n.children, e);
      if p in HitFilters(es, t, dollar, v) {
        var d :| d in es && Selected(d.filter, t, dollar) && v in d.values && d.filter == p;
        ForestEntriesIff(n.children, d);
      }
    }
  }
}
