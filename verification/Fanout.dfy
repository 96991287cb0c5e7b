/** Grouping the subscriptions that match a published topic by client. */
module Fanout {
  import opened Basics
  import opened Topic
  import opened Subscriptions
  import opened SubscribedTrie

  type Groups = map<Bytes, seq<Subscription>>

  function OfClient(found: seq<Subscription>, c: Bytes): seq<Subscription> {
    if found == [] then []
    else if found[0].clientId == c then [found[0]] + OfClient(found[1..], c)
    else OfClient(found[1..], c)
  }

  /** Without the no-local subscriptions. */
  function Local(subs: seq<Subscription>): seq<Subscription> {
    if subs == [] then []
    else if subs[0].noLocal then Local(subs[1..])
    else [subs[0]] + Local(subs[1..])
  }

  function Clients(found: seq<Subscription>): set<Bytes> {
    set v | v in found :: v.clientId
  }

  /** The subscriptions of each client, less the publisher's own no-local ones. */
  function GroupsOf(found: seq<Subscription>, publisher: Bytes): Groups {
    map c | c in Clients(found) ::
      if c == publisher then Local(OfClient(found, c)) else OfClient(found, c)
  }

  lemma {:induction false} OfClientPushed(found: seq<Subscription>, v: Subscription, c: Bytes)
    ensures OfClient(found + [v], c) == if v.clientId == c then OfClient(found, c) + [v] else OfClient(found, c)
  {
    if found == [] {
      assert found + [v] == [v];
    } else {
      assert (found + [v])[1..] == found[1..] + [v];
      OfClientPushed(found[1..], v, c);
    }
  }

  lemma {:induction false} LocalAppend(a: seq<Subscription>, b: seq<Subscription>)
    ensures Local(a + b) == Local(a) + Local(b)
  {
    if a == [] {
      assert a + b == b;
    } else {
      assert (a + b)[1..] == a[1..] + b;
      LocalAppend(a[1..], b);
    }
  }

  lemma {:induction false} LocalAll(subs: seq<Subscription>)
    requires forall v :: v in subs ==> !v.noLocal
    ensures Local(subs) == subs
  {
    if subs != [] {
      LocalAll(subs[1..]);
    }
  }

  // ---------------------------------------------------------------------- the two loops

  /** What is filed under a client. */
  ghost predicate GroupAt(groups: Groups, found: seq<Subscription>, c: Bytes) {
    && (c in groups <==> c in Clients(found))
    && (if c in groups then groups[c] == OfClient(found, c) else OfClient(found, c) == [])
  }

  lemma GroupNext(groups: Groups, found: seq<Subscription>, v: Subscription)
    requires forall c :: GroupAt(groups, found, c)
    ensures var before := if v.clientId in groups then groups[v.clientId] else [];
            var groups' := groups[v.clientId := before + [v]];
            forall c :: GroupAt(groups', found + [v], c)
  {
    var before := if v.clientId in groups then groups[v.clientId] else [];
    var groups', found' := groups[v.clientId := before + [v]], found + [v];
    assert GroupAt(groups, found, v.clientId);
    assert Clients(found') == Clients(found) + {v.clientId};
    forall c ensures GroupAt(groups', found', c) {
      assert GroupAt(groups, found, c);
      OfClientPushed(found, v, c);
    }
  }

  lemma GroupsAre(groups: Groups, found: seq<Subscription>)
    requires forall c :: GroupAt(groups, found, c)
    ensures groups == map c | c in Clients(found) :: OfClient(found, c)
  {
    forall c | c in groups ensures c in Clients(found) && groups[c] == OfClient(found, c) {
      assert GroupAt(groups, found, c);
    }
    forall c | c in Clients(found) ensures c in groups {
      assert GroupAt(groups, found, c);
    }
  }

  /** The first loop of `match_subscribers`. */
  method Group(found: seq<Subscription>) returns (groups: Groups)
    ensures groups == map c | c in Clients(found) :: OfClient(found, c)
  {
    groups := map[];
    assert forall c :: GroupAt(groups, found[..0], c);
    for i := 0 to |found|
      invariant forall c :: GroupAt(groups, found[..i], c)
    {
      var v := found[i];
      assert found[..i + 1] == found[..i] + [v];
      GroupNext(groups, found[..i], v);
      if v.clientId in groups {
        groups := groups[v.clientId := groups[v.clientId] + [v]];
      } else {
        assert [] + [v] == [v];
        groups := groups[v.clientId := [v]];
      }
    }
    assert found[..|found|] == found;
    GroupsAre(groups, found);
  }

  /** The offsets of the no-local subscriptions, ascending. */
  ghost predicate Offsets(subs: seq<Subscription>, n: nat, offs: seq<nat>)
    requires n <= |subs|
  {
    && (forall k :: 0 <= k < |offs| ==> offs[k] < n && subs[offs[k]].noLocal)
    && (forall k, l :: 0 <= k < l < |offs| ==> offs[k] < offs[l])
    && (forall i :: 0 <= i < n && subs[i].noLocal ==> i in offs)
  }

  method NoLocalOffsets(subs: seq<Subscription>) returns (offs: seq<nat>)
    ensures Offsets(subs, |subs|, offs)
  {
    offs := [];
    for i := 0 to |subs|
      invariant Offsets(subs, i, offs)
    {
      if subs[i].noLocal {
        offs := offs + [i];
      }
    }
  }

  /** Where removing from the end has got to, with `k` offsets left. */
  function Cut(subs: seq<Subscription>, offs: seq<nat>, k: nat): nat {
    if k < |offs| then offs[k] else |subs|
  }

  lemma RemoveNext(subs: seq<Subscription>, offs: seq<nat>, k: nat)
    requires Offsets(subs, |subs|, offs) && k < |offs|
    ensures offs[k] < Cut(subs, offs, k + 1) <= |subs|
    ensures var rest := Local(subs[Cut(subs, offs, k + 1)..]);
            Local(subs[offs[k]..]) == subs[offs[k] + 1..Cut(subs, offs, k + 1)] + rest
  {
    var a, b := offs[k], Cut(subs, offs, k + 1);
    assert subs[a..] == [subs[a]] + (subs[a + 1..b] + subs[b..]);
    LocalAppend([subs[a]], subs[a + 1..b] + subs[b..]);
    LocalAppend(subs[a + 1..b], subs[b..]);
    BetweenIsLocal(subs, offs, a + 1, b, k + 1);
    LocalAll(subs[a + 1..b]);
    assert [] + (subs[a + 1..b] + Local(subs[b..])) == subs[a + 1..b] + Local(subs[b..]);
  }

  lemma BetweenIsLocal(subs: seq<Subscription>, offs: seq<nat>, a: nat, b: nat, k: nat)
    requires Offsets(subs, |subs|, offs) && a <= b <= |subs|
    requires k <= |offs| && (k > 0 ==> offs[k - 1] < a) && b <= Cut(subs, offs, k)
    ensures forall v :: v in subs[a..b] ==> !v.noLocal
  {
    forall i | a <= i < b ensures !subs[i].noLocal {
      assert i !in offs;
    }
  }

  lemma RemoveAt(subs: seq<Subscription>, a: nat, b: nat, rest: seq<Subscription>)
    requires a < b <= |subs|
    ensures var r := subs[..b] + rest; r[..a] + r[a + 1..] == subs[..a] + (subs[a + 1..b] + rest)
  {
  }

  lemma LocalFrom(subs: seq<Subscription>, b: nat)
    requires b <= |subs| && forall v :: v in subs[0..b] ==> !v.noLocal
    ensures subs[..b] + Local(subs[b..]) == Local(subs)
  {
    assert subs[0..b] == subs[..b] && subs == subs[..b] + subs[b..];
    LocalFirst(subs[..b], subs[b..]);
  }

  lemma LocalFirst(a: seq<Subscription>, b: seq<Subscription>)
    requires forall v :: v in a ==> !v.noLocal
    ensures Local(a + b) == a + Local(b)
  {
    LocalAll(a);
    LocalAppend(a, b);
  }

  /** The second loop: removal by index, from the last to the first, leaves the local ones. */
  method RemoveNoLocal(subs: seq<Subscription>) returns (r: seq<Subscription>)
    ensures r == Local(subs)
  {
    var offs := NoLocalOffsets(subs);
    r := subs;
    assert subs[|subs|..] == [] && subs[..|subs|] + [] == subs;
    for k := |offs| downto 0
      invariant r == subs[..Cut(subs, offs, k)] + Local(subs[Cut(subs, offs, k)..])
      invariant Cut(subs, offs, k) <= |subs|
    {
      RemoveNext(subs, offs, k);
      var off := offs[k];
      RemoveAt(subs, off, Cut(subs, offs, k + 1), Local(subs[Cut(subs, offs, k + 1)..]));
      r := r[..off] + r[off + 1..];
    }
    BetweenIsLocal(subs, offs, 0, Cut(subs, offs, 0), 0);
    LocalFrom(subs, Cut(subs, offs, 0));
  }

  method GroupFor(found: seq<Subscription>, publisher: Bytes) returns (groups: Groups)
    ensures groups == GroupsOf(found, publisher)
  {
    groups := Group(found);
    if publisher in groups {
      var mine := RemoveNoLocal(groups[publisher]);
      groups := groups[publisher := mine];
    }
  }

  /** `match_subscribers`. */
  method MatchSubscribers(filters: Subscribed, publisher: Bytes, topic: Bytes)
    returns (groups: Groups, found: seq<Subscription>)
    requires filters.Valid()
    ensures groups == GroupsOf(found, publisher)
    ensures forall v :: multiset(found)[v] ==
              |set p | p in filters.table && Selected(p, Split(topic), true) && v in filters.table[p]|
  {
    found := filters.MatchTopicName(topic);
    groups := GroupFor(found, publisher);
  }

  // ------------------------------------------------------------------- nothing lost or added

  lemma {:induction false} OfClientCounts(found: seq<Subscription>, v: Subscription)
    ensures multiset(OfClient(found, v.clientId))[v] == multiset(found)[v]
  {
    if found != [] {
      assert found == [found[0]] + found[1..];
      OfClientCounts(found[1..], v);
    }
  }

  lemma {:induction false} OfClientOnly(found: seq<Subscription>, c: Bytes, v: Subscription)
    ensures v in OfClient(found, c) <==> v in found && v.clientId == c
  {
    if found != [] {
      assert found == [found[0]] + found[1..];
      OfClientOnly(found[1..], c, v);
    }
  }

  lemma {:induction false} LocalCounts(subs: seq<Subscription>, v: Subscription)
    ensures multiset(Local(subs))[v] == if v.noLocal then 0 else multiset(subs)[v]
  {
    if subs != [] {
      assert subs == [subs[0]] + subs[1..];
      LocalCounts(subs[1..], v);
    }
  }

  /**
   How often a match is in the group of its client: as often as it was found, unless it is the publisher's own
   no-local one.
   */
  lemma GroupCounts(found: seq<Subscription>, publisher: Bytes, c: Bytes, v: Subscription)
    requires c in Clients(found)
    ensures multiset(GroupsOf(found, publisher)[c])[v] ==
            if v.clientId != c || (c == publisher && v.noLocal) then 0 else multiset(found)[v]
  {
    OfClientCounts(found, v);
    OfClientOnly(found, c, v);
    LocalCounts(OfClient(found, c), v);
  }
}
