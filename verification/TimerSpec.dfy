/**
 The differential timer on values: each entry holds its distance from the one before, and
 what that keeps true over every run of insertions, deletions and expiries.
 */
module TimerSpec {

  datatype Item<V> = Item(delta: nat, value: V)

  /** Clock readings are in nanoseconds. */
  const SECOND: nat := 1_000_000_000
  const WIDTH: nat := 0x1_0000_0000

  /** `instant.elapsed().as_secs() as u32`. */
  function ElapsedSecs(instant: nat, now: nat): nat {
    if now < instant then 0 else ((now - instant) / SECOND) % WIDTH
  }

  /** `secs.saturating_sub(elapsed)`. */
  function Wait(secs: nat, elapsed: nat): nat {
    if secs < elapsed then 0 else secs - elapsed
  }

  /** The walk of `add_timeout`: past every entry that is not later, then share out the next gap. */
  function Insert<V>(items: seq<Item<V>>, ndelta: nat, v: V): seq<Item<V>> {
    if items == [] then [Item(ndelta, v)]
    else if ndelta < items[0].delta then
      [Item(ndelta, v), items[0].(delta := items[0].delta - ndelta)] + items[1..]
    else [items[0]] + Insert(items[1..], ndelta - items[0].delta, v)
  }

  /** One step of the walk, past an entry that is not later. */
  lemma InsertStep<V>(items: seq<Item<V>>, k: nat, ndelta: nat, v: V)
    requires k < |items| && items[k].delta <= ndelta
    ensures items[..k] + Insert(items[k..], ndelta, v) ==
            items[..k + 1] + Insert(items[k + 1..], ndelta - items[k].delta, v)
  {
    assert items[k..][1..] == items[k + 1..];
    assert items[..k] + [items[k]] == items[..k + 1];
  }

  /** Where the walk stops, entry by entry. */
  lemma InsertHere<V>(items: seq<Item<V>>, k: nat, ndelta: nat, v: V)
    requires k <= |items| && (k < |items| ==> ndelta < items[k].delta)
    ensures var r := items[..k] + Insert(items[k..], ndelta, v);
            && |r| == |items| + 1 && r[k] == Item(ndelta, v)
            && (forall i :: 0 <= i < k ==> r[i] == items[i])
            && (k < |items| ==> r[k + 1] == items[k].(delta := items[k].delta - ndelta))
            && forall i :: k + 2 <= i < |r| ==> r[i] == items[i - 1]
  {
  }

  /** How many leading entries `expired` pops: those whose own distance is covered. */
  function PopCount<V>(items: seq<Item<V>>, secs: nat): (k: nat)
    ensures k <= |items|
    ensures k < |items| ==> items[k].delta > secs
  {
    if items == [] || items[0].delta > secs then 0 else 1 + PopCount(items[1..], secs)
  }

  /** No distance up to and including that of the entry exceeds the time passed. */
  ghost predicate Covered<V>(items: seq<Item<V>>, secs: nat, i: nat)
    requires i < |items|
  {
    forall k :: 0 <= k <= i ==> items[k].delta <= secs
  }

  /** Exactly then the entry is popped. */
  lemma {:induction false} PoppedIff<V>(items: seq<Item<V>>, secs: nat, i: nat)
    requires i < |items|
    ensures i < PopCount(items, secs) <==> Covered(items, secs, i)
  {
    if items[0].delta <= secs && i > 0 {
      PoppedIff(items[1..], secs, i - 1);
      assert forall k :: 1 <= k <= i ==> items[k] == items[1..][k - 1];
      assert forall k :: 0 <= k <= i - 1 ==> items[1..][k] == items[k + 1];
    }
  }

  function Shift<V>(items: seq<Item<V>>, secs: nat): seq<Item<V>>
    requires items != [] && secs <= items[0].delta
  {
    [items[0].(delta := items[0].delta - secs)] + items[1..]
  }

  /** What `expired` leaves behind. */
  function Left<V>(items: seq<Item<V>>, secs: nat): (r: seq<Item<V>>)
    ensures |r| == |items| - PopCount(items, secs)
  {
    var rest := items[PopCount(items, secs)..];
    if rest == [] then [] else Shift(rest, secs)
  }

  /** The values among these that are not marked deleted, in order. */
  function Handed<V(==)>(items: seq<Item<V>>, dead: set<V>): seq<V> {
    if items == [] then []
    else (if items[0].value in dead then [] else [items[0].value]) + Handed(items[1..], dead)
  }

  function Values<V>(items: seq<Item<V>>): (r: seq<V>)
    ensures |r| == |items| && forall i :: 0 <= i < |items| ==> r[i] == items[i].value
  {
    seq(|items|, i requires 0 <= i < |items| => items[i].value)
  }

  lemma {:induction false} HandedAppend<V>(a: seq<Item<V>>, b: seq<Item<V>>, dead: set<V>)
    ensures Handed(a + b, dead) == Handed(a, dead) + Handed(b, dead)
  {
    if a == [] {
      assert a + b == b;
    } else {
      assert (a + b)[1..] == a[1..] + b;
      HandedAppend(a[1..], b, dead);
    }
  }

  /** One turn of the loop of `expired`, at an entry that is covered. */
  lemma PopStep<V>(items: seq<Item<V>>, c: nat, secs: nat, dead: set<V>)
    requires c < |items| && items[c].delta <= secs
    ensures PopCount(items[c..], secs) == 1 + PopCount(items[c + 1..], secs)
    ensures Handed(items[..c + 1], dead) ==
            Handed(items[..c], dead) + if items[c].value in dead then [] else [items[c].value]
  {
    assert items[c..][1..] == items[c + 1..];
    HandedAppend(items[..c], [items[c]], dead);
    assert items[..c] + [items[c]] == items[..c + 1];
  }

  // --------------------------------------------------------------- accumulated offsets

  /** Seconds from the timer's instant to the entry: the sum of the distances up to it. */
  function Offset<V>(items: seq<Item<V>>, i: nat): nat
    requires i < |items|
  {
    items[0].delta + if i == 0 then 0 else Offset(items[1..], i - 1)
  }

  datatype Due<V> = Due(offset: nat, value: V)

  /** The timer as its users think of it: values by accumulated offset. */
  function Schedule<V>(items: seq<Item<V>>, base: nat): seq<Due<V>> {
    if items == [] then []
    else [Due(base + items[0].delta, items[0].value)] + Schedule(items[1..], base + items[0].delta)
  }

  /** Before the first entry that is strictly later: equal offsets keep arrival order. */
  function InsertDue<V>(s: seq<Due<V>>, d: Due<V>): seq<Due<V>> {
    if s == [] || d.offset < s[0].offset then [d] + s
    else [s[0]] + InsertDue(s[1..], d)
  }

  /**
   `add_timeout` adds one entry at its offset, after those that are due at the same time,
   and moves no other entry.
   */
  lemma {:induction false} InsertSchedules<V>(items: seq<Item<V>>, ndelta: nat, v: V, base: nat)
    ensures Schedule(Insert(items, ndelta, v), base) == InsertDue(Schedule(items, base), Due(base + ndelta, v))
  {
    if items != [] {
      if ndelta < items[0].delta {
        ScheduleFront(items, ndelta, v, base);
      } else {
        InsertSchedules(items[1..], ndelta - items[0].delta, v, base + items[0].delta);
        assert Insert(items, ndelta, v)[1..] == Insert(items[1..], ndelta - items[0].delta, v);
      }
    }
  }

  lemma ScheduleFront<V>(items: seq<Item<V>>, ndelta: nat, v: V, base: nat)
    requires items != [] && ndelta < items[0].delta
    ensures Schedule(Insert(items, ndelta, v), base) == [Due(base + ndelta, v)] + Schedule(items, base)
  {
    var r := Insert(items, ndelta, v);
    assert r[1..][1..] == items[1..];
    assert base + ndelta + (items[0].delta - ndelta) == base + items[0].delta;
    assert Schedule(r[1..], base + ndelta) == Schedule(items, base);
  }

  /** Offsets never decrease along the list, and `Schedule` is where `Offset` says. */
  lemma {:induction false} ScheduleAt<V>(items: seq<Item<V>>, base: nat)
    ensures var s := Schedule(items, base);
            && |s| == |items|
            && (forall i :: 0 <= i < |s| ==> s[i] == Due(base + Offset(items, i), items[i].value))
            && (forall i, j :: 0 <= i <= j < |s| ==> base <= s[i].offset <= s[j].offset)
  {
    if items != [] {
      var rest := items[1..];
      ScheduleAt(rest, base + items[0].delta);
      var s, t := Schedule(items, base), Schedule(rest, base + items[0].delta);
      assert forall i :: 1 <= i < |s| ==> s[i] == t[i - 1];
      forall i | 0 <= i < |s| ensures s[i] == Due(base + Offset(items, i), items[i].value) {
        if i > 0 {
          assert s[i] == t[i - 1] == Due(base + items[0].delta + Offset(rest, i - 1), rest[i - 1].value);
        }
      }
    }
  }

  /** An entry whose offset is covered is popped: no single distance exceeds the sum. */
  lemma {:induction false} DueIsPopped<V>(items: seq<Item<V>>, secs: nat, i: nat)
    requires i < |items| && Offset(items, i) <= secs
    ensures i < PopCount(items, secs)
  {
    if i > 0 {
      DueIsPopped(items[1..], secs, i - 1);
    }
  }

  /** Two entries five seconds apart go together after five seconds, the second at half its time. */
  lemma EarlyExample<V>(a: V, b: V)
    ensures var items := [Item(5, a), Item(5, b)];
            PopCount(items, 5) == 2 && Offset(items, 1) == 10
  {
    var items := [Item(5, a), Item(5, b)];
    assert items[1..] == [Item(5, b)] && items[1..][1..] == [];
    assert PopCount(items[1..], 5) == 1;
  }

  lemma HeadShift<V>(items: seq<Item<V>>, secs: nat, j: nat)
    requires j < |items| && secs <= items[0].delta
    ensures secs + Offset(Shift(items, secs), j) == Offset(items, j)
  {
    assert Shift(items, secs)[1..] == items[1..];
  }

  /** The sum of the first `k` distances. */
  function Passed<V>(items: seq<Item<V>>, k: nat): nat
    requires k <= |items|
  {
    if k == 0 then 0 else items[0].delta + Passed(items[1..], k - 1)
  }

  /** Dropping entries brings those behind them forward by the distances dropped. */
  lemma {:induction false} OffsetDrop<V>(items: seq<Item<V>>, k: nat, j: nat)
    requires k + j < |items|
    ensures Passed(items, k) + Offset(items[k..], j) == Offset(items, k + j)
  {
    if k == 0 {
      assert items[0..] == items;
    } else {
      assert items[1..][k - 1..] == items[k..];
      OffsetDrop(items[1..], k - 1, j);
    }
  }

  /**
   Relative to the advanced instant, an entry that stays is due earlier than before by the distances that
   were popped, as `expired` drops them; so it keeps its time exactly if they sum up to nothing.
   */
  lemma LeftIsEarlier<V>(items: seq<Item<V>>, secs: nat, j: nat)
    requires j < |Left(items, secs)|
    ensures var k := PopCount(items, secs);
            && Passed(items, k) + secs + Offset(Left(items, secs), j) == Offset(items, k + j)
            && (secs + Offset(Left(items, secs), j) == Offset(items, k + j) <==> Passed(items, k) == 0)
  {
    LeftOffsets(items, Left(items, secs), PopCount(items, secs), secs, j);
  }

  lemma LeftOffsets<V>(items: seq<Item<V>>, left: seq<Item<V>>, k: nat, secs: nat, j: nat)
    requires left == Left(items, secs) && k == PopCount(items, secs) && j < |left|
    ensures k + j < |items| && Passed(items, k) + secs + Offset(left, j) == Offset(items, k + j)
  {
    LeftIsShift(items, secs);
    ShiftedOffset(items, left, k, secs, j);
  }

  lemma ShiftedOffset<V>(items: seq<Item<V>>, left: seq<Item<V>>, k: nat, secs: nat, j: nat)
    requires k + j < |items| && secs <= items[k].delta && left == Shift(items[k..], secs)
    ensures Passed(items, k) + secs + Offset(left, j) == Offset(items, k + j)
  {
    HeadShift(items[k..], secs, j);
    OffsetDrop(items, k, j);
  }

  lemma LeftIsShift<V>(items: seq<Item<V>>, secs: nat)
    requires Left(items, secs) != []
    ensures var k := PopCount(items, secs);
            k < |items| && secs <= items[k].delta && Left(items, secs) == Shift(items[k..], secs)
  {
  }

  // ----------------------------------------------------------------------------- runs

  /** `Collect` is what `gc` does: it takes out leading entries, which are deleted. */
  datatype Op<V> = Add(value: V, secs: nat, now: nat) | Delete(values: set<V>) | Expire(now: nat) | Collect(count: nat)

  /**
   A timer with its history: the deadline each value was given, by how much the list is ahead of it, which
   values have been deleted, and which have been handed out.
   */
  datatype Clock<V> = Clock(
    instant: nat,
    last: nat,
    items: seq<Item<V>>,
    deadline: map<V, nat>,
    early: map<V, nat>,
    dead: set<V>,
    handed: seq<V>)

  function Begin<V>(now: nat): Clock<V> {
    Clock(now, now, [], map[], map[], {}, [])
  }

  /**
   What a booking is ahead of its deadline: it counts from the instant, and the whole seconds since are taken off
   the time to wait, as far as that goes.
   */
  function Lead(instant: nat, secs: nat, now: nat): nat {
    if now < instant then 0
    else
      var e := ((now - instant) / SECOND) % WIDTH;
      now - instant + (if e < secs then e else secs) * SECOND
  }

  /** Those that stay are brought forward. */
  ghost function Drifted<V>(early: map<V, nat>, stay: seq<Item<V>>, secs: nat): map<V, nat> {
    map v | v in early :: early[v] + if v in Values(stay) then secs * SECOND else 0
  }

  /** Clock readings do not go back, gaps fit the counter, and no value is booked twice. */
  ghost predicate Possible<V>(c: Clock<V>, op: Op<V>) {
    match op
    case Add(v, secs, now) => v !in c.deadline && c.last <= now && (now - c.instant) / SECOND < WIDTH
    case Delete(_) => true
    case Expire(now) => c.last <= now && (now - c.instant) / SECOND < WIDTH
    case Collect(n) => n <= |c.items| && forall i :: 0 <= i < n ==> c.items[i].value in c.dead
  }

  ghost function Apply<V>(c: Clock<V>, op: Op<V>): Clock<V> {
    match op
    case Add(v, secs, now) =>
      c.(last := now,
         items := Insert(c.items, Wait(secs, ElapsedSecs(c.instant, now)), v),
         deadline := c.deadline[v := now + secs * SECOND],
         early := c.early[v := Lead(c.instant, secs, now)])
    case Delete(vs) => c.(dead := c.dead + vs)
    case Expire(now) =>
      var secs := ElapsedSecs(c.instant, now);
      c.(last := now,
         instant := c.instant + secs * SECOND,
         items := Left(c.items, secs),
         early := Drifted(c.early, Left(c.items, secs), Passed(c.items, PopCount(c.items, secs))),
         handed := c.handed + Handed(c.items[..PopCount(c.items, secs)], c.dead))
    case Collect(n) =>
      if n <= |c.items| then c.(items := c.items[n..], early := Drifted(c.early, c.items[n..], Passed(c.items, n)))
      else c
  }

  /** The clock after a run that began at `start`. */
  ghost function After<V>(start: nat, ops: seq<Op<V>>): Clock<V> {
    if ops == [] then Begin(start) else Apply(After(start, ops[..|ops| - 1]), ops[|ops| - 1])
  }

  ghost predicate Feasible<V>(start: nat, ops: seq<Op<V>>) {
    ops == [] || (Feasible(start, ops[..|ops| - 1]) && Possible(After(start, ops[..|ops| - 1]), ops[|ops| - 1]))
  }

  lemma AfterNext<V>(start: nat, ops: seq<Op<V>>, op: Op<V>)
    ensures After(start, ops + [op]) == Apply(After(start, ops), op)
    ensures Feasible(start, ops + [op]) <==> Feasible(start, ops) && Possible(After(start, ops), op)
  {
    assert (ops + [op])[..|ops|] == ops;
  }

  ghost predicate Distinct<V>(s: seq<V>) {
    forall i, j :: 0 <= i < j < |s| ==> s[i] != s[j]
  }

  /** Every value is pending, handed out, or deleted; none twice; each due as much ahead as `early` says. */
  ghost predicate Inv<V>(c: Clock<V>) {
    && c.instant <= c.last && c.early.Keys == c.deadline.Keys
    && Distinct(Values(c.items) + c.handed)
    && (forall v :: v in Values(c.items) + c.handed ==> v in c.deadline)
    && (forall v :: v in c.deadline ==> v in Values(c.items) || v in c.handed || v in c.dead)
    && forall i :: 0 <= i < |c.items| ==> Ahead(c, i)
  }

  ghost predicate Ahead<V>(c: Clock<V>, i: nat)
    requires i < |c.items|
  {
    AheadBy(c, c.items[i].value, Offset(c.items, i))
  }

  ghost predicate AheadBy<V>(c: Clock<V>, v: V, offset: nat) {
    c.instant + offset * SECOND + Early(c, v) == Deadline(c, v)
  }

  ghost function Deadline<V>(c: Clock<V>, v: V): nat {
    if v in c.deadline then c.deadline[v] else 0
  }

  ghost function Early<V>(c: Clock<V>, v: V): nat {
    if v in c.early then c.early[v] else 0
  }

  ghost function ValueSet<V>(items: seq<Item<V>>): set<V> {
    set i | 0 <= i < |items| :: items[i].value
  }

  /** Where the new value went. */
  lemma {:induction false} InsertPlace<V>(items: seq<Item<V>>, ndelta: nat, v: V) returns (k: nat)
    ensures var r := Insert(items, ndelta, v);
            && k <= |items| && |r| == |items| + 1 && r[k].value == v
            && (forall i :: 0 <= i < k ==> r[i].value == items[i].value)
            && forall i :: k < i < |r| ==> r[i].value == items[i - 1].value
  {
    if items == [] || ndelta < items[0].delta {
      k := 0;
    } else {
      k := InsertPlace(items[1..], ndelta - items[0].delta, v);
      k := k + 1;
    }
  }

  /** Insertion adds one value and keeps the others. */
  lemma InsertAdds<V>(items: seq<Item<V>>, ndelta: nat, v: V)
    ensures ValueSet(Insert(items, ndelta, v)) == ValueSet(items) + {v}
    ensures Distinct(Values(items)) && v !in ValueSet(items) ==> Distinct(Values(Insert(items, ndelta, v)))
  {
    var k := InsertValues(items, ndelta, v);
    var r, vs := Insert(items, ndelta, v), Values(items);
    assert vs == vs[..k] + vs[k..];
    forall x ensures x in ValueSet(r) <==> x in ValueSet(items) || x == v {
      ValueSetIs(r, x);
      ValueSetIs(items, x);
    }
    if Distinct(vs) && v !in ValueSet(items) {
      ValueSetIs(items, v);
      DistinctInsert(vs, v, k);
    }
  }

  /** Expiry hands out undeleted values, each once, and all of them. */
  lemma ExpireHands<V>(items: seq<Item<V>>, dead: set<V>)
    requires Distinct(Values(items))
    ensures var out := Handed(items, dead);
            && (forall x :: x in out <==> x in ValueSet(items) && x !in dead)
            && (forall i :: 0 <= i < |out| ==> out[i] in ValueSet(items) && out[i] !in dead)
            && Distinct(out)
  {
    forall x ensures x in Handed(items, dead) <==> x in ValueSet(items) && x !in dead {
      HandedMembers(items, dead, x);
      if x in ValueSet(items) {
        var i :| 0 <= i < |items| && items[i].value == x;
        assert Values(items)[i] == x;
      }
    }
    HandedDistinct(items, dead);
  }

  lemma ValueSetIs<V>(items: seq<Item<V>>, x: V)
    ensures x in ValueSet(items) <==> x in Values(items)
  {
    if x in ValueSet(items) {
      var i :| 0 <= i < |items| && items[i].value == x;
      assert Values(items)[i] == x;
    }
  }

  lemma DistinctHalves<V>(s: seq<V>, k: nat)
    requires Distinct(s) && k <= |s|
    ensures Distinct(s[..k]) && Distinct(s[k..])
    ensures forall x :: x in s <==> x in s[..k] || x in s[k..]
    ensures forall x :: x in s[..k] ==> x !in s[k..]
  {
    assert s == s[..k] + s[k..];
    forall x | x in s[..k] ensures x !in s[k..] {
      var i :| 0 <= i < k && s[..k][i] == x;
      assert forall j :: 0 <= j < |s| - k ==> s[k..][j] == s[k + j];
    }
  }

  /** Expiry splits the values into those popped and those kept. */
  lemma ExpireKeeps<V>(items: seq<Item<V>>, secs: nat)
    requires Distinct(Values(items))
    ensures var popped := items[..PopCount(items, secs)];
            && Distinct(Values(Left(items, secs))) && Distinct(Values(popped))
            && ValueSet(popped) !! ValueSet(Left(items, secs))
            && ValueSet(popped) + ValueSet(Left(items, secs)) == ValueSet(items)
  {
    LeftValues(items, secs);
    SplitSets(items, Left(items, secs), PopCount(items, secs));
  }

  lemma SplitSets<V>(items: seq<Item<V>>, left: seq<Item<V>>, k: nat)
    requires Distinct(Values(items)) && k <= |items|
    requires Values(left) == Values(items)[k..] && Values(items[..k]) == Values(items)[..k]
    ensures Distinct(Values(left)) && Distinct(Values(items[..k]))
    ensures ValueSet(items[..k]) !! ValueSet(left) && ValueSet(items[..k]) + ValueSet(left) == ValueSet(items)
  {
    DistinctHalves(Values(items), k);
    forall x
      ensures x in ValueSet(items) <==> x in ValueSet(items[..k]) || x in ValueSet(left)
      ensures x in ValueSet(items[..k]) ==> x !in ValueSet(left)
    {
      ValueSetIs(items, x);
      ValueSetIs(items[..k], x);
      ValueSetIs(left, x);
    }
  }

  /** Before the first entry: those behind keep their offsets. */
  lemma InsertFrontOffsets<V>(items: seq<Item<V>>, ndelta: nat, v: V, i: nat)
    requires items != [] && ndelta < items[0].delta && 0 < i <= |items|
    ensures var r := Insert(items, ndelta, v);
            |r| == |items| + 1 && r[i].value == items[i - 1].value && Offset(r, i) == Offset(items, i - 1)
  {
    var r := Insert(items, ndelta, v);
    assert r[1..][1..] == items[1..];
    assert Offset(r, i) == ndelta + Offset(r[1..], i - 1);
  }

  /** Every entry after an insertion is the new one, or an old one at its old offset. */
  lemma {:induction false} InsertOffsets<V>(items: seq<Item<V>>, ndelta: nat, v: V, i: nat) returns (j: nat)
    requires i < |Insert(items, ndelta, v)|
    ensures var r := Insert(items, ndelta, v);
            if j == |items| then r[i].value == v && Offset(r, i) == ndelta
            else j < |items| && items[j].value == r[i].value && Offset(items, j) == Offset(r, i)
  {
    var r := Insert(items, ndelta, v);
    if items == [] {
      j := 0;
    } else if ndelta < items[0].delta {
      if i == 0 {
        j := |items|;
      } else {
        j := i - 1;
        InsertFrontOffsets(items, ndelta, v, i);
      }
    } else if i == 0 {
      j := 0;
    } else {
      assert r[1..] == Insert(items[1..], ndelta - items[0].delta, v);
      j := InsertOffsets(items[1..], ndelta - items[0].delta, v, i - 1);
      j := j + 1;
    }
  }

  lemma InsertValues<V>(items: seq<Item<V>>, ndelta: nat, v: V) returns (k: nat)
    ensures k <= |items|
    ensures Values(Insert(items, ndelta, v)) == Values(items)[..k] + [v] + Values(items)[k..]
  {
    k := InsertPlace(items, ndelta, v);
    var r, w := Values(Insert(items, ndelta, v)), Values(items)[..k] + [v] + Values(items)[k..];
    assert |r| == |w| && forall i :: 0 <= i < |r| ==> r[i] == w[i];
  }

  lemma InsertAccount<V>(items: seq<Item<V>>, handed: seq<V>, ndelta: nat, v: V)
    requires Distinct(Values(items) + handed) && v !in Values(items) + handed
    ensures var all := Values(Insert(items, ndelta, v)) + handed;
            Distinct(all) && forall x :: x in all <==> x == v || x in Values(items) + handed
  {
    var k := InsertValues(items, ndelta, v);
    var vs, s := Values(items), Values(items) + handed;
    DistinctInsert(s, v, k);
    assert vs[..k] + [v] + vs[k..] + handed == s[..k] + [v] + s[k..];
  }

  lemma AddKeepsAccount<V>(c: Clock<V>, v: V, secs: nat, now: nat)
    requires Inv(c) && Possible(c, Add(v, secs, now))
    ensures var d := Apply(c, Add(v, secs, now));
            && Distinct(Values(d.items) + d.handed)
            && forall x :: x in Values(d.items) + d.handed <==> x == v || x in Values(c.items) + c.handed
  {
    InsertAccount(c.items, c.handed, Wait(secs, ElapsedSecs(c.instant, now)), v);
  }

  lemma AddKeepsAhead<V>(c: Clock<V>, v: V, secs: nat, now: nat, i: nat)
    requires Inv(c) && Possible(c, Add(v, secs, now))
    requires i < |Apply(c, Add(v, secs, now)).items|
    ensures Ahead(Apply(c, Add(v, secs, now)), i)
  {
    var ndelta := Wait(secs, ElapsedSecs(c.instant, now));
    WaitIsEarly(c.instant, secs, now);
    var j := InsertOffsets(c.items, ndelta, v, i);
    if j < |c.items| {
      assert (Values(c.items) + c.handed)[j] == c.items[j].value;
      assert Ahead(c, j);
    }
  }

  lemma AddInv<V>(c: Clock<V>, v: V, secs: nat, now: nat)
    requires Inv(c) && Possible(c, Add(v, secs, now))
    ensures Inv(Apply(c, Add(v, secs, now)))
  {
    var d := Apply(c, Add(v, secs, now));
    AddKeepsAccount(c, v, secs, now);
    forall x | x in Values(d.items) + d.handed ensures x in d.deadline {
      assert x == v || x in Values(c.items) + c.handed;
    }
    forall x | x in d.deadline ensures x in Values(d.items) || x in d.handed || x in d.dead {
      assert x in Values(d.items) + d.handed || x in d.dead;
    }
    forall i | 0 <= i < |d.items| ensures Ahead(d, i) {
      AddKeepsAhead(c, v, secs, now, i);
    }
  }

  /** An entry is booked ahead of its deadline by its lead, which is none exactly if the clock stands at the instant. */
  lemma WaitIsEarly(instant: nat, secs: nat, now: nat)
    requires instant <= now && (now - instant) / SECOND < WIDTH
    ensures instant + Wait(secs, ElapsedSecs(instant, now)) * SECOND + Lead(instant, secs, now) == now + secs * SECOND
    ensures Lead(instant, secs, now) == 0 <==> now == instant
  {
    var e := (now - instant) / SECOND;
    WholeSeconds(now - instant);
    var w, off := Wait(secs, e), if e < secs then e else secs;
    assert w + off == secs;
    assert w * SECOND + off * SECOND == secs * SECOND;
  }

  lemma WholeSeconds(t: nat)
    requires t / SECOND < WIDTH
    ensures (t / SECOND) % WIDTH == t / SECOND
  {
  }

  /** The time to wait is what is left of it, if anything. */
  lemma WaitIs(instant: nat, secs: nat, now: nat)
    requires instant <= now && (now - instant) / 1_000_000_000 < 0x1_0000_0000
    ensures var e, w := (now - instant) / 1_000_000_000, Wait(secs, ElapsedSecs(instant, now));
            if e <= secs then w + e == secs else w == 0
  {
    WholeSeconds(now - instant);
  }

  /**
   Over every run, a booking is pending at an offset that falls short of its deadline by exactly the time since
   the instant and the whole seconds that were taken off.
   */
  lemma BookedAhead<V>(start: nat, ops: seq<Op<V>>, v: V, secs: nat, now: nat)
    requires Feasible(start, ops + [Add(v, secs, now)])
    ensures var c, d := After(start, ops), After(start, ops + [Add(v, secs, now)]);
            var e := (now - c.instant) / SECOND;
            && c.instant <= now && d.instant == c.instant
            && v in d.deadline && d.deadline[v] == now + secs * SECOND
            && v in d.early && d.early[v] == now - c.instant + (if e < secs then e else secs) * SECOND
            && exists i :: 0 <= i < |d.items| && d.items[i].value == v
                 && d.instant + Offset(d.items, i) * SECOND + d.early[v] == d.deadline[v]
  {
    AfterNext(start, ops, Add(v, secs, now));
    RunInv(start, ops);
    RunInv(start, ops + [Add(v, secs, now)]);
    var c := After(start, ops);
    LeadIs(c.instant, secs, now);
    var i := Pending(c, v, secs, now);
  }

  lemma LeadIs(instant: nat, secs: nat, now: nat)
    requires instant <= now && (now - instant) / SECOND < WIDTH
    ensures var e := (now - instant) / SECOND;
            Lead(instant, secs, now) == now - instant + (if e < secs then e else secs) * SECOND
  {
    WholeSeconds(now - instant);
  }

  /** Where a booking is pending. */
  lemma Pending<V>(c: Clock<V>, v: V, secs: nat, now: nat) returns (i: nat)
    requires Inv(Apply(c, Add(v, secs, now)))
    ensures var d := Apply(c, Add(v, secs, now));
            && i < |d.items| && d.items[i].value == v
            && d.instant + Offset(d.items, i) * SECOND + d.early[v] == d.deadline[v]
  {
    var d := Apply(c, Add(v, secs, now));
    InsertAdds(c.items, Wait(secs, ElapsedSecs(c.instant, now)), v);
    assert v in ValueSet(d.items);
    i :| 0 <= i < |d.items| && d.items[i].value == v;
    assert Ahead(d, i);
  }

  lemma DistinctInsert<V>(s: seq<V>, x: V, k: nat)
    requires Distinct(s) && x !in s && k <= |s|
    ensures Distinct(s[..k] + [x] + s[k..])
    ensures forall y :: y in s[..k] + [x] + s[k..] <==> y == x || y in s
  {
    assert s == s[..k] + s[k..];
  }

  lemma {:induction false} HandedMembers<V>(items: seq<Item<V>>, dead: set<V>, v: V)
    ensures v in Handed(items, dead) <==> v in Values(items) && v !in dead
  {
    if items != [] {
      HandedMembers(items[1..], dead, v);
      assert Values(items) == [items[0].value] + Values(items[1..]);
    }
  }

  lemma HandedSplits<V>(items: seq<Item<V>>, dead: set<V>)
    ensures forall x :: x in Handed(items, dead) ==> x in Values(items) && x !in dead
    ensures forall x :: x in Values(items) ==> x in Handed(items, dead) || x in dead
  {
    forall x | x in Handed(items, dead) ensures x in Values(items) && x !in dead {
      HandedMembers(items, dead, x);
    }
    forall x | x in Values(items) ensures x in Handed(items, dead) || x in dead {
      HandedMembers(items, dead, x);
    }
  }

  lemma {:induction false} HandedDistinct<V>(items: seq<Item<V>>, dead: set<V>)
    requires Distinct(Values(items))
    ensures Distinct(Handed(items, dead))
  {
    if items != [] {
      assert Values(items) == [items[0].value] + Values(items[1..]);
      assert forall i :: 0 <= i < |items| - 1 ==> Values(items[1..])[i] == Values(items)[i + 1];
      HandedDistinct(items[1..], dead);
      HandedMembers(items[1..], dead, items[0].value);
    }
  }

  lemma DistinctParts<V>(a: seq<V>, b: seq<V>, h: seq<V>, out: seq<V>)
    requires Distinct(a + b + h) && Distinct(out) && forall x :: x in out ==> x in a
    ensures Distinct(b + (h + out))
  {
    var s, t := a + b + h, b + (h + out);
    forall i, j | 0 <= i < j < |t| ensures t[i] != t[j] {
      if j < |b| + |h| {
        assert t[i] == s[|a| + i] && t[j] == s[|a| + j];
      } else if i < |b| + |h| {
        assert t[j] == out[j - |b| - |h|] && t[j] in a;
        var x :| 0 <= x < |a| && a[x] == t[j];
        assert s[x] == t[j] && s[|a| + i] == t[i];
      }
    }
  }

  lemma LeftValues<V>(items: seq<Item<V>>, secs: nat)
    ensures Values(Left(items, secs)) == Values(items)[PopCount(items, secs)..]
    ensures Values(items[..PopCount(items, secs)]) == Values(items)[..PopCount(items, secs)]
  {
    var k, left := PopCount(items, secs), Left(items, secs);
    forall i | 0 <= i < |left| ensures left[i].value == items[k + i].value {
      LeftAt(items, secs, i);
    }
    SplitValues(items, left, k);
  }

  lemma SplitValues<V>(items: seq<Item<V>>, left: seq<Item<V>>, k: nat)
    requires k + |left| == |items| && forall i :: 0 <= i < |left| ==> left[i].value == items[k + i].value
    ensures Values(left) == Values(items)[k..] && Values(items[..k]) == Values(items)[..k]
  {
    var vs, ws := Values(items)[k..], Values(left);
    assert |ws| == |vs| && forall i :: 0 <= i < |ws| ==> ws[i] == vs[i];
    var xs, ys := Values(items[..k]), Values(items)[..k];
    assert |xs| == |ys| && forall i :: 0 <= i < k ==> xs[i] == ys[i];
  }

  lemma LeftAt<V>(items: seq<Item<V>>, secs: nat, i: nat)
    requires i < |Left(items, secs)|
    ensures Left(items, secs)[i].value == items[PopCount(items, secs) + i].value
  {
    var rest := items[PopCount(items, secs)..];
    assert Left(items, secs) == Shift(rest, secs) && rest[i] == items[PopCount(items, secs) + i];
  }

  /** Some of the values `a` move to the end, in the order they have there. */
  lemma MovedMembers<V>(a: seq<V>, b: seq<V>, h: seq<V>, out: seq<V>, dead: set<V>)
    requires forall x :: x in out ==> x in a
    requires forall x :: x in a ==> x in out || x in dead
    ensures forall x :: x in b + (h + out) ==> x in a + b + h
    ensures forall x :: x in a + b + h ==> x in b + (h + out) || x in dead
  {
  }

  /** The first `k` entries go, their undeleted values to the end of `handed`. */
  lemma SplitAccount<V>(items: seq<Item<V>>, k: nat, handed: seq<V>, dead: set<V>)
    requires k <= |items| && Distinct(Values(items) + handed)
    ensures var all := Values(items)[k..] + (handed + Handed(items[..k], dead));
            && Distinct(all)
            && (forall x :: x in all ==> x in Values(items) + handed)
            && forall x :: x in Values(items) + handed ==> x in all || x in dead
  {
    var vs, out := Values(items), Handed(items[..k], dead);
    assert vs + handed == vs[..k] + vs[k..] + handed;
    assert Values(items[..k]) == vs[..k];
    PrefixDistinct(vs[..k], vs[k..], handed);
    HandedDistinct(items[..k], dead);
    HandedSplits(items[..k], dead);
    MovedAccount(vs[..k], vs[k..], handed, out, dead);
  }

  /** What expiry does to the account of values. */
  lemma ExpireAccount<V>(items: seq<Item<V>>, handed: seq<V>, dead: set<V>, secs: nat)
    requires Distinct(Values(items) + handed)
    ensures var all := Values(Left(items, secs)) + (handed + Handed(items[..PopCount(items, secs)], dead));
            && Distinct(all)
            && (forall x :: x in all ==> x in Values(items) + handed)
            && forall x :: x in Values(items) + handed ==> x in all || x in dead
  {
    LeftValues(items, secs);
    SplitAccount(items, PopCount(items, secs), handed, dead);
  }

  lemma MovedAccount<V>(a: seq<V>, b: seq<V>, h: seq<V>, out: seq<V>, dead: set<V>)
    requires Distinct(a + b + h) && Distinct(out)
    requires (forall x :: x in out ==> x in a) && forall x :: x in a ==> x in out || x in dead
    ensures Distinct(b + (h + out))
    ensures forall x :: x in b + (h + out) ==> x in a + b + h
    ensures forall x :: x in a + b + h ==> x in b + (h + out) || x in dead
  {
    DistinctParts(a, b, h, out);
    MovedMembers(a, b, h, out, dead);
  }

  lemma Brought(instant: nat, passed: nat, secs: nat, offset: nat, before: nat, early: nat, deadline: nat)
    requires instant + before * SECOND + early == deadline && passed + secs + offset == before
    ensures instant + secs * SECOND + offset * SECOND + (early + passed * SECOND) == deadline
  {
    assert passed * SECOND + secs * SECOND + offset * SECOND == (passed + secs + offset) * SECOND;
  }

  lemma PrefixDistinct<V>(a: seq<V>, b: seq<V>, h: seq<V>)
    requires Distinct(a + b + h)
    ensures Distinct(a)
  {
    assert forall i :: 0 <= i < |a| ==> (a + b + h)[i] == a[i];
  }

  lemma AheadIn<V>(c: Clock<V>, k: nat)
    requires Inv(c) && k < |c.items|
    ensures Ahead(c, k) && c.items[k].value in c.early
  {
    assert (Values(c.items) + c.handed)[k] == c.items[k].value;
  }

  /** An entry that stays was brought forward with the others. */
  lemma StaysAhead<V>(c: Clock<V>, d: Clock<V>, v: V, before: nat, after: nat, passed: nat, secs: nat)
    requires AheadBy(c, v, before) && v in c.early && v in Values(d.items)
    requires d.instant == c.instant + secs * SECOND && d.deadline == c.deadline
    requires d.early == Drifted(c.early, d.items, passed)
    requires passed + secs + after == before
    ensures AheadBy(d, v, after)
  {
    Brought(c.instant, passed, secs, after, before, Early(c, v), Deadline(c, v));
  }

  lemma ExpireFields<V>(c: Clock<V>, now: nat)
    ensures var d, secs := Apply(c, Expire(now)), ElapsedSecs(c.instant, now);
            && d.instant == c.instant + secs * SECOND && d.deadline == c.deadline && d.items == Left(c.items, secs)
            && d.early == Drifted(c.early, d.items, Passed(c.items, PopCount(c.items, secs)))
  {
  }

  lemma LeftAhead<V>(c: Clock<V>, d: Clock<V>, secs: nat, i: nat)
    requires Inv(c) && d.instant == c.instant + secs * SECOND && d.deadline == c.deadline
    requires d.items == Left(c.items, secs) && i < |d.items|
    requires d.early == Drifted(c.early, d.items, Passed(c.items, PopCount(c.items, secs)))
    ensures Ahead(d, i)
  {
    var k, before, passed := LeftOffset(c.items, d.items, secs, i);
    AheadIn(c, k);
    assert Values(d.items)[i] == d.items[i].value;
    StaysAhead(c, d, d.items[i].value, before, Offset(d.items, i), passed, secs);
  }

  /** Where an entry that stays was, and by how much it was brought forward. */
  lemma LeftOffset<V>(items: seq<Item<V>>, left: seq<Item<V>>, secs: nat, i: nat)
    returns (k: nat, before: nat, passed: nat)
    requires left == Left(items, secs) && i < |left|
    ensures k < |items| && left[i].value == items[k].value && before == Offset(items, k)
    ensures passed == Passed(items, PopCount(items, secs)) && passed + secs + Offset(left, i) == before
  {
    LeftAt(items, secs, i);
    LeftIsEarlier(items, secs, i);
    k := PopCount(items, secs) + i;
    before, passed := Offset(items, k), Passed(items, PopCount(items, secs));
  }

  lemma ExpireKeepsAhead<V>(c: Clock<V>, now: nat, i: nat)
    requires Inv(c) && i < |Apply(c, Expire(now)).items|
    ensures Ahead(Apply(c, Expire(now)), i)
  {
    ExpireFields(c, now);
    LeftAhead(c, Apply(c, Expire(now)), ElapsedSecs(c.instant, now), i);
  }

  lemma ExpireBooked<V>(c: Clock<V>, secs: nat, v: V)
    requires Inv(c) && v in c.deadline
    ensures v in Values(Left(c.items, secs))
            || v in c.handed + Handed(c.items[..PopCount(c.items, secs)], c.dead) || v in c.dead
  {
    ExpireAccount(c.items, c.handed, c.dead, secs);
    if v !in c.dead {
      assert v in Values(c.items) + c.handed;
    }
  }

  lemma ExpireInv<V>(c: Clock<V>, now: nat)
    requires Inv(c) && Possible(c, Expire(now))
    ensures Inv(Apply(c, Expire(now)))
  {
    var d := Apply(c, Expire(now));
    var secs := ElapsedSecs(c.instant, now);
    assert secs * SECOND <= now - c.instant;
    ExpireAccount(c.items, c.handed, c.dead, secs);
    forall x | x in d.deadline ensures x in Values(d.items) || x in d.handed || x in d.dead {
      ExpireBooked(c, secs, x);
    }
    forall i | 0 <= i < |d.items| ensures Ahead(d, i) {
      ExpireKeepsAhead(c, now, i);
    }
  }

  lemma CollectKeepsAhead<V>(c: Clock<V>, n: nat, i: nat)
    requires Inv(c) && n + i < |c.items|
    ensures Ahead(Apply(c, Collect(n)), i)
  {
    DroppedAhead(c, Apply(c, Collect(n)), n, i);
  }

  lemma DroppedAhead<V>(c: Clock<V>, d: Clock<V>, n: nat, i: nat)
    requires Inv(c) && n + i < |c.items| && d.items == c.items[n..]
    requires d.instant == c.instant && d.deadline == c.deadline
    requires d.early == Drifted(c.early, d.items, Passed(c.items, n))
    ensures Ahead(d, i)
  {
    AheadIn(c, n + i);
    var before, after, passed := DroppedOffset(c.items, d.items, n, i);
    StaysAhead(c, d, d.items[i].value, before, after, passed, 0);
  }

  lemma DroppedOffset<V>(items: seq<Item<V>>, rest: seq<Item<V>>, n: nat, i: nat)
    returns (before: nat, after: nat, passed: nat)
    requires n + i < |items| && rest == items[n..]
    ensures before == Offset(items, n + i) && after == Offset(rest, i) && passed == Passed(items, n)
    ensures passed + after == before && rest[i].value == items[n + i].value && rest[i].value in Values(rest)
  {
    OffsetDrop(items, n, i);
    before, after, passed := Offset(items, n + i), Offset(rest, i), Passed(items, n);
    assert Values(rest)[i] == rest[i].value;
  }

  lemma CollectInv<V>(c: Clock<V>, n: nat)
    requires Inv(c) && Possible(c, Collect(n))
    ensures Inv(Apply(c, Collect(n)))
  {
    var d := Apply(c, Collect(n));
    var vs, ws := Values(c.items), Values(d.items);
    assert forall i :: 0 <= i < |ws + c.handed| ==> (ws + c.handed)[i] == (vs + c.handed)[n + i];
    forall x | x in d.deadline ensures x in ws || x in d.handed || x in d.dead {
      if x in vs {
        var i :| 0 <= i < |vs| && vs[i] == x;
        if i < n {
          assert c.items[i].value in c.dead;
        } else {
          assert ws[i - n] == x;
        }
      }
    }
    forall i | 0 <= i < |d.items| ensures Ahead(d, i) {
      CollectKeepsAhead(c, n, i);
    }
  }

  lemma DeleteInv<V>(c: Clock<V>, vs: set<V>)
    requires Inv(c)
    ensures Inv(Apply(c, Delete(vs)))
  {
    forall i | 0 <= i < |c.items| ensures Ahead(Apply(c, Delete(vs)), i) {
      assert Ahead(c, i);
    }
  }

  lemma StepInv<V>(c: Clock<V>, op: Op<V>)
    requires Inv(c) && Possible(c, op)
    ensures Inv(Apply(c, op))
  {
    match op {
      case Add(v, secs, now) => AddInv(c, v, secs, now);
      case Delete(vs) => DeleteInv(c, vs);
      case Expire(now) => ExpireInv(c, now);
      case Collect(n) => CollectInv(c, n);
    }
  }

  lemma {:induction false} RunInv<V>(start: nat, ops: seq<Op<V>>)
    requires Feasible(start, ops)
    ensures Inv(After(start, ops))
    decreases |ops|
  {
    if ops != [] {
      RunInv(start, ops[..|ops| - 1]);
      StepInv(After(start, ops[..|ops| - 1]), ops[|ops| - 1]);
    }
  }

  /** Over every run nothing is handed out twice. */
  lemma HandedOnce<V>(start: nat, ops: seq<Op<V>>)
    requires Feasible(start, ops)
    ensures Distinct(After(start, ops).handed)
    ensures forall v :: v in After(start, ops).handed ==> v in After(start, ops).deadline
  {
    RunInv(start, ops);
    HandedPart(After(start, ops));
  }

  lemma HandedPart<V>(c: Clock<V>)
    requires Inv(c)
    ensures Distinct(c.handed) && forall v :: v in c.handed ==> v in c.deadline
  {
    var vs, h := Values(c.items), c.handed;
    DistinctHalves(vs + h, |vs|);
    assert (vs + h)[|vs|..] == h;
  }

  lemma HandedAt<V>(c: Clock<V>, now: nat, v: V)
    requires Inv(c) && Possible(c, Expire(now))
    requires v in c.deadline && c.deadline[v] <= now && v !in c.dead
    ensures v in Apply(c, Expire(now)).handed
  {
    if v !in c.handed {
      var secs := ElapsedSecs(c.instant, now);
      var i :| 0 <= i < |c.items| && c.items[i].value == v;
      assert Offset(c.items, i) <= secs by {
        assert Ahead(c, i);
        assert Offset(c.items, i) * SECOND <= now - c.instant;
      }
      DueIsPopped(c.items, secs, i);
      var popped := c.items[..PopCount(c.items, secs)];
      assert Values(popped)[i] == v;
      HandedMembers(popped, c.dead, v);
    }
  }

  /**
   Over every run, by the first expiry at or after its deadline a value has been handed out,
   unless it was deleted.
   */
  lemma HandedInTime<V>(start: nat, ops: seq<Op<V>>, now: nat, v: V)
    requires Feasible(start, ops + [Expire(now)])
    requires var c := After(start, ops); v in c.deadline && c.deadline[v] <= now && v !in c.dead
    ensures v in After(start, ops + [Expire(now)]).handed
  {
    AfterNext(start, ops, Expire(now));
    RunInv(start, ops);
    HandedAt(After(start, ops), now, v);
  }

  /** Over every run, a value deleted before it is handed out never is. */
  lemma {:induction false} DeletedStaysIn<V>(start: nat, ops: seq<Op<V>>, more: seq<Op<V>>, v: V)
    requires v in After(start, ops).dead && v !in After(start, ops).handed
    ensures var c := After(start, ops + more); v in c.dead && v !in c.handed
    decreases |more|
  {
    if more == [] {
      assert ops + more == ops;
    } else {
      var n := |more| - 1;
      var op := more[n];
      DeletedStaysIn(start, ops, more[..n], v);
      assert ops + more == ops + more[..n] + [op];
      AfterNext(start, ops + more[..n], op);
      var c := After(start, ops + more[..n]);
      if op.Expire? {
        HandedMembers(c.items[..PopCount(c.items, ElapsedSecs(c.instant, op.now))], c.dead, v);
      }
    }
  }

  lemma HandedNow<V>(c: Clock<V>, now: nat, i: nat)
    requires Inv(c) && i < |c.items| && c.items[i].value !in c.dead
    ensures c.items[i].value in Apply(c, Expire(now)).handed <==> i < PopCount(c.items, ElapsedSecs(c.instant, now))
  {
    var n := PopCount(c.items, ElapsedSecs(c.instant, now));
    HandedMembers(c.items[..n], c.dead, c.items[i].value);
    OnlyPlace(c.items, c.handed, i, n);
  }

  /** A pending value is among the first `n` exactly if its place is, and not among those handed out. */
  lemma OnlyPlace<V>(items: seq<Item<V>>, handed: seq<V>, i: nat, n: nat)
    requires Distinct(Values(items) + handed) && i < |items| && n <= |items|
    ensures items[i].value in Values(items[..n]) <==> i < n
    ensures items[i].value !in handed
  {
    var v, all := items[i].value, Values(items) + handed;
    assert all[i] == v && forall j :: 0 <= j < |handed| ==> all[|items| + j] == handed[j];
    if i < n {
      assert Values(items[..n])[i] == v;
    } else {
      assert forall j :: 0 <= j < n ==> Values(items[..n])[j] == all[j];
    }
  }

  /**
   Over every run, a pending value that is not deleted is handed out by an expiry before its deadline exactly if
   no distance up to its own exceeds the time passed, and the clock is short of its offset with all that the
   value was brought forward: at its booking, and by the distances that earlier expiries dropped.
   */
  lemma HandedEarlyIff<V>(start: nat, ops: seq<Op<V>>, now: nat, i: nat)
    requires Feasible(start, ops + [Expire(now)])
    requires var c := After(start, ops); i < |c.items| && c.items[i].value !in c.dead
    ensures var c, d := After(start, ops), After(start, ops + [Expire(now)]);
            var v := c.items[i].value;
            && v in c.early && v in d.deadline
            && (v in d.handed && now < d.deadline[v] <==>
                && Covered(c.items, ElapsedSecs(c.instant, now), i)
                && now < c.instant + Offset(c.items, i) * SECOND + c.early[v])
  {
    var c := After(start, ops);
    AfterNext(start, ops, Expire(now));
    RunInv(start, ops);
    HandedNow(c, now, i);
    PoppedIff(c.items, ElapsedSecs(c.instant, now), i);
    assert (Values(c.items) + c.handed)[i] == c.items[i].value;
    assert Ahead(c, i);
  }

  // ------------------------------------------------------------------------------ two runs

  /** Two values booked together, for `x` seconds and for `y` more. */
  function Pair<V>(a: V, b: V, x: nat, y: nat): Clock<V> {
    Clock(0, 0, [Item(x, a), Item(y, b)], map[a := x * SECOND, b := (x + y) * SECOND], map[a := 0, b := 0], {}, [])
  }

  lemma InsertSecond<V>(a: V, b: V, x: nat, y: nat)
    ensures Insert([], x, a) == [Item(x, a)]
    ensures Insert([Item(x, a)], x + y, b) == [Item(x, a), Item(y, b)]
  {
    assert [Item(x, a)][1..] == [];
  }

  /** The first of them. */
  function Single<V>(a: V, x: nat): Clock<V> {
    Clock(0, 0, [Item(x, a)], map[a := x * SECOND], map[a := 0], {}, [])
  }

  lemma SingleBooked<V>(a: V, x: nat)
    ensures var ops := [Add(a, x, 0)]; Feasible(0, ops) && After(0, ops) == Single(a, x)
  {
    assert [] + [Add(a, x, 0)] == [Add(a, x, 0)];
    AfterNext(0, [], Add(a, x, 0));
    InsertSecond(a, a, x, 0);
  }

  lemma PairBooked<V>(a: V, b: V, x: nat, y: nat)
    requires a != b
    ensures var ops := [Add(a, x, 0)] + [Add(b, x + y, 0)]; Feasible(0, ops) && After(0, ops) == Pair(a, b, x, y)
  {
    SingleBooked(a, x);
    AfterNext(0, [Add(a, x, 0)], Add(b, x + y, 0));
    InsertSecond(a, b, x, y);
    assert ElapsedSecs(0, 0) == 0 && Wait(x + y, 0) == x + y;
  }

  lemma PairExpires<V>(a: V, b: V)
    ensures Apply(Pair(a, b, 5, 5), Expire(5 * SECOND)).handed == [a, b]
  {
    var items := [Item(5, a), Item(5, b)];
    EarlyExample(a, b);
    assert items[..2] == items && items[1..] == [Item(5, b)] && items[1..][1..] == [];
    assert Handed(items[1..], {}) == [b];
  }

  /** Of two values booked together for five and ten seconds, the second is handed out with the first. */
  lemma EarlyRun<V>(a: V, b: V)
    requires a != b
    ensures var ops := [Add(a, 5, 0)] + [Add(b, 10, 0)] + [Expire(5 * SECOND)];
            && Feasible(0, ops)
            && After(0, ops).handed == [a, b] && Deadline(After(0, ops), b) == 10 * SECOND
  {
    PairBooked(a, b, 5, 5);
    AfterNext(0, [Add(a, 5, 0)] + [Add(b, 10, 0)], Expire(5 * SECOND));
    PairExpires(a, b);
  }

  /** The first expiry pops the first of two entries, on time, and brings the second forward. */
  lemma FirstExpires<V>(a: V, b: V)
    requires a != b
    ensures var c := Apply(Pair(a, b, 5, 100), Expire(5 * SECOND));
            && c.instant == c.last == 5 * SECOND && c.items == [Item(95, b)] && c.handed == [a] && c.dead == {}
            && Early(c, b) == 5 * SECOND && Deadline(c, b) == 105 * SECOND
  {
    var items := [Item(5, a), Item(100, b)];
    assert items[1..] == [Item(100, b)] && PopCount(items[1..], 5) == 0;
    assert items[..1] == [Item(5, a)] && Handed([Item(5, a)][1..], {}) == [];
    assert PopCount(items, 5) == 1 && Passed(items, 1) == 5 && Left(items, 5) == [Item(95, b)];
    assert Values([Item(95, b)])[0] == b;
  }

  lemma SecondExpires<V>(c: Clock<V>, b: V)
    requires c.instant == 5 * SECOND && c.items == [Item(95, b)] && c.dead == {}
    ensures Apply(c, Expire(100 * SECOND)).handed == c.handed + [b]
  {
    assert c.items[1..] == [] && PopCount(c.items[1..], 95) == 0 && Handed(c.items[1..], {}) == [];
    assert c.items[..1] == c.items;
  }

  /**
   Both values are booked at the instant and popped at their offsets; yet the second is handed out five seconds
   before its deadline, because the first expiry dropped the five seconds of the first.
   */
  lemma DriftRun<V>(a: V, b: V)
    requires a != b
    ensures var ops := [Add(a, 5, 0)] + [Add(b, 105, 0)] + [Expire(5 * SECOND)];
            var c := After(0, ops);
            && Feasible(0, ops + [Expire(100 * SECOND)])
            && c.instant == 5 * SECOND && c.items == [Item(95, b)] && Early(c, b) == 5 * SECOND
            && After(0, ops + [Expire(100 * SECOND)]).handed == [a, b] && Deadline(c, b) == 105 * SECOND
  {
    PairBooked(a, b, 5, 100);
    var two := [Add(a, 5, 0)] + [Add(b, 105, 0)];
    AfterNext(0, two, Expire(5 * SECOND));
    FirstExpires(a, b);
    var c := After(0, two + [Expire(5 * SECOND)]);
    AfterNext(0, two + [Expire(5 * SECOND)], Expire(100 * SECOND));
    SecondExpires(c, b);
    assert [a] + [b] == [a, b];
  }
}
