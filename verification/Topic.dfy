/**
 Topic names and topic filters: their levels, their validation, and the relation
 between a filter and a topic that the broker implements.
 */
module Topic {
  import opened Basics

  const SLASH: Byte := 0x2F
  const HASH: Byte := 0x23
  const PLUS: Byte := 0x2B
  const DOLLAR: Byte := 0x24

  type Level = Bytes
  type Path = seq<Level>

  const MULTI: Level := [HASH]
  const SINGLE: Level := [PLUS]

  predicate Wildcard(l: Level) {
    l == MULTI || l == SINGLE
  }

  // ---------------------------------------------------------------- levels of a string

  /** `str::split('/')`. */
  function Split(s: Bytes): (r: Path)
    ensures r != []
  {
    if s == [] then [[]]
    else
      var rest := Split(s[1..]);
      if s[0] == SLASH then [[]] + rest else [[s[0]] + rest[0]] + rest[1..]
  }

  /** The string that has the given levels. */
  function Join(p: Path): Bytes {
    if p == [] then [] else if |p| == 1 then p[0] else p[0] + [SLASH] + Join(p[1..])
  }

  predicate SlashFree(p: Path) {
    forall i :: 0 <= i < |p| ==> SLASH !in p[i]
  }

  /** A level more than there are slashes, and no slash in any. */
  lemma SplitCounts(s: Bytes)
    ensures |Split(s)| == multiset(s)[0x2F] + 1
    ensures forall i :: 0 <= i < |Split(s)| ==> 0x2F !in Split(s)[i]
  {
    JoinSplit(s);
    SlashCount(s);
  }

  lemma {:induction false} SlashCount(s: Bytes)
    ensures |Split(s)| == multiset(s)[0x2F] + 1
  {
    if s != [] {
      SlashCount(s[1..]);
      assert multiset(s) == multiset([s[0]]) + multiset(s[1..]) by {
        assert s == [s[0]] + s[1..];
      }
    }
  }

  /** A character in front of a path's first level. */
  lemma FrontSlashFree(x: Byte, rest: Path)
    requires rest != [] && SlashFree(rest) && x != SLASH
    ensures SlashFree([[x] + rest[0]] + rest[1..])
  {
    var p := [[x] + rest[0]] + rest[1..];
    forall i | 0 <= i < |p| ensures SLASH !in p[i] {
      if i > 0 {
        assert p[i] == rest[i];
      } else {
        assert SLASH !in rest[0];
      }
    }
  }

  lemma JoinFront(x: Byte, first: Level, more: Path)
    ensures Join([[x] + first] + more) == [x] + Join([first] + more)
  {
    var p, q := [[x] + first] + more, [first] + more;
    assert p[1..] == more && q[1..] == more;
    if more != [] {
      assert [x] + first + [SLASH] + Join(more) == [x] + (first + [SLASH] + Join(more));
    }
  }

  /** A level in front of a path. */
  lemma JoinLevel(rest: Path)
    requires rest != [] && SlashFree(rest)
    ensures Join([[]] + rest) == [SLASH] + Join(rest) && SlashFree([[]] + rest)
  {
    assert ([[]] + rest)[1..] == rest;
  }

  /** Splitting loses nothing, so distinct strings have distinct paths. */
  lemma {:induction false} JoinSplit(s: Bytes)
    ensures Join(Split(s)) == s && SlashFree(Split(s))
  {
    if s != [] {
      JoinSplit(s[1..]);
      var rest := Split(s[1..]);
      assert s == [s[0]] + s[1..];
      if s[0] == SLASH {
        JoinLevel(rest);
      } else {
        assert [rest[0]] + rest[1..] == rest;
        JoinFront(s[0], rest[0], rest[1..]);
        FrontSlashFree(s[0], rest);
      }
    }
  }

  lemma SplitInjective(a: Bytes, b: Bytes)
    requires Split(a) == Split(b)
    ensures a == b
  {
    JoinSplit(a);
    JoinSplit(b);
  }

  // ------------------------------------------------------------------------ validation

  /** `TopicName::validate`. */
  predicate ValidName(s: Bytes) {
    s != [] && HASH !in s && PLUS !in s && 0 !in s
  }

  /** `TopicFilter::validate`: the three checks in order. */
  predicate ValidFilter(s: Bytes) {
    && s != [] && 0 !in s
    && (forall l :: l in Split(s) && |l| > 1 ==> HASH !in l && PLUS !in l)
    && HashOnlyLast(Split(s))
  }

  /** Nothing follows the first `#` level. */
  predicate HashOnlyLast(p: Path) {
    if p == [] then true
    else if p[0] == MULTI then |p| == 1
    else HashOnlyLast(p[1..])
  }

  lemma {:induction false} SplitBytes(s: Bytes, l: Level, b: Byte)
    requires l in Split(s) && b in l
    ensures b in s
  {
    if s != [] {
      var rest := Split(s[1..]);
      if l in rest {
        SplitBytes(s[1..], l, b);
      } else if s[0] != SLASH {
        assert l == [s[0]] + rest[0];
        if b != s[0] {
          SplitBytes(s[1..], rest[0], b);
        }
      }
    }
  }

  /** A valid topic name has no wildcard level. */
  lemma ValidNameLevels(s: Bytes)
    requires ValidName(s)
    ensures forall i :: 0 <= i < |Split(s)| ==> !Wildcard(Split(s)[i])
  {
    forall i | 0 <= i < |Split(s)| ensures !Wildcard(Split(s)[i]) {
      var l := Split(s)[i];
      if Wildcard(l) {
        SplitBytes(s, l, l[0]);
      }
    }
  }

  // -------------------------------------------------------------------------- matching

  /**
   The relation that walking the trie decides. The topic may itself hold wildcards, as it
   does when a filter is looked up among retained topics.
   */
  predicate Walks(f: Path, t: Path) {
    if f == [] then t == []
    else if t == [] then false
    else if f[0] == MULTI || t[0] == MULTI then |f| == 1
    else (f[0] == SINGLE || t[0] == SINGLE || f[0] == t[0]) && Walks(f[1..], t[1..])
  }

  /** `dollar` drops every filter that starts with a wildcard. */
  predicate Selected(f: Path, t: Path, dollar: bool) {
    Walks(f, t) && !(dollar && f != [] && Wildcard(f[0]))
  }

  predicate WildcardFree(t: Path) {
    forall i :: 0 <= i < |t| ==> !Wildcard(t[i])
  }

  /** Level by level agreement on the first `n` levels. */
  predicate Agrees(f: Path, t: Path, n: nat)
    requires n <= |f| && n <= |t|
  {
    forall i :: 0 <= i < n ==> f[i] == SINGLE || f[i] == t[i]
  }

  predicate EndsMulti(f: Path) {
    f != [] && f[|f| - 1] == MULTI
  }

  /**
   Section 4.7.1 of MQTT 5.0: `+` stands for one level, a trailing `#` for the parent
   level and any number of levels below it.
   */
  predicate StandardMatch(f: Path, t: Path) {
    if EndsMulti(f) then |t| >= |f| - 1 && Agrees(f, t, |f| - 1)
    else |t| == |f| && Agrees(f, t, |f|)
  }

  /** The walk in closed form: a trailing `#` stands for one or more levels. */
  lemma {:induction false} WalksClosedForm(f: Path, t: Path)
    requires f != [] && HashOnlyLast(f) && WildcardFree(t)
    ensures Walks(f, t) <==>
            if EndsMulti(f) then |t| >= |f| && Agrees(f, t, |f| - 1)
            else |t| == |f| && Agrees(f, t, |f|)
    decreases |f|
  {
    if t != [] && f[0] != MULTI && |f| > 1 {
      assert f[1..][|f| - 2] == f[|f| - 1];
      WalksClosedForm(f[1..], t[1..]);
      var n := if EndsMulti(f) then |f| - 1 else |f|;
      if n <= |t| {
        AgreesStep(f, t, n);
      }
    }
  }

  lemma AgreesStep(f: Path, t: Path, n: nat)
    requires 0 < n <= |f| && n <= |t|
    ensures Agrees(f, t, n) <==> (f[0] == SINGLE || f[0] == t[0]) && Agrees(f[1..], t[1..], n - 1)
  {
    if (f[0] == SINGLE || f[0] == t[0]) && Agrees(f[1..], t[1..], n - 1) {
      forall i | 0 <= i < n ensures f[i] == SINGLE || f[i] == t[i] {
        if i > 0 {
          assert f[1..][i - 1] == f[i] && t[1..][i - 1] == t[i];
        }
      }
    }
  }

  /** Section 4.7.2: no leading wildcard for topics that begin with `$`. */
  predicate StandardSelects(f: Path, t: Path) {
    && StandardMatch(f, t)
    && !(t != [] && t[0] != [] && t[0][0] == DOLLAR && f != [] && Wildcard(f[0]))
  }

  /**
   Where the broker and the standard part, exactly: the broker's `#` leaves out the parent
   level, and `match_topic_name`, which always passes `dollar`, ignores filters that start
   with a wildcard for every topic and not only for those that begin with `$`.
   */
  lemma BrokerAgainstStandard(f: Path, t: Path)
    requires f != [] && t != [] && HashOnlyLast(f) && WildcardFree(t)
    ensures Selected(f, t, true) <==>
            StandardSelects(f, t) && !(EndsMulti(f) && |t| == |f| - 1) && !Wildcard(f[0])
    ensures var beginsWithDollar := t[0] != [] && t[0][0] == DOLLAR;
            Selected(f, t, beginsWithDollar) <==>
            StandardSelects(f, t) && !(EndsMulti(f) && |t| == |f| - 1)
  {
    WalksClosedForm(f, t);
  }

  /** The filter `a/#` is to select the topic `a`, and `+` is, but not `$`; the broker has neither select `a`. */
  lemma MatchExamples()
    ensures StandardSelects([[0x61], [0x23]], [[0x61]]) && !Selected([[0x61], [0x23]], [[0x61]], true)
    ensures StandardSelects([[0x2B]], [[0x61]]) && !Selected([[0x2B]], [[0x61]], true)
    ensures StandardMatch([[0x2B]], [[0x24]]) && !StandardSelects([[0x2B]], [[0x24]])
  {
    var a: Level, d: Level := [0x61], [0x24];
    var f: Path, t: Path, u: Path := [a, MULTI], [a], [d];
    assert a != MULTI && a != SINGLE && a[0] != DOLLAR && d != MULTI && d != SINGLE && f[1..] == [MULTI];
    assert HashOnlyLast(f[1..]) && HashOnlyLast(f) && WildcardFree(t) && EndsMulti(f) && Agrees(f, t, 1);
    BrokerAgainstStandard(f, t);
    assert SINGLE != MULTI && [SINGLE][1..] == [] && Agrees([SINGLE], t, 1) && !EndsMulti([SINGLE]);
    BrokerAgainstStandard([SINGLE], t);
    assert Agrees([SINGLE], u, 1);
  }

  /** For the strings that reach the trie: validated filter, validated topic name. */
  lemma ValidatedMatch(filter: Bytes, topic: Bytes)
    requires ValidFilter(filter) && ValidName(topic)
    ensures var f, t := Split(filter), Split(topic);
            Selected(f, t, true) <==>
            StandardSelects(f, t) && !(EndsMulti(f) && |t| == |f| - 1) && !Wildcard(f[0])
  {
    ValidNameLevels(topic);
    BrokerAgainstStandard(Split(filter), Split(topic));
  }
}
