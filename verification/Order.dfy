/**
 The order of Rust's `str`: octets compared lexicographically. It is the sort key of
 trie nodes, of client identifiers and of topic filters.
 */
module Order {
  import opened Basics

  /** Strictly smaller, lexicographically. */
  predicate Less(a: Bytes, b: Bytes) {
    b != [] && (a == [] || a[0] < b[0] || (a[0] == b[0] && Less(a[1..], b[1..])))
  }

  /** At the first octet in which they differ, or where the other goes on. */
  lemma {:induction false} LessIff(a: Bytes, b: Bytes)
    ensures Less(a, b) <==> exists k :: 0 <= k <= |a| && k < |b| && a[..k] == b[..k] && (k == |a| || a[k] < b[k])
  {
    if Less(a, b) {
      var k := LessAt(a, b);
    }
    if k :| 0 <= k <= |a| && k < |b| && a[..k] == b[..k] && (k == |a| || a[k] < b[k]) {
      LessFrom(a, b, k);
    }
  }

  lemma {:induction false} LessAt(a: Bytes, b: Bytes) returns (k: nat)
    requires Less(a, b)
    ensures k <= |a| && k < |b| && a[..k] == b[..k] && (k == |a| || a[k] < b[k])
  {
    if a == [] || a[0] < b[0] {
      k := 0;
    } else {
      var j := LessAt(a[1..], b[1..]);
      k := j + 1;
      assert a[..k] == [a[0]] + a[1..][..j] && b[..k] == [b[0]] + b[1..][..j];
    }
  }

  lemma {:induction false} LessFrom(a: Bytes, b: Bytes, k: nat)
    requires k <= |a| && k < |b| && a[..k] == b[..k] && (k == |a| || a[k] < b[k])
    ensures Less(a, b)
    decreases k
  {
    if k > 0 {
      assert a[..k][0] == b[..k][0];
      assert a[1..][..k - 1] == a[..k][1..] && b[1..][..k - 1] == b[..k][1..];
      LessFrom(a[1..], b[1..], k - 1);
    }
  }

  lemma {:induction false} Irreflexive(a: Bytes)
    ensures !Less(a, a)
  {
    if a != [] {
      Irreflexive(a[1..]);
    }
  }

  lemma {:induction false} Transitive(a: Bytes, b: Bytes, c: Bytes)
    requires Less(a, b) && Less(b, c)
    ensures Less(a, c)
  {
    if a != [] && a[0] == b[0] == c[0] {
      Transitive(a[1..], b[1..], c[1..]);
    }
  }

  lemma {:induction false} Total(a: Bytes, b: Bytes)
    ensures Less(a, b) || a == b || Less(b, a)
  {
    if a != [] && b != [] && a[0] == b[0] {
      Total(a[1..], b[1..]);
      assert a == [a[0]] + a[1..] && b == [b[0]] + b[1..];
    }
  }

  lemma Asymmetric(a: Bytes, b: Bytes)
    requires Less(a, b)
    ensures !Less(b, a) && a != b
  {
    if Less(b, a) {
      Transitive(a, b, a);
    }
    Irreflexive(a);
  }

  // ------------------------------------------------------------ lists of strings

  /** The same order, one string at a time: paths level by level, keys field by field. */
  predicate PathLess(p: seq<Bytes>, q: seq<Bytes>) {
    q != [] && (p == [] || Less(p[0], q[0]) || (p[0] == q[0] && PathLess(p[1..], q[1..])))
  }

  lemma {:induction false} PathIrreflexive(p: seq<Bytes>)
    ensures !PathLess(p, p)
  {
    if p != [] {
      Irreflexive(p[0]);
      PathIrreflexive(p[1..]);
    }
  }

  lemma {:induction false} PathTransitive(p: seq<Bytes>, q: seq<Bytes>, r: seq<Bytes>)
    requires PathLess(p, q) && PathLess(q, r)
    ensures PathLess(p, r)
  {
    if p != [] {
      if Less(p[0], q[0]) && Less(q[0], r[0]) {
        Transitive(p[0], q[0], r[0]);
      } else if p[0] == q[0] == r[0] {
        Irreflexive(p[0]);
        PathTransitive(p[1..], q[1..], r[1..]);
      }
    }
  }

  lemma {:induction false} PathTotal(p: seq<Bytes>, q: seq<Bytes>)
    ensures PathLess(p, q) || p == q || PathLess(q, p)
  {
    if p != [] && q != [] {
      Total(p[0], q[0]);
      PathTotal(p[1..], q[1..]);
      assert p == [p[0]] + p[1..] && q == [q[0]] + q[1..];
    }
  }

  lemma PathAsymmetric(p: seq<Bytes>, q: seq<Bytes>)
    requires PathLess(p, q)
    ensures !PathLess(q, p) && p != q
  {
    if PathLess(q, p) {
      PathTransitive(p, q, p);
    }
    PathIrreflexive(p);
  }
}
