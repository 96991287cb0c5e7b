/** That the decoder reads the grammar: it accepts exactly the strings of it, as what they spell. */
module Parsing {
  import opened Basics
  import opened Varint
  import opened Topic
  import opened Fields
  import opened Codecs
  import opened Properties
  import opened PropertySets
  import opened Wires
  import opened PropertyBlocks
  import opened Frames
  import opened Packets
  import opened WireFormat
  import opened Grammar

  // ------------------------------------------------------------------------------ numbers

  /** Of the first `n` bytes all but the last have their top bit set. */
  predicate Ends(s: Bytes, n: nat) {
    0 < n <= |s| && s[n - 1] < 128 && forall i :: 0 <= i < n - 1 ==> s[i] >= 128
  }

  lemma EndsNext(s: Bytes, n: nat)
    requires s != [] && n > 1
    ensures Ends(s, n) <==> s[0] >= 128 && Ends(s[1..], n - 1)
  {
    var rest := s[1..];
    if n <= |s| {
      assert forall i :: 0 <= i < n - 1 ==> rest[i] == s[i + 1];
      if s[0] >= 128 && Ends(rest, n - 1) {
        forall i | 0 <= i < n - 1 ensures s[i] >= 128 {
          if i > 0 {
            assert s[i] == rest[i - 1];
          }
        }
      }
    }
  }

  lemma WeightNext(s: Bytes, n: nat)
    requires 0 < n <= |s|
    ensures Weight(s[..n]) == s[0] % 128 + 128 * Weight(s[1..][..n - 1])
  {
    assert s[..n][1..] == s[1..][..n - 1];
  }

  /** With at most `k` digits. */
  lemma {:induction false} VarFromIff(s: Bytes, k: nat, v: nat, n: Size)
    ensures VarFrom(s, k) == Ok((v, n)) <==> n <= k && Ends(s, n) && v == Weight(s[..n])
    decreases k
  {
    if k > 0 && s != [] {
      if n <= |s| {
        WeightNext(s, n);
      }
      if n > 1 {
        EndsNext(s, n);
        if s[0] >= 128 {
          var w := v - s[0] % 128;
          VarFromIff(s[1..], k - 1, if w >= 0 then w / 128 else 0, n - 1);
        }
      } else {
        assert s[1..][..0] == [];
      }
    }
  }

  lemma NumberIff(s: Bytes, v: nat, n: Size)
    ensures DecodeVar(s) == Ok((v, n)) <==> n <= |s| && IsNumber(s[..n], v)
  {
    VarFromIff(s, 4, v, n);
  }

  lemma TwoDigits(b: Bytes)
    requires |b| == 2
    ensures BigEndian(b) == BigEndian16(b[0], b[1])
  {
    assert b[..1][..0] == [] && BigEndian(b[..1]) == b[0];
  }

  lemma FourDigits(b: Bytes)
    requires |b| == 4
    ensures BigEndian(b) == 0x1_0000 * BigEndian(b[..2]) + BigEndian(b[2..])
  {
    assert b[..3][..2] == b[..2] && b[2..][..1] == [b[2]] && [b[2]][..0] == [];
    assert BigEndian([b[2]]) == b[2] && BigEndian(b[2..]) == 256 * BigEndian([b[2]]) + b[3];
    assert BigEndian(b[..3]) == 256 * BigEndian(b[..2]) + b[2];
  }

  lemma WordIff(s: Bytes, x: U16, n: Size)
    ensures DecodeU16(s) == Ok((x, n)) <==> n <= |s| && IsWord(s[..n], x)
  {
    if |s| >= 2 {
      TwoDigits(s[..2]);
    }
  }

  lemma LongIff(s: Bytes, x: U32, n: Size)
    ensures DecodeU32(s) == Ok((x, n)) <==> n <= |s| && IsLong(s[..n], x)
  {
    if |s| >= 4 {
      var b := s[..4];
      FourDigits(b);
      TwoDigits(b[..2]);
      TwoDigits(b[2..]);
    }
  }

  lemma ByteIff(s: Bytes, x: Byte, n: Size)
    ensures DecodeU8(s) == Ok((x, n)) <==> n <= |s| && IsByte(s[..n], x)
  {
  }

  // ------------------------------------------------------------------------------ strings

  lemma BinaryIff(s: Bytes, t: Bytes, n: Size)
    ensures DecodePrefixed(s) == Ok((t, n)) <==> n <= |s| && IsBinary(s[..n], t)
  {
    if 2 <= n <= |s| {
      assert s[..n][..2] == s[..2] && s[..n][2..] == s[2..n];
      TwoDigits(s[..2]);
    }
  }

  /** A code point of two to four bytes, from its digits in base 64. */
  lemma TwoByte(a: nat, b: nat)
    requires a < 0x20 && b < 0x40 && CodePoint(0x40 * a + b) && 0x80 <= 0x40 * a + b
    ensures Utf8(0x40 * a + b) == [0xC0 + a, 0x80 + b]
  {
  }

  lemma ThreeByte(a: nat, b: nat, c: nat)
    requires a < 0x10 && b < 0x40 && c < 0x40
    requires 0x800 <= 0x1000 * a + 0x40 * b + c && CodePoint(0x1000 * a + 0x40 * b + c)
    ensures Utf8(0x1000 * a + 0x40 * b + c) == [0xE0 + a, 0x80 + b, 0x80 + c]
  {
    var x := 0x1000 * a + 0x40 * b + c;
    assert x / 0x40 == 0x40 * a + b && x % 0x40 == c && x / 0x1000 == a;
  }

  lemma FourByte(a: nat, b: nat, c: nat, d: nat)
    requires a <= 4 && b < 0x40 && c < 0x40 && d < 0x40
    requires 0x1_0000 <= 0x4_0000 * a + 0x1000 * b + 0x40 * c + d <= 0x10_FFFF
    ensures Utf8(0x4_0000 * a + 0x1000 * b + 0x40 * c + d) == [0xF0 + a, 0x80 + b, 0x80 + c, 0x80 + d]
  {
    var x := 0x4_0000 * a + 0x1000 * b + 0x40 * c + d;
    assert x / 0x40 == 0x1000 * a + 0x40 * b + c && x % 0x40 == d;
    assert x / 0x1000 == 0x40 * a + b && x / 0x4_0000 == a;
    assert x / 0x40 % 0x40 == c && x / 0x1000 % 0x40 == b;
  }

  /** How many bytes the first code point has. */
  function PointSize(b: Byte): nat {
    if b < 0x80 then 1 else if b < 0xE0 then 2 else if b < 0xF0 then 3 else 4
  }

  lemma FirstPoint(t: Bytes) returns (c: nat)
    requires t != [] && ValidText(t)
    ensures CodePoint(c) && PointSize(t[0]) <= |t| && Utf8(c) == t[..PointSize(t[0])]
    ensures ValidText(t[PointSize(t[0])..])
  {
    var n := PointSize(t[0]);
    if n == 1 {
      c := t[0];
    } else if n == 2 {
      c := Point2(t[0], t[1]);
    } else if n == 3 {
      c := Point3(t[0], t[1], t[2]);
    } else {
      c := Point4(t[0], t[1], t[2], t[3]);
    }
  }

  lemma Point2(t0: Byte, t1: Byte) returns (c: nat)
    requires 0xC2 <= t0 <= 0xDF && Continuation(t1) && (t0 == 0xC2 ==> t1 >= 0xA0)
    ensures CodePoint(c) && Utf8(c) == [t0, t1]
  {
    var x: nat, y: nat := t0 - 0xC0, t1 - 0x80;
    c := 0x40 * x + y;
    TwoByte(x, y);
  }

  lemma Point3(t0: Byte, t1: Byte, t2: Byte) returns (c: nat)
    requires 0xE0 <= t0 <= 0xEF && Continuation(t1) && Continuation(t2)
    requires (t0 == 0xE0 ==> t1 >= 0xA0) && (t0 == 0xED ==> t1 < 0xA0)
    ensures CodePoint(c) && Utf8(c) == [t0, t1, t2]
  {
    var x: nat, y: nat, z: nat := t0 - 0xE0, t1 - 0x80, t2 - 0x80;
    c := 0x1000 * x + 0x40 * y + z;
    ThreeByte(x, y, z);
  }

  lemma Point4(t0: Byte, t1: Byte, t2: Byte, t3: Byte) returns (c: nat)
    requires 0xF0 <= t0 <= 0xF4 && Continuation(t1) && Continuation(t2) && Continuation(t3)
    requires (t0 == 0xF0 ==> t1 >= 0x90) && (t0 == 0xF4 ==> t1 < 0x90)
    ensures CodePoint(c) && Utf8(c) == [t0, t1, t2, t3]
  {
    var w: nat, x: nat, y: nat, z: nat := t0 - 0xF0, t1 - 0x80, t2 - 0x80, t3 - 0x80;
    c := 0x4_0000 * w + 0x1000 * x + 0x40 * y + z;
    FourByte(w, x, y, z);
  }

  lemma SpelledNext(c: nat, rest: seq<nat>)
    requires CodePoint(c) && forall i :: 0 <= i < |rest| ==> CodePoint(rest[i])
    ensures (forall i :: 0 <= i < |[c] + rest| ==> CodePoint(([c] + rest)[i]))
    ensures Spelled([c] + rest) == Utf8(c) + Spelled(rest)
  {
    assert ([c] + rest)[1..] == rest;
  }

  lemma Whole(t: Bytes, n: nat, a: Bytes, b: Bytes)
    requires n <= |t| && a == t[..n] && b == t[n..]
    ensures a + b == t
  {
  }

  lemma {:induction false} CodePoints(t: Bytes) returns (cs: seq<nat>)
    requires ValidText(t)
    ensures (forall i :: 0 <= i < |cs| ==> CodePoint(cs[i])) && Spelled(cs) == t
    decreases |t|
  {
    if t == [] {
      cs := [];
    } else {
      var c := FirstPoint(t);
      var n := PointSize(t[0]);
      var rest := CodePoints(t[n..]);
      cs := [c] + rest;
      SpelledNext(c, rest);
      Whole(t, n, Utf8(c), Spelled(rest));
    }
  }

  /** The bytes of a code point, and what is behind them. */
  lemma PointBytes(c: nat)
    requires CodePoint(c)
    ensures var b := Utf8(c);
            if |b| == 1 then 0x20 <= b[0] <= 0x7E
            else if |b| == 2 then 0xC2 <= b[0] <= 0xDF && Continuation(b[1]) && (b[0] == 0xC2 ==> b[1] >= 0xA0)
            else if |b| == 3 then Three(b) else |b| == 4 && Four(b)
  {
    if 0x800 <= c < 0x1_0000 {
      PointThree(c);
    } else if c >= 0x1_0000 {
      PointFour(c);
    }
  }

  predicate Three(b: Bytes) {
    && |b| == 3 && 0xE0 <= b[0] <= 0xEF && Continuation(b[1]) && Continuation(b[2])
    && (b[0] == 0xE0 ==> b[1] >= 0xA0) && (b[0] == 0xED ==> b[1] < 0xA0)
  }

  predicate Four(b: Bytes) {
    && |b| == 4 && 0xF0 <= b[0] <= 0xF4 && Continuation(b[1]) && Continuation(b[2]) && Continuation(b[3])
    && (b[0] == 0xF0 ==> b[1] >= 0x90) && (b[0] == 0xF4 ==> b[1] < 0x90)
  }

  lemma PointThree(c: nat)
    requires CodePoint(c) && 0x800 <= c < 0x1_0000
    ensures Three(Utf8(c))
  {
    var x, y := c / 0x1000, c / 0x40 % 0x40;
    assert c / 0x40 == 0x40 * x + y;
    assert 0x1000 * x + 0x40 * y <= c < 0x1000 * x + 0x40 * y + 0x40;
  }

  lemma PointFour(c: nat)
    requires 0x1_0000 <= c <= 0x10_FFFF
    ensures Four(Utf8(c))
  {
    var w, x := c / 0x4_0000, c / 0x1000 % 0x40;
    assert c / 0x1000 == 0x40 * w + x;
    assert 0x4_0000 * w + 0x1000 * x <= c < 0x4_0000 * w + 0x1000 * x + 0x1000;
  }

  /** A code point in front of a text. */
  lemma PointValid(c: nat, rest: Bytes)
    requires CodePoint(c) && ValidText(rest)
    ensures ValidText(Utf8(c) + rest)
  {
    PointBytes(c);
    var b := Utf8(c);
    var t := b + rest;
    assert t[|b|..] == rest;
    assert forall i :: 0 <= i < |b| ==> t[i] == b[i];
  }

  lemma {:induction false} SpelledValid(cs: seq<nat>)
    requires forall i :: 0 <= i < |cs| ==> CodePoint(cs[i])
    ensures ValidText(Spelled(cs))
  {
    if cs != [] {
      SpelledValid(cs[1..]);
      PointValid(cs[0], Spelled(cs[1..]));
    }
  }

  /** The text that the decoder lets through is exactly that of the accepted code points in UTF-8. */
  lemma TextIff(t: Bytes)
    ensures ValidText(t) <==> IsText(t)
  {
    if ValidText(t) {
      var cs := CodePoints(t);
    }
    if IsText(t) {
      var cs: seq<nat> :| (forall i :: 0 <= i < |cs| ==> CodePoint(cs[i])) && Spelled(cs) == t;
      SpelledValid(cs);
    }
  }

  lemma StringIff(s: Bytes, t: Bytes, n: Size)
    ensures DecodeText(s) == Ok((t, n)) <==> n <= |s| && IsString(s[..n], t)
  {
    BinaryIff(s, t, n);
    TextIff(t);
  }

  /** Two parts of the front of `s`. */
  lemma Cut(s: Bytes, k: nat, n: nat)
    requires k <= n <= |s|
    ensures s[..n][..k] == s[..k] && s[..n][k..] == s[k..][..n - k]
  {
  }

  lemma CutTwice(s: Bytes, j: nat, k: nat, n: nat)
    requires j <= k <= n <= |s|
    ensures s[..n][..j] == s[..j] && s[..n][j..k] == s[j..][..k - j] && s[..n][k..] == s[k..][..n - k]
  {
  }

  lemma PairIff(s: Bytes, p: Pair, n: Size)
    ensures DecodePair(s) == Ok((p, n)) <==> n <= |s| && IsPair(s[..n], p)
  {
    if DecodePair(s) == Ok((p, n)) {
      PairSpelled(s, p, n);
    }
    if n <= |s| && IsPair(s[..n], p) {
      PairRead(s, p, n);
    }
  }

  lemma PairSpelled(s: Bytes, p: Pair, n: Size)
    requires DecodePair(s) == Ok((p, n))
    ensures n <= |s| && IsPair(s[..n], p)
  {
    var m := DecodeText(s).value.1;
    StringIff(s, p.0, m);
    StringIff(s[m..], p.1, n - m);
    Cut(s, m, n);
    assert PairAt(s[..n], p, m);
  }

  lemma PairRead(s: Bytes, p: Pair, n: Size)
    requires n <= |s| && IsPair(s[..n], p)
    ensures DecodePair(s) == Ok((p, n))
  {
    var k: nat :| PairAt(s[..n], p, k);
    StringInFront(s, p.0, k, n);
    StringBehind(s, p.1, k, n);
    PairOf(s, p, k, n);
  }

  lemma StringInFront(s: Bytes, t: Bytes, k: Size, n: nat)
    requires k <= n <= |s| && IsString(s[..n][..k], t)
    ensures DecodeText(s) == Ok((t, k))
  {
    Cut(s, k, n);
    StringIff(s, t, k);
  }

  lemma StringBehind(s: Bytes, t: Bytes, k: nat, n: nat)
    requires k < n <= |s| && IsString(s[..n][k..], t)
    ensures DecodeText(s[k..]) == Ok((t, n - k))
  {
    Cut(s, k, n);
    StringIff(s[k..], t, n - k);
  }

  lemma PairOf(s: Bytes, p: Pair, m: Size, n: Size)
    requires m < n && m <= |s| && DecodeText(s) == Ok((p.0, m)) && DecodeText(s[m..]) == Ok((p.1, n - m))
    ensures DecodePair(s) == Ok((p, n))
  {
  }

  // ------------------------------------------------------------------------------- topics

  /** Joining and splitting again. */
  lemma {:induction false} SplitJoin(p: Path)
    requires p != [] && SlashFree(p)
    ensures Split(Join(p)) == p
    decreases |p|, |p[0]|
  {
    var s := Join(p);
    if p[0] == [] {
      if |p| == 1 {
        assert p == [[]];
      } else {
        assert s == [SLASH] + Join(p[1..]) && s[1..] == Join(p[1..]);
        SplitJoin(p[1..]);
        assert [[]] + p[1..] == p;
      }
    } else {
      var q := [p[0][1..]] + p[1..];
      var x := p[0][0];
      assert p[0] == [x] + p[0][1..];
      assert p == [[x] + p[0][1..]] + p[1..];
      JoinFront(x, p[0][1..], p[1..]);
      assert s == [x] + Join(q) && s[1..] == Join(q);
      assert SLASH !in p[0];
      assert SlashFree(q) by {
        forall i | 0 <= i < |q| ensures SLASH !in q[i] {
          if i > 0 {
            assert q[i] == p[i];
          }
        }
      }
      SplitJoin(q);
      assert q[1..] == p[1..];
    }
  }

  lemma NameIff(t: Bytes)
    ensures ValidName(t) <==> IsName(t)
  {
    if !IsName(t) && t != [] {
      var i :| 0 <= i < |t| && (t[i] == 0 || t[i] == 0x23 || t[i] == 0x2B);
      assert t[i] in t;
    }
  }

  lemma {:induction false} HashLastIff(p: Path)
    ensures HashOnlyLast(p) <==> forall i :: 0 <= i < |p| - 1 ==> p[i] != MULTI
  {
    if p != [] {
      HashLastIff(p[1..]);
      assert forall i :: 0 <= i < |p| - 1 ==> p[1..][i] == p[i + 1];
      if p[0] != MULTI && HashOnlyLast(p) {
        forall i | 0 <= i < |p| - 1 ensures p[i] != MULTI {
          if i > 0 {
            assert p[1..][i - 1] == p[i];
          }
        }
      }
    }
  }

  lemma WildcardsIff(p: Path)
    ensures WildcardsAlone(p) <==>
            (forall l :: l in p && |l| > 1 ==> HASH !in l && PLUS !in l) && HashOnlyLast(p)
  {
    HashLastIff(p);
    if WildcardsAlone(p) {
      forall l | l in p && |l| > 1 ensures HASH !in l && PLUS !in l {
        var i :| 0 <= i < |p| && p[i] == l;
      }
      forall i | 0 <= i < |p| - 1 ensures p[i] != MULTI {
        assert p[i] != [] ==> p[i][0] != 0x23;
      }
    }
    if (forall l :: l in p && |l| > 1 ==> HASH !in l && PLUS !in l) && HashOnlyLast(p) {
      forall i, j | 0 <= i < |p| && 0 <= j < |p[i]|
        ensures p[i][j] == 0x23 ==> |p[i]| == 1 && i == |p| - 1
        ensures p[i][j] == 0x2B ==> |p[i]| == 1
      {
        assert p[i] in p && p[i][j] in p[i];
        if p[i][j] == 0x23 {
          assert p[i] == MULTI;
        }
      }
    }
  }

  /** A filter is valid exactly if it is one in its levels. */
  lemma FilterIff(t: Bytes)
    ensures ValidFilter(t) <==> IsFilter(t)
  {
    JoinSplit(t);
    WildcardsIff(Split(t));
    if IsFilter(t) {
      var p: Path :| p != [] && SlashFree(p) && Join(p) == t && WildcardsAlone(p);
      SplitJoin(p);
    }
  }

  lemma TopicIff(s: Bytes, t: Bytes, n: Size)
    ensures DecodeFilter(s) == Ok((t, n)) <==> n <= |s| && IsTopic(s[..n], t)
  {
    StringIff(s, t, n);
    FilterIff(t);
  }

  lemma ItemIff(s: Bytes, f: Filter, n: Size)
    ensures DecodeItem(s) == Ok((f, n)) <==> n <= |s| && IsItem(s[..n], f)
  {
    if DecodeItem(s) == Ok((f, n)) {
      TopicIff(s, f.topic, n - 1);
      Cut(s, n - 1, n);
    }
    if n <= |s| && IsItem(s[..n], f) {
      Cut(s, n - 1, n);
      assert n > 1;
      TopicIff(s, f.topic, n - 1);
    }
  }

  // --------------------------------------------------------------------------- properties

  /** What the codec has for a type, as the grammar has it. */
  ghost predicate Shaped(shape: Shape, b: Bytes, v: Value) {
    match shape
    case U8Shape => v.ByteValue? && IsByte(b, v.byte)
    case U16Shape => v.ShortValue? && IsWord(b, v.short)
    case U32Shape => v.LongValue? && IsLong(b, v.long)
    case VarShape => v.VarValue? && IsNumber(b, v.number)
    case TextShape => v.TextValue? && IsString(b, v.text)
    case NameShape => v.TextValue? && IsString(b, v.text) && IsName(v.text)
    case BinShape => v.TextValue? && IsBinary(b, v.text)
    case QoSShape => v.ByteValue? && v.byte <= 2 && IsByte(b, v.byte)
    case PairShape => v.PairValue? && IsPair(b, v.pair)
  }

  lemma ShapedIff(pt: Byte, shape: Shape, b: Bytes, v: Value)
    requires ShapeOf(pt) == Some(shape)
    ensures IsValue(pt, b, v) <==> Shaped(shape, b, v)
  {
    ShapeTypes(pt, shape);
  }

  lemma ShapeTypes(pt: Byte, shape: Shape)
    requires ShapeOf(pt) == Some(shape)
    ensures shape.U8Shape? <==> pt in {1, 23, 25, 37, 40, 41, 42}
    ensures shape.U16Shape? <==> pt in {19, 33, 34, 35}
    ensures shape.U32Shape? <==> pt in {2, 17, 24, 39}
    ensures shape.TextShape? <==> pt in {3, 18, 21, 26, 28, 31}
    ensures shape.BinShape? <==> pt in {9, 22}
    ensures shape.VarShape? <==> pt == 11
    ensures shape.NameShape? <==> pt == 8
    ensures shape.QoSShape? <==> pt == 36
    ensures shape.PairShape? <==> pt == 38
  {
  }

  lemma ShapeIff(shape: Shape, s: Bytes, v: Value, n: Size)
    requires !shape.TextShape? && !shape.NameShape? && !shape.BinShape? && !shape.PairShape?
    ensures DecodeValue(shape, s) == Ok((v, n)) <==> n <= |s| && Shaped(shape, s[..n], v)
  {
    match v {
      case ByteValue(x) => ByteIff(s, x, n);
      case ShortValue(x) => WordIff(s, x, n);
      case LongValue(x) => LongIff(s, x, n);
      case VarValue(x) => NumberIff(s, x, n);
      case _ =>
    }
  }

  lemma TextShapeIff(shape: Shape, s: Bytes, v: Value, n: Size)
    requires shape.TextShape? || shape.NameShape? || shape.BinShape? || shape.PairShape?
    ensures DecodeValue(shape, s) == Ok((v, n)) <==> n <= |s| && Shaped(shape, s[..n], v)
  {
    match v {
      case TextValue(t) =>
        BinaryIff(s, t, n);
        StringIff(s, t, n);
        NameIff(t);
      case PairValue(p) => PairIff(s, p, n);
      case _ =>
    }
  }

  lemma ValueIff(pt: Byte, shape: Shape, s: Bytes, v: Value, n: Size)
    requires ShapeOf(pt) == Some(shape)
    ensures DecodeValue(shape, s) == Ok((v, n)) <==> n <= |s| && IsValue(pt, s[..n], v)
  {
    if n <= |s| {
      ShapedIff(pt, shape, s[..n], v);
    }
    if shape.TextShape? || shape.NameShape? || shape.BinShape? || shape.PairShape? {
      TextShapeIff(shape, s, v, n);
    } else {
      ShapeIff(shape, s, v, n);
    }
  }

  lemma NoValue(pt: nat, b: Bytes, v: Value)
    requires pt < 256 && ShapeOf(pt).None?
    ensures !IsValue(pt, b, v)
  {
  }

  lemma PropertySpelled(s: Bytes, p: Property, n: Size)
    requires DecodeProperty(s) == Ok((p, n))
    ensures n <= |s| && IsProperty(s[..n], p)
  {
    var k := DecodeVar(s).value.1;
    NumberIff(s, p.pt, k);
    ValueIff(p.pt, ShapeOf(p.pt).value, s[k..], p.value, n - k);
    Cut(s, k, n);
    assert PropertyAt(s[..n], p, k);
  }

  lemma PropertyOf(s: Bytes, p: Property, m: Size, n: Size)
    requires m < n && m <= |s| && DecodeVar(s) == Ok((p.pt, m)) && ShapeOf(p.pt).Some?
    requires DecodeValue(ShapeOf(p.pt).value, s[m..]) == Ok((p.value, n - m))
    ensures DecodeProperty(s) == Ok((p, n))
  {
  }

  lemma PropertyRead(s: Bytes, p: Property, n: Size)
    requires n <= |s| && IsProperty(s[..n], p)
    ensures DecodeProperty(s) == Ok((p, n))
  {
    var k: nat :| PropertyAt(s[..n], p, k);
    PropertyReadAt(s, p, n, k);
  }

  lemma PropertyReadAt(s: Bytes, p: Property, n: Size, k: nat)
    requires n <= |s| && PropertyAt(s[..n], p, k)
    ensures DecodeProperty(s) == Ok((p, n))
  {
    PropertyFields(s, p, n, k);
    PropertyOf(s, p, k, n);
  }

  lemma PropertyFields(s: Bytes, p: Property, n: Size, k: nat)
    requires n <= |s| && PropertyAt(s[..n], p, k)
    ensures 0 < k < n && DecodeVar(s) == Ok((p.pt, k))
    ensures ShapeOf(p.pt).Some? && DecodeValue(ShapeOf(p.pt).value, s[k..]) == Ok((p.value, n - k))
  {
    TypeInFront(s, p.pt, k, n);
    ValueBehind(s, p, k, n);
  }

  lemma TypeInFront(s: Bytes, v: nat, k: Size, n: nat)
    requires k <= n <= |s| && IsNumber(s[..n][..k], v)
    ensures DecodeVar(s) == Ok((v, k))
  {
    Cut(s, k, n);
    NumberIff(s, v, k);
  }

  lemma ValueBehind(s: Bytes, p: Property, k: nat, n: nat)
    requires k < n <= |s| && IsValue(p.pt, s[..n][k..], p.value)
    ensures ShapeOf(p.pt).Some? && DecodeValue(ShapeOf(p.pt).value, s[k..]) == Ok((p.value, n - k))
  {
    Cut(s, k, n);
    ValueAhead(s[k..], p, n - k);
  }

  lemma ValueAhead(s: Bytes, p: Property, n: Size)
    requires n <= |s| && IsValue(p.pt, s[..n], p.value)
    ensures ShapeOf(p.pt).Some? && DecodeValue(ShapeOf(p.pt).value, s) == Ok((p.value, n))
  {
    if ShapeOf(p.pt).None? {
      NoValue(p.pt, s[..n], p.value);
    } else {
      ValueIff(p.pt, ShapeOf(p.pt).value, s, p.value, n);
    }
  }

  lemma PropertyIff(s: Bytes, p: Property, n: Size)
    ensures DecodeProperty(s) == Ok((p, n)) <==> n <= |s| && IsProperty(s[..n], p)
  {
    if DecodeProperty(s) == Ok((p, n)) {
      PropertySpelled(s, p, n);
    }
    if n <= |s| && IsProperty(s[..n], p) {
      PropertyRead(s, p, n);
    }
  }

  /** What is spelled is of its kind. */
  lemma PropertyKinded(b: Bytes, p: Property)
    requires IsProperty(b, p)
    ensures Kinded(p)
  {
    var k: nat :| PropertyAt(b, p, k);
    ValueKinded(p, b[k..]);
  }

  lemma ValueKinded(p: Property, b: Bytes)
    requires IsValue(p.pt, b, p.value)
    ensures Kinded(p)
  {
  }

  // -------------------------------------------------------------------------------- lists

  /** Of `s`, `n` bytes are taken in for `x` exactly if these are laid out as `x`. */
  ghost predicate ReadsAt<T>(c: Codec<T>, item: Layout<T>, s: Bytes, x: T, n: Size) {
    c.decode(s) == Ok((x, n)) <==> n <= |s| && item(s[..n], x)
  }

  ghost predicate Reads<T(!new)>(c: Codec<T>, item: Layout<T>) {
    forall s: Bytes, x: T, n: Size :: ReadsAt(c, item, s, x, n)
  }

  lemma ListMore<T>(item: Layout<T>, b: Bytes, k: nat, xs: seq<T>)
    requires xs != [] && 0 < k <= |b| && item(b[..k], xs[0]) && IsList(item, b[k..], xs[1..])
    ensures IsList(item, b, xs)
  {
    var sizes :| ListAt(item, b[k..], xs[1..], sizes);
    var more := [k] + sizes;
    assert more[1..] == sizes;
    assert ListAt(item, b, xs, more);
  }

  lemma ListFirst<T>(item: Layout<T>, b: Bytes, xs: seq<T>) returns (k: nat)
    requires xs != [] && IsList(item, b, xs)
    ensures 0 < k <= |b| && item(b[..k], xs[0]) && IsList(item, b[k..], xs[1..])
  {
    var sizes :| ListAt(item, b, xs, sizes);
    k := sizes[0];
    assert ListAt(item, b[k..], xs[1..], sizes[1..]);
  }

  lemma ListEmpty<T>(item: Layout<T>, b: Bytes)
    ensures IsList(item, b, []) <==> b == []
  {
    if b == [] {
      assert ListAt(item, b, [], []);
    }
  }

  lemma {:induction false} ListSpelled<T(!new)>(c: Codec<T>, item: Layout<T>, s: Bytes, limit: nat, xs: seq<T>)
    requires Reads(c, item) && DecodeList(c, s, limit) == (xs, Ok(limit))
    ensures limit <= |s| && IsList(item, s[..limit], xs)
    decreases limit
  {
    if limit == 0 {
      ListEmpty(item, s[..0]);
    } else {
      var (x, m) := c.decode(s).value;
      assert ReadsAt(c, item, s, x, m);
      ListSpelled(c, item, After(s, m), limit - m, xs[1..]);
      Cut(s, m, limit);
      ListMore(item, s[..limit], m, xs);
    }
  }

  lemma {:induction false} ListRead<T(!new)>(c: Codec<T>, item: Layout<T>, s: Bytes, limit: nat, xs: seq<T>)
    requires Reads(c, item) && limit <= |s| && IsList(item, s[..limit], xs)
    ensures DecodeList(c, s, limit) == (xs, Ok(limit))
    decreases |xs|
  {
    if xs == [] {
      ListEmpty(item, s[..limit]);
    } else {
      var k := ListFirst(item, s[..limit], xs);
      Cut(s, k, limit);
      assert ReadsAt(c, item, s, xs[0], k);
      ListRead(c, item, s[k..], limit - k, xs[1..]);
      ListNext(c, s, limit, k, xs);
    }
  }

  lemma ListNext<T>(c: Codec<T>, s: Bytes, limit: nat, k: Size, xs: seq<T>)
    requires xs != [] && k <= limit && k <= |s| && c.decode(s) == Ok((xs[0], k))
    requires DecodeList(c, s[k..], limit - k) == (xs[1..], Ok(limit - k))
    ensures DecodeList(c, s, limit) == (xs, Ok(limit))
  {
    HeadTail(xs);
  }

  /** A list of so many bytes is read exactly if they are laid out so. */
  lemma ListIff<T(!new)>(c: Codec<T>, item: Layout<T>, s: Bytes, limit: nat, xs: seq<T>)
    requires Reads(c, item)
    ensures DecodeList(c, s, limit) == (xs, Ok(limit)) <==> limit <= |s| && IsList(item, s[..limit], xs)
  {
    if DecodeList(c, s, limit) == (xs, Ok(limit)) {
      ListSpelled(c, item, s, limit, xs);
    }
    if limit <= |s| && IsList(item, s[..limit], xs) {
      ListRead(c, item, s, limit, xs);
    }
  }

  // --------------------------------------------------------------------- properties taken in

  ghost function TypesIn(ps: seq<Property>): set<Byte> {
    set i | 0 <= i < |ps| :: ps[i].pt
  }

  lemma HasOne(owner: Owner, ps: seq<Property>, pt: Byte, v: Option<Value>, w: Option<Value>)
    requires Listable(owner, ps) && pt != 38 && Has(ps, pt, v) && Has(ps, pt, w)
    ensures v == w
  {
    if v.Some? {
      var i :| 0 <= i < |ps| && ps[i] == Property(pt, v.value);
      if w.Some? {
        var j :| 0 <= j < |ps| && ps[j] == Property(pt, w.value);
        assert ps[i].pt == ps[j].pt;
      }
    }
  }

  function Numbered(v: Option<nat>): Option<Value> {
    if v.Some? then Some(VarValue(v.value)) else None
  }

  function Timed(v: Option<U32>): Option<Value> {
    if v.Some? then Some(LongValue(v.value)) else None
  }

  function Worded(v: Option<Bytes>): Option<Value> {
    if v.Some? then Some(TextValue(v.value)) else None
  }

  lemma DescribesOne(owner: Owner, ps: seq<Property>, a: Props, b: Props)
    requires Listable(owner, ps) && Describes(ps, a) && Describes(ps, b)
    ensures a == b
  {
    HasOne(owner, ps, 11, Numbered(a.subscriptionId), Numbered(b.subscriptionId));
    HasOne(owner, ps, 17, Timed(a.sessionExpiryInterval), Timed(b.sessionExpiryInterval));
    HasOne(owner, ps, 31, Worded(a.reasonString), Worded(b.reasonString));
    HasOne(owner, ps, 28, Worded(a.serverReference), Worded(b.serverReference));
  }

  lemma HasAppend(qs: seq<Property>, p: Property, pt: Byte, v: Option<Value>)
    requires Has(qs, pt, v)
    ensures p.pt != pt ==> Has(qs + [p], pt, v)
    ensures p.pt == pt ==> Has(qs + [p], pt, Some(p.value))
  {
    var ps := qs + [p];
    assert ps[|qs|] == p;
    if p.pt != pt && v.Some? {
      var i :| 0 <= i < |qs| && qs[i] == Property(pt, v.value);
      assert ps[i] == qs[i];
    }
  }

  lemma {:induction false} PairsAppend(qs: seq<Property>, p: Property)
    ensures Pairs(qs + [p]) == Pairs(qs) + Pairs([p])
  {
    assert [p][1..] == [];
    if qs == [] {
      assert qs + [p] == [p];
    } else {
      assert (qs + [p])[1..] == qs[1..] + [p];
      PairsAppend(qs[1..], p);
    }
  }

  lemma TypesAppend(qs: seq<Property>, p: Property)
    ensures TypesIn(qs + [p]) == TypesIn(qs) + {p.pt}
  {
    var ps := qs + [p];
    assert ps[|qs|] == p;
    forall x | x in TypesIn(qs) ensures x in TypesIn(ps) {
      var i :| 0 <= i < |qs| && qs[i].pt == x;
      assert ps[i] == qs[i];
    }
  }

  lemma ListableAppend(owner: Owner, qs: seq<Property>, p: Property)
    requires Listable(owner, qs) && (p.pt == 38 || p.pt !in TypesIn(qs))
    requires Admits(owner, p.pt) && p != Property(11, VarValue(0))
    ensures Listable(owner, qs + [p])
  {
  }

  /** The next property, as the loop takes it in. */
  lemma AbsorbNext(owner: Owner, qs: seq<Property>, p: Property, props: Props)
    requires Listable(owner, qs) && Describes(qs, props) && Kinded(p) && (p.pt == 38 || p.pt !in TypesIn(qs))
    ensures Absorb(owner, props, p).Ok? <==> Admits(owner, p.pt) && p != Property(11, VarValue(0))
    ensures Absorb(owner, props, p).Ok? ==>
              Listable(owner, qs + [p]) && Describes(qs + [p], Absorb(owner, props, p).value)
  {
    if Absorb(owner, props, p).Ok? {
      ListableAppend(owner, qs, p);
      HasAppend(qs, p, 11, Numbered(props.subscriptionId));
      HasAppend(qs, p, 17, Timed(props.sessionExpiryInterval));
      HasAppend(qs, p, 31, Worded(props.reasonString));
      HasAppend(qs, p, 28, Worded(props.serverReference));
      PairsAppend(qs, p);
      assert [p][1..] == [] && Pairs(qs) + [] == Pairs(qs);
    }
  }

  /** Behind what was taken in already. */
  lemma {:induction false} AbsorbFrom(owner: Owner, qs: seq<Property>, props: Props, ps: seq<Property>, r: Props)
    requires Listable(owner, qs) && Describes(qs, props) && forall i :: 0 <= i < |ps| ==> Kinded(ps[i])
    ensures AbsorbAll(owner, props, TypesIn(qs), ps) == Ok(r) <==> Listable(owner, qs + ps) && Describes(qs + ps, r)
    decreases |ps|
  {
    if ps == [] {
      assert qs + ps == qs;
      if Describes(qs, r) {
        DescribesOne(owner, qs, props, r);
      }
    } else {
      var p := ps[0];
      if p.pt != 38 && p.pt in TypesIn(qs) {
        NotTwice(owner, qs, ps);
      } else {
        AbsorbNext(owner, qs, p, props);
        if Absorb(owner, props, p).Ok? {
          TypesAppend(qs, p);
          AbsorbFrom(owner, qs + [p], Absorb(owner, props, p).value, ps[1..], r);
          FirstMoves(qs, ps);
        } else {
          NotAtAll(owner, qs, ps);
        }
      }
    }
  }

  lemma FirstMoves(qs: seq<Property>, ps: seq<Property>)
    requires ps != []
    ensures qs + [ps[0]] + ps[1..] == qs + ps
  {
  }

  lemma NotTwice(owner: Owner, qs: seq<Property>, ps: seq<Property>)
    requires ps != [] && ps[0].pt != 38 && ps[0].pt in TypesIn(qs)
    ensures !Listable(owner, qs + ps)
  {
    var i :| 0 <= i < |qs| && qs[i].pt == ps[0].pt;
    assert (qs + ps)[i].pt == (qs + ps)[|qs|].pt;
  }

  lemma NotAtAll(owner: Owner, qs: seq<Property>, ps: seq<Property>)
    requires ps != [] && !(Admits(owner, ps[0].pt) && ps[0] != Property(11, VarValue(0)))
    ensures !Listable(owner, qs + ps)
  {
    assert (qs + ps)[|qs|] == ps[0];
  }

  /** Properties are taken in exactly if the packet may have them, and make the block they describe. */
  lemma AbsorbIff(owner: Owner, ps: seq<Property>, r: Props)
    requires forall i :: 0 <= i < |ps| ==> Kinded(ps[i])
    ensures AbsorbAll(owner, NO_PROPS, {}, ps) == Ok(r) <==> Listable(owner, ps) && Describes(ps, r)
  {
    assert Listable(owner, []) && Describes([], NO_PROPS) && TypesIn([]) == {} && [] + ps == ps;
    AbsorbFrom(owner, [], NO_PROPS, ps, r);
  }

  // ------------------------------------------------------------------------------- blocks

  ghost const NUMBERS: Layout<nat> := (b: Bytes, v: nat) => IsNumber(b, v)
  ghost const WORDS: Layout<U16> := (b: Bytes, x: U16) => IsWord(b, x)
  ghost const REASONS: Layout<ReasonCode> := (b: Bytes, x: ReasonCode) => IsByte(b, x)
  ghost const LEAVINGS: Layout<DisconnectCode> := (b: Bytes, x: DisconnectCode) => IsByte(b, x)

  /** The kind of packet that `p` is, by the variant it is in. */
  function KindFor(p: AnyPacket): Kind {
    match p
    case Subscribe(_) => SubscribeKind
    case UnSubscribe(_) => UnSubscribeKind
    case SubAck(_) => SubAckKind
    case Ack(tag, _, _, _, _) => AckKind(tag)
    case Disconnect(_, _) => DisconnectKind
  }

  ghost predicate KindAt(c: Codec<Kind>, s: Bytes, p: AnyPacket, m: Size) {
    c.decode(s) == Ok((KindFor(p), m)) <==> m == 1 && s != [] && Begins(s[0], p)
  }

  /** The codecs read what the grammar has. */
  ghost predicate Grammatical(w: Wire) {
    && (forall s, p, m :: KindAt(w.kind, s, p, m))
    && Reads(w.number, NUMBERS) && Reads(w.word, WORDS) && Reads(w.property, PROPERTIES)
    && Reads(w.filter, ITEMS) && Reads(w.topic, TOPICS)
    && Reads(w.granted, GRANTS) && Reads(w.reason, REASONS) && Reads(w.leaving, LEAVINGS)
  }

  lemma {:induction false} ListKinded(b: Bytes, ps: seq<Property>)
    requires IsList(PROPERTIES, b, ps)
    ensures forall i :: 0 <= i < |ps| ==> Kinded(ps[i])
    decreases |ps|
  {
    if ps != [] {
      var k := ListFirst(PROPERTIES, b, ps);
      PropertyKinded(b[..k], ps[0]);
      ListKinded(b[k..], ps[1..]);
      KindedNext(ps);
    }
  }

  lemma KindedNext(ps: seq<Property>)
    requires ps != [] && Kinded(ps[0]) && forall i :: 0 <= i < |ps[1..]| ==> Kinded(ps[1..][i])
    ensures forall i :: 0 <= i < |ps| ==> Kinded(ps[i])
  {
    forall i | 0 <= i < |ps| ensures Kinded(ps[i]) {
      if i > 0 {
        assert ps[i] == ps[1..][i - 1];
      }
    }
  }

  lemma BlockFromList(w: Wire, owner: Owner, s: Bytes, p: nat, m: Size, ps: seq<Property>, end: Result<nat>)
    requires w.number.decode(s) == Ok((p, m)) && p > 0 && DecodeList(w.property, After(s, m), p) == (ps, end)
    ensures var a, r := AbsorbAll(owner, NO_PROPS, {}, ps), DecodeBlock(w, owner, s);
            && (r.Ok? <==> a.Ok? && end == Ok(p))
            && (r.Ok? ==> r == Ok((Some(a.value), m + p)))
  {
    PropsFromList(w, owner, After(s, m), p, ps, end);
    BlockFromProps(w, owner, s, p, m, PropsIn(w, owner, After(s, m), p));
  }

  lemma BlockFromProps(w: Wire, owner: Owner, s: Bytes, p: nat, m: Size, r: Result<(Props, nat)>)
    requires w.number.decode(s) == Ok((p, m)) && p > 0 && PropsIn(w, owner, After(s, m), p) == r
    ensures DecodeBlock(w, owner, s).Ok? <==> r.Ok? && r.value.1 == p
    ensures r.Ok? && r.value.1 == p ==> DecodeBlock(w, owner, s) == Ok((Some(r.value.0), m + p))
  {
    assert DecodeProps(w, owner, s) == Onwards(m, r);
  }

  lemma PropsFromList(w: Wire, owner: Owner, s: Bytes, p: nat, ps: seq<Property>, end: Result<nat>)
    requires DecodeList(w.property, s, p) == (ps, end)
    ensures var a, r := AbsorbAll(owner, NO_PROPS, {}, ps), PropsIn(w, owner, s, p);
            (r.Ok? <==> a.Ok? && end.Ok?) && (r.Ok? ==> r == Ok((a.value, end.value)))
  {
  }

  lemma BlockSpelled(w: Wire, owner: Owner, s: Bytes, o: Option<Props>, n: Size)
    requires Grammatical(w) && DecodeBlock(w, owner, s) == Ok((o, n))
    ensures n <= |s| && IsBlock(owner, s[..n], o)
  {
    var (p, m) := w.number.decode(s).value;
    NumberSpelled(w, s, p, m);
    if p == 0 {
      BlockHere(owner, s, o, n, n, []);
    } else {
      var ps := PropsOf(w, owner, s, p, m, o, n);
      BlockHere(owner, s, o, m, n, ps);
    }
  }

  lemma NumberSpelled(w: Wire, s: Bytes, v: nat, n: Size)
    requires Grammatical(w) && w.number.decode(s) == Ok((v, n))
    ensures n <= |s| && IsNumber(s[..n], v)
  {
    assert ReadsAt(w.number, NUMBERS, s, v, n);
  }

  lemma PropsOf(w: Wire, owner: Owner, s: Bytes, p: nat, m: Size, o: Option<Props>, n: Size) returns (ps: seq<Property>)
    requires Grammatical(w) && w.number.decode(s) == Ok((p, m)) && p > 0 && m <= |s|
    requires DecodeBlock(w, owner, s) == Ok((o, n))
    ensures n == m + p <= |s| && o.Some? && PropsAre(owner, s[m..][..p], ps, o.value)
  {
    var r := DecodeList(w.property, After(s, m), p);
    ps := r.0;
    BlockFromList(w, owner, s, p, m, ps, r.1);
    PropsSpelled(w, owner, s[m..], p, ps, o.value);
  }

  lemma BlockHere(owner: Owner, s: Bytes, o: Option<Props>, m: nat, n: nat, ps: seq<Property>)
    requires 0 < m <= n <= |s| && IsNumber(s[..m], n - m)
    requires if o.None? then m == n else m < n && PropsAre(owner, s[m..][..n - m], ps, o.value)
    ensures IsBlock(owner, s[..n], o)
  {
    Cut(s, m, n);
    assert BlockAt(owner, s[..n], o, m);
  }

  lemma PropsSpelled(w: Wire, owner: Owner, s: Bytes, p: nat, ps: seq<Property>, props: Props)
    requires Grammatical(w) && DecodeList(w.property, s, p) == (ps, Ok(p))
    requires AbsorbAll(owner, NO_PROPS, {}, ps) == Ok(props)
    ensures p <= |s| && PropsAre(owner, s[..p], ps, props)
  {
    ListSpelled(w.property, PROPERTIES, s, p, ps);
    ListKinded(s[..p], ps);
    AbsorbIff(owner, ps, props);
  }

  lemma PropsRead(w: Wire, owner: Owner, s: Bytes, p: nat, ps: seq<Property>, props: Props)
    requires Grammatical(w) && p <= |s| && PropsAre(owner, s[..p], ps, props)
    ensures DecodeList(w.property, s, p) == (ps, Ok(p)) && AbsorbAll(owner, NO_PROPS, {}, ps) == Ok(props)
  {
    ListRead(w.property, PROPERTIES, s, p, ps);
    ListKinded(s[..p], ps);
    AbsorbIff(owner, ps, props);
  }

  lemma BlockRead(w: Wire, owner: Owner, s: Bytes, o: Option<Props>, n: Size)
    requires Grammatical(w) && n <= |s| && IsBlock(owner, s[..n], o)
    ensures DecodeBlock(w, owner, s) == Ok((o, n))
  {
    var k: nat :| BlockAt(owner, s[..n], o, k);
    if o.None? {
      BlockReadNone(w, owner, s, o, n, k);
    } else {
      BlockReadSome(w, owner, s, o, n, k, n - k);
    }
  }

  lemma BlockReadNone(w: Wire, owner: Owner, s: Bytes, o: Option<Props>, n: Size, k: nat)
    requires Grammatical(w) && n <= |s| && o.None? && BlockAt(owner, s[..n], o, k)
    ensures DecodeBlock(w, owner, s) == Ok((o, n))
  {
    assert s[..n][..n] == s[..n];
    NumberRead(w, s, 0, n);
    NoBlock(w, owner, s, o, n);
  }

  lemma BlockReadSome(w: Wire, owner: Owner, s: Bytes, o: Option<Props>, n: Size, k: nat, p: nat)
    requires Grammatical(w) && k + p == n <= |s| && o.Some? && BlockAt(owner, s[..n], o, k)
    ensures DecodeBlock(w, owner, s) == Ok((o, n))
  {
    NumberInFront(w, s, p, k, n);
    var ps :| PropsAre(owner, s[..n][k..], ps, o.value);
    Cut(s, k, n);
    SomeBlock(w, owner, s, o, n, k, p, ps, s[..n][k..]);
  }

  lemma NumberInFront(w: Wire, s: Bytes, v: nat, k: Size, n: nat)
    requires Grammatical(w) && k <= n <= |s| && IsNumber(s[..n][..k], v)
    ensures w.number.decode(s) == Ok((v, k))
  {
    Cut(s, k, n);
    NumberRead(w, s, v, k);
  }

  lemma SomeBlock(w: Wire, owner: Owner, s: Bytes, o: Option<Props>, n: Size, k: Size, p: nat, ps: seq<Property>,
                  b: Bytes)
    requires Grammatical(w) && p > 0 && k + p == n <= |s| && w.number.decode(s) == Ok((p, k))
    requires o.Some? && PropsAre(owner, b, ps, o.value) && b == s[k..][..p]
    ensures DecodeBlock(w, owner, s) == Ok((o, n))
  {
    PropsRead(w, owner, s[k..], p, ps, o.value);
    BlockOf(w, owner, s, p, k, ps, o, n);
  }

  lemma NumberRead(w: Wire, s: Bytes, v: nat, n: Size)
    requires Grammatical(w) && n <= |s| && IsNumber(s[..n], v)
    ensures w.number.decode(s) == Ok((v, n))
  {
    assert ReadsAt(w.number, NUMBERS, s, v, n);
  }

  lemma NoBlock(w: Wire, owner: Owner, s: Bytes, o: Option<Props>, n: Size)
    requires w.number.decode(s) == Ok((0, n)) && o.None?
    ensures DecodeBlock(w, owner, s) == Ok((o, n))
  {
  }

  lemma BlockOf(w: Wire, owner: Owner, s: Bytes, p: nat, m: Size, ps: seq<Property>, o: Option<Props>, n: Size)
    requires w.number.decode(s) == Ok((p, m)) && p > 0 && n == m + p <= |s|
    requires DecodeList(w.property, s[m..], p) == (ps, Ok(p))
    requires o.Some? && AbsorbAll(owner, NO_PROPS, {}, ps) == Ok(o.value)
    ensures DecodeBlock(w, owner, s) == Ok((o, n))
  {
    BlockFromList(w, owner, s, p, m, ps, Ok(p));
  }

  /** A block is read exactly if it is one. */
  lemma BlockIff(w: Wire, owner: Owner, s: Bytes, o: Option<Props>, n: Size)
    requires Grammatical(w)
    ensures DecodeBlock(w, owner, s) == Ok((o, n)) <==> n <= |s| && IsBlock(owner, s[..n], o)
  {
    if DecodeBlock(w, owner, s) == Ok((o, n)) {
      BlockSpelled(w, owner, s, o, n);
    }
    if n <= |s| && IsBlock(owner, s[..n], o) {
      BlockRead(w, owner, s, o, n);
    }
  }

  // ----------------------------------------------------------------- identifier, block and list

  lemma WordReads(w: Wire, s: Bytes, id: U16, n: Size)
    requires Grammatical(w)
    ensures w.word.decode(s) == Ok((id, n)) <==> n == 2 <= |s| && IsWord(s[..2], id)
  {
    assert ReadsAt(w.word, WORDS, s, id, n);
  }

  /** The packet identifier and the properties behind it. */
  lemma LeadIff(w: Wire, owner: Owner, s: Bytes, id: U16, o: Option<Props>, n: Size)
    requires Grammatical(w)
    ensures DecodeLead(w, owner, s) == Ok((id, o, n)) <==>
            2 < n <= |s| && IsWord(s[..2], id) && IsBlock(owner, s[2..][..n - 2], o)
  {
    if DecodeLead(w, owner, s) == Ok((id, o, n)) {
      LeadSpelled(w, owner, s, id, o, n);
    }
    if 2 < n <= |s| && IsWord(s[..2], id) && IsBlock(owner, s[2..][..n - 2], o) {
      LeadRead(w, owner, s, id, o, n);
    }
  }

  lemma LeadSpelled(w: Wire, owner: Owner, s: Bytes, id: U16, o: Option<Props>, n: Size)
    requires Grammatical(w) && DecodeLead(w, owner, s) == Ok((id, o, n))
    ensures 2 < n <= |s| && IsWord(s[..2], id) && IsBlock(owner, s[2..][..n - 2], o)
  {
    WordReads(w, s, id, w.word.decode(s).value.1);
    BlockIff(w, owner, s[2..], o, n - 2);
  }

  lemma LeadRead(w: Wire, owner: Owner, s: Bytes, id: U16, o: Option<Props>, n: Size)
    requires Grammatical(w) && 2 < n <= |s| && IsWord(s[..2], id) && IsBlock(owner, s[2..][..n - 2], o)
    ensures DecodeLead(w, owner, s) == Ok((id, o, n))
  {
    WordReads(w, s, id, 2);
    BlockRead(w, owner, s[2..], o, n - 2);
    LeadOf(w, owner, s, id, o, n);
  }

  lemma LeadOf(w: Wire, owner: Owner, s: Bytes, id: U16, o: Option<Props>, n: Size)
    requires w.word.decode(s) == Ok((id, 2)) && |s| >= 2 && n > 2 && DecodeBlock(w, owner, s[2..]) == Ok((o, n - 2))
    ensures DecodeLead(w, owner, s) == Ok((id, o, n))
  {
  }

  /** Nothing is read beyond the end. */
  lemma {:induction false} ListWithin<T(!new)>(c: Codec<T>, item: Layout<T>, s: Bytes, limit: nat)
    requires Reads(c, item) && limit <= |s| && DecodeList(c, s, limit).1.Ok?
    ensures DecodeList(c, s, limit).1.value <= |s|
    decreases limit
  {
    if limit > 0 {
      var (x, m) := c.decode(s).value;
      assert ReadsAt(c, item, s, x, m);
      if m < limit {
        ListWithin(c, item, After(s, m), limit - m);
      }
    }
  }

  lemma PayloadIff<T(!new)>(c: Codec<T>, item: Layout<T>, s: Bytes, len: int, refusal: ErrorKind, xs: seq<T>)
    requires Reads(c, item)
    ensures DecodePayload(c, s, len, refusal) == Ok(xs) <==> 0 < len <= |s| && xs != [] && IsList(item, s[..len], xs)
  {
    if 0 < len <= |s| {
      var b := s[..len];
      ListIff(c, item, b, len, xs);
      assert b[..len] == b;
      if DecodeList(c, b, len).1.Ok? {
        ListWithin(c, item, b, len);
      }
    }
  }

  lemma BodySpelled<T(!new)>(w: Wire, c: Codec<T>, item: Layout<T>, owner: Owner, refusal: ErrorKind,
                             s: Bytes, remaining: nat, l: Listing<T>)
    requires Grammatical(w) && Reads(c, item) && DecodeBody(w, c, owner, refusal, s, remaining) == Ok(l)
    ensures remaining <= |s| && IsListed(owner, item, s[..remaining], l)
  {
    BodyParts(w, c, owner, refusal, s, remaining);
    BodySpelledAt(w, c, item, owner, refusal, s, remaining, l, DecodeLead(w, owner, s).value.2);
  }

  lemma BodySpelledAt<T(!new)>(w: Wire, c: Codec<T>, item: Layout<T>, owner: Owner, refusal: ErrorKind,
                               s: Bytes, remaining: nat, l: Listing<T>, n: Size)
    requires Grammatical(w) && Reads(c, item) && DecodeLead(w, owner, s) == Ok((l.packetId, l.properties, n))
    requires DecodePayload(c, After(s, n), remaining - n, refusal) == Ok(l.items)
    ensures remaining <= |s| && IsListed(owner, item, s[..remaining], l)
  {
    var block := LeadBlock(w, owner, s, l.packetId, l.properties, n);
    var list := PayloadList(c, item, s, n, remaining, refusal, l.items);
    CutTwice(s, 2, n, remaining);
    BodyHere(owner, item, s[..remaining], l, n, s[..2], block, list);
  }

  lemma LeadBlock(w: Wire, owner: Owner, s: Bytes, id: U16, o: Option<Props>, n: Size) returns (block: Bytes)
    requires Grammatical(w) && DecodeLead(w, owner, s) == Ok((id, o, n))
    ensures 2 < n <= |s| && IsWord(s[..2], id) && block == s[2..][..n - 2] && IsBlock(owner, block, o)
  {
    LeadSpelled(w, owner, s, id, o, n);
    block := s[2..][..n - 2];
  }

  lemma PayloadList<T(!new)>(c: Codec<T>, item: Layout<T>, s: Bytes, n: nat, remaining: nat, refusal: ErrorKind,
                             xs: seq<T>) returns (list: Bytes)
    requires Reads(c, item) && n <= |s| && DecodePayload(c, After(s, n), remaining - n, refusal) == Ok(xs)
    ensures n < remaining <= |s| && xs != [] && list == s[n..][..remaining - n] && IsList(item, list, xs)
  {
    PayloadSpelled(c, item, s[n..], remaining - n, refusal, xs);
    list := s[n..][..remaining - n];
  }

  lemma PayloadSpelled<T(!new)>(c: Codec<T>, item: Layout<T>, s: Bytes, len: int, refusal: ErrorKind, xs: seq<T>)
    requires Reads(c, item) && DecodePayload(c, s, len, refusal) == Ok(xs)
    ensures 0 < len <= |s| && xs != [] && IsList(item, s[..len], xs)
  {
    PayloadIff(c, item, s, len, refusal, xs);
  }

  lemma BodyHere<T>(owner: Owner, item: Layout<T>, b: Bytes, l: Listing<T>, k: nat,
                    word: Bytes, block: Bytes, list: Bytes)
    requires 2 < k < |b| && word == b[..2] && block == b[2..k] && list == b[k..]
    requires IsWord(word, l.packetId) && IsBlock(owner, block, l.properties)
    requires l.items != [] && IsList(item, list, l.items)
    ensures IsListed(owner, item, b, l)
  {
    assert ListedAt(owner, item, b, l, k);
  }

  lemma BodyRead<T(!new)>(w: Wire, c: Codec<T>, item: Layout<T>, owner: Owner, refusal: ErrorKind,
                          s: Bytes, remaining: nat, l: Listing<T>)
    requires Grammatical(w) && Reads(c, item) && remaining <= |s| && IsListed(owner, item, s[..remaining], l)
    ensures DecodeBody(w, c, owner, refusal, s, remaining) == Ok(l)
  {
    var k: nat :| ListedAt(owner, item, s[..remaining], l, k);
    ListedLead(w, item, owner, s, remaining, l, k);
    ListedPayload(c, item, owner, refusal, s, remaining, l, k);
    BodyOf(w, c, owner, refusal, s, remaining, l, k);
  }

  lemma ListedLead<T>(w: Wire, item: Layout<T>, owner: Owner, s: Bytes, remaining: nat, l: Listing<T>, k: nat)
    requires Grammatical(w) && remaining <= |s| && ListedAt(owner, item, s[..remaining], l, k)
    ensures 0 < k <= |s| && DecodeLead(w, owner, s) == Ok((l.packetId, l.properties, k))
  {
    CutTwice(s, 2, k, remaining);
    LeadRead(w, owner, s, l.packetId, l.properties, k);
  }

  lemma ListedPayload<T(!new)>(c: Codec<T>, item: Layout<T>, owner: Owner, refusal: ErrorKind,
                               s: Bytes, remaining: nat, l: Listing<T>, k: nat)
    requires Reads(c, item) && remaining <= |s| && ListedAt(owner, item, s[..remaining], l, k)
    ensures k <= |s| && DecodePayload(c, s[k..], remaining - k, refusal) == Ok(l.items)
  {
    Cut(s, k, remaining);
    PayloadRead(c, item, s[k..], remaining - k, refusal, l.items, s[..remaining][k..]);
  }

  lemma PayloadRead<T(!new)>(
    c: Codec<T>, item: Layout<T>, s: Bytes, len: nat, refusal: ErrorKind, xs: seq<T>, b: Bytes)
    requires Reads(c, item) && 0 < len <= |s| && xs != [] && b == s[..len] && IsList(item, b, xs)
    ensures DecodePayload(c, s, len, refusal) == Ok(xs)
  {
    PayloadIff(c, item, s, len, refusal, xs);
  }

  lemma BodyOf<T>(w: Wire, c: Codec<T>, owner: Owner, refusal: ErrorKind,
                  s: Bytes, remaining: nat, l: Listing<T>, k: Size)
    requires k <= |s| && DecodeLead(w, owner, s) == Ok((l.packetId, l.properties, k))
    requires DecodePayload(c, s[k..], remaining - k, refusal) == Ok(l.items)
    ensures DecodeBody(w, c, owner, refusal, s, remaining) == Ok(l)
  {
  }

  /** The body of SUBSCRIBE, UNSUBSCRIBE and SUBACK is read exactly if it is one. */
  lemma BodyIff<T(!new)>(w: Wire, c: Codec<T>, item: Layout<T>, owner: Owner, refusal: ErrorKind,
                         s: Bytes, remaining: nat, l: Listing<T>)
    requires Grammatical(w) && Reads(c, item)
    ensures DecodeBody(w, c, owner, refusal, s, remaining) == Ok(l) <==>
            remaining <= |s| && IsListed(owner, item, s[..remaining], l)
  {
    if DecodeBody(w, c, owner, refusal, s, remaining) == Ok(l) {
      BodySpelled(w, c, item, owner, refusal, s, remaining, l);
    }
    if remaining <= |s| && IsListed(owner, item, s[..remaining], l) {
      BodyRead(w, c, item, owner, refusal, s, remaining, l);
    }
  }

  // ------------------------------------------------------- acknowledgements and DISCONNECT

  lemma ReasonReads(w: Wire, s: Bytes, code: ReasonCode, n: Size)
    requires Grammatical(w)
    ensures w.reason.decode(s) == Ok((code, n)) <==> n == 1 <= |s| && s[0] == code
  {
    assert ReadsAt(w.reason, REASONS, s, code, n);
    assert n <= |s| && n == 1 ==> s[..1] == [s[0]];
  }

  lemma LeavingReads(w: Wire, s: Bytes, code: DisconnectCode, n: Size)
    requires Grammatical(w)
    ensures w.leaving.decode(s) == Ok((code, n)) <==> n == 1 <= |s| && s[0] == code
  {
    assert ReadsAt(w.leaving, LEAVINGS, s, code, n);
    assert n <= |s| && n == 1 ==> s[..1] == [s[0]];
  }

  lemma AckSpelled(w: Wire, s: Bytes, remaining: nat, id: U16, code: ReasonCode, o: Option<Props>, n: nat)
    requires Grammatical(w) && ReadAckFields(w, s, remaining) == Ok((id, code, o, n))
    ensures n <= |s| && IsAck(remaining, s[..n], id, code, o)
  {
    WordReads(w, s, id, w.word.decode(s).value.1);
    if remaining == 2 {
      assert s[..2][..2] == s[..2];
    } else {
      ReasonReads(w, s[2..], code, w.reason.decode(s[2..]).value.1);
      if remaining == 3 {
        assert s[..3][..2] == s[..2] && s[..3][2..] == [code];
      } else {
        AckLongSpelled(w, s, remaining, id, code, o, n);
      }
    }
  }

  lemma AckLongSpelled(w: Wire, s: Bytes, remaining: nat, id: U16, code: ReasonCode, o: Option<Props>, n: nat)
    requires Grammatical(w) && remaining != 2 && remaining != 3 && |s| >= 3 && IsWord(s[..2], id) && s[2] == code
    requires w.word.decode(s) == Ok((id, 2)) && w.reason.decode(s[2..]) == Ok((code, 1))
    requires ReadAckFields(w, s, remaining) == Ok((id, code, o, n))
    ensures n <= |s| && IsAck(remaining, s[..n], id, code, o)
  {
    assert s[2..][1..] == s[3..];
    var m := DecodeBlock(w, OfPub, s[3..]).value.1;
    BlockSpelled(w, OfPub, s[3..], o, m);
    CutTwice(s, 2, 3, n);
    assert s[..n][3..] == s[3..][..m];
  }

  lemma AckRead(w: Wire, s: Bytes, remaining: nat, id: U16, code: ReasonCode, o: Option<Props>, n: nat)
    requires Grammatical(w) && n <= |s| && IsAck(remaining, s[..n], id, code, o)
    ensures ReadAckFields(w, s, remaining) == Ok((id, code, o, n))
  {
    WordInFront(w, s, id, n);
    if remaining == 2 {
    } else if remaining == 3 {
      Cut(s, 2, n);
      ReasonReads(w, s[2..], code, 1);
    } else {
      Cut(s, 3, n);
      BlockNotEmpty(OfPub, s[..n][3..], o);
      AckLong(w, s, remaining, id, code, o, n, n - 3, s[..n][3..]);
    }
  }

  lemma WordInFront(w: Wire, s: Bytes, id: U16, n: nat)
    requires Grammatical(w) && 2 <= n <= |s| && IsWord(s[..n][..2], id)
    ensures w.word.decode(s) == Ok((id, 2))
  {
    Cut(s, 2, n);
    WordReads(w, s, id, 2);
  }

  lemma AckLong(w: Wire, s: Bytes, remaining: nat, id: U16, code: ReasonCode, o: Option<Props>, n: nat, m: Size,
                b: Bytes)
    requires Grammatical(w) && remaining != 2 && remaining != 3 && 3 + m == n <= |s|
    requires w.word.decode(s) == Ok((id, 2)) && s[2] == code && b == s[3..][..m] && IsBlock(OfPub, b, o)
    ensures ReadAckFields(w, s, remaining) == Ok((id, code, o, n))
  {
    ReasonReads(w, s[2..], code, 1);
    BlockFrom(w, OfPub, s[3..], o, m, b);
    AckOf(w, s, remaining, id, code, o, m, n);
  }

  lemma BlockFrom(w: Wire, owner: Owner, s: Bytes, o: Option<Props>, n: Size, b: Bytes)
    requires Grammatical(w) && n <= |s| && b == s[..n] && IsBlock(owner, b, o)
    ensures DecodeBlock(w, owner, s) == Ok((o, n))
  {
    BlockRead(w, owner, s, o, n);
  }

  lemma AckOf(w: Wire, s: Bytes, remaining: nat, id: U16, code: ReasonCode, o: Option<Props>, m: Size, n: nat)
    requires remaining != 2 && remaining != 3 && |s| >= 3 && 3 + m == n && w.word.decode(s) == Ok((id, 2))
    requires w.reason.decode(s[2..]) == Ok((code, 1)) && DecodeBlock(w, OfPub, s[3..]) == Ok((o, m))
    ensures ReadAckFields(w, s, remaining) == Ok((id, code, o, n))
  {
    assert s[2..][1..] == s[3..];
  }

  lemma BlockNotEmpty(owner: Owner, b: Bytes, o: Option<Props>)
    requires IsBlock(owner, b, o)
    ensures b != []
  {
  }

  lemma DisconnectSpelled(w: Wire, s: Bytes, remaining: nat, code: DisconnectCode, o: Option<Props>, n: nat)
    requires Grammatical(w) && BlockHolds(OfDisconnect, o)
    requires ReadDisconnect(w, s, remaining) == Ok((Disconnect(code, o), n))
    ensures n <= |s| && IsDisconnect(remaining, s[..n], code, o)
  {
    if remaining > 0 {
      LeavingReads(w, s, code, w.leaving.decode(s).value.1);
      if remaining == 1 {
        assert s[..1] == [code];
      } else {
        var m := DecodeBlock(w, OfDisconnect, s[1..]).value.1;
        BlockSpelled(w, OfDisconnect, s[1..], o, m);
        Cut(s, 1, n);
        assert s[..n][1..] == s[1..][..m];
      }
    }
  }

  lemma DisconnectRead(w: Wire, s: Bytes, remaining: nat, code: DisconnectCode, o: Option<Props>, n: nat)
    requires Grammatical(w) && BlockHolds(OfDisconnect, o) && n <= |s| && IsDisconnect(remaining, s[..n], code, o)
    ensures ReadDisconnect(w, s, remaining) == Ok((Disconnect(code, o), n))
  {
    if remaining == 0 {
    } else if remaining == 1 {
      LeavingReads(w, s, code, 1);
    } else {
      Cut(s, 1, n);
      BlockNotEmpty(OfDisconnect, s[..n][1..], o);
      DisconnectLong(w, s, remaining, code, o, n, n - 1, s[..n][1..]);
    }
  }

  lemma DisconnectLong(w: Wire, s: Bytes, remaining: nat, code: DisconnectCode, o: Option<Props>, n: nat, m: Size,
                       b: Bytes)
    requires Grammatical(w) && BlockHolds(OfDisconnect, o) && remaining > 1 && 1 + m == n <= |s|
    requires s[0] == code && b == s[1..][..m] && IsBlock(OfDisconnect, b, o)
    ensures ReadDisconnect(w, s, remaining) == Ok((Disconnect(code, o), n))
  {
    LeavingReads(w, s, code, 1);
    BlockFrom(w, OfDisconnect, s[1..], o, m, b);
    DisconnectOf(w, s, remaining, code, o, m, n);
  }

  lemma DisconnectOf(w: Wire, s: Bytes, remaining: nat, code: DisconnectCode, o: Option<Props>, m: Size, n: nat)
    requires BlockHolds(OfDisconnect, o) && remaining > 1 && |s| >= 1 && 1 + m == n
    requires w.leaving.decode(s) == Ok((code, 1)) && DecodeBlock(w, OfDisconnect, s[1..]) == Ok((o, m))
    ensures ReadDisconnect(w, s, remaining) == Ok((Disconnect(code, o), n))
  {
  }

  // ------------------------------------------------------------------------------ packets

  lemma Nibbles(b: Byte)
    ensures b == 16 * (b / 16) + b % 16 && 0 <= b / 16 < 16
  {
  }

  /** A first byte is accepted for a kind exactly if packets of that kind begin so. */
  lemma KindIff(s: Bytes, p: AnyPacket)
    ensures KindAt(KIND, s, p, 1)
  {
    if s != [] {
      Nibbles(s[0]);
      ValidByteIff(s[0]);
    }
  }

  lemma AckAllowsIff(t: AckType, code: ReasonCode)
    ensures AckAllows(t, code) <==> Permits(t, code)
  {
  }

  lemma OptionsIff(l: Listing<Filter>)
    ensures ValidOptions(l) <==> forall i :: 0 <= i < |l.items| ==> Options(l.items[i].opt)
  {
    forall i | 0 <= i < |l.items| ensures ValidOption(l.items[i]) <==> Options(l.items[i].opt) {
      OptionIff(l.items[i].opt);
    }
  }

  lemma OptionIff(opt: Byte)
    ensures opt < 64 <==> opt / 64 == 0
  {
  }

  /** What is behind a header of the kind of `p` is read as `p` exactly if it spells `p`. */
  lemma ReadListIff(w: Wire, remaining: nat, s: Bytes, p: Packet, n: nat)
    requires Grammatical(w) && (p.Subscribe? || p.UnSubscribe? || p.SubAck?)
    ensures ReadPacket(w, Header(KindFor(p), remaining), s) == Ok((p, n)) <==>
            n <= |s| && IsBody(remaining, s[..n], p)
  {
    match p {
      case Subscribe(l) =>
        BodyIff(w, w.filter, ITEMS, OfSubscribe, MalformedPacket, s, remaining, l);
        OptionsIff(l);
      case UnSubscribe(l) => BodyIff(w, w.topic, TOPICS, OfUnSubscribe, ProtocolError, s, remaining, l);
      case SubAck(l) => BodyIff(w, w.granted, GRANTS, OfSubAck, MalformedPacket, s, remaining, l);
    }
  }

  lemma ReadAckIff(w: Wire, remaining: nat, s: Bytes, p: Packet, n: nat)
    requires Grammatical(w) && p.Ack?
    ensures ReadPacket(w, Header(KindFor(p), remaining), s) == Ok((p, n)) <==>
            n <= |s| && IsBody(remaining, s[..n], p)
  {
    AckAllowsIff(p.tag, p.code);
    if ReadPacket(w, Header(KindFor(p), remaining), s) == Ok((p, n)) {
      AckSpelled(w, s, remaining, p.packetId, p.code, p.properties, n);
    }
    if n <= |s| && IsBody(remaining, s[..n], p) {
      AckRead(w, s, remaining, p.packetId, p.code, p.properties, n);
    }
  }

  lemma ReadDisconnectIff(w: Wire, remaining: nat, s: Bytes, p: Packet, n: nat)
    requires Grammatical(w) && p.Disconnect?
    ensures ReadPacket(w, Header(KindFor(p), remaining), s) == Ok((p, n)) <==>
            n <= |s| && IsBody(remaining, s[..n], p)
  {
    if ReadPacket(w, Header(KindFor(p), remaining), s) == Ok((p, n)) {
      DisconnectSpelled(w, s, remaining, p.reason, p.properties, n);
    }
    if n <= |s| && IsBody(remaining, s[..n], p) {
      DisconnectRead(w, s, remaining, p.reason, p.properties, n);
    }
  }

  lemma ReadIff(w: Wire, remaining: nat, s: Bytes, p: Packet, n: nat)
    requires Grammatical(w)
    ensures ReadPacket(w, Header(KindFor(p), remaining), s) == Ok((p, n)) <==>
            n <= |s| && IsBody(remaining, s[..n], p)
  {
    match p {
      case Ack(_, _, _, _, _) => ReadAckIff(w, remaining, s, p, n);
      case Disconnect(_, _) => ReadDisconnectIff(w, remaining, s, p, n);
      case _ => ReadListIff(w, remaining, s, p, n);
    }
  }

  lemma WireGrammatical()
    ensures Grammatical(WIRE)
  {
    forall s, x, n ensures ReadsAt(NUMBER, NUMBERS, s, x, n) {
      NumberIff(s, x, n);
    }
    forall s, x, n ensures ReadsAt(WORD, WORDS, s, x, n) {
      WordIff(s, x, n);
    }
    forall s, x, n ensures ReadsAt(PROPERTY, PROPERTIES, s, x, n) {
      PropertyIff(s, x, n);
    }
    forall s, p, m: Size ensures KindAt(KIND, s, p, m) {
      KindIff(s, p);
    }
    ListsGrammatical();
  }

  lemma ListsGrammatical()
    ensures Reads(ITEM, ITEMS) && Reads(TOPIC, TOPICS)
    ensures Reads(GRANTED, GRANTS) && Reads(REASON, REASONS) && Reads(LEAVING, LEAVINGS)
  {
    forall s, x, n ensures ReadsAt(ITEM, ITEMS, s, x, n) {
      ItemIff(s, x, n);
    }
    forall s, x, n ensures ReadsAt(TOPIC, TOPICS, s, x, n) {
      TopicIff(s, x, n);
    }
    forall s, x: SubAckCode, n ensures ReadsAt(GRANTED, GRANTS, s, x, n) {
      ByteIff(s, x, n);
    }
    forall s, x: ReasonCode, n ensures ReadsAt(REASON, REASONS, s, x, n) {
      ByteIff(s, x, n);
    }
    forall s, x: DisconnectCode, n ensures ReadsAt(LEAVING, LEAVINGS, s, x, n) {
      ByteIff(s, x, n);
    }
  }

  lemma ReadKind(w: Wire, h: Header, s: Bytes, p: Packet, n: nat)
    requires ReadPacket(w, h, s) == Ok((p, n))
    ensures h == Header(KindFor(p), h.remaining)
  {
  }

  lemma HeaderSpelled(w: Wire, s: Bytes, p: Packet, h: Header, m: Size)
    requires Grammatical(w) && DecodeHeader(w, s) == Ok((h, m)) && h.kind == KindFor(p)
    ensures 2 <= m <= |s| && Begins(s[0], p) && IsNumber(s[1..][..m - 1], h.remaining)
  {
    var (kind, m1) := w.kind.decode(s).value;
    assert KindAt(w.kind, s, p, m1);
    var (r, m2) := w.number.decode(After(s, m1)).value;
    NumberSpelled(w, After(s, m1), r, m2);
  }

  lemma HeaderRead(w: Wire, s: Bytes, p: Packet, remaining: nat, m: Size)
    requires Grammatical(w) && 2 <= m <= |s| && Begins(s[0], p) && IsNumber(s[1..][..m - 1], remaining)
    ensures DecodeHeader(w, s) == Ok((Header(KindFor(p), remaining), m))
  {
    assert KindAt(w.kind, s, p, 1);
    NumberRead(w, s[1..], remaining, m - 1);
  }

  lemma PacketSpelled(w: Wire, s: Bytes, p: Packet, n: Size)
    requires Grammatical(w) && DecodePacket(w, s) == Ok((p, n))
    ensures n <= |s| && IsPacket(s[..n], p)
  {
    var h, m, r := PacketParts(w, s, p, n);
    BehindSpelled(w, s, p, h, m, r);
    CutTwice(s, 1, m, n);
    PacketHere(s[..n], p, h.remaining, m, s[1..][..m - 1], s[m..][..r]);
  }

  lemma PacketParts(w: Wire, s: Bytes, p: Packet, n: Size) returns (h: Header, m: Size, r: nat)
    requires DecodePacket(w, s) == Ok((p, n))
    ensures DecodeHeader(w, s) == Ok((h, m)) && ReadPacket(w, h, After(s, m)) == Ok((p, r)) && n == m + r
  {
    DecodedIs(w, s);
    h, m := DecodeHeader(w, s).value.0, DecodeHeader(w, s).value.1;
    r := ReadPacket(w, h, After(s, m)).value.1;
  }

  lemma BehindSpelled(w: Wire, s: Bytes, p: Packet, h: Header, m: Size, n: nat)
    requires Grammatical(w) && DecodeHeader(w, s) == Ok((h, m)) && ReadPacket(w, h, After(s, m)) == Ok((p, n))
    ensures 2 <= m && m + n <= |s| && Begins(s[0], p) && IsNumber(s[1..][..m - 1], h.remaining)
    ensures IsBody(h.remaining, s[m..][..n], p)
  {
    ReadKind(w, h, After(s, m), p, n);
    HeaderSpelled(w, s, p, h, m);
    ReadIff(w, h.remaining, s[m..], p, n);
  }

  lemma PacketHere(b: Bytes, p: Packet, remaining: nat, m: nat, length: Bytes, body: Bytes)
    requires 2 <= m <= |b| && Begins(b[0], p) && length == b[1..m] && body == b[m..]
    requires IsNumber(length, remaining) && IsBody(remaining, body, p)
    ensures IsPacket(b, p)
  {
    assert PacketAt(b, p, m, remaining);
  }

  lemma PacketRead(w: Wire, s: Bytes, p: Packet, n: Size)
    requires Grammatical(w) && n <= |s| && IsPacket(s[..n], p)
    ensures DecodePacket(w, s) == Ok((p, n))
  {
    var k: nat, remaining: nat :| PacketAt(s[..n], p, k, remaining);
    var m: nat := n - k;
    PacketHeader(w, s, p, n, k, remaining);
    PacketBehind(w, s, p, n, k, remaining, m);
    PacketOf(w, s, p, remaining, k, m, n);
  }

  lemma PacketHeader(w: Wire, s: Bytes, p: Packet, n: Size, k: nat, remaining: nat)
    requires Grammatical(w) && n <= |s| && PacketAt(s[..n], p, k, remaining)
    ensures 0 < k <= n && DecodeHeader(w, s) == Ok((Header(KindFor(p), remaining), k))
  {
    CutTwice(s, 1, k, n);
    HeaderRead(w, s, p, remaining, k);
  }

  lemma PacketBehind(w: Wire, s: Bytes, p: Packet, n: Size, k: nat, remaining: nat, m: nat)
    requires Grammatical(w) && k + m == n <= |s| && PacketAt(s[..n], p, k, remaining)
    ensures ReadPacket(w, Header(KindFor(p), remaining), s[k..]) == Ok((p, m))
  {
    Cut(s, k, n);
    ReadFrom(w, remaining, s[k..], p, m, s[..n][k..]);
  }

  lemma ReadFrom(w: Wire, remaining: nat, s: Bytes, p: Packet, n: nat, b: Bytes)
    requires Grammatical(w) && n <= |s| && b == s[..n] && IsBody(remaining, b, p)
    ensures ReadPacket(w, Header(KindFor(p), remaining), s) == Ok((p, n))
  {
    ReadIff(w, remaining, s, p, n);
  }

  lemma PacketOf(w: Wire, s: Bytes, p: Packet, remaining: nat, k: Size, m: nat, n: Size)
    requires k + m == n <= |s| && DecodeHeader(w, s) == Ok((Header(KindFor(p), remaining), k))
    requires ReadPacket(w, Header(KindFor(p), remaining), s[k..]) == Ok((p, m))
    ensures DecodePacket(w, s) == Ok((p, n))
  {
  }

  /** For all bytes: so many of them are decoded to a packet exactly if they spell it. */
  lemma PacketIff(s: Bytes, p: Packet, n: Size)
    ensures DecodePacket(WIRE, s) == Ok((p, n)) <==> n <= |s| && IsPacket(s[..n], p)
  {
    WireGrammatical();
    if DecodePacket(WIRE, s) == Ok((p, n)) {
      PacketSpelled(WIRE, s, p, n);
    }
    if n <= |s| && IsPacket(s[..n], p) {
      PacketRead(WIRE, s, p, n);
    }
  }
}
