/** Codecs of items, and of lists of them one after the other: how payloads and property blocks are laid out. */
module Codecs {
  import opened Basics
  import opened Varint

  /** How an item is written and read. */
  datatype Codec<!T> = Codec(encode: T -> Result<Bytes>, decode: Bytes -> Result<(T, Size)>)

  function EncodeList<T>(c: Codec<T>, xs: seq<T>): Result<Bytes> {
    if xs == [] then Ok([])
    else
      var b :- c.encode(xs[0]);
      var rest :- EncodeList(c, xs[1..]);
      Ok(b + rest)
  }

  /** What is left of `s` after `m` bytes. */
  function After(s: Bytes, m: nat): Bytes {
    if m <= |s| then s[m..] else []
  }

  /**
   The items at the front of `s`, as long as fewer than `limit` bytes are taken in and they decode;
   with the number of bytes taken in, or the error of the first that does not.
   */
  function DecodeList<T>(c: Codec<T>, s: Bytes, limit: int): (r: (seq<T>, Result<nat>))
    ensures r.1.Ok? ==> limit <= r.1.value
    decreases limit
  {
    if limit <= 0 then ([], Ok(0))
    else
      match c.decode(s)
      case Err(e) => ([], Err(e))
      case Ok((x, m)) =>
        var (xs, end) := DecodeList(c, After(s, m), limit - m);
        ([x] + xs, if end.Ok? then Ok(m + end.value) else end)
  }

  /** Decoding gives back the `x` that was written, whatever follows. */
  predicate InvertsAt<T(==)>(c: Codec<T>, x: T, rest: Bytes) {
    var r := c.encode(x);
    r.Ok? ==> r.value != [] && c.decode(r.value + rest) == Ok((x, |r.value|))
  }

  /** What decodes from `s` stays within it and encodes again, in no more bytes. */
  predicate ReencodesAt<T>(c: Codec<T>, s: Bytes) {
    var r := c.decode(s);
    r.Ok? ==>
      && r.value.1 <= |s|
      && c.encode(r.value.0).Ok? && |c.encode(r.value.0).value| <= r.value.1
  }

  ghost predicate Inverts<T(!new)>(c: Codec<T>) {
    forall x: T, rest: Bytes :: InvertsAt(c, x, rest)
  }

  ghost predicate Reencodes<T(!new)>(c: Codec<T>) {
    forall s: Bytes :: ReencodesAt(c, s)
  }

  /** What was written in front is read, and leaves what follows. */
  lemma Read<T(!new)>(c: Codec<T>, x: T, rest: Bytes)
    requires Inverts(c) && c.encode(x).Ok?
    ensures var b := c.encode(x).value;
            b != [] && c.decode(b + rest) == Ok((x, |b|)) && After(b + rest, |b|) == rest
  {
    assert InvertsAt(c, x, rest);
  }

  lemma Regroup(a: Bytes, b: Bytes, c: Bytes)
    ensures a + b + c == a + (b + c)
  {
  }

  lemma HeadTail<T>(xs: seq<T>)
    requires xs != []
    ensures [xs[0]] + xs[1..] == xs
  {
  }

  /** An item, and the list behind it. */
  lemma DecodeNext<T>(c: Codec<T>, b: Bytes, x: T, rest: Bytes, limit: nat, xs: seq<T>)
    requires b != [] && c.decode(b + rest) == Ok((x, |b|)) && DecodeList(c, rest, limit) == (xs, Ok(limit))
    ensures DecodeList(c, b + rest, |b| + limit) == ([x] + xs, Ok(|b| + limit))
  {
    assert After(b + rest, |b|) == rest;
  }

  /** An item, and one behind it that does not decode. */
  lemma DecodeStops<T>(c: Codec<T>, s: Bytes, limit: nat, x: T, m: Size, e: ErrorKind)
    requires c.decode(s) == Ok((x, m)) && m < limit && c.decode(After(s, m)) == Err(e)
    ensures DecodeList(c, s, limit) == ([x], Err(e))
  {
    assert DecodeList(c, After(s, m), limit - m) == ([], Err(e));
    assert [x] + [] == [x];
  }

  /** A list that was encoded is read back, and read to its end. */
  lemma {:induction false} ListRoundTrip<T(!new)>(c: Codec<T>, xs: seq<T>, rest: Bytes)
    requires Inverts(c) && EncodeList(c, xs).Ok?
    ensures var b := EncodeList(c, xs).value; DecodeList(c, b + rest, |b|) == (xs, Ok(|b|))
    decreases |xs|
  {
    if xs != [] {
      var b, more := c.encode(xs[0]).value, EncodeList(c, xs[1..]).value;
      ListRoundTrip(c, xs[1..], rest);
      assert InvertsAt(c, xs[0], more + rest);
      DecodeNext(c, b, xs[0], more + rest, |more|, xs[1..]);
      Regroup(b, more, rest);
      HeadTail(xs);
    }
  }

  /** `x` is read back as `normal(x)`, whatever follows. */
  predicate ReadsBack<T(==)>(c: Codec<T>, normal: T -> T, x: T, rest: Bytes) {
    var r := c.encode(x);
    r.Ok? ==> r.value != [] && c.decode(r.value + rest) == Ok((normal(x), |r.value|))
  }

  function Each<T>(f: T -> T, xs: seq<T>): (r: seq<T>)
    ensures |r| == |xs| && forall i :: 0 <= i < |xs| ==> r[i] == f(xs[i])
  {
    if xs == [] then [] else [f(xs[0])] + Each(f, xs[1..])
  }

  /** So is a list of such items. */
  lemma {:induction false} NormalRoundTrip<T(!new)>(c: Codec<T>, normal: T -> T, xs: seq<T>, rest: Bytes)
    requires EncodeList(c, xs).Ok?
    requires forall i, more: Bytes :: 0 <= i < |xs| ==> ReadsBack(c, normal, xs[i], more)
    ensures var b := EncodeList(c, xs).value;
            DecodeList(c, b + rest, |b|) == (Each(normal, xs), Ok(|b|))
    decreases |xs|
  {
    if xs != [] {
      var b, more := c.encode(xs[0]).value, EncodeList(c, xs[1..]).value;
      assert ReadsBack(c, normal, xs[0], more + rest);
      forall i, t: Bytes | 0 <= i < |xs[1..]| ensures ReadsBack(c, normal, xs[1..][i], t) {
        assert ReadsBack(c, normal, xs[i + 1], t);
      }
      NormalRoundTrip(c, normal, xs[1..], rest);
      DecodeNext(c, b, normal(xs[0]), more + rest, |more|, Each(normal, xs[1..]));
      Regroup(b, more, rest);
    }
  }

  /** A list that decodes encodes again, in no more bytes, and its end is inside the input. */
  lemma {:induction false} ListReencodes<T(!new)>(c: Codec<T>, s: Bytes, limit: int)
    requires Reencodes(c) && DecodeList(c, s, limit).1.Ok?
    ensures var (xs, end) := DecodeList(c, s, limit);
            EncodeList(c, xs).Ok? && |EncodeList(c, xs).value| <= end.value <= |s|
    decreases limit
  {
    if 0 < limit {
      assert ReencodesAt(c, s);
      var (x, m) := c.decode(s).value;
      ListReencodes(c, After(s, m), limit - m);
      var (xs, end) := DecodeList(c, After(s, m), limit - m);
      assert ([x] + xs)[1..] == xs;
    }
  }

  predicate Panics<T>(r: Result<T>) {
    r.Err? && r.kind == Panic
  }

  /** Reading an item never panics. */
  ghost predicate Calm<T(!new)>(c: Codec<T>) {
    forall s: Bytes :: !Panics(c.decode(s))
  }

  lemma {:induction false} ListCalm<T(!new)>(c: Codec<T>, s: Bytes, limit: int)
    requires Calm(c)
    ensures !Panics(DecodeList(c, s, limit).1)
    decreases limit
  {
    if 0 < limit && c.decode(s).Ok? {
      var m := c.decode(s).value.1;
      ListCalm(c, After(s, m), limit - m);
    }
  }

  lemma EncodeListEmpty<T(!new)>(c: Codec<T>, xs: seq<T>)
    requires Inverts(c) && EncodeList(c, xs).Ok?
    ensures EncodeList(c, xs).value == [] <==> xs == []
  {
    if xs != [] {
      assert InvertsAt(c, xs[0], []);
    }
  }

  /** Taking in items one after the other, up to the first that is refused. */
  function FoldList<S, T>(step: (S, T) -> Result<S>, st: S, xs: seq<T>): Result<S> {
    if xs == [] then Ok(st)
    else
      var st' :- step(st, xs[0]);
      FoldList(step, st', xs[1..])
  }

  /** `r` after `n` more bytes. */
  function Onwards<S>(n: nat, r: Result<(S, nat)>): Result<(S, nat)> {
    if r.Ok? then Ok((r.value.0, n + r.value.1)) else r
  }

  /** The decoding loops: items are decoded and taken in by turns. */
  function FoldFrom<S, T>(c: Codec<T>, step: (S, T) -> Result<S>, s: Bytes, limit: int, st: S): Result<(S, nat)>
    decreases limit
  {
    if limit <= 0 then Ok((st, 0))
    else
      var (x, m) :- c.decode(s);
      var st' :- step(st, x);
      Onwards(m, FoldFrom(c, step, After(s, m), limit - m, st'))
  }

  lemma AfterAfter(s: Bytes, m: nat, n: nat)
    ensures After(After(s, m), n) == After(s, m + n)
  {
  }

  lemma OnwardsTwice<S>(m: nat, n: nat, r: Result<(S, nat)>)
    ensures Onwards(m, Onwards(n, r)) == Onwards(m + n, r)
  {
  }

  /** The same loop, at offset `n` of `s` and up to offset `limit`. */
  function FoldAt<S, T>(c: Codec<T>, step: (S, T) -> Result<S>, s: Bytes, limit: nat, n: nat, st: S): Result<(S, nat)>
    decreases limit - n
  {
    if n >= limit then Ok((st, n))
    else
      var (x, m) :- c.decode(After(s, n));
      var st' :- step(st, x);
      FoldAt(c, step, s, limit, n + m, st')
  }

  lemma {:induction false} FoldAtOffset<S, T>(
    c: Codec<T>, step: (S, T) -> Result<S>, s: Bytes, limit: nat, n: nat, st: S)
    requires n <= limit
    ensures FoldAt(c, step, s, limit, n, st) == Onwards(n, FoldFrom(c, step, After(s, n), limit - n, st))
    decreases limit - n
  {
    var r := c.decode(After(s, n));
    if n < limit && r.Ok? {
      var (x, m) := r.value;
      AfterAfter(s, n, m);
      var st' := step(st, x);
      if st'.Ok? {
        OnwardsTwice(n, m, FoldFrom(c, step, After(s, n + m), limit - n - m, st'.value));
        if n + m <= limit {
          FoldAtOffset(c, step, s, limit, n + m, st'.value);
        }
      }
    }
  }

  /** Such a loop comes to the same as decoding all items first. */
  lemma {:induction false} FoldFromList<S, T>(c: Codec<T>, step: (S, T) -> Result<S>, s: Bytes, limit: int, st: S)
    ensures var (xs, end) := DecodeList(c, s, limit);
            var r := FoldList(step, st, xs);
            FoldFrom(c, step, s, limit, st) ==
            if r.Err? then Err(r.kind) else if end.Err? then Err(end.kind) else Ok((r.value, end.value))
    decreases limit
  {
    if 0 < limit {
      var r := c.decode(s);
      if r.Ok? {
        var (x, m) := r.value;
        var (xs, end) := DecodeList(c, After(s, m), limit - m);
        assert ([x] + xs)[0] == x && ([x] + xs)[1..] == xs;
        var st' := step(st, x);
        if st'.Ok? {
          FoldFromList(c, step, After(s, m), limit - m, st'.value);
        }
      }
    }
  }

  lemma {:induction false} EncodeListAppend<T>(c: Codec<T>, a: seq<T>, b: seq<T>)
    ensures EncodeList(c, a + b) ==
            if EncodeList(c, a).Err? then EncodeList(c, a)
            else if EncodeList(c, b).Err? then EncodeList(c, b)
            else Ok(EncodeList(c, a).value + EncodeList(c, b).value)
    decreases |a|
  {
    if a == [] {
      assert a + b == b;
      assert EncodeList(c, b).Ok? ==> [] + EncodeList(c, b).value == EncodeList(c, b).value;
    } else {
      assert (a + b)[1..] == a[1..] + b;
      EncodeListAppend(c, a[1..], b);
      var x, y, z := c.encode(a[0]), EncodeList(c, a[1..]), EncodeList(c, b);
      if x.Ok? && y.Ok? && z.Ok? {
        assert x.value + (y.value + z.value) == x.value + y.value + z.value;
      }
    }
  }

  function Push<T>(): (seq<T>, T) -> Result<seq<T>> {
    (xs: seq<T>, x: T) => Ok(xs + [x])
  }

  lemma {:induction false} PushAll<T>(xs: seq<T>, ys: seq<T>)
    ensures FoldList(Push(), xs, ys) == Ok(xs + ys)
    decreases |ys|
  {
    if ys == [] {
      assert xs + ys == xs;
    } else {
      PushAll(xs + [ys[0]], ys[1..]);
      assert xs + [ys[0]] + ys[1..] == xs + ys;
    }
  }

  /** The payload loops: items are decoded and pushed until the payload is used up. */
  method DecodeListLoop<T(!new)>(c: Codec<T>, payload: Bytes) returns (r: Result<seq<T>>)
    requires Reencodes(c)
    ensures var (xs, end) := DecodeList(c, payload, |payload|);
            r == if end.Ok? then Ok(xs) else Err(end.kind)
  {
    var xs: seq<T>, t := [], 0;
    FoldFromList(c, Push(), payload, |payload|, xs);
    PushAll(xs, DecodeList(c, payload, |payload|).0);
    assert [] + DecodeList(c, payload, |payload|).0 == DecodeList(c, payload, |payload|).0;
    FoldAtOffset(c, Push(), payload, |payload|, t, xs);
    assert After(payload, 0) == payload;
    while t < |payload|
      invariant t <= |payload|
      invariant FoldAt(c, Push(), payload, |payload|, 0, []) == FoldAt(c, Push(), payload, |payload|, t, xs)
    {
      assert ReencodesAt(c, After(payload, t));
      var item :- c.decode(After(payload, t));
      t := t + item.1;
      xs := xs + [item.0];
    }
    return Ok(xs);
  }

  function Prepended(data: Bytes, r: Result<Bytes>): Result<Bytes> {
    if r.Ok? then Ok(data + r.value) else r
  }

  /** The encoding loops: each item's bytes are appended to `data`. */
  method EncodeListLoop<T>(c: Codec<T>, xs: seq<T>) returns (r: Result<Bytes>)
    ensures r == EncodeList(c, xs)
  {
    var data := [];
    assert xs[0..] == xs;
    assert EncodeList(c, xs).Ok? ==> [] + EncodeList(c, xs).value == EncodeList(c, xs).value;
    for i := 0 to |xs|
      invariant EncodeList(c, xs) == Prepended(data, EncodeList(c, xs[i..]))
    {
      assert xs[i..][0] == xs[i] && xs[i..][1..] == xs[i + 1..];
      var b :- c.encode(xs[i]);
      ghost var rest := EncodeList(c, xs[i + 1..]);
      assert rest.Ok? ==> data + (b + rest.value) == data + b + rest.value;
      data := data + b;
    }
    assert data + [] == data;
    return Ok(data);
  }

  /**
   `insert_fixed_header` and `insert_property_len`: room is made at the end, everything moved up, and the front
   written.
   */
  method InsertFront(front: Bytes, data: Bytes) returns (r: Bytes)
    ensures r == front + data
  {
    var a, n := |data|, |front|;
    var buffer := new Byte[a + n](i requires 0 <= i < a + n => if i < a then data[i] else front[i - a]);
    forall i | 0 <= i < a {
      buffer[n + i] := buffer[i];
    }
    forall i | 0 <= i < n {
      buffer[i] := front[i];
    }
    return buffer[..];
  }

  /** Size of the encodings, or nothing if one fails. */
  function SizeOf<T>(c: Codec<T>, xs: seq<T>): Option<nat> {
    var r := EncodeList(c, xs);
    if r.Ok? then Some(|r.value|) else None
  }

  function Plus(a: Option<nat>, b: Option<nat>): Option<nat> {
    if a.Some? && b.Some? then Some(a.value + b.value) else None
  }

  predicate AddsUp<T>(size: seq<T> -> Option<nat>, a: seq<T>, b: seq<T>) {
    size(a + b) == Plus(size(a), size(b))
  }

  ghost predicate Additive<T(!new)>(size: seq<T> -> Option<nat>) {
    forall a: seq<T>, b: seq<T> :: AddsUp(size, a, b)
  }

  lemma SizeAddsUp<T>(c: Codec<T>, a: seq<T>, b: seq<T>)
    ensures SizeOf(c, a + b) == Plus(SizeOf(c, a), SizeOf(c, b))
  {
    EncodeListAppend(c, a, b);
  }

  lemma SizeAdditive<T(!new)>(c: Codec<T>)
    ensures Additive((xs: seq<T>) => SizeOf(c, xs))
  {
    var size := (xs: seq<T>) => SizeOf(c, xs);
    forall a: seq<T>, b: seq<T> ensures AddsUp(size, a, b) {
      SizeAddsUp(c, a, b);
    }
  }
}
