/** The fields packets are made of: integers, strings, string pairs, topic filters. */
module Fields {
  import opened Basics
  import opened Topic
  import opened Varint

  type U16 = x: nat | x < 0x1_0000

  // --------------------------------------------------------------------------- integers

  function EncodeU16(x: U16): Bytes {
    [x / 256, x % 256]
  }

  function EncodeU32(x: U32): Bytes {
    [x / 0x100_0000, x / 0x1_0000 % 256, x / 256 % 256, x % 256]
  }

  function BigEndian16(a: Byte, b: Byte): U16 {
    var hi: nat, lo: nat := a, b;
    hi * 256 + lo
  }

  function DecodeU8(s: Bytes): Result<(Byte, Size)> {
    if |s| >= 1 then Ok((s[0], 1)) else Err(InsufficientBytes)
  }

  function DecodeU16(s: Bytes): Result<(U16, Size)> {
    if |s| >= 2 then Ok((BigEndian16(s[0], s[1]), 2)) else Err(InsufficientBytes)
  }

  function DecodeU32(s: Bytes): Result<(U32, Size)> {
    if |s| >= 4 then
      var hi: nat, lo: nat := BigEndian16(s[0], s[1]), BigEndian16(s[2], s[3]);
      Ok((hi * 0x1_0000 + lo, 4))
    else Err(InsufficientBytes)
  }

  lemma U16RoundTrip(x: U16, rest: Bytes)
    ensures DecodeU16(EncodeU16(x) + rest) == Ok((x, 2))
  {
    var s := EncodeU16(x) + rest;
    assert s[0] == x / 256 && s[1] == x % 256;
  }

  lemma U32RoundTrip(x: U32, rest: Bytes)
    ensures DecodeU32(EncodeU32(x) + rest) == Ok((x, 4))
  {
    var s := EncodeU32(x) + rest;
    assert s[0] == x / 0x100_0000 && s[1] == x / 0x1_0000 % 256 && s[2] == x / 256 % 256 && s[3] == x % 256;
    Halves(x);
  }

  lemma Halves(x: U32)
    ensures BigEndian16(x / 0x100_0000, x / 0x1_0000 % 256) == x / 0x1_0000
    ensures BigEndian16(x / 256 % 256, x % 256) == x % 0x1_0000
  {
    var high: nat, low: nat := x / 0x1_0000, x % 0x1_0000;
    HighHalf(high, low);
    LowHalf(high, low);
    assert x == high * 0x1_0000 + low;
  }

  lemma HighHalf(high: nat, low: nat)
    requires low < 0x1_0000
    ensures (high * 0x1_0000 + low) / 0x100_0000 == high / 256
  {
    assert high == high / 256 * 256 + high % 256;
  }

  lemma LowHalf(high: nat, low: nat)
    requires low < 0x1_0000
    ensures (high * 0x1_0000 + low) / 256 == high * 256 + low / 256
    ensures (high * 0x1_0000 + low) / 256 % 256 == low / 256 && (high * 0x1_0000 + low) % 256 == low % 256
  {
    assert low == low / 256 * 256 + low % 256;
  }

  // ---------------------------------------------------------------------------- strings

  predicate Continuation(b: Byte) {
    0x80 <= b < 0xC0
  }

  /**
   Well-formed UTF-8 whose code points `is_valid_utf8_code_point` accepts: no C0 or C1 control
   and no delete. (Surrogates are not well-formed to begin with.)
   */
  predicate ValidText(s: Bytes) {
    if s == [] then true
    else if 0x20 <= s[0] <= 0x7E then ValidText(s[1..])
    else if 0xC2 <= s[0] <= 0xDF then
      && |s| >= 2 && Continuation(s[1]) && (s[0] == 0xC2 ==> s[1] >= 0xA0)
      && ValidText(s[2..])
    else if 0xE0 <= s[0] <= 0xEF then
      && |s| >= 3 && Continuation(s[1]) && Continuation(s[2])
      && (s[0] == 0xE0 ==> s[1] >= 0xA0) && (s[0] == 0xED ==> s[1] < 0xA0)
      && ValidText(s[3..])
    else if 0xF0 <= s[0] <= 0xF4 then
      && |s| >= 4 && Continuation(s[1]) && Continuation(s[2]) && Continuation(s[3])
      && (s[0] == 0xF0 ==> s[1] >= 0x90) && (s[0] == 0xF4 ==> s[1] < 0x90)
      && ValidText(s[4..])
    else false
  }

  /** `u16` length, then the bytes. */
  function LengthPrefixed(s: Bytes): Bytes
    requires |s| < 0x1_0000
  {
    EncodeU16(|s|) + s
  }

  function DecodePrefixed(s: Bytes): (r: Result<(Bytes, Size)>)
    ensures r.Ok? ==> r.value.1 == 2 + |r.value.0| <= |s| && |r.value.0| < 0x1_0000
  {
    var (len, _) :- DecodeU16(s);
    if len + 2 > |s| then Err(InsufficientBytes) else Ok((s[2..2 + len], 2 + len))
  }

  lemma PrefixedRoundTrip(s: Bytes, rest: Bytes)
    requires |s| < 0x1_0000
    ensures DecodePrefixed(LengthPrefixed(s) + rest) == Ok((s, 2 + |s|))
  {
    var b := LengthPrefixed(s) + rest;
    assert b == EncodeU16(|s|) + (s + rest);
    U16RoundTrip(|s|, s + rest);
    assert b[2..2 + |s|] == s;
  }

  /** `String::encode`. */
  function EncodeText(s: Bytes): Result<Bytes> {
    if !ValidText(s) then Err(ProtocolError)
    else if |s| >= 0x1_0000 then Err(ProtocolError)
    else Ok(LengthPrefixed(s))
  }

  /** `String::decode`. */
  function DecodeText(s: Bytes): (r: Result<(Bytes, Size)>)
    ensures r.Ok? ==> r.value.1 == 2 + |r.value.0| <= |s|
  {
    var (text, n) :- DecodePrefixed(s);
    if ValidText(text) then Ok((text, n)) else Err(MalformedPacket)
  }

  lemma TextRoundTrip(s: Bytes, rest: Bytes)
    requires EncodeText(s).Ok?
    ensures DecodeText(EncodeText(s).value + rest) == Ok((s, |EncodeText(s).value|))
  {
    PrefixedRoundTrip(s, rest);
  }

  /** What decodes also encodes, in as many bytes. */
  lemma TextReencodes(s: Bytes)
    requires DecodeText(s).Ok?
    ensures var (text, n) := DecodeText(s).value; EncodeText(text).Ok? && |EncodeText(text).value| == n
  {
  }

  // ------------------------------------------------------------------------------ pairs

  type Pair = (Bytes, Bytes)

  function EncodePair(p: Pair): Result<Bytes> {
    var k :- EncodeText(p.0);
    var v :- EncodeText(p.1);
    Ok(k + v)
  }

  function DecodePair(s: Bytes): (r: Result<(Pair, Size)>)
    ensures r.Ok? ==> r.value.1 <= |s|
  {
    var (k, m) :- DecodeText(s);
    var (v, n) :- DecodeText(s[m..]);
    Ok(((k, v), m + n))
  }

  lemma PairRoundTrip(p: Pair, rest: Bytes)
    requires EncodePair(p).Ok?
    ensures DecodePair(EncodePair(p).value + rest) == Ok((p, |EncodePair(p).value|))
  {
    var k, v := EncodeText(p.0).value, EncodeText(p.1).value;
    var s := EncodePair(p).value + rest;
    assert s == k + (v + rest);
    TextRoundTrip(p.0, v + rest);
    assert s[|k|..] == v + rest;
    TextRoundTrip(p.1, rest);
  }

  lemma PairReencodes(s: Bytes)
    requires DecodePair(s).Ok?
    ensures var (p, n) := DecodePair(s).value; EncodePair(p).Ok? && |EncodePair(p).value| == n
  {
    TextReencodes(s);
    TextReencodes(s[DecodeText(s).value.1..]);
  }

  // ---------------------------------------------------------------------- topic strings

  /** `TopicFilter::encode`. */
  function EncodeFilter(f: Bytes): Result<Bytes> {
    if ValidFilter(f) then EncodeText(f) else Err(MalformedPacket)
  }

  /** `TopicFilter::decode`. */
  function DecodeFilter(s: Bytes): (r: Result<(Bytes, Size)>)
    ensures r.Ok? ==> r.value.1 <= |s|
  {
    var (f, n) :- DecodeText(s);
    if ValidFilter(f) then Ok((f, n)) else Err(MalformedPacket)
  }

  /** `TopicName::decode`. */
  function DecodeName(s: Bytes): (r: Result<(Bytes, Size)>)
    ensures r.Ok? ==> r.value.1 <= |s|
  {
    var (f, n) :- DecodeText(s);
    if ValidName(f) then Ok((f, n)) else Err(MalformedPacket)
  }

  /** `TopicName::encode`. */
  function EncodeName(f: Bytes): Result<Bytes> {
    if ValidName(f) then EncodeText(f) else Err(MalformedPacket)
  }
}
