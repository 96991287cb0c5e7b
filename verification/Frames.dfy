/**
 The fixed header (section 2.1 of MQTT 5.0), and the layout that SUBSCRIBE, UNSUBSCRIBE and SUBACK
 share: a packet identifier, a block of properties and a list.
 */
module Frames {
  import opened Basics
  import opened Varint
  import opened Fields
  import opened Codecs
  import opened PropertySets
  import opened Wires
  import opened PropertyBlocks

  datatype Header = Header(kind: Kind, remaining: nat)

  /** `FixedHeader::decode`. */
  function DecodeHeader(w: Wire, s: Bytes): Result<(Header, Size)> {
    var (kind, m) :- w.kind.decode(s);
    var (remaining, n) :- w.number.decode(After(s, m));
    Ok((Header(kind, remaining), m + n))
  }

  /** The header, and what `read` makes of what is behind it. */
  function DecodeFramed<R>(w: Wire, read: (Header, Bytes) -> Result<(R, nat)>, s: Bytes): Result<(R, Size)> {
    var (h, m) :- DecodeHeader(w, s);
    var (r, n) :- read(h, After(s, m));
    Ok((r, m + n))
  }

  /** `insert_fixed_header`: the header of a body, and the body. */
  function Framed(w: Wire, kind: Kind, body: Bytes): Result<Bytes> {
    var start :- w.kind.encode(kind);
    var len :- w.number.encode(|body|);
    Ok(start + len + body)
  }

  /** A framed body is read as the body is. */
  lemma FrameRoundTrip<R>(w: Wire, read: (Header, Bytes) -> Result<(R, nat)>, kind: Kind, body: Bytes, rest: Bytes)
    requires Readable(w) && Framed(w, kind, body).Ok?
    ensures var b := Framed(w, kind, body).value;
            var r := read(Header(kind, |body|), body + rest);
            && |b| >= |body|
            && (r.Err? ==> DecodeFramed(w, read, b + rest) == Err(r.kind))
            && (r.Ok? ==> DecodeFramed(w, read, b + rest) == Ok((r.value.0, |b| - |body| + r.value.1)))
  {
    var start, len := w.kind.encode(kind).value, w.number.encode(|body|).value;
    var s := Framed(w, kind, body).value + rest;
    assert s == start + (len + (body + rest));
    Read(w.kind, kind, len + (body + rest));
    Read(w.number, |body|, body + rest);
    assert After(s, |start| + |len|) == After(After(s, |start|), |len|);
  }

  /** A header that decodes is at least as long as the one that a body of no more bytes gets, or a very short one. */
  lemma FrameReencodes(w: Wire, s: Bytes, kind: Kind, body: Bytes)
    requires Sound(w) && DecodeHeader(w, s).Ok? && kind != OtherKind
    requires |body| <= DecodeHeader(w, s).value.0.remaining || |body| <= 4
    ensures Framed(w, kind, body).Ok?
    ensures |Framed(w, kind, body).value| <= DecodeHeader(w, s).value.1 + |body|
  {
    var m := w.kind.decode(s).value.1;
    assert ReencodesAt(w.number, After(s, m));
  }

  /** Of the first byte only the kind matters. */
  lemma FramedByKind<R>(w: Wire, read: (Header, Bytes) -> Result<(R, nat)>, s: Bytes, t: Bytes)
    requires s != [] && t != [] && s[1..] == t[1..] && w.kind.decode(s) == w.kind.decode(t)
    ensures DecodeFramed(w, read, s) == DecodeFramed(w, read, t)
  {
    SameTail(s, t);
    var k, h := w.kind.decode(s), DecodeHeader(w, s);
    if k.Ok? {
      assert After(s, k.value.1) == After(t, k.value.1);
      if h.Ok? {
        assert After(s, h.value.1) == After(t, h.value.1);
      }
    }
  }

  lemma SameTail(s: Bytes, t: Bytes)
    requires s != [] && t != [] && s[1..] == t[1..]
    ensures forall m: nat :: m > 0 ==> After(s, m) == After(t, m)
  {
    forall m: nat | m > 0 ensures After(s, m) == After(t, m) {
      assert |s| == |s[1..]| + 1 && |t| == |t[1..]| + 1;
      if m <= |s| {
        assert s[m..] == s[1..][m - 1..] && t[m..] == t[1..][m - 1..];
      }
    }
  }

  lemma HeaderInside(w: Wire, s: Bytes)
    requires Sound(w) && DecodeHeader(w, s).Ok?
    ensures DecodeHeader(w, s).value.1 <= |s|
  {
    assert ReencodesAt(w.number, After(s, w.kind.decode(s).value.1));
  }

  // ------------------------------------------------- packet identifier, properties and list

  datatype Listing<T> = Listing(packetId: U16, properties: Option<Props>, items: seq<T>)

  /** The identifier and the properties. */
  function DecodeLead(w: Wire, owner: Owner, s: Bytes): (r: Result<(U16, Option<Props>, Size)>)
    ensures r.Ok? ==> BlockHolds(owner, r.value.1)
  {
    var (id, m) :- w.word.decode(s);
    var (props, n) :- DecodeBlock(w, owner, After(s, m));
    Ok((id, props, m + n))
  }

  /** The payload takes up what remains of the length, and is not empty. */
  function DecodePayload<T>(c: Codec<T>, s: Bytes, len: int, refusal: ErrorKind): Result<seq<T>> {
    if len == 0 || len > |s| then Err(refusal)
    else if len < 0 then Err(Panic)
    else
      var (xs, r) := DecodeList(c, s[..len], len);
      var _ :- r;
      Ok(xs)
  }

  /** `decode` of SUBSCRIBE, UNSUBSCRIBE and SUBACK behind the header, of which `remaining` bytes are the packet's. */
  function DecodeBody<T>(w: Wire, c: Codec<T>, owner: Owner, refusal: ErrorKind, s: Bytes, remaining: nat)
    : (r: Result<Listing<T>>)
    ensures r.Ok? ==> BlockHolds(owner, r.value.properties)
  {
    var (id, props, n) :- DecodeLead(w, owner, s);
    var xs :- DecodePayload(c, After(s, n), remaining - n, refusal);
    Ok(Listing(id, props, xs))
  }

  function EncodeBody<T>(w: Wire, c: Codec<T>, l: Listing<T>): Result<Bytes> {
    var id :- w.word.encode(l.packetId);
    var block :- EncodeBlock(w, l.properties);
    var payload :- EncodeList(c, l.items);
    Ok(id + block + payload)
  }

  lemma LeadRoundTrip(w: Wire, owner: Owner, id: U16, o: Option<Props>, rest: Bytes)
    requires Readable(w) && w.word.encode(id).Ok? && EncodeBlock(w, o).Ok?
    ensures var b := w.word.encode(id).value + EncodeBlock(w, o).value;
            && After(b + rest, |b|) == rest
            && (if BlockFits(owner, o) then DecodeLead(w, owner, b + rest) == Ok((id, Normal(o), |b|))
                else DecodeLead(w, owner, b + rest).Err?)
  {
    var word, block := w.word.encode(id).value, EncodeBlock(w, o).value;
    WordFirst(word, block, rest);
    Read(w.word, id, block + rest);
    BlockRoundTrip(w, owner, o, rest);
  }

  lemma WordFirst(word: Bytes, block: Bytes, rest: Bytes)
    ensures word + block + rest == word + (block + rest)
    ensures After(word + block + rest, |word + block|) == rest && |word + block| == |word| + |block|
  {
  }

  lemma PayloadRoundTrip<T(!new)>(c: Codec<T>, xs: seq<T>, rest: Bytes, refusal: ErrorKind)
    requires Inverts(c) && EncodeList(c, xs).Ok?
    ensures var payload := EncodeList(c, xs).value;
            DecodePayload(c, payload + rest, |payload|, refusal) == if xs == [] then Err(refusal) else Ok(xs)
  {
    var payload := EncodeList(c, xs).value;
    EncodeListEmpty(c, xs);
    assert (payload + rest)[..|payload|] == payload + [];
    ListRoundTrip(c, xs, []);
  }

  predicate ListingFits<T>(owner: Owner, l: Listing<T>) {
    BlockFits(owner, l.properties) && |l.items| > 0
  }

  function NormalListing<T>(l: Listing<T>): Listing<T> {
    l.(properties := Normal(l.properties))
  }

  /** What decoding makes of an encoded body, whatever follows, in every case. */
  lemma BodyRoundTrip<T(!new)>(w: Wire, c: Codec<T>, owner: Owner, refusal: ErrorKind, l: Listing<T>, rest: Bytes)
    requires Readable(w) && Inverts(c) && EncodeBody(w, c, l).Ok?
    ensures var b := EncodeBody(w, c, l).value;
            var r := DecodeBody(w, c, owner, refusal, b + rest, |b|);
            if ListingFits(owner, l) then r == Ok(NormalListing(l)) else r.Err?
  {
    var payload := EncodeList(c, l.items).value;
    var lead := w.word.encode(l.packetId).value + EncodeBlock(w, l.properties).value;
    assert lead + payload + rest == lead + (payload + rest);
    LeadRoundTrip(w, owner, l.packetId, l.properties, payload + rest);
    PayloadRoundTrip(c, l.items, rest, refusal);
    BodyReads(w, c, owner, refusal, l, lead + (payload + rest), |lead|, |payload|);
  }

  lemma BodyReads<T>(w: Wire, c: Codec<T>, owner: Owner, refusal: ErrorKind, l: Listing<T>, s: Bytes, n: Size, m: nat)
    requires if BlockFits(owner, l.properties)
             then DecodeLead(w, owner, s) == Ok((l.packetId, Normal(l.properties), n))
             else DecodeLead(w, owner, s).Err?
    requires DecodePayload(c, After(s, n), m, refusal) == if l.items == [] then Err(refusal) else Ok(l.items)
    ensures var r := DecodeBody(w, c, owner, refusal, s, n + m);
            if ListingFits(owner, l) then r == Ok(NormalListing(l)) else r.Err?
  {
  }

  lemma LeadReencodes(w: Wire, owner: Owner, s: Bytes)
    requires Sound(w) && DecodeLead(w, owner, s).Ok?
    ensures var (id, o, n) := DecodeLead(w, owner, s).value;
            && BlockFits(owner, o) && Normal(o) == o
            && w.word.encode(id).Ok? && EncodeBlock(w, o).Ok?
            && |w.word.encode(id).value| + |EncodeBlock(w, o).value| <= n <= |s|
  {
    assert ReencodesAt(w.word, s);
    BlockReencodes(w, owner, After(s, w.word.decode(s).value.1));
  }

  lemma PayloadReencodes<T(!new)>(c: Codec<T>, s: Bytes, len: int, refusal: ErrorKind)
    requires Inverts(c) && Reencodes(c) && DecodePayload(c, s, len, refusal).Ok?
    ensures var xs := DecodePayload(c, s, len, refusal).value;
            && |xs| > 0 && EncodeList(c, xs).Ok? && |EncodeList(c, xs).value| <= len <= |s|
  {
    ListReencodes(c, s[..len], len);
  }

  ghost predicate InParts<T>(w: Wire, c: Codec<T>, owner: Owner, refusal: ErrorKind, s: Bytes, remaining: nat,
                              l: Listing<T>)
  {
    var lead := DecodeLead(w, owner, s);
    && lead.Ok? && l.packetId == lead.value.0 && l.properties == lead.value.1
    && DecodePayload(c, After(s, lead.value.2), remaining - lead.value.2, refusal) == Ok(l.items)
  }

  lemma BodyParts<T>(w: Wire, c: Codec<T>, owner: Owner, refusal: ErrorKind, s: Bytes, remaining: nat)
    requires DecodeBody(w, c, owner, refusal, s, remaining).Ok?
    ensures InParts(w, c, owner, refusal, s, remaining, DecodeBody(w, c, owner, refusal, s, remaining).value)
  {
  }

  /** Of `remaining` bytes, `n` are enough for identifier and properties, and the rest for the list. */
  lemma BodySize<T>(w: Wire, c: Codec<T>, l: Listing<T>, n: nat, remaining: nat)
    requires w.word.encode(l.packetId).Ok? && EncodeBlock(w, l.properties).Ok? && EncodeList(c, l.items).Ok?
    requires |w.word.encode(l.packetId).value| + |EncodeBlock(w, l.properties).value| <= n
    requires |EncodeList(c, l.items).value| <= remaining - n
    ensures EncodeBody(w, c, l).Ok? && |EncodeBody(w, c, l).value| <= remaining
  {
  }

  lemma PartsReencode<T(!new)>(w: Wire, c: Codec<T>, owner: Owner, refusal: ErrorKind, s: Bytes, remaining: nat,
                               l: Listing<T>)
    requires Sound(w) && Inverts(c) && Reencodes(c) && InParts(w, c, owner, refusal, s, remaining, l)
    ensures ListingFits(owner, l) && NormalListing(l) == l
    ensures EncodeBody(w, c, l).Ok? && |EncodeBody(w, c, l).value| <= remaining <= |s|
  {
    var n := DecodeLead(w, owner, s).value.2;
    LeadOf(w, owner, s, l.packetId, l.properties, n);
    PayloadReencodes(c, After(s, n), remaining - n, refusal);
    BodySize(w, c, l, n, remaining);
  }

  lemma LeadOf(w: Wire, owner: Owner, s: Bytes, id: U16, o: Option<Props>, n: Size)
    requires Sound(w) && DecodeLead(w, owner, s) == Ok((id, o, n))
    ensures BlockFits(owner, o) && Normal(o) == o && w.word.encode(id).Ok? && EncodeBlock(w, o).Ok?
    ensures |w.word.encode(id).value| + |EncodeBlock(w, o).value| <= n <= |s|
  {
    LeadReencodes(w, owner, s);
  }

  /** A body that decodes is fit to be encoded again, and takes no more bytes then. */
  lemma BodyReencodes<T(!new)>(w: Wire, c: Codec<T>, owner: Owner, refusal: ErrorKind, s: Bytes, remaining: nat)
    requires Sound(w) && Inverts(c) && Reencodes(c) && DecodeBody(w, c, owner, refusal, s, remaining).Ok?
    ensures var l := DecodeBody(w, c, owner, refusal, s, remaining).value;
            && ListingFits(owner, l) && NormalListing(l) == l
            && EncodeBody(w, c, l).Ok? && |EncodeBody(w, c, l).value| <= remaining <= |s|
  {
    BodyParts(w, c, owner, refusal, s, remaining);
    PartsReencode(w, c, owner, refusal, s, remaining, DecodeBody(w, c, owner, refusal, s, remaining).value);
  }

  lemma LeadCalm(w: Wire, owner: Owner, s: Bytes)
    requires Unshaken(w)
    ensures !Panics(DecodeLead(w, owner, s))
  {
    if w.word.decode(s).Ok? {
      BlockCalm(w, owner, After(s, w.word.decode(s).value.1));
    }
  }

  /** Identifier and properties reach beyond the length that the header gives. */
  predicate LeadOverruns(w: Wire, owner: Owner, s: Bytes, remaining: nat) {
    DecodeLead(w, owner, s).Ok? && remaining < DecodeLead(w, owner, s).value.2
  }

  lemma PayloadPanicsIff<T(!new)>(c: Codec<T>, s: Bytes, len: int, refusal: ErrorKind)
    requires Calm(c) && refusal != Panic
    ensures Panics(DecodePayload(c, s, len, refusal)) <==> len < 0
  {
    if 0 < len <= |s| {
      ListCalm(c, s[..len], len);
    }
  }

  lemma BodyPanics<T(!new)>(w: Wire, c: Codec<T>, owner: Owner, refusal: ErrorKind, s: Bytes, remaining: nat)
    ensures var lead := DecodeLead(w, owner, s);
            Panics(DecodeBody(w, c, owner, refusal, s, remaining)) <==>
            if lead.Ok? then Panics(DecodePayload(c, After(s, lead.value.2), remaining - lead.value.2, refusal))
            else lead.kind == Panic
  {
  }

  /** The slice for the payload is out of range exactly if they do. */
  lemma BodyPanicsIff<T(!new)>(w: Wire, c: Codec<T>, owner: Owner, refusal: ErrorKind, s: Bytes, remaining: nat)
    requires Unshaken(w) && Calm(c) && refusal != Panic
    ensures Panics(DecodeBody(w, c, owner, refusal, s, remaining)) <==> LeadOverruns(w, owner, s, remaining)
  {
    LeadCalm(w, owner, s);
    BodyPanics(w, c, owner, refusal, s, remaining);
    var lead := DecodeLead(w, owner, s);
    if lead.Ok? {
      PayloadPanicsIff(c, After(s, lead.value.2), remaining - lead.value.2, refusal);
    }
  }

  // ------------------------------------------------------------------- as the code has it

  method DecodeBlockLoop(w: Wire, owner: Owner, s: Bytes) returns (r: Result<(Option<Props>, Size)>)
    requires Reencodes(w.number) && Reencodes(w.property)
    ensures r == DecodeBlock(w, owner, s)
  {
    var header :- w.number.decode(s);
    var (p, m) := header;
    if p == 0 {
      return Ok((None, m));
    }
    var block :- DecodePropsLoop(w, owner, s);
    if block.1 == m + p {
      return Ok((Some(block.0), block.1));
    }
    return Err(ProtocolError);
  }

  method DecodeLeadLoop(w: Wire, owner: Owner, s: Bytes) returns (r: Result<(U16, Option<Props>, Size)>)
    requires Reencodes(w.number) && Reencodes(w.property)
    ensures r == DecodeLead(w, owner, s)
  {
    var id :- w.word.decode(s);
    var block :- DecodeBlockLoop(w, owner, After(s, id.1));
    return Ok((id.0, block.0, id.1 + block.1));
  }

  method DecodePayloadLoop<T(!new)>(c: Codec<T>, s: Bytes, len: int, refusal: ErrorKind) returns (r: Result<seq<T>>)
    requires Reencodes(c)
    ensures r == DecodePayload(c, s, len, refusal)
  {
    if len == 0 || len > |s| {
      return Err(refusal);
    }
    if len < 0 {
      return Err(Panic);
    }
    r := DecodeListLoop(c, s[..len]);
  }

  /** `decode` of SUBSCRIBE, UNSUBSCRIBE and SUBACK, with its two loops. */
  method DecodeBodyLoop<T(!new)>(w: Wire, c: Codec<T>, owner: Owner, refusal: ErrorKind, s: Bytes, remaining: nat)
    returns (r: Result<Listing<T>>)
    requires Reencodes(w.number) && Reencodes(w.property) && Reencodes(c)
    ensures r == DecodeBody(w, c, owner, refusal, s, remaining)
  {
    var lead :- DecodeLeadLoop(w, owner, s);
    var (id, props, n) := lead;
    var xs :- DecodePayloadLoop(c, After(s, n), remaining - n, refusal);
    return Ok(Listing(id, props, xs));
  }

  /** `encode` of SUBSCRIBE, UNSUBSCRIBE and SUBACK, with its two loops and the header inserted at the end. */
  method EncodeFramedLoop<T>(w: Wire, c: Codec<T>, kind: Kind, l: Listing<T>) returns (r: Result<Bytes>)
    ensures var body := EncodeBody(w, c, l); r == if body.Ok? then Framed(w, kind, body.value) else body
  {
    var data :- w.word.encode(l.packetId);
    if l.properties.Some? {
      var block :- EncodePropsLoop(w, l.properties.value);
      data := data + block;
    } else {
      var block :- w.number.encode(0);
      data := data + block;
    }
    var payload :- EncodeListLoop(c, l.items);
    data := data + payload;
    var start :- w.kind.encode(kind);
    var len :- w.number.encode(|data|);
    var out := InsertFront(start + len, data);
    return Ok(out);
  }
}
