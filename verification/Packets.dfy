/** SUBSCRIBE, UNSUBSCRIBE, SUBACK, the PUBACK family and DISCONNECT (sections 3.4 to 3.10 and 3.14 of MQTT 5.0). */
module Packets {
  import opened Basics
  import opened Varint
  import opened Fields
  import opened Codecs
  import opened PropertySets
  import opened Wires
  import opened PropertyBlocks
  import opened Frames

  /**
   A `Packet` of the kinds covered. An acknowledgement names its type twice: by the variant it is in,
   and by a field of its own, which is `None` here if it is none of the four types.
   */
  datatype AnyPacket =
    | Subscribe(request: Listing<Filter>)
    | UnSubscribe(topics: Listing<Bytes>)
    | SubAck(granted: Listing<SubAckCode>)
    | Ack(tag: AckType, packetType: Option<AckType>, packetId: U16, code: ReasonCode, properties: Option<Props>)
    | Disconnect(reason: DisconnectCode, properties: Option<Props>)

  /** Each packet's property struct has fields for its own properties only. */
  predicate Representable(p: AnyPacket) {
    match p
    case Subscribe(l) => BlockHolds(OfSubscribe, l.properties)
    case UnSubscribe(l) => BlockHolds(OfUnSubscribe, l.properties)
    case SubAck(l) => BlockHolds(OfSubAck, l.properties)
    case Ack(_, _, _, _, o) => BlockHolds(OfPub, o)
    case Disconnect(_, o) => BlockHolds(OfDisconnect, o)
  }

  type Packet = p: AnyPacket | Representable(p) witness Disconnect(0, None)

  /** `Subscribe::validate`, for one filter. */
  predicate ValidOption(f: Filter) {
    f.opt < 64 && f.opt / 16 % 4 != 3 && f.opt % 4 != 3
  }

  predicate ValidOptions(l: Listing<Filter>) {
    forall i :: 0 <= i < |l.items| ==> ValidOption(l.items[i])
  }

  /** `Pub::validate`. */
  predicate AckAllows(t: AckType, code: ReasonCode) {
    match t
    case PubAck => code in {0x00, 0x10, 0x80, 0x83, 0x87, 0x90, 0x91, 0x92, 0x97, 0x99}
    case PubRec => code in {0x00, 0x10, 0x80, 0x83, 0x87, 0x90, 0x91, 0x92, 0x97, 0x99}
    case PubRel => code in {0x00, 0x92}
    case PubComp => code in {0x00, 0x92}
  }

  // ---------------------------------------------------------------------------- decoding

  function ReadSubscribe(w: Wire, s: Bytes, remaining: nat): Result<Packet> {
    var l :- DecodeBody(w, w.filter, OfSubscribe, MalformedPacket, s, remaining);
    if ValidOptions(l) then Ok(Subscribe(l)) else Err(MalformedPacket)
  }

  function ReadUnSubscribe(w: Wire, s: Bytes, remaining: nat): Result<Packet> {
    var l :- DecodeBody(w, w.topic, OfUnSubscribe, ProtocolError, s, remaining);
    Ok(UnSubscribe(l))
  }

  function ReadSubAck(w: Wire, s: Bytes, remaining: nat): Result<Packet> {
    var l :- DecodeBody(w, w.granted, OfSubAck, MalformedPacket, s, remaining);
    Ok(SubAck(l))
  }

  /** A length of two stands for success without properties, one of three for a code without properties. */
  function ReadAckFields(w: Wire, s: Bytes, remaining: nat): Result<(U16, ReasonCode, Option<Props>, nat)> {
    var (id, m) :- w.word.decode(s);
    if remaining == 2 then Ok((id, 0, None, m))
    else
      var (code, n) :- w.reason.decode(After(s, m));
      if remaining == 3 then Ok((id, code, None, m + n))
      else
        var (props, r) :- DecodeBlock(w, OfPub, After(After(s, m), n));
        Ok((id, code, props, m + n + r))
  }

  function ReadAck(w: Wire, t: AckType, s: Bytes, remaining: nat): Result<(Packet, nat)> {
    var (id, code, props, n) :- ReadAckFields(w, s, remaining);
    if AckAllows(t, code) then Ok((Ack(t, Some(t), id, code, props), n)) else Err(MalformedPacket)
  }

  /** No length stands for a normal disconnection, one of one for a code without properties. */
  function ReadDisconnect(w: Wire, s: Bytes, remaining: nat): Result<(Packet, nat)> {
    if remaining == 0 then Ok((Disconnect(0, None), 0))
    else
      var (code, n) :- w.leaving.decode(s);
      if remaining < 2 then Ok((Disconnect(code, None), n))
      else
        var (props, r) :- DecodeBlock(w, OfDisconnect, After(s, n));
        Ok((Disconnect(code, props), n + r))
  }

  /** `p` took in all that remained. */
  function Filling(p: Result<Packet>, remaining: nat): Result<(Packet, nat)> {
    if p.Ok? then Ok((p.value, remaining)) else Err(p.kind)
  }

  /** What is behind the header. The first three kinds take in what the header says, the others what they read. */
  function ReadPacket(w: Wire, h: Header, s: Bytes): Result<(Packet, nat)> {
    match h.kind
    case SubscribeKind => Filling(ReadSubscribe(w, s, h.remaining), h.remaining)
    case UnSubscribeKind => Filling(ReadUnSubscribe(w, s, h.remaining), h.remaining)
    case SubAckKind => Filling(ReadSubAck(w, s, h.remaining), h.remaining)
    case AckKind(t) => ReadAck(w, t, s, h.remaining)
    case DisconnectKind => ReadDisconnect(w, s, h.remaining)
    case OtherKind => Err(OutOfModel)
  }

  function Reading(w: Wire): (Header, Bytes) -> Result<(Packet, nat)> {
    (h: Header, s: Bytes) => ReadPacket(w, h, s)
  }

  /** `Packet::decode`. */
  function DecodePacket(w: Wire, s: Bytes): Result<(Packet, Size)> {
    DecodeFramed(w, Reading(w), s)
  }

  lemma FramedHasKind(w: Wire, s: Bytes)
    ensures DecodePacket(w, s).Ok? ==> w.kind.decode(s).Ok?
  {
  }

  // ---------------------------------------------------------------------------- encoding

  function AckBody(w: Wire, id: U16, code: ReasonCode, o: Option<Props>): Result<Bytes> {
    var word :- w.word.encode(id);
    var c :- w.reason.encode(code);
    var block :- EncodeBlock(w, o);
    Ok(word + (c + block))
  }

  function DisconnectBody(w: Wire, code: DisconnectCode, o: Option<Props>): Result<Bytes> {
    var c :- w.leaving.encode(code);
    var block :- EncodeBlock(w, o);
    Ok(c + block)
  }

  /** What goes behind the header. Only SUBSCRIBE is validated first. */
  function PacketBody(w: Wire, p: Packet): Result<Bytes> {
    match p
    case Subscribe(l) =>
      if l.items == [] then Err(ProtocolError)
      else if !ValidOptions(l) then Err(MalformedPacket)
      else EncodeBody(w, w.filter, l)
    case UnSubscribe(l) => EncodeBody(w, w.topic, l)
    case SubAck(l) => EncodeBody(w, w.granted, l)
    case Ack(_, _, id, code, o) => AckBody(w, id, code, o)
    case Disconnect(code, o) => DisconnectBody(w, code, o)
  }

  function KindOf(p: Packet): Kind {
    match p
    case Subscribe(_) => SubscribeKind
    case UnSubscribe(_) => UnSubscribeKind
    case SubAck(_) => SubAckKind
    case Ack(_, t, _, _, _) => if t.Some? then AckKind(t.value) else OtherKind
    case Disconnect(_, _) => DisconnectKind
  }

  /** `Packet::encode`. */
  function EncodePacket(w: Wire, p: Packet): Result<Bytes> {
    var body :- PacketBody(w, p);
    Framed(w, KindOf(p), body)
  }

  // -------------------------------------------------------------------------- round trip

  predicate ZeroId(o: Option<Props>) {
    o.Some? && o.value.subscriptionId == Some(0)
  }

  /** Where not, `decode` turns away or changes what `encode` accepts. */
  predicate Faithful(p: Packet) {
    match p
    case Subscribe(l) => !ZeroId(l.properties)
    case UnSubscribe(l) => l.items != []
    case SubAck(l) => l.items != []
    case Ack(tag, t, _, code, _) => t == Some(tag) && AckAllows(tag, code)
    case Disconnect(_, _) => true
  }

  /** The acknowledgement filed under the type that its own field names. */
  function Refiled(p: Packet): Packet {
    if p.Ack? && p.packetType.Some? then p.(tag := p.packetType.value) else p
  }

  /** With an empty block of properties read back as none. */
  function NormalPacket(p: Packet): Packet {
    match p
    case Subscribe(l) => Subscribe(NormalListing(l))
    case UnSubscribe(l) => UnSubscribe(NormalListing(l))
    case SubAck(l) => SubAck(NormalListing(l))
    case Ack(tag, t, id, code, o) => Ack(tag, t, id, code, Normal(o))
    case Disconnect(code, o) => Disconnect(code, Normal(o))
  }

  lemma CodeRoundTrip(w: Wire, code: ReasonCode, o: Option<Props>, rest: Bytes)
    requires Readable(w) && EncodeBlock(w, o).Ok?
    ensures var c, block := w.reason.encode(code).value, EncodeBlock(w, o).value;
            var s := c + (block + rest);
            && w.reason.decode(s) == Ok((code, 1)) && After(s, 1) == block + rest && |block| > 0
            && (if BlockFits(OfPub, o) then DecodeBlock(w, OfPub, After(s, 1)) == Ok((Normal(o), |block|))
                else DecodeBlock(w, OfPub, After(s, 1)).Err?)
  {
    BlockRoundTrip(w, OfPub, o, rest);
    Read(w.reason, code, EncodeBlock(w, o).value + rest);
  }

  lemma AckFieldsRoundTrip(w: Wire, id: U16, code: ReasonCode, o: Option<Props>, rest: Bytes)
    requires Readable(w) && AckBody(w, id, code, o).Ok?
    ensures var b := AckBody(w, id, code, o).value;
            if BlockFits(OfPub, o) then ReadAckFields(w, b + rest, |b|) == Ok((id, code, Normal(o), |b|))
            else ReadAckFields(w, b + rest, |b|).Err?
  {
    var word, c, block := w.word.encode(id).value, w.reason.encode(code).value, EncodeBlock(w, o).value;
    var s := word + (c + (block + rest));
    Reassociated(word, c, block, rest);
    Read(w.word, id, c + (block + rest));
    CodeRoundTrip(w, code, o, rest);
    ReadAllFields(w, s, 3 + |block|, id, code);
  }

  lemma Reassociated(a: Bytes, b: Bytes, c: Bytes, d: Bytes)
    ensures a + (b + c) + d == a + (b + (c + d)) && |a + (b + c)| == |a| + |b| + |c|
  {
  }

  lemma ReadAllFields(w: Wire, s: Bytes, remaining: nat, id: U16, code: ReasonCode)
    requires remaining > 3 && w.word.decode(s) == Ok((id, 2)) && w.reason.decode(After(s, 2)) == Ok((code, 1))
    ensures var r := DecodeBlock(w, OfPub, After(After(s, 2), 1));
            ReadAckFields(w, s, remaining) ==
            if r.Ok? then Ok((id, code, r.value.0, 3 + r.value.1)) else Err(r.kind)
  {
  }

  lemma DisconnectRoundTrip(w: Wire, code: DisconnectCode, o: Option<Props>, rest: Bytes)
    requires Readable(w) && DisconnectBody(w, code, o).Ok?
    ensures var b := DisconnectBody(w, code, o).value;
            if BlockFits(OfDisconnect, o)
            then ReadDisconnect(w, b + rest, |b|) == Ok((Disconnect(code, Normal(o)), |b|))
            else ReadDisconnect(w, b + rest, |b|).Err?
  {
    var c, block := w.leaving.encode(code).value, EncodeBlock(w, o).value;
    BlockRoundTrip(w, OfDisconnect, o, rest);
    assert c + block + rest == c + (block + rest);
    Read(w.leaving, code, block + rest);
  }

  /** What decoding is to make of an encoded packet of `n` bytes. */
  ghost predicate ComesBack(p: Packet, r: Result<(Packet, nat)>, n: nat) {
    if Faithful(Refiled(p)) then r == Ok((NormalPacket(Refiled(p)), n)) else r.Err?
  }

  lemma ListsComeBack(w: Wire, p: Packet, rest: Bytes)
    requires Readable(w) && PacketBody(w, p).Ok? && (p.Subscribe? || p.UnSubscribe? || p.SubAck?)
    ensures var b := PacketBody(w, p).value; ComesBack(p, ReadPacket(w, Header(KindOf(p), |b|), b + rest), |b|)
  {
    match p {
      case Subscribe(l) => BodyRoundTrip(w, w.filter, OfSubscribe, MalformedPacket, l, rest);
      case UnSubscribe(l) => BodyRoundTrip(w, w.topic, OfUnSubscribe, ProtocolError, l, rest);
      case SubAck(l) => BodyRoundTrip(w, w.granted, OfSubAck, MalformedPacket, l, rest);
    }
  }

  lemma AckComesBack(w: Wire, p: Packet, rest: Bytes)
    requires Readable(w) && PacketBody(w, p).Ok? && p.Ack?
    ensures var b := PacketBody(w, p).value; ComesBack(p, ReadPacket(w, Header(KindOf(p), |b|), b + rest), |b|)
  {
    AckFieldsRoundTrip(w, p.packetId, p.code, p.properties, rest);
  }

  lemma ReadRoundTrip(w: Wire, p: Packet, rest: Bytes)
    requires Readable(w) && PacketBody(w, p).Ok?
    ensures var b := PacketBody(w, p).value; ComesBack(p, ReadPacket(w, Header(KindOf(p), |b|), b + rest), |b|)
  {
    match p {
      case Ack(_, _, _, _, _) => AckComesBack(w, p, rest);
      case Disconnect(code, o) => DisconnectRoundTrip(w, code, o, rest);
      case _ => ListsComeBack(w, p, rest);
    }
  }

  /** `read` does what `ReadPacket` does. */
  predicate ReadsAt(w: Wire, read: (Header, Bytes) -> Result<(Packet, nat)>, h: Header, s: Bytes) {
    read(h, s) == ReadPacket(w, h, s)
  }

  lemma BodyComesBack(w: Wire, read: (Header, Bytes) -> Result<(Packet, nat)>, p: Packet, rest: Bytes)
    requires Readable(w) && PacketBody(w, p).Ok?
    requires forall h, s :: ReadsAt(w, read, h, s)
    ensures var b := PacketBody(w, p).value; ComesBack(p, read(Header(KindOf(p), |b|), b + rest), |b|)
  {
    var body := PacketBody(w, p).value;
    ReadRoundTrip(w, p, rest);
    assert ReadsAt(w, read, Header(KindOf(p), |body|), body + rest);
  }

  lemma FramedRoundTrip(w: Wire, read: (Header, Bytes) -> Result<(Packet, nat)>, p: Packet, rest: Bytes)
    requires Readable(w) && EncodePacket(w, p).Ok?
    requires forall h, s :: ReadsAt(w, read, h, s)
    ensures var b := EncodePacket(w, p).value; ComesBack(p, DecodeFramed(w, read, b + rest), |b|)
  {
    BodyComesBack(w, read, p, rest);
    FrameRoundTrip(w, read, KindOf(p), PacketBody(w, p).value, rest);
  }

  /**
   What decoding makes of every encoded packet, whatever follows: an acknowledgement comes back under the
   type its own field names, an unfaithful packet is refused, and all else comes back as it was.
   */
  lemma PacketRoundTrip(w: Wire, p: Packet, rest: Bytes)
    requires Readable(w) && EncodePacket(w, p).Ok?
    ensures var b := EncodePacket(w, p).value; ComesBack(p, DecodePacket(w, b + rest), |b|)
  {
    FramedRoundTrip(w, Reading(w), p, rest);
  }

  /** So it comes back as it was exactly if it is faithful. */
  lemma FaithfulIff(w: Wire, p: Packet, rest: Bytes)
    requires Readable(w) && EncodePacket(w, p).Ok?
    ensures var b := EncodePacket(w, p).value;
            DecodePacket(w, b + rest) == Ok((NormalPacket(p), |b|)) <==> Faithful(p)
  {
    PacketRoundTrip(w, p, rest);
  }

  /** The codec of packets as `Packet::encode` and `Packet::decode` make it. */
  function Coding(w: Wire): Codec<Packet> {
    Codec(p => EncodePacket(w, p), s => DecodePacket(w, s))
  }

  lemma FaithfulReadsBack(w: Wire, p: Packet, rest: Bytes)
    requires Readable(w) && Faithful(p)
    ensures ReadsBack(Coding(w), NormalPacket, p, rest)
  {
    if EncodePacket(w, p).Ok? {
      FaithfulIff(w, p, rest);
    }
  }

  /** A stream of packets, decoded one at a time, gives back the packets and is taken in to its end. */
  lemma StreamRoundTrip(w: Wire, ps: seq<Packet>, rest: Bytes)
    requires Readable(w) && EncodeList(Coding(w), ps).Ok?
    requires forall i :: 0 <= i < |ps| ==> Faithful(ps[i])
    ensures var b := EncodeList(Coding(w), ps).value;
            DecodeList(Coding(w), b + rest, |b|) == (Each(NormalPacket, ps), Ok(|b|))
  {
    forall i, more: Bytes | 0 <= i < |ps| ensures ReadsBack(Coding(w), NormalPacket, ps[i], more) {
      FaithfulReadsBack(w, ps[i], more);
    }
    NormalRoundTrip(Coding(w), NormalPacket, ps, rest);
  }

  // ------------------------------------------------------------- encoding what was decoded

  predicate IsListing(p: Packet) {
    p.Subscribe? || p.UnSubscribe? || p.SubAck?
  }

  /** An acknowledgement is written in full, which takes up to two bytes more than it was read from. */
  lemma AckReencodes(w: Wire, s: Bytes, remaining: nat)
    requires Sound(w) && ReadAckFields(w, s, remaining).Ok?
    ensures var (id, code, o, n) := ReadAckFields(w, s, remaining).value;
            && Normal(o) == o && n <= |s|
            && AckBody(w, id, code, o).Ok? && Slightly(|AckBody(w, id, code, o).value|, n)
  {
    assert ReencodesAt(w.word, s);
    if remaining != 2 {
      var m := w.word.decode(s).value.1;
      assert ReencodesAt(w.reason, After(s, m));
      if remaining != 3 {
        BlockReencodes(w, OfPub, After(After(s, m), w.reason.decode(After(s, m)).value.1));
      }
    }
  }

  /** At most as many bytes, or two more of the least. */
  predicate Slightly(size: nat, n: nat) {
    size <= n || (size <= 4 && size <= n + 2)
  }

  lemma DisconnectReencodes(w: Wire, s: Bytes, remaining: nat)
    requires Sound(w) && ReadDisconnect(w, s, remaining).Ok?
    ensures var (p, n) := ReadDisconnect(w, s, remaining).value;
            && p.Disconnect? && Normal(p.properties) == p.properties && n <= |s|
            && DisconnectBody(w, p.reason, p.properties).Ok?
            && Slightly(|DisconnectBody(w, p.reason, p.properties).value|, n)
  {
    if remaining != 0 {
      assert ReencodesAt(w.leaving, s);
      if remaining >= 2 {
        BlockReencodes(w, OfDisconnect, After(s, w.leaving.decode(s).value.1));
      }
    }
  }

  /** What was read is faithful and in normal form, and its body takes no more bytes, but for a short form. */
  lemma ReadReencodes(w: Wire, h: Header, s: Bytes)
    requires Sound(w) && ReadPacket(w, h, s).Ok?
    ensures var (p, n) := ReadPacket(w, h, s).value;
            && Faithful(p) && NormalPacket(p) == p && KindOf(p) == h.kind != OtherKind
            && n <= |s| && PacketBody(w, p).Ok? && Slightly(|PacketBody(w, p).value|, n)
            && (IsListing(p) ==> n == h.remaining && |PacketBody(w, p).value| <= n)
  {
    match h.kind {
      case SubscribeKind => BodyReencodes(w, w.filter, OfSubscribe, MalformedPacket, s, h.remaining);
      case UnSubscribeKind => BodyReencodes(w, w.topic, OfUnSubscribe, ProtocolError, s, h.remaining);
      case SubAckKind => BodyReencodes(w, w.granted, OfSubAck, MalformedPacket, s, h.remaining);
      case AckKind(_) => AckReencodes(w, s, h.remaining);
      case DisconnectKind => DisconnectReencodes(w, s, h.remaining);
    }
  }

  /**
   The length in the header is that of the packet, read off the header and the length of the properties: for an
   acknowledgement two, three or three and the properties, for a DISCONNECT less than two or one and the
   properties.
   */
  predicate Spans(w: Wire, h: Header, s: Bytes) {
    match h.kind
    case AckKind(_) => h.remaining == 2 || h.remaining == 3 || BlockTakes(w, After(s, 3), h.remaining - 3)
    case DisconnectKind => h.remaining < 2 || BlockTakes(w, After(s, 1), h.remaining - 1)
    case _ => true
  }

  lemma AckSpans(w: Wire, s: Bytes, remaining: nat)
    requires Sound(w) && ReadAckFields(w, s, remaining).Ok?
    ensures ReadAckFields(w, s, remaining).value.3 == remaining <==>
            remaining == 2 || remaining == 3 || BlockTakes(w, After(s, 3), remaining - 3)
  {
    if remaining != 2 && remaining != 3 {
      AfterAfter(s, 2, 1);
      BlockSize(w, OfPub, After(s, 3), remaining - 3);
    }
  }

  lemma DisconnectSpans(w: Wire, s: Bytes, remaining: nat)
    requires Sound(w) && ReadDisconnect(w, s, remaining).Ok?
    ensures ReadDisconnect(w, s, remaining).value.1 == remaining <==>
            remaining < 2 || BlockTakes(w, After(s, 1), remaining - 1)
  {
    if remaining >= 2 {
      BlockSize(w, OfDisconnect, After(s, 1), remaining - 1);
    }
  }

  /** Exactly then as much is taken in as the header says. */
  lemma ReadSpans(w: Wire, h: Header, s: Bytes)
    requires Sound(w) && ReadPacket(w, h, s).Ok?
    ensures ReadPacket(w, h, s).value.1 == h.remaining <==> Spans(w, h, s)
  {
    match h.kind {
      case AckKind(_) => AckSpans(w, s, h.remaining);
      case DisconnectKind => DisconnectSpans(w, s, h.remaining);
      case _ =>
    }
  }

  /** What decodes, by its header. */
  lemma DecodedIs(w: Wire, s: Bytes)
    requires DecodePacket(w, s).Ok?
    ensures DecodeHeader(w, s).Ok?
    ensures var (h, m) := DecodeHeader(w, s).value;
            && ReadPacket(w, h, After(s, m)).Ok?
            && DecodePacket(w, s).value.0 == ReadPacket(w, h, After(s, m)).value.0
            && DecodePacket(w, s).value.1 == m + ReadPacket(w, h, After(s, m)).value.1
  {
  }

  /** It takes in what its header says exactly if the header spans it. */
  lemma SpansIff(w: Wire, s: Bytes)
    requires Sound(w) && DecodePacket(w, s).Ok? && DecodeHeader(w, s).Ok?
    ensures var (h, m) := DecodeHeader(w, s).value;
            DecodePacket(w, s).value.1 == m + h.remaining <==> Spans(w, h, After(s, m))
  {
    DecodedIs(w, s);
    var (h, m) := DecodeHeader(w, s).value;
    ReadSpans(w, h, After(s, m));
  }

  /** It encodes exactly if the length of its body can be written, and then decodes from its encoding. */
  lemma EncodesIff(w: Wire, s: Bytes)
    requires Sound(w) && DecodePacket(w, s).Ok?
    ensures var (p, n) := DecodePacket(w, s).value;
            && n <= |s| && PacketBody(w, p).Ok?
            && (EncodePacket(w, p).Ok? <==> w.number.encode(|PacketBody(w, p).value|).Ok?)
            && (EncodePacket(w, p).Ok? ==>
                  var b := EncodePacket(w, p).value; DecodePacket(w, b) == Ok((p, |b|)))
  {
    DecodedIs(w, s);
    var (h, m) := DecodeHeader(w, s).value;
    HeaderInside(w, s);
    ReadReencodes(w, h, After(s, m));
    var p := DecodePacket(w, s).value.0;
    if EncodePacket(w, p).Ok? {
      var b := EncodePacket(w, p).value;
      FaithfulIff(w, p, []);
      assert b + [] == b;
    }
  }

  /** Where the header spans it, its encoding takes at most two bytes more; a listing is spanned, and takes no more. */
  lemma PacketReencodes(w: Wire, s: Bytes)
    requires Sound(w) && DecodePacket(w, s).Ok? && DecodeHeader(w, s).Ok?
    ensures var ((h, m), (p, n)) := (DecodeHeader(w, s).value, DecodePacket(w, s).value);
            && (Spans(w, h, After(s, m)) ==> EncodePacket(w, p).Ok? && |EncodePacket(w, p).value| <= n + 2)
            && (IsListing(p) ==> Spans(w, h, After(s, m)) && |EncodePacket(w, p).value| <= n)
  {
    DecodedIs(w, s);
    SpansIff(w, s);
    var (h, m) := DecodeHeader(w, s).value;
    ReadReencodes(w, h, After(s, m));
    var (p, n) := DecodePacket(w, s).value;
    if Spans(w, h, After(s, m)) {
      FrameReencodes(w, s, h.kind, PacketBody(w, p).value);
    }
  }

  // -------------------------------------------------------------------------------- panics

  /** SUBSCRIBE, UNSUBSCRIBE or SUBACK whose header gives less than identifier and properties take. */
  predicate Overruns(w: Wire, h: Header, s: Bytes) {
    match h.kind
    case SubscribeKind => LeadOverruns(w, OfSubscribe, s, h.remaining)
    case UnSubscribeKind => LeadOverruns(w, OfUnSubscribe, s, h.remaining)
    case SubAckKind => LeadOverruns(w, OfSubAck, s, h.remaining)
    case _ => false
  }

  lemma ReadPanicsIff(w: Wire, h: Header, s: Bytes)
    requires Unshaken(w)
    ensures Panics(ReadPacket(w, h, s)) <==> Overruns(w, h, s)
  {
    match h.kind {
      case SubscribeKind => BodyPanicsIff(w, w.filter, OfSubscribe, MalformedPacket, s, h.remaining);
      case UnSubscribeKind => BodyPanicsIff(w, w.topic, OfUnSubscribe, ProtocolError, s, h.remaining);
      case SubAckKind => BodyPanicsIff(w, w.granted, OfSubAck, MalformedPacket, s, h.remaining);
      case AckKind(_) => {
        var word := w.word.decode(s);
        if word.Ok? {
          var reason := w.reason.decode(After(s, word.value.1));
          if reason.Ok? {
            BlockCalm(w, OfPub, After(After(s, word.value.1), reason.value.1));
          }
        }
      }
      case DisconnectKind => {
        var code := w.leaving.decode(s);
        if code.Ok? {
          BlockCalm(w, OfDisconnect, After(s, code.value.1));
        }
      }
      case OtherKind =>
    }
  }

  /** `decode` panics on exactly these. */
  lemma PacketPanicsIff(w: Wire, s: Bytes)
    requires Unshaken(w)
    ensures Panics(DecodePacket(w, s)) <==>
            var h := DecodeHeader(w, s); h.Ok? && Overruns(w, h.value.0, After(s, h.value.1))
  {
    var h := DecodeHeader(w, s);
    if h.Ok? {
      ReadPanicsIff(w, h.value.0, After(s, h.value.1));
    }
  }

  /** A string that ends where its header says the packet does is none of them. */
  lemma FramedIsCalm(w: Wire, s: Bytes)
    requires Unshaken(w) && Sound(w)
    requires var h := DecodeHeader(w, s); h.Ok? ==> |s| <= h.value.1 + h.value.0.remaining
    ensures !Panics(DecodePacket(w, s))
  {
    PacketPanicsIff(w, s);
    if DecodeHeader(w, s).Ok? {
      var (h, m) := DecodeHeader(w, s).value;
      HeaderInside(w, s);
      forall owner | DecodeLead(w, owner, After(s, m)).Ok? ensures !LeadOverruns(w, owner, After(s, m), h.remaining) {
        LeadReencodes(w, owner, After(s, m));
      }
    }
  }
}
