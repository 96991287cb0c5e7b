/** The codecs of MQTT 5.0 themselves, and what follows for its packets. */
module WireFormat {
  import opened Basics
  import opened Varint
  import opened Fields
  import opened Codecs
  import opened Properties
  import opened Wires
  import opened Frames
  import opened Packets

  // --------------------------------------------------------------------------- first byte

  function TypeOf(byte1: Byte): nat {
    byte1 / 16
  }

  /**
   `FixedHeader::validate`. The flags of PUBREL, SUBSCRIBE and UNSUBSCRIBE are to be 0010, but 0000
   gets through as well.
   */
  predicate ValidByte(byte1: Byte) {
    && byte1 / 2 % 4 != 3 && TypeOf(byte1) != 0
    && (|| TypeOf(byte1) == 3
        || byte1 % 16 == 0
        || ((TypeOf(byte1) == 6 || TypeOf(byte1) == 8 || TypeOf(byte1) == 10) && byte1 % 16 == 2))
  }

  /** Section 2.1.3 of MQTT 5.0: the flags of every type but PUBLISH are fixed. */
  predicate StandardByte(byte1: Byte) {
    match TypeOf(byte1)
    case 0 => false
    case 3 => byte1 / 2 % 4 != 3
    case 6 | 8 | 10 => byte1 % 16 == 2
    case _ => byte1 % 16 == 0
  }

  /** `validate` accepts what the standard does, and PUBREL, SUBSCRIBE and UNSUBSCRIBE without their flag. */
  lemma ValidByteIff(byte1: Byte)
    ensures ValidByte(byte1) <==> StandardByte(byte1) || byte1 in {0x60, 0x80, 0xA0}
  {
    ByteParts(byte1);
  }

  lemma ByteParts(byte1: Byte)
    ensures byte1 in {0x60, 0x80, 0xA0} <==> byte1 % 16 == 0 && TypeOf(byte1) in {6, 8, 10}
    ensures byte1 % 16 == 0 ==> byte1 / 2 % 4 == 0
    ensures byte1 % 16 == 2 ==> byte1 / 2 % 4 == 1
  {
    assert byte1 == 16 * (byte1 / 16) + byte1 % 16;
    if byte1 % 16 == 0 {
      assert byte1 / 2 == 8 * (byte1 / 16);
    } else if byte1 % 16 == 2 {
      assert byte1 / 2 == 8 * (byte1 / 16) + 1;
    }
  }

  function KindOfType(t: nat): Kind {
    match t
    case 4 => AckKind(PubAck)
    case 5 => AckKind(PubRec)
    case 6 => AckKind(PubRel)
    case 7 => AckKind(PubComp)
    case 8 => SubscribeKind
    case 9 => SubAckKind
    case 10 => UnSubscribeKind
    case 14 => DisconnectKind
    case _ => OtherKind
  }

  function DecodeKind(s: Bytes): Result<(Kind, Size)> {
    if s == [] then Err(InsufficientBytes)
    else if !ValidByte(s[0]) then Err(MalformedPacket)
    else Ok((KindOfType(TypeOf(s[0])), 1))
  }

  /** The first byte that `FixedHeader::new` and its siblings make. */
  function EncodeKind(k: Kind): Result<Bytes> {
    match k
    case SubscribeKind => Ok([0x82])
    case UnSubscribeKind => Ok([0xA2])
    case SubAckKind => Ok([0x90])
    case AckKind(PubAck) => Ok([0x40])
    case AckKind(PubRec) => Ok([0x50])
    case AckKind(PubRel) => Ok([0x62])
    case AckKind(PubComp) => Ok([0x70])
    case DisconnectKind => Ok([0xE0])
    case OtherKind => Err(ProtocolError)
  }

  const KIND: Codec<Kind> := Codec(EncodeKind, DecodeKind)

  lemma KindInverts()
    ensures Inverts(KIND)
  {
    forall k: Kind, rest: Bytes ensures InvertsAt(KIND, k, rest) {
    }
  }

  lemma KindsOneByte()
    ensures OneByte(KIND)
  {
  }

  lemma PropertiesTyped()
    ensures Typed(PROPERTY)
  {
  }

  // ------------------------------------------------------------------- items of the payloads

  /** `SubscribeFilter::encode`. */
  function EncodeItem(f: Filter): Result<Bytes> {
    var topic :- EncodeFilter(f.topic);
    Ok(topic + [f.opt])
  }

  /** `SubscribeFilter::decode`. */
  function DecodeItem(s: Bytes): Result<(Filter, Size)> {
    var (topic, n) :- DecodeFilter(s);
    var (opt, m) :- DecodeU8(s[n..]);
    Ok((Filter(topic, opt), n + m))
  }

  lemma ItemRoundTrip(f: Filter, rest: Bytes)
    requires EncodeItem(f).Ok?
    ensures DecodeItem(EncodeItem(f).value + rest) == Ok((f, |EncodeItem(f).value|))
  {
    var topic := EncodeText(f.topic).value;
    assert topic + [f.opt] + rest == topic + ([f.opt] + rest);
    TextRoundTrip(f.topic, [f.opt] + rest);
    assert (topic + ([f.opt] + rest))[|topic|..] == [f.opt] + rest;
  }

  const ITEM: Codec<Filter> := Codec(EncodeItem, DecodeItem)
  const TOPIC: Codec<Bytes> := Codec(EncodeFilter, DecodeFilter)

  lemma ItemsList()
    ensures Inverts(ITEM) && Reencodes(ITEM)
  {
    forall f: Filter, rest: Bytes ensures InvertsAt(ITEM, f, rest) {
      if EncodeItem(f).Ok? {
        ItemRoundTrip(f, rest);
      }
    }
    forall s: Bytes ensures ReencodesAt(ITEM, s) {
    }
  }

  lemma TopicsList()
    ensures Inverts(TOPIC) && Reencodes(TOPIC)
  {
    forall f: Bytes, rest: Bytes ensures InvertsAt(TOPIC, f, rest) {
      if EncodeFilter(f).Ok? {
        TextRoundTrip(f, rest);
      }
    }
    forall s: Bytes ensures ReencodesAt(TOPIC, s) {
    }
  }

  // ------------------------------------------------------------------------- single bytes

  function DecodeGranted(s: Bytes): Result<(SubAckCode, Size)> {
    var (b, n) :- DecodeU8(s);
    if IsSubAckCode(b) then Ok((b, n)) else Err(MalformedPacket)
  }

  function DecodeReason(s: Bytes): Result<(ReasonCode, Size)> {
    var (b, n) :- DecodeU8(s);
    if IsReasonCode(b) then Ok((b, n)) else Err(MalformedPacket)
  }

  function DecodeLeaving(s: Bytes): Result<(DisconnectCode, Size)> {
    var (b, n) :- DecodeU8(s);
    if IsDisconnectCode(b) then Ok((b, n)) else Err(MalformedPacket)
  }

  const GRANTED: Codec<SubAckCode> := Codec((c: SubAckCode) => Ok([c]), DecodeGranted)
  const REASON: Codec<ReasonCode> := Codec((c: ReasonCode) => Ok([c]), DecodeReason)
  const LEAVING: Codec<DisconnectCode> := Codec((c: DisconnectCode) => Ok([c]), DecodeLeaving)

  lemma CodesList()
    ensures Inverts(GRANTED) && Reencodes(GRANTED)
    ensures Inverts(REASON) && Reencodes(REASON) && Inverts(LEAVING) && Reencodes(LEAVING)
  {
    forall c: SubAckCode, rest: Bytes ensures InvertsAt(GRANTED, c, rest) {
    }
    forall s: Bytes ensures ReencodesAt(GRANTED, s) {
    }
    forall c: ReasonCode, rest: Bytes ensures InvertsAt(REASON, c, rest) {
    }
    forall s: Bytes ensures ReencodesAt(REASON, s) {
    }
    forall c: DisconnectCode, rest: Bytes ensures InvertsAt(LEAVING, c, rest) {
    }
    forall s: Bytes ensures ReencodesAt(LEAVING, s) {
    }
  }

  // ------------------------------------------------------------------------------ numbers

  const NUMBER: Codec<nat> := Codec(EncodeVar, DecodeVar)
  const WORD: Codec<U16> := Codec((x: U16) => Ok(EncodeU16(x)), DecodeU16)

  lemma NumbersList()
    ensures Inverts(NUMBER) && Reencodes(NUMBER)
  {
    forall x: nat, rest: Bytes ensures InvertsAt(NUMBER, x, rest) {
      if x <= VAR_MAX {
        VarRoundTrip(x, rest);
      }
    }
    forall s: Bytes ensures ReencodesAt(NUMBER, s) {
      if DecodeVar(s).Ok? {
        VarMinimal(s);
      }
    }
  }

  lemma WordsList()
    ensures Inverts(WORD) && Reencodes(WORD)
  {
    forall x: U16, rest: Bytes ensures InvertsAt(WORD, x, rest) {
      U16RoundTrip(x, rest);
    }
    forall s: Bytes ensures ReencodesAt(WORD, s) {
    }
  }

  lemma NumbersGrow()
    ensures Growing(NUMBER) && Short(NUMBER)
  {
    forall x: nat, y: nat | x <= y && NUMBER.encode(y).Ok?
      ensures NUMBER.encode(x).Ok? && |NUMBER.encode(x).value| <= |NUMBER.encode(y).value|
    {
      EncodeVarSize(x, y);
    }
  }

  // ---------------------------------------------------------------------------- all together

  const WIRE := Wire(NUMBER, WORD, KIND, PROPERTY, ITEM, TOPIC, GRANTED, REASON, LEAVING)

  lemma WireReadable()
    ensures Readable(WIRE)
  {
    NumbersList();
    WordsList();
    KindInverts();
    PropertiesList();
    ItemsList();
    TopicsList();
    CodesList();
  }

  lemma WireSound()
    ensures Sound(WIRE)
  {
    WireReadable();
    NumbersList();
    WordsList();
    PropertiesList();
    ItemsList();
    TopicsList();
    CodesList();
    NumbersGrow();
    KindsOneByte();
    PropertiesTyped();
    FieldsSized();
  }

  lemma FieldsSized()
    ensures Sized(WORD, 2) && Sized(REASON, 1) && Sized(LEAVING, 1)
  {
  }

  /**
   What `Packet::decode` makes of every packet that `Packet::encode` accepts, whatever follows: an
   acknowledgement comes back under the type its own field names, an unfaithful packet is refused, and
   all else comes back as it was, with exactly its bytes taken in.
   */
  lemma MqttRoundTrip(p: Packet, rest: Bytes)
    requires EncodePacket(WIRE, p).Ok?
    ensures var b := EncodePacket(WIRE, p).value; ComesBack(p, DecodePacket(WIRE, b + rest), |b|)
    ensures var b := EncodePacket(WIRE, p).value;
            DecodePacket(WIRE, b + rest) == Ok((NormalPacket(p), |b|)) <==> Faithful(p)
  {
    WireReadable();
    PacketRoundTrip(WIRE, p, rest);
    FaithfulIff(WIRE, p, rest);
  }

  /** Decoding a stream of faithful packets one at a time gives them back. */
  lemma MqttStream(ps: seq<Packet>, rest: Bytes)
    requires EncodeList(Coding(WIRE), ps).Ok?
    requires forall i :: 0 <= i < |ps| ==> Faithful(ps[i])
    ensures var b := EncodeList(Coding(WIRE), ps).value;
            DecodeList(Coding(WIRE), b + rest, |b|) == (Each(NormalPacket, ps), Ok(|b|))
  {
    WireReadable();
    StreamRoundTrip(WIRE, ps, rest);
  }

  /**
   Whatever decodes takes in what its header says exactly if the header spans it, and encodes again exactly if its
   body is not too long, to bytes that decode to the same. Where the header spans it they are at most two more;
   a SUBSCRIBE, UNSUBSCRIBE or SUBACK is always spanned, and takes no more.
   */
  lemma MqttReencodes(s: Bytes)
    requires DecodePacket(WIRE, s).Ok?
    ensures DecodeHeader(WIRE, s).Ok?
    ensures var ((h, m), (p, n)) := (DecodeHeader(WIRE, s).value, DecodePacket(WIRE, s).value);
            var b, spans := EncodePacket(WIRE, p), Spans(WIRE, h, After(s, m));
            && n <= |s| && PacketBody(WIRE, p).Ok?
            && (n == m + h.remaining <==> spans)
            && (b.Ok? <==> |PacketBody(WIRE, p).value| <= VAR_MAX)
            && (b.Ok? ==> DecodePacket(WIRE, b.value) == Ok((p, |b.value|)))
            && (spans ==> b.Ok? && |b.value| <= n + 2)
            && (IsListing(p) ==> spans && |b.value| <= n)
  {
    WireSound();
    DecodedIs(WIRE, s);
    SpansIff(WIRE, s);
    EncodesIff(WIRE, s);
    PacketReencodes(WIRE, s);
    WritableIff(|PacketBody(WIRE, DecodePacket(WIRE, s).value.0).value|);
  }

  lemma WritableIff(n: nat)
    ensures WIRE.number.encode(n).Ok? <==> n <= VAR_MAX
  {
  }

  lemma ShortFields(rest: Bytes)
    ensures ReadAckFields(WIRE, [0, 1, 0, 0] + rest, 5) == Ok((1, 0, None, 4))
  {
    var s: Bytes := [0, 1, 0, 0] + rest;
    assert After(s, 2) == [0, 0] + rest && After(After(s, 2), 1) == [0] + rest;
    VarRoundTrip(0, rest);
    assert EncodeVar(0) == Ok([0]);
  }

  /** A PUBACK that gives its length as five bytes, of which it takes four. */
  lemma ShortReadExample(rest: Bytes)
    ensures DecodePacket(WIRE, [0x40, 5, 0, 1, 0, 0] + rest) == Ok((Ack(PubAck, Some(PubAck), 1, 0, None), 6))
  {
    var s: Bytes := [0x40, 5, 0, 1, 0, 0] + rest;
    assert After(s, 1) == [5] + ([0, 1, 0, 0] + rest) && After(s, 2) == [0, 1, 0, 0] + rest;
    VarRoundTrip(5, [0, 1, 0, 0] + rest);
    assert EncodeVar(5) == Ok([5]);
    assert DecodeHeader(WIRE, s) == Ok((Header(AckKind(PubAck), 5), 2));
    ShortFields(rest);
  }

  lemma NextPacket()
    ensures DecodePacket(WIRE, [0xE0, 0]) == Ok((Disconnect(0, None), 2))
  {
    var s: Bytes := [0xE0, 0];
    assert After(s, 1) == [0] && [0] + [] == [0];
    VarRoundTrip(0, []);
    assert EncodeVar(0) == Ok([0]);
    assert DecodeHeader(WIRE, s) == Ok((Header(DisconnectKind, 0), 2));
  }

  /** So a stream that goes on with a good packet is misread from there: its next byte is taken for a first byte. */
  lemma MisreadStream()
    ensures DecodePacket(WIRE, [0xE0, 0]).Ok?
    ensures DecodeList(Coding(WIRE), [0x40, 5, 0, 1, 0, 0] + [7, 0xE0, 0], 9) ==
            ([Ack(PubAck, Some(PubAck), 1, 0, None)], Err(MalformedPacket))
  {
    NextPacket();
    ShortReadExample([7, 0xE0, 0]);
    var s: Bytes := [0x40, 5, 0, 1, 0, 0] + [7, 0xE0, 0];
    assert After(s, 6) == [7, 0xE0, 0];
    assert DecodePacket(WIRE, [7, 0xE0, 0]) == Err(MalformedPacket);
    var c := Coding(WIRE);
    assert c.decode(s) == DecodePacket(WIRE, s) && c.decode(After(s, 6)) == DecodePacket(WIRE, After(s, 6));
    DecodeStops(c, s, 9, Ack(PubAck, Some(PubAck), 1, 0, None), 6, MalformedPacket);
  }

  lemma ItemsCalm()
    ensures Calm(PROPERTY) && Calm(ITEM) && Calm(TOPIC)
  {
    forall s: Bytes ensures !Panics(PROPERTY.decode(s)) {
      PropertyCalm(s);
    }
    forall s: Bytes ensures !Panics(ITEM.decode(s)) {
      FilterCalm(s);
    }
    forall s: Bytes ensures !Panics(TOPIC.decode(s)) {
      FilterCalm(s);
    }
  }

  lemma FilterCalm(s: Bytes)
    ensures !Panics(DecodeFilter(s))
  {
  }

  lemma FieldsCalm()
    ensures Calm(NUMBER) && Calm(WORD) && Calm(KIND) && Calm(GRANTED) && Calm(REASON) && Calm(LEAVING)
  {
  }

  lemma WireUnshaken()
    ensures Unshaken(WIRE)
  {
    ItemsCalm();
    FieldsCalm();
  }

  /**
   `Packet::decode` panics exactly on a SUBSCRIBE, UNSUBSCRIBE or SUBACK whose header gives less than its
   identifier and properties take.
   */
  lemma MqttPanicsIff(s: Bytes)
    ensures Panics(DecodePacket(WIRE, s)) <==>
            var h := DecodeHeader(WIRE, s); h.Ok? && Overruns(WIRE, h.value.0, After(s, h.value.1))
  {
    WireUnshaken();
    PacketPanicsIff(WIRE, s);
  }

  /** It needs bytes behind the packet for that: a string that its header spans does not panic. */
  lemma MqttFramedIsCalm(s: Bytes)
    requires var h := DecodeHeader(WIRE, s); h.Ok? ==> |s| <= h.value.1 + h.value.0.remaining
    ensures !Panics(DecodePacket(WIRE, s))
  {
    WireUnshaken();
    WireSound();
    FramedIsCalm(WIRE, s);
  }

  /** A SUBSCRIBE that gives its length as one byte, with an identifier and an empty block behind it. */
  lemma PanicExample()
    ensures DecodePacket(WIRE, [0x82, 1, 0, 1, 0]) == Err(Panic)
  {
    var s: Bytes := [0x82, 1, 0, 1, 0];
    assert After(s, 1) == [1, 0, 1, 0] && After(s, 2) == [0, 1, 0] && After(After(s, 2), 2) == [0];
    VarRoundTrip(1, [0, 1, 0]);
    VarRoundTrip(0, []);
    assert EncodeVar(1) == Ok([1]) && EncodeVar(0) == Ok([0]);
    assert [1] + [0, 1, 0] == [1, 0, 1, 0] && [0] + [] == [0];
    assert DecodeHeader(WIRE, s) == Ok((Header(SubscribeKind, 1), 2));
    MqttPanicsIff(s);
  }

  /** Decoding takes these three for what they are with the flag set, and takes no other byte against the standard. */
  lemma MqttFlags(s: Bytes)
    requires s != []
    ensures s[0] in {0x60, 0x80, 0xA0} ==> DecodePacket(WIRE, s) == DecodePacket(WIRE, s[0 := s[0] + 2])
    ensures DecodePacket(WIRE, s).Ok? ==> StandardByte(s[0]) || s[0] in {0x60, 0x80, 0xA0}
  {
    ValidByteIff(s[0]);
    FramedHasKind(WIRE, s);
    if s[0] in {0x60, 0x80, 0xA0} {
      var t := s[0 := s[0] + 2];
      assert DecodeKind(s) == DecodeKind(t);
      FramedByKind(WIRE, Reading(WIRE), s, t);
    }
  }

  /** An UNSUBSCRIBE without topics is encoded, and its encoding is refused. */
  lemma EmptyUnSubscribe(id: U16, rest: Bytes)
    ensures var p := UnSubscribe(Listing(id, None, []));
            && EncodePacket(WIRE, p) == Ok([0xA2, 3] + EncodeU16(id) + [0])
            && DecodePacket(WIRE, [0xA2, 3] + EncodeU16(id) + [0] + rest).Err?
  {
    var p := UnSubscribe(Listing(id, None, []));
    assert EncodeVar(0) == Ok([0]) && EncodeVar(3) == Ok([3]);
    assert PacketBody(WIRE, p) == Ok(EncodeU16(id) + [0] + []);
    assert EncodeU16(id) + [0] + [] == EncodeU16(id) + [0];
    assert [0xA2] + [3] + (EncodeU16(id) + [0]) == [0xA2, 3] + EncodeU16(id) + [0];
    MqttRoundTrip(p, rest);
  }
}
