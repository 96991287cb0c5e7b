/** What the grammar and the codec have for bytes written out. */
module Spellings {
  import opened Basics
  import opened Varint
  import opened Fields
  import opened Codecs
  import opened Properties
  import opened PropertySets
  import opened Wires
  import opened PropertyBlocks
  import opened Frames
  import opened Packets
  import opened WireFormat
  import opened Grammar
  import opened Parsing

  /** What spells a packet is decoded to it, whatever follows. */
  lemma Accepts(b: Bytes, p: Packet, rest: Bytes)
    requires IsPacket(b, p)
    ensures b != [] && DecodePacket(WIRE, b + rest) == Ok((p, |b|))
  {
    var k, remaining :| PacketAt(b, p, k, remaining);
    assert (b + rest)[..|b|] == b;
    PacketIff(b + rest, p, |b|);
  }

  /** No string spells two packets, and none that spells one begins another. */
  lemma Unambiguous(b: Bytes, rest: Bytes, p: Packet, q: Packet)
    requires IsPacket(b, p) && IsPacket(b + rest, q)
    ensures rest == [] && p == q
  {
    Accepts(b, p, rest);
    Accepts(b + rest, q, []);
    assert b + rest + [] == b + rest;
  }

  /** What `encode` writes spells the packet, if that is faithful. */
  lemma EncodedSpells(p: Packet)
    requires EncodePacket(WIRE, p).Ok? && Faithful(p)
    ensures IsPacket(EncodePacket(WIRE, p).value, NormalPacket(p))
  {
    var b := EncodePacket(WIRE, p).value;
    MqttRoundTrip(p, []);
    assert b + [] == b && b[..|b|] == b;
    PacketIff(b, NormalPacket(p), |b|);
  }

  lemma OneDigit(v: Byte)
    requires v < 128
    ensures IsNumber([v], v)
  {
    assert [v][1..] == [];
  }

  lemma WordSpelled(x: U16)
    ensures IsWord([x / 256, x % 256], x)
  {
    var b: Bytes := [x / 256, x % 256];
    TwoDigits(b);
  }

  // ------------------------------------------------------------------------- the short forms

  lemma ShortAck(first: Byte, t: AckType, id: U16, rest: Bytes)
    requires Begins(first, Ack(t, Some(t), id, 0, None))
    ensures DecodePacket(WIRE, [first, 2, id / 256, id % 256] + rest) == Ok((Ack(t, Some(t), id, 0, None), 4))
  {
    var b: Bytes, p: Packet := [first, 2, id / 256, id % 256], Ack(t, Some(t), id, 0, None);
    OneDigit(2);
    WordSpelled(id);
    assert b[1..2] == [2] && b[2..] == [id / 256, id % 256] && b[2..][..2] == b[2..];
    assert IsAck(2, b[2..], id, 0, None);
    assert PacketAt(b, p, 2, 2);
    Accepts(b, p, rest);
  }

  lemma CodeAck(first: Byte, t: AckType, id: U16, code: ReasonCode, rest: Bytes)
    requires Begins(first, Ack(t, Some(t), id, code, None)) && Permits(t, code)
    ensures DecodePacket(WIRE, [first, 3, id / 256, id % 256, code] + rest) == Ok((Ack(t, Some(t), id, code, None), 5))
  {
    var b: Bytes, p: Packet := [first, 3, id / 256, id % 256, code], Ack(t, Some(t), id, code, None);
    OneDigit(3);
    WordSpelled(id);
    assert b[1..2] == [3] && b[2..] == [id / 256, id % 256, code];
    assert b[2..][..2] == [id / 256, id % 256] && b[2..][2..] == [code];
    assert IsAck(3, b[2..], id, code, None);
    assert PacketAt(b, p, 2, 3);
    Accepts(b, p, rest);
  }

  /** The types of acknowledgement by their first byte. */
  function AckOfByte(first: Byte): AckType {
    if first == 0x40 then PubAck else if first == 0x50 then PubRec else if first == 0x62 then PubRel else PubComp
  }

  /** An acknowledgement of two bytes stands for success. */
  lemma ShortAcks(first: Byte, id: U16, rest: Bytes)
    requires first in {0x40, 0x50, 0x62, 0x70}
    ensures DecodePacket(WIRE, [first, 2, id / 256, id % 256] + rest) ==
            Ok((Ack(AckOfByte(first), Some(AckOfByte(first)), id, 0, None), 4))
  {
    ShortAck(first, AckOfByte(first), id, rest);
  }

  /** A header of two bytes. */
  lemma ShortHeader(first: Byte, kind: Kind, v: Byte, rest: Bytes)
    requires DecodeKind([first, v] + rest) == Ok((kind, 1)) && v < 128
    ensures DecodeHeader(WIRE, [first, v] + rest) == Ok((Header(kind, v), 2)) && After([first, v] + rest, 2) == rest
  {
    var s := [first, v] + rest;
    assert s[1..] == [v] + rest && s[1..][..1] == [v];
    OneDigit(v);
    NumberIff(s[1..], v, 1);
  }

  /** One of three bytes has its own code, which its type has to permit. */
  lemma CodeAcks(first: Byte, id: U16, code: Byte, rest: Bytes)
    requires first in {0x40, 0x50, 0x62, 0x70}
    ensures DecodePacket(WIRE, [first, 3, id / 256, id % 256, code] + rest) ==
            if Permits(AckOfByte(first), code)
            then Ok((Ack(AckOfByte(first), Some(AckOfByte(first)), id, code, None), 5))
            else Err(MalformedPacket)
  {
    var t := AckOfByte(first);
    if Permits(t, code) {
      CodeAck(first, t, id, code, rest);
    } else {
      var body: Bytes := [id / 256, id % 256, code] + rest;
      assert [first, 3, id / 256, id % 256, code] + rest == [first, 3] + body;
      ShortHeader(first, AckKind(t), 3, body);
      CodeRefused(t, id, code, body);
    }
  }

  lemma CodeRefused(t: AckType, id: U16, code: Byte, s: Bytes)
    requires |s| >= 3 && s[0] == id / 256 && s[1] == id % 256 && s[2] == code && !Permits(t, code)
    ensures ReadAck(WIRE, t, s, 3) == Err(MalformedPacket)
  {
    assert After(s, 2)[0] == code;
  }

  /** A DISCONNECT of no length is a normal one, and one of length one has its own code. */
  lemma ShortDisconnects(code: Byte, rest: Bytes)
    ensures DecodePacket(WIRE, [0xE0, 0] + rest) == Ok((Disconnect(0, None), 2))
    ensures DecodePacket(WIRE, [0xE0, 1, code] + rest) ==
            if code in {0, 4, 0x80, 0x81, 0x82, 0x83, 0x87, 0x89, 0x8B, 0x8D, 0x8E, 0x8F, 0x90} || 0x93 <= code <= 0xA2
            then Ok((Disconnect(code, None), 3)) else Err(MalformedPacket)
  {
    ShortHeader(0xE0, DisconnectKind, 0, rest);
    assert [0xE0, 1, code] + rest == [0xE0, 1] + ([code] + rest);
    ShortHeader(0xE0, DisconnectKind, 1, [code] + rest);
  }

  /** A SUBACK with one code, which has to be one of its own. */
  lemma SubAckCodes(id: U16, code: Byte, rest: Bytes)
    ensures DecodePacket(WIRE, [0x90, 4, id / 256, id % 256, 0, code] + rest) ==
            if code in {0, 1, 2, 0x80, 0x83, 0x87, 0x8F, 0x91, 0x97, 0x9E, 0xA1, 0xA2}
            then Ok((SubAck(Listing(id, None, [code])), 6)) else Err(MalformedPacket)
  {
    var body: Bytes := [id / 256, id % 256, 0] + ([code] + rest);
    assert [0x90, 4, id / 256, id % 256, 0, code] + rest == [0x90, 4] + body;
    ShortHeader(0x90, SubAckKind, 4, body);
    EmptyLead(OfSubAck, id, [code] + rest);
    OneCode(code, rest);
  }

  lemma EmptyLead(owner: Owner, id: U16, rest: Bytes)
    ensures DecodeLead(WIRE, owner, [id / 256, id % 256, 0] + rest) == Ok((id, None, 3))
    ensures After([id / 256, id % 256, 0] + rest, 3) == rest
  {
    var s: Bytes := [id / 256, id % 256, 0] + rest;
    assert s == EncodeU16(id) + ([0] + rest) && After(s, 2) == [0] + rest;
    U16RoundTrip(id, [0] + rest);
    assert ([0] + rest)[..1] == [0];
    OneDigit(0);
    NumberIff([0] + rest, 0, 1);
  }

  lemma OneCode(code: Byte, rest: Bytes)
    ensures DecodePayload(GRANTED, [code] + rest, 1, MalformedPacket) ==
            if IsSubAckCode(code) then Ok([code]) else Err(MalformedPacket)
  {
    assert ([code] + rest)[..1] == [code];
    if IsSubAckCode(code) {
      assert DecodeList(GRANTED, After([code], 1), 0) == ([], Ok(0));
      assert DecodeList(GRANTED, [code], 1).0 == [code];
    }
  }

  /** A list with nothing in it is refused, by each packet in its way. */
  lemma EmptyLists(id: U16, rest: Bytes)
    ensures DecodePacket(WIRE, [0x82, 3, id / 256, id % 256, 0] + rest) == Err(MalformedPacket)
    ensures DecodePacket(WIRE, [0xA2, 3, id / 256, id % 256, 0] + rest) == Err(ProtocolError)
    ensures DecodePacket(WIRE, [0x90, 3, id / 256, id % 256, 0] + rest) == Err(MalformedPacket)
  {
    EmptyList(0x82, SubscribeKind, id, rest);
    EmptyList(0xA2, UnSubscribeKind, id, rest);
    EmptyList(0x90, SubAckKind, id, rest);
  }

  lemma EmptyList(first: Byte, kind: Kind, id: U16, rest: Bytes)
    requires kind in {SubscribeKind, UnSubscribeKind, SubAckKind} && EncodeKind(kind) == Ok([first])
    ensures DecodePacket(WIRE, [first, 3, id / 256, id % 256, 0] + rest) ==
            Err(if kind == UnSubscribeKind then ProtocolError else MalformedPacket)
  {
    var body: Bytes := [id / 256, id % 256, 0] + rest;
    assert [first, 3, id / 256, id % 256, 0] + rest == [first, 3] + body;
    ShortHeader(first, kind, 3, body);
    match kind {
      case SubscribeKind => EmptyLead(OfSubscribe, id, rest);
      case UnSubscribeKind => EmptyLead(OfUnSubscribe, id, rest);
      case SubAckKind => EmptyLead(OfSubAck, id, rest);
    }
  }

  /** Without a first byte, with one that is not accepted, and with a length that does not end. */
  lemma HeaderRefused(s: Bytes)
    ensures s == [] ==> DecodePacket(WIRE, s) == Err(InsufficientBytes)
    ensures s != [] && !StandardByte(s[0]) && s[0] !in {0x60, 0x80, 0xA0} ==>
              DecodePacket(WIRE, s) == Err(MalformedPacket)
    ensures s != [] && (StandardByte(s[0]) || s[0] in {0x60, 0x80, 0xA0}) && NoEnd(s[1..]) ==>
              DecodePacket(WIRE, s) == Err(MalformedPacket)
  {
    if s != [] {
      ValidByteIff(s[0]);
      VarFailsIff(s[1..]);
    }
  }

  /** None of the first four bytes ends a number. */
  predicate NoEnd(s: Bytes) {
    forall i :: 0 <= i < Min(|s|, 4) ==> s[i] >= 128
  }

  // ------------------------------------------------------------------- what `encode` writes

  lemma Digits(v: nat)
    requires v < 128
    ensures EncodeVar(v) == Ok([v])
  {
  }

  /**
   An acknowledgement without properties is always written in full, under the type its field names and whatever its
   code.
   */
  lemma EncodedAck(first: Byte, tag: AckType, id: U16, code: ReasonCode)
    requires first in {0x40, 0x50, 0x62, 0x70}
    ensures var c: Byte := code;
            EncodePacket(WIRE, Ack(tag, Some(AckOfByte(first)), id, code, None)) ==
            Ok([first, 4, id / 256, id % 256, c, 0])
    ensures EncodePacket(WIRE, Ack(tag, None, id, code, None)).Err?
  {
    var c: Byte := code;
    var body: Bytes := [id / 256, id % 256, c, 0];
    Digits(0);
    Digits(4);
    assert EncodeU16(id) + ([c] + [0]) == body;
    assert AckBody(WIRE, id, code, None) == Ok(body);
    assert [first] + [4] + body == [first, 4, id / 256, id % 256, c, 0];
  }

  lemma EncodedDisconnect(code: DisconnectCode)
    ensures var c: Byte := code; EncodePacket(WIRE, Disconnect(code, None)) == Ok([0xE0, 2, c, 0])
  {
    var c: Byte := code;
    Digits(0);
    Digits(2);
    assert DisconnectBody(WIRE, code, None) == Ok([c, 0]) by {
      assert [c] + [0] == [c, 0];
    }
    assert [0xE0] + [2] + [c, 0] == [0xE0, 2, c, 0];
  }

  /** A string in full: its length, the high byte first, and its bytes. */
  function Written(t: Bytes): Bytes
    requires |t| < 0x1_0000
  {
    [|t| / 256, |t| % 256] + t
  }

  /** A string that is written. */
  ghost predicate Writable(t: Bytes) {
    |t| < 0x1_0000 && IsText(t)
  }

  lemma EncodedText(t: Bytes)
    requires Writable(t)
    ensures EncodeText(t) == Ok(Written(t))
  {
    TextIff(t);
  }

  lemma EncodedPair(p: Pair)
    requires Writable(p.0) && Writable(p.1)
    ensures EncodeProperty(Property(38, PairValue(p))) == Ok([38] + (Written(p.0) + Written(p.1)))
  {
    EncodedText(p.0);
    EncodedText(p.1);
  }

  lemma EncodedWords(pt: Byte, t: Bytes)
    requires pt in {28, 31} && Writable(t)
    ensures EncodeProperty(Property(pt, TextValue(t))) == Ok([pt] + Written(t))
  {
    EncodedText(t);
  }

  function LongBytes(x: U32): Bytes {
    [x / 0x100_0000, x / 0x1_0000 % 256, x / 256 % 256, x % 256]
  }

  lemma EncodedNumbers(interval: U32, id: nat)
    requires id <= VAR_MAX
    ensures EncodeProperty(Property(17, LongValue(interval))) == Ok([17] + LongBytes(interval))
    ensures EncodeProperty(Property(11, VarValue(id))) == Ok([11] + VarBytes(id))
  {
  }

  lemma ListOne<T>(c: Codec<T>, x: T, b: Bytes)
    requires c.encode(x) == Ok(b)
    ensures EncodeList(c, [x]) == Ok(b)
  {
    assert [x][1..] == [] && b + [] == b;
  }

  lemma ListTwo<T>(c: Codec<T>, x: T, b: Bytes, xs: seq<T>, rest: Bytes)
    requires c.encode(x) == Ok(b) && EncodeList(c, xs) == Ok(rest)
    ensures EncodeList(c, [x] + xs) == Ok(b + rest)
  {
    assert ([x] + xs)[1..] == xs;
  }

  lemma ListedLeaving(interval: U32, reason: Bytes, server: Bytes, user: Pair)
    ensures Listed(Props(None, Some(interval), Some(reason), Some(server), [user])) ==
            [Property(17, LongValue(interval))] + ([Property(31, TextValue(reason))] +
            ([Property(28, TextValue(server))] + [Property(38, PairValue(user))]))
  {
    assert UserList([user]) == [Property(38, PairValue(user))];
  }

  /** The properties of a DISCONNECT, in the order they are written: 17, 31, 28 and the user properties. */
  lemma EncodedLeaving(interval: U32, reason: Bytes, server: Bytes, user: Pair)
    requires Writable(reason) && Writable(server) && Writable(user.0) && Writable(user.1)
    ensures var pair := [38] + (Written(user.0) + Written(user.1));
            EncodeList(PROPERTY, Listed(Props(None, Some(interval), Some(reason), Some(server), [user]))) ==
            Ok([17] + LongBytes(interval) + ([31] + Written(reason) + ([28] + Written(server) + pair)))
  {
    EncodedNumbers(interval, 0);
    EncodedWords(31, reason);
    EncodedWords(28, server);
    EncodedPair(user);
    ListedLeaving(interval, reason, server, user);
    LeavingChain(Property(17, LongValue(interval)), [17] + LongBytes(interval),
                 Property(31, TextValue(reason)), [31] + Written(reason),
                 Property(28, TextValue(server)), [28] + Written(server),
                 Property(38, PairValue(user)), [38] + (Written(user.0) + Written(user.1)));
  }

  lemma LeavingChain(p: Property, a: Bytes, q: Property, b: Bytes, r: Property, c: Bytes, t: Property, d: Bytes)
    requires EncodeProperty(p) == Ok(a) && EncodeProperty(q) == Ok(b)
    requires EncodeProperty(r) == Ok(c) && EncodeProperty(t) == Ok(d)
    ensures EncodeList(PROPERTY, [p] + ([q] + ([r] + [t]))) == Ok(a + (b + (c + d)))
  {
    ListOne(PROPERTY, t, d);
    ListTwo(PROPERTY, r, c, [t], d);
    ListTwo(PROPERTY, q, b, [r] + [t], c + d);
    ListTwo(PROPERTY, p, a, [q] + ([r] + [t]), b + (c + d));
  }

  lemma ListedRequest(id: nat, reason: Bytes, user: Pair)
    ensures Listed(Props(Some(id), None, None, None, [user])) ==
            [Property(11, VarValue(id))] + [Property(38, PairValue(user))]
    ensures Listed(Props(None, None, Some(reason), None, [user])) ==
            [Property(31, TextValue(reason))] + [Property(38, PairValue(user))]
  {
    assert UserList([user]) == [Property(38, PairValue(user))];
  }

  /** Those of a SUBSCRIBE, and of a SUBACK or an acknowledgement. */
  lemma EncodedRequest(id: nat, reason: Bytes, user: Pair)
    requires id <= VAR_MAX && Writable(reason) && Writable(user.0) && Writable(user.1)
    ensures var pair := [38] + (Written(user.0) + Written(user.1));
            && EncodeList(PROPERTY, Listed(Props(Some(id), None, None, None, [user]))) == Ok([11] + VarBytes(id) + pair)
            && EncodeList(PROPERTY, Listed(Props(None, None, Some(reason), None, [user]))) ==
               Ok([31] + Written(reason) + pair)
  {
    EncodedNumbers(0, id);
    EncodedWords(31, reason);
    EncodedPair(user);
    ListedRequest(id, reason, user);
    PairChain(Property(11, VarValue(id)), [11] + VarBytes(id), user);
    PairChain(Property(31, TextValue(reason)), [31] + Written(reason), user);
  }

  lemma PairChain(p: Property, a: Bytes, user: Pair)
    requires EncodeProperty(p) == Ok(a) && Writable(user.0) && Writable(user.1)
    ensures EncodeList(PROPERTY, [p] + [Property(38, PairValue(user))]) ==
            Ok(a + ([38] + (Written(user.0) + Written(user.1))))
  {
    var t, d := Property(38, PairValue(user)), [38] + (Written(user.0) + Written(user.1));
    EncodedPair(user);
    ListOne(PROPERTY, t, d);
    ListTwo(PROPERTY, p, a, [t], d);
  }

  /** A block is the length of its properties, and they; without properties it is a zero. */
  lemma EncodedBlock(props: Props)
    ensures EncodeBlock(WIRE, None) == Ok([0])
    ensures EncodeList(PROPERTY, Listed(props)).Ok? && |EncodeList(PROPERTY, Listed(props)).value| <= VAR_MAX ==>
              var data := EncodeList(PROPERTY, Listed(props)).value;
              EncodeBlock(WIRE, Some(props)) == Ok(VarBytes(|data|) + data)
  {
    Digits(0);
  }

  /** An identifier, no properties, and one item. */
  lemma EncodedOne<T>(c: Codec<T>, id: U16, x: T, b: Bytes)
    requires c.encode(x) == Ok(b)
    ensures EncodeBody(WIRE, c, Listing(id, None, [x])) == Ok([id / 256, id % 256, 0] + b)
  {
    Digits(0);
    ListOne(c, x, b);
    assert EncodeU16(id) + [0] == [id / 256, id % 256, 0];
  }

  lemma EncodedTopic(topic: Bytes, opt: Byte)
    requires Writable(topic) && IsFilter(topic)
    ensures EncodeFilter(topic) == Ok(Written(topic))
    ensures EncodeItem(Filter(topic, opt)) == Ok(Written(topic) + [opt])
  {
    EncodedText(topic);
    FilterIff(topic);
  }

  lemma FramedAs(kind: Kind, first: Byte, body: Bytes)
    requires EncodeKind(kind) == Ok([first]) && |body| <= VAR_MAX
    ensures Framed(WIRE, kind, body) == Ok([first] + VarBytes(|body|) + body)
  {
  }

  /** A request for one filter. */
  lemma EncodedSubscribe(id: U16, topic: Bytes, opt: Byte)
    requires Writable(topic) && IsFilter(topic) && Options(opt)
    ensures EncodePacket(WIRE, Subscribe(Listing(id, None, [Filter(topic, opt)]))) ==
            Ok([0x82] + VarBytes(6 + |topic|) + ([id / 256, id % 256, 0] + (Written(topic) + [opt])))
  {
    EncodedTopic(topic, opt);
    EncodedOne(ITEM, id, Filter(topic, opt), Written(topic) + [opt]);
    OneRequest(id, topic, opt, [id / 256, id % 256, 0] + (Written(topic) + [opt]));
  }

  lemma OneRequest(id: U16, topic: Bytes, opt: Byte, body: Bytes)
    requires EncodeBody(WIRE, ITEM, Listing(id, None, [Filter(topic, opt)])) == Ok(body)
    requires |body| <= VAR_MAX && Options(opt)
    ensures EncodePacket(WIRE, Subscribe(Listing(id, None, [Filter(topic, opt)]))) ==
            Ok([0x82] + VarBytes(|body|) + body)
  {
    OptionIff(opt);
    FramedAs(SubscribeKind, 0x82, body);
    var l := Listing(id, None, [Filter(topic, opt)]);
    assert l.items != [] && ValidOptions(l);
  }

  /** An UNSUBSCRIBE for one. */
  lemma EncodedUnSubscribe(id: U16, topic: Bytes)
    requires Writable(topic) && IsFilter(topic)
    ensures EncodePacket(WIRE, UnSubscribe(Listing(id, None, [topic]))) ==
            Ok([0xA2] + VarBytes(5 + |topic|) + ([id / 256, id % 256, 0] + Written(topic)))
  {
    EncodedTopic(topic, 0);
    EncodedOne(TOPIC, id, topic, Written(topic));
    OneTopic(id, topic, [id / 256, id % 256, 0] + Written(topic));
  }

  lemma OneTopic(id: U16, topic: Bytes, body: Bytes)
    requires EncodeBody(WIRE, TOPIC, Listing(id, None, [topic])) == Ok(body) && |body| <= VAR_MAX
    ensures EncodePacket(WIRE, UnSubscribe(Listing(id, None, [topic]))) == Ok([0xA2] + VarBytes(|body|) + body)
  {
    FramedAs(UnSubscribeKind, 0xA2, body);
  }

  /** A SUBACK with one code. */
  lemma EncodedSubAck(id: U16, code: SubAckCode)
    ensures var c: Byte := code;
            EncodePacket(WIRE, SubAck(Listing(id, None, [code]))) == Ok([0x90, 4, id / 256, id % 256, 0, c])
  {
    var c: Byte := code;
    Digits(4);
    EncodedOne(GRANTED, id, code, [c]);
    assert [0x90] + [4] + ([id / 256, id % 256, 0] + [c]) == [0x90, 4, id / 256, id % 256, 0, c];
  }
}
