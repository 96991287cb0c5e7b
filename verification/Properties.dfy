/** One property of an MQTT packet (section 2.2.2.2 of MQTT 5.0). */
module Properties {
  import opened Basics
  import opened Varint
  import opened Fields
  import opened Codecs

  /** How the value of a property is laid out. */
  datatype Shape = U8Shape | U16Shape | U32Shape | VarShape | TextShape | NameShape | BinShape | QoSShape | PairShape

  const SUBSCRIPTION_IDENTIFIER: Byte := 11
  const SESSION_EXPIRY_INTERVAL: Byte := 17
  const SERVER_REFERENCE: Byte := 28
  const REASON_STRING: Byte := 31
  const USER_PROPERTY: Byte := 38

  /** `PropertyType::try_from` and the type each property is decoded with. */
  function ShapeOf(pt: nat): Option<Shape> {
    if pt == 1 || pt == 23 || pt == 25 || pt == 37 || pt == 40 || pt == 41 || pt == 42 then Some(U8Shape)
    else if pt == 19 || pt == 33 || pt == 34 || pt == 35 then Some(U16Shape)
    else if pt == 2 || pt == 17 || pt == 24 || pt == 39 then Some(U32Shape)
    else if pt == 11 then Some(VarShape)
    else if pt == 3 || pt == 18 || pt == 21 || pt == 26 || pt == 28 || pt == 31 then Some(TextShape)
    else if pt == 8 then Some(NameShape)
    else if pt == 9 || pt == 22 then Some(BinShape)
    else if pt == 36 then Some(QoSShape)
    else if pt == 38 then Some(PairShape)
    else None
  }

  datatype Value =
    | ByteValue(byte: Byte)
    | ShortValue(short: U16)
    | LongValue(long: U32)
    | VarValue(number: nat)
    | TextValue(text: Bytes)
    | PairValue(pair: Pair)

  datatype Property = Property(pt: Byte, value: Value)

  function DecodeValue(shape: Shape, s: Bytes): (r: Result<(Value, Size)>)
    ensures r.Ok? ==> r.value.1 <= |s|
  {
    match shape
    case U8Shape => var (v, n) :- DecodeU8(s); Ok((ByteValue(v), n))
    case U16Shape => var (v, n) :- DecodeU16(s); Ok((ShortValue(v), n))
    case U32Shape => var (v, n) :- DecodeU32(s); Ok((LongValue(v), n))
    case VarShape => var (v, n) :- DecodeVar(s); Ok((VarValue(v), n))
    case TextShape => var (v, n) :- DecodeText(s); Ok((TextValue(v), n))
    case NameShape => var (v, n) :- DecodeName(s); Ok((TextValue(v), n))
    case BinShape => var (v, n) :- DecodePrefixed(s); Ok((TextValue(v), n))
    case QoSShape => var (v, n) :- DecodeU8(s); if v <= 2 then Ok((ByteValue(v), n)) else Err(MalformedPacket)
    case PairShape => var (v, n) :- DecodePair(s); Ok((PairValue(v), n))
  }

  /** The value's own encoding; the last case does not arise for a property of the shape's type. */
  function EncodeValue(shape: Shape, v: Value): Result<Bytes> {
    match (shape, v)
    case (U8Shape, ByteValue(b)) => Ok([b])
    case (U16Shape, ShortValue(x)) => Ok(EncodeU16(x))
    case (U32Shape, LongValue(x)) => Ok(EncodeU32(x))
    case (VarShape, VarValue(x)) => EncodeVar(x)
    case (TextShape, TextValue(t)) => EncodeText(t)
    case (NameShape, TextValue(t)) => EncodeName(t)
    case (BinShape, TextValue(t)) => if |t| < 0x1_0000 then Ok(LengthPrefixed(t)) else Err(ProtocolError)
    case (QoSShape, ByteValue(b)) => if b <= 2 then Ok([b]) else Err(ProtocolError)
    case (PairShape, PairValue(p)) => EncodePair(p)
    case _ => Err(ProtocolError)
  }

  lemma ValueRoundTrip(shape: Shape, v: Value, rest: Bytes)
    requires EncodeValue(shape, v).Ok?
    ensures DecodeValue(shape, EncodeValue(shape, v).value + rest) == Ok((v, |EncodeValue(shape, v).value|))
  {
    match v {
      case ByteValue(_) =>
      case ShortValue(x) => U16RoundTrip(x, rest);
      case LongValue(x) => U32RoundTrip(x, rest);
      case VarValue(x) =>
        VarRoundTrip(x, rest);
      case TextValue(t) =>
        PrefixedRoundTrip(t, rest);
      case PairValue(p) => PairRoundTrip(p, rest);
    }
  }

  lemma ValueReencodes(shape: Shape, s: Bytes)
    requires DecodeValue(shape, s).Ok?
    ensures var (v, n) := DecodeValue(shape, s).value;
            EncodeValue(shape, v).Ok? && 0 < |EncodeValue(shape, v).value| <= n
  {
    match shape {
      case VarShape => VarMinimal(s);
      case PairShape => PairReencodes(s);
      case _ =>
    }
  }

  /** `Property::decode`. */
  function DecodeProperty(s: Bytes): (r: Result<(Property, Size)>)
    ensures r.Ok? ==> r.value.1 <= |s|
  {
    var (pt, n) :- DecodeVar(s);
    match ShapeOf(pt)
    case None => Err(MalformedPacket)
    case Some(shape) =>
      var (v, m) :- DecodeValue(shape, s[n..]);
      Ok((Property(pt, v), n + m))
  }

  /** `enc_prop!`. */
  function EncodeProperty(p: Property): (r: Result<Bytes>)
    ensures r.Ok? ==> r.value != []
  {
    match ShapeOf(p.pt)
    case None => Err(MalformedPacket)
    case Some(shape) =>
      var v :- EncodeValue(shape, p.value);
      Ok([p.pt] + v)
  }

  /** Decoding inverts the encoding of every property, of all 27 types. */
  lemma PropertyRoundTrip(p: Property, rest: Bytes)
    requires EncodeProperty(p).Ok?
    ensures DecodeProperty(EncodeProperty(p).value + rest) == Ok((p, |EncodeProperty(p).value|))
  {
    var shape := ShapeOf(p.pt).value;
    var v := EncodeValue(shape, p.value).value;
    var s := EncodeProperty(p).value + rest;
    VarRoundTrip(p.pt, v + rest);
    assert EncodeVar(p.pt).value + (v + rest) == s;
    assert s[1..] == v + rest;
    ValueRoundTrip(shape, p.value, rest);
  }

  /** Every property that decodes encodes again, in no more bytes. */
  lemma PropertyReencodes(s: Bytes)
    requires DecodeProperty(s).Ok?
    ensures var (p, n) := DecodeProperty(s).value;
            EncodeProperty(p).Ok? && |EncodeProperty(p).value| <= n
  {
    var (pt, n) := DecodeVar(s).value;
    ValueReencodes(ShapeOf(pt).value, s[n..]);
  }

  lemma ValueCalm(shape: Shape, s: Bytes)
    ensures !Panics(DecodeValue(shape, s))
  {
  }

  lemma PropertyCalm(s: Bytes)
    ensures !Panics(DecodeProperty(s))
  {
    var r := DecodeVar(s);
    if r.Ok? && ShapeOf(r.value.0).Some? {
      ValueCalm(ShapeOf(r.value.0).value, s[r.value.1..]);
    }
  }

  const PROPERTY: Codec<Property> := Codec(EncodeProperty, DecodeProperty)

  /** Properties can be listed one after the other. */
  lemma PropertiesList()
    ensures Inverts(PROPERTY) && Reencodes(PROPERTY)
  {
    forall p: Property, rest: Bytes ensures InvertsAt(PROPERTY, p, rest) {
      if EncodeProperty(p).Ok? {
        PropertyRoundTrip(p, rest);
      }
    }
    forall s: Bytes ensures ReencodesAt(PROPERTY, s) {
      if DecodeProperty(s).Ok? {
        PropertyReencodes(s);
      }
    }
  }
}
