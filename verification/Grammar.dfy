/**
 The packets of MQTT 5.0, as far as the broker goes along with it, as a grammar: which byte strings spell which
 number, string, property, block and packet. Nothing here reads or writes; `Parsing` shows that the decoder
 accepts exactly these strings.
 */
module Grammar {
  import opened Basics
  import opened Topic
  import opened Fields
  import opened Properties
  import opened PropertySets
  import opened Wires
  import opened Frames
  import opened Packets

  // ------------------------------------------------------------------------------ numbers

  /** The digits in base 128, least significant first. */
  function Weight(b: Bytes): nat {
    if b == [] then 0 else b[0] % 128 + 128 * Weight(b[1..])
  }

  /** Section 1.5.5: up to four digits, each but the last with its top bit set. */
  predicate IsNumber(b: Bytes, v: nat) {
    && 1 <= |b| <= 4 && b[|b| - 1] < 128 && (forall i :: 0 <= i < |b| - 1 ==> b[i] >= 128)
    && v == Weight(b)
  }

  predicate IsByte(b: Bytes, x: Byte) {
    b == [x]
  }

  /** The digits in base 256, most significant first. */
  function BigEndian(b: Bytes): nat {
    if b == [] then 0
    else
      var last: nat := b[|b| - 1];
      256 * BigEndian(b[..|b| - 1]) + last
  }

  /** Sections 1.5.2 and 1.5.3. */
  predicate IsWord(b: Bytes, x: U16) {
    |b| == 2 && x == BigEndian(b)
  }

  predicate IsLong(b: Bytes, x: U32) {
    |b| == 4 && x == BigEndian(b)
  }

  // ------------------------------------------------------------------------------ strings

  /** The code points the codec lets through: no control characters and no surrogates. */
  predicate CodePoint(c: nat) {
    0x20 <= c <= 0x7E || 0xA0 <= c <= 0xD7FF || 0xE000 <= c <= 0x10_FFFF
  }

  /** Section 3 of RFC 3629. */
  function Utf8(c: nat): Bytes
    requires CodePoint(c)
  {
    if c < 0x80 then [c]
    else if c < 0x800 then [0xC0 + c / 0x40, 0x80 + c % 0x40]
    else if c < 0x1_0000 then [0xE0 + c / 0x1000, 0x80 + c / 0x40 % 0x40, 0x80 + c % 0x40]
    else [0xF0 + c / 0x4_0000, 0x80 + c / 0x1000 % 0x40, 0x80 + c / 0x40 % 0x40, 0x80 + c % 0x40]
  }

  function Spelled(cs: seq<nat>): Bytes
    requires forall i :: 0 <= i < |cs| ==> CodePoint(cs[i])
  {
    if cs == [] then [] else Utf8(cs[0]) + Spelled(cs[1..])
  }

  /** Some code points, spelled in UTF-8. */
  ghost predicate IsText(t: Bytes) {
    exists cs: seq<nat> :: (forall i :: 0 <= i < |cs| ==> CodePoint(cs[i])) && Spelled(cs) == t
  }

  /** Section 1.5.6: a length, and so many bytes. */
  predicate IsBinary(b: Bytes, t: Bytes) {
    |b| == 2 + |t| && |t| == BigEndian(b[..2]) && b[2..] == t
  }

  /** Section 1.5.4. */
  ghost predicate IsString(b: Bytes, t: Bytes) {
    IsBinary(b, t) && IsText(t)
  }

  /** Section 1.5.7: a name, of `k` bytes, and a value. */
  ghost predicate PairAt(b: Bytes, p: Pair, k: nat) {
    0 < k < |b| && IsString(b[..k], p.0) && IsString(b[k..], p.1)
  }

  ghost predicate IsPair(b: Bytes, p: Pair) {
    exists k :: PairAt(b, p, k)
  }

  // ------------------------------------------------------------------------------- topics

  /** Section 4.7: nothing is empty, and a topic name has no wildcards. */
  predicate IsName(t: Bytes) {
    t != [] && forall i :: 0 <= i < |t| ==> t[i] != 0 && t[i] != 0x23 && t[i] != 0x2B
  }

  /** In its levels, a wildcard is all of a level, and `#` the last. */
  predicate WildcardsAlone(p: Path) {
    forall i, j :: 0 <= i < |p| && 0 <= j < |p[i]| ==>
      && (p[i][j] == 0x23 ==> |p[i]| == 1 && i == |p| - 1)
      && (p[i][j] == 0x2B ==> |p[i]| == 1)
  }

  ghost predicate IsFilter(t: Bytes) {
    && t != [] && 0 !in t
    && exists p: Path :: p != [] && SlashFree(p) && Join(p) == t && WildcardsAlone(p)
  }

  ghost predicate IsTopic(b: Bytes, t: Bytes) {
    IsString(b, t) && IsFilter(t)
  }

  /** A filter, and its options in one byte. */
  ghost predicate IsItem(b: Bytes, f: Filter) {
    b != [] && IsTopic(b[..|b| - 1], f.topic) && b[|b| - 1] == f.opt
  }

  // --------------------------------------------------------------------------- properties

  /** Section 2.2.2.2: the types of property, and what each has for a value. */
  ghost predicate IsValue(pt: Byte, b: Bytes, v: Value) {
    match v
    case ByteValue(x) => (pt in {1, 23, 25, 37, 40, 41, 42} || (pt == 36 && x <= 2)) && IsByte(b, x)
    case ShortValue(x) => pt in {19, 33, 34, 35} && IsWord(b, x)
    case LongValue(x) => pt in {2, 17, 24, 39} && IsLong(b, x)
    case VarValue(x) => pt == 11 && IsNumber(b, x)
    case TextValue(t) =>
      if pt == 8 then IsString(b, t) && IsName(t)
      else if pt in {9, 22} then IsBinary(b, t)
      else pt in {3, 18, 21, 26, 28, 31} && IsString(b, t)
    case PairValue(p) => pt == 38 && IsPair(b, p)
  }

  /** The type, in `k` bytes, and the value. */
  ghost predicate PropertyAt(b: Bytes, p: Property, k: nat) {
    0 < k < |b| && IsNumber(b[..k], p.pt) && IsValue(p.pt, b[k..], p.value)
  }

  ghost predicate IsProperty(b: Bytes, p: Property) {
    exists k :: PropertyAt(b, p, k)
  }

  /** Which of them a packet may have. */
  predicate Admits(owner: Owner, pt: Byte) {
    match owner
    case OfSubscribe => pt == 11 || pt == 38
    case OfUnSubscribe => pt == 38
    case OfSubAck => pt == 31 || pt == 38
    case OfPub => pt == 31 || pt == 38
    case OfDisconnect => pt == 17 || pt == 28 || pt == 31 || pt == 38
  }

  /** The values of the user properties, in order. */
  function Pairs(ps: seq<Property>): seq<Pair> {
    if ps == [] then []
    else (if ps[0].pt == 38 && ps[0].value.PairValue? then [ps[0].value.pair] else []) + Pairs(ps[1..])
  }

  /** A property of the type is in the list exactly if there is a value, and has that value. */
  ghost predicate Has(ps: seq<Property>, pt: Byte, v: Option<Value>) {
    if v.Some? then Property(pt, v.value) in ps else forall i :: 0 <= i < |ps| ==> ps[i].pt != pt
  }

  /** Only what the packet may have, nothing but user properties twice, and no subscription identifier of zero. */
  ghost predicate Listable(owner: Owner, ps: seq<Property>) {
    && (forall i :: 0 <= i < |ps| ==> Admits(owner, ps[i].pt))
    && (forall i, j :: 0 <= i < j < |ps| && ps[i].pt == ps[j].pt ==> ps[i].pt == 38)
    && Property(11, VarValue(0)) !in ps
  }

  /** What the list says of a block. */
  ghost predicate Describes(ps: seq<Property>, props: Props) {
    && Has(ps, 11, if props.subscriptionId.Some? then Some(VarValue(props.subscriptionId.value)) else None)
    && Has(ps, 17,
           if props.sessionExpiryInterval.Some? then Some(LongValue(props.sessionExpiryInterval.value)) else None)
    && Has(ps, 31, if props.reasonString.Some? then Some(TextValue(props.reasonString.value)) else None)
    && Has(ps, 28, if props.serverReference.Some? then Some(TextValue(props.serverReference.value)) else None)
    && props.userProperties == Pairs(ps)
  }

  // -------------------------------------------------------------------- lists and blocks

  type Layout<!T> = (Bytes, T) -> bool

  /** One item after the other, where `sizes` has the bytes of each. */
  ghost predicate ListAt<T>(item: Layout<T>, b: Bytes, xs: seq<T>, sizes: seq<nat>) {
    && |sizes| == |xs|
    && if xs == [] then b == []
       else 0 < sizes[0] <= |b| && item(b[..sizes[0]], xs[0]) && ListAt(item, b[sizes[0]..], xs[1..], sizes[1..])
  }

  ghost predicate IsList<T>(item: Layout<T>, b: Bytes, xs: seq<T>) {
    exists sizes :: ListAt(item, b, xs, sizes)
  }

  ghost const PROPERTIES: Layout<Property> := (b: Bytes, p: Property) => IsProperty(b, p)
  ghost const ITEMS: Layout<Filter> := (b: Bytes, f: Filter) => IsItem(b, f)
  ghost const TOPICS: Layout<Bytes> := (b: Bytes, t: Bytes) => IsTopic(b, t)
  ghost const GRANTS: Layout<SubAckCode> := (b: Bytes, x: SubAckCode) => IsByte(b, x)

  /** Properties that the packet may have, and what they say. */
  ghost predicate PropsAre(owner: Owner, b: Bytes, ps: seq<Property>, props: Props) {
    IsList(PROPERTIES, b, ps) && Listable(owner, ps) && Describes(ps, props)
  }

  /** Section 2.2.2: the length of the properties, in `k` bytes, and the properties; of no length, there is no block. */
  ghost predicate BlockAt(owner: Owner, b: Bytes, o: Option<Props>, k: nat) {
    && 0 < k <= |b| && IsNumber(b[..k], |b| - k)
    && if o.None? then k == |b| else k < |b| && exists ps :: PropsAre(owner, b[k..], ps, o.value)
  }

  ghost predicate IsBlock(owner: Owner, b: Bytes, o: Option<Props>) {
    exists k :: BlockAt(owner, b, o, k)
  }

  /** An identifier, a block, which ends after `k` bytes, and a list, which is not empty. */
  ghost predicate ListedAt<T>(owner: Owner, item: Layout<T>, b: Bytes, l: Listing<T>, k: nat) {
    && 2 < k < |b| && IsWord(b[..2], l.packetId) && IsBlock(owner, b[2..k], l.properties)
    && l.items != [] && IsList(item, b[k..], l.items)
  }

  ghost predicate IsListed<T>(owner: Owner, item: Layout<T>, b: Bytes, l: Listing<T>) {
    exists k :: ListedAt(owner, item, b, l, k)
  }

  // ------------------------------------------------------------------------------ packets

  /** The first byte of the packets; three of them with or without their flag. */
  predicate Begins(first: Byte, p: AnyPacket) {
    match p
    case Subscribe(_) => first == 0x82 || first == 0x80
    case UnSubscribe(_) => first == 0xA2 || first == 0xA0
    case SubAck(_) => first == 0x90
    case Ack(PubAck, _, _, _, _) => first == 0x40
    case Ack(PubRec, _, _, _, _) => first == 0x50
    case Ack(PubRel, _, _, _, _) => first == 0x62 || first == 0x60
    case Ack(PubComp, _, _, _, _) => first == 0x70
    case Disconnect(_, _) => first == 0xE0
  }

  /** The codes of sections 3.4.2.1, 3.5.2.1, 3.6.2.1 and 3.7.2.1, and 146 for the first two, which do not have it. */
  predicate Permits(t: AckType, code: Byte) {
    match t
    case PubAck => code in {0, 16, 128, 131, 135, 144, 145, 146, 151, 153}
    case PubRec => code in {0, 16, 128, 131, 135, 144, 145, 146, 151, 153}
    case PubRel => code in {0, 146}
    case PubComp => code in {0, 146}
  }

  /** Section 3.8.3.1: the quality of service and the retain handling are not three, and two bits are reserved. */
  predicate Options(opt: Byte) {
    opt % 4 != 3 && opt / 16 % 4 != 3 && opt / 64 == 0
  }

  /** Two bytes stand for success, three for a code without properties; any other length means a block. */
  ghost predicate IsAck(remaining: nat, b: Bytes, id: U16, code: Byte, o: Option<Props>) {
    && |b| >= 2 && IsWord(b[..2], id)
    && (if remaining == 2 then |b| == 2 && code == 0 && o.None?
        else if remaining == 3 then b[2..] == [code] && o.None?
        else |b| >= 3 && b[2] == code && IsBlock(OfPub, b[3..], o))
  }

  ghost predicate IsDisconnect(remaining: nat, b: Bytes, code: Byte, o: Option<Props>) {
    if remaining == 0 then b == [] && code == 0 && o.None?
    else if remaining == 1 then b == [code] && o.None?
    else |b| >= 1 && b[0] == code && IsBlock(OfDisconnect, b[1..], o)
  }

  /** What is behind a header that gives the length as `remaining`. */
  ghost predicate IsBody(remaining: nat, b: Bytes, p: AnyPacket) {
    match p
    case Subscribe(l) =>
      && |b| == remaining && IsListed(OfSubscribe, ITEMS, b, l)
      && forall i :: 0 <= i < |l.items| ==> Options(l.items[i].opt)
    case UnSubscribe(l) => |b| == remaining && IsListed(OfUnSubscribe, TOPICS, b, l)
    case SubAck(l) => |b| == remaining && IsListed(OfSubAck, GRANTS, b, l)
    case Ack(tag, t, id, code, o) => t == Some(tag) && Permits(tag, code) && IsAck(remaining, b, id, code, o)
    case Disconnect(code, o) => IsDisconnect(remaining, b, code, o)
  }

  /** Section 2.1: a header of `k` bytes, and what is behind it. */
  ghost predicate PacketAt(b: Bytes, p: AnyPacket, k: nat, remaining: nat) {
    2 <= k <= |b| && Begins(b[0], p) && IsNumber(b[1..k], remaining) && IsBody(remaining, b[k..], p)
  }

  ghost predicate IsPacket(b: Bytes, p: AnyPacket) {
    exists k, remaining :: PacketAt(b, p, k, remaining)
  }
}
