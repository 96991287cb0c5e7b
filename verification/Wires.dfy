/** What the packets of MQTT 5.0 are made of on the wire. */
module Wires {
  import opened Basics
  import opened Fields
  import opened Codecs
  import opened Properties
  import opened PropertySets

  /** PUBACK and its three relatives, of one layout. */
  datatype AckType = PubAck | PubRec | PubRel | PubComp

  /** What the first byte of a packet announces. */
  datatype Kind = SubscribeKind | UnSubscribeKind | SubAckKind | AckKind(ack: AckType) | DisconnectKind | OtherKind

  /** A topic filter with its subscription options, which stay packed. */
  datatype Filter = Filter(topic: Bytes, opt: Byte)

  predicate IsSubAckCode(b: Byte) {
    b in {0x00, 0x01, 0x02, 0x80, 0x83, 0x87, 0x8F, 0x91, 0x97, 0x9E, 0xA1, 0xA2}
  }

  predicate IsReasonCode(b: Byte) {
    b in {0x00, 0x01, 0x02, 0x04, 0x10, 0x11, 0x18, 0x19} || 0x80 <= b <= 0xA2
  }

  predicate IsDisconnectCode(b: Byte) {
    b in {0x00, 0x04, 0x80, 0x81, 0x82, 0x83, 0x87, 0x89, 0x8B, 0x8D, 0x8E, 0x8F, 0x90} || 0x93 <= b <= 0xA2
  }

  type SubAckCode = b: Byte | IsSubAckCode(b)
  type ReasonCode = b: Byte | IsReasonCode(b)
  type DisconnectCode = b: Byte | IsDisconnectCode(b)

  /** The codecs that blocks and packets are built on. */
  datatype Wire = Wire(
    number: Codec<nat>, word: Codec<U16>, kind: Codec<Kind>, property: Codec<Property>,
    filter: Codec<Filter>, topic: Codec<Bytes>,
    granted: Codec<SubAckCode>, reason: Codec<ReasonCode>, leaving: Codec<DisconnectCode>)

  /** Everything reads back as written, and the fields of fixed size have it. */
  ghost predicate Readable(w: Wire) {
    && Inverts(w.number) && Inverts(w.word) && Inverts(w.kind) && Inverts(w.property)
    && Inverts(w.filter) && Inverts(w.topic)
    && Inverts(w.granted) && Inverts(w.reason) && Inverts(w.leaving)
    && (forall x: U16 :: w.word.encode(x).Ok? && |w.word.encode(x).value| == 2)
    && (forall c: ReasonCode :: w.reason.encode(c).Ok? && |w.reason.encode(c).value| == 1)
    && (forall c: DisconnectCode :: w.leaving.encode(c).Ok? && |w.leaving.encode(c).value| == 1)
  }

  /** A larger number takes no fewer bytes. */
  ghost predicate Growing(c: Codec<nat>) {
    forall x: nat, y: nat :: x <= y && c.encode(y).Ok? ==> c.encode(x).Ok? && |c.encode(x).value| <= |c.encode(y).value|
  }

  /** The smallest numbers take one byte. */
  ghost predicate Short(c: Codec<nat>) {
    forall x: nat :: x <= 4 ==> c.encode(x).Ok? && |c.encode(x).value| == 1
  }

  /** What is read takes up `n` bytes. */
  ghost predicate Sized<T(!new)>(c: Codec<T>, n: nat) {
    forall s: Bytes :: c.decode(s).Ok? ==> c.decode(s).value.1 == n
  }

  /** Every kind covered has its one byte. */
  ghost predicate OneByte(c: Codec<Kind>) {
    && (forall k: Kind :: k != OtherKind ==> c.encode(k).Ok? && |c.encode(k).value| == 1)
    && (forall s: Bytes :: c.decode(s).Ok? ==> c.decode(s).value.1 <= |s|)
  }

  /** Only properties whose value is of the kind their type says are written. */
  ghost predicate Typed(c: Codec<Property>) {
    forall p: Property :: c.encode(p).Ok? ==> Kinded(p)
  }

  /** What is read is within the input, and is written in no more bytes. */
  ghost predicate Sound(w: Wire) {
    && Readable(w)
    && Reencodes(w.number) && Reencodes(w.word) && Reencodes(w.property)
    && Reencodes(w.filter) && Reencodes(w.topic)
    && Reencodes(w.granted) && Reencodes(w.reason) && Reencodes(w.leaving)
    && Growing(w.number) && Short(w.number) && OneByte(w.kind) && Typed(w.property)
    && Sized(w.word, 2) && Sized(w.reason, 1) && Sized(w.leaving, 1)
  }

  /** Nothing panics. */
  ghost predicate Unshaken(w: Wire) {
    && Calm(w.number) && Calm(w.word) && Calm(w.kind) && Calm(w.property) && Calm(w.filter) && Calm(w.topic)
    && Calm(w.granted) && Calm(w.reason) && Calm(w.leaving)
  }
}
