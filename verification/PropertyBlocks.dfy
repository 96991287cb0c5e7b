/**
 Blocks of properties (section 2.2.2 of MQTT 5.0), as SUBSCRIBE, UNSUBSCRIBE, SUBACK, the PUBACK
 family and DISCONNECT carry them: a length, and the properties.
 */
module PropertyBlocks {
  import opened Basics
  import opened Varint
  import opened Codecs
  import opened Properties
  import opened PropertySets
  import opened Wires

  /** The loop over `len` bytes of properties, and how many bytes it took in. */
  function PropsIn(w: Wire, owner: Owner, s: Bytes, len: nat): (r: Result<(Props, nat)>)
    ensures r.Ok? ==> len <= r.value.1 && CanHold(owner, r.value.0)
  {
    var (ps, end) := DecodeList(w.property, s, len);
    var props :- AbsorbAll(owner, NO_PROPS, {}, ps);
    var n :- end;
    Ok((props, n))
  }

  /** `SubscribeProperties::decode` and its four siblings: the outcome of `DecodePropsLoop`. */
  function DecodeProps(w: Wire, owner: Owner, s: Bytes): (r: Result<(Props, nat)>)
    ensures r.Ok? ==> CanHold(owner, r.value.0)
  {
    var (len, m) :- w.number.decode(s);
    Onwards(m, PropsIn(w, owner, After(s, m), len))
  }

  /** `dec_props!`: an empty block is read back as absent, and a block fills its length exactly. */
  function DecodeBlock(w: Wire, owner: Owner, s: Bytes): (r: Result<(Option<Props>, Size)>)
    ensures r.Ok? ==> BlockHolds(owner, r.value.0)
  {
    var (p, m) :- w.number.decode(s);
    if p == 0 then Ok((None, m))
    else
      var (props, r) :- DecodeProps(w, owner, s);
      if r == m + p then Ok((Some(props), r)) else Err(ProtocolError)
  }

  /** `encode` of the property structs: the properties, then their length in front. */
  function EncodeProps(w: Wire, props: Props): Result<Bytes> {
    var data :- EncodeList(w.property, Listed(props));
    var len :- w.number.encode(|data|);
    Ok(len + data)
  }

  function EncodeBlock(w: Wire, props: Option<Props>): Result<Bytes> {
    match props
    case Some(p) => EncodeProps(w, p)
    case None => w.number.encode(0)
  }

  /** A block without properties is the same on the wire as no block. */
  function Normal(o: Option<Props>): Option<Props> {
    if o == Some(NO_PROPS) then None else o
  }

  /** The block is one that the packet's property struct can be. */
  predicate BlockHolds(owner: Owner, o: Option<Props>) {
    o.Some? ==> CanHold(owner, o.value)
  }

  predicate BlockFits(owner: Owner, o: Option<Props>) {
    o.Some? ==> Fits(owner, o.value)
  }

  // ------------------------------------------------------------- decoding what was encoded

  lemma PropsInRoundTrip(w: Wire, owner: Owner, props: Props, rest: Bytes)
    requires Inverts(w.property) && EncodeList(w.property, Listed(props)).Ok?
    ensures var data := EncodeList(w.property, Listed(props)).value;
            && (data == [] <==> props == NO_PROPS)
            && (if Fits(owner, props) then PropsIn(w, owner, data + rest, |data|) == Ok((props, |data|))
                else PropsIn(w, owner, data + rest, |data|).Err?)
  {
    ListRoundTrip(w.property, Listed(props), rest);
    AbsorbListed(owner, props);
    ListedEmpty(props);
    EncodeListEmpty(w.property, Listed(props));
  }

  /** `data` with its length in front, in terms of what the loop makes of it. */
  lemma SizedRoundTrip(w: Wire, owner: Owner, data: Bytes, rest: Bytes)
    requires Inverts(w.number) && w.number.encode(|data|).Ok?
    ensures var b := w.number.encode(|data|).value + data;
            var r := PropsIn(w, owner, data + rest, |data|);
            && b != [] && After(b + rest, |b|) == rest
            && (data == [] ==> DecodeBlock(w, owner, b + rest) == Ok((None, |b|)))
            && (data != [] && r.Err? ==> DecodeBlock(w, owner, b + rest).Err?)
            && (data != [] && r.Ok? && r.value.1 == |data| ==>
                  DecodeBlock(w, owner, b + rest) == Ok((Some(r.value.0), |b|)))
  {
    var len := w.number.encode(|data|).value;
    assert len + data + rest == len + (data + rest);
    Read(w.number, |data|, data + rest);
  }

  /**
   An encoded block decodes to itself, with an empty one read back as absent, whatever follows; but it
   is refused when it holds a zero subscription identifier, which encoding does not look at, or, on a
   foreign packet, a property that packet does not allow.
   */
  lemma BlockRoundTrip(w: Wire, owner: Owner, o: Option<Props>, rest: Bytes)
    requires Readable(w) && EncodeBlock(w, o).Ok?
    ensures var b := EncodeBlock(w, o).value;
            && b != [] && After(b + rest, |b|) == rest
            && (if BlockFits(owner, o) then DecodeBlock(w, owner, b + rest) == Ok((Normal(o), |b|))
                else DecodeBlock(w, owner, b + rest).Err?)
  {
    if o == None {
      Read(w.number, 0, rest);
    } else {
      PropsInRoundTrip(w, owner, o.value, rest);
      SizedRoundTrip(w, owner, EncodeList(w.property, Listed(o.value)).value, rest);
    }
  }

  // ------------------------------------------------------------- encoding what was decoded

  lemma {:induction false} EncodedKinded(w: Wire, ps: seq<Property>)
    requires Sound(w) && EncodeList(w.property, ps).Ok?
    ensures forall i :: 0 <= i < |ps| ==> Kinded(ps[i])
  {
    if ps != [] {
      EncodedKinded(w, ps[1..]);
      assert forall i :: 1 <= i < |ps| ==> ps[i] == ps[1..][i - 1];
    }
  }

  lemma PropsInReencodes(w: Wire, owner: Owner, s: Bytes, len: nat)
    requires Sound(w) && len > 0 && PropsIn(w, owner, s, len).Ok?
    ensures var (props, n) := PropsIn(w, owner, s, len).value;
            var data := EncodeList(w.property, Listed(props));
            && Fits(owner, props) && props != NO_PROPS
            && data.Ok? && |data.value| <= n <= |s|
  {
    var (ps, end) := DecodeList(w.property, s, len);
    ListReencodes(w.property, s, len);
    EncodedKinded(w, ps);
    AbsorbFits(owner, NO_PROPS, {}, ps);
    SizeAdditive(w.property);
    AbsorbGrows((xs: seq<Property>) => SizeOf(w.property, xs), owner, NO_PROPS, {}, ps);
    assert Listed(NO_PROPS) == [];
    EncodeListEmpty(w.property, ps);
  }

  /** The length in front of a block, and its own size, come to `n` bytes. */
  predicate BlockTakes(w: Wire, s: Bytes, n: int) {
    w.number.decode(s).Ok? && n == w.number.decode(s).value.0 + w.number.decode(s).value.1
  }

  lemma BlockSize(w: Wire, owner: Owner, s: Bytes, n: int)
    requires DecodeBlock(w, owner, s).Ok?
    ensures DecodeBlock(w, owner, s).value.1 == n <==> BlockTakes(w, s, n)
  {
  }

  /** A block that decodes fits its packet, is in normal form, and encodes again in no more bytes. */
  lemma BlockReencodes(w: Wire, owner: Owner, s: Bytes)
    requires Sound(w) && DecodeBlock(w, owner, s).Ok?
    ensures var (o, n) := DecodeBlock(w, owner, s).value;
            && BlockFits(owner, o) && Normal(o) == o
            && EncodeBlock(w, o).Ok? && |EncodeBlock(w, o).value| <= n <= |s|
  {
    var (len, m) := w.number.decode(s).value;
    assert ReencodesAt(w.number, s);
    if len > 0 {
      PropsInReencodes(w, owner, After(s, m), len);
    }
  }

  lemma BlockCalm(w: Wire, owner: Owner, s: Bytes)
    requires Unshaken(w)
    ensures !Panics(DecodeBlock(w, owner, s))
  {
    var header := w.number.decode(s);
    if header.Ok? {
      ListCalm(w.property, After(s, header.value.1), header.value.0);
    }
  }

  // ------------------------------------------------------------------- as the code has it

  /** The properties taken in and the types met so far; the table of flags holds the same as `seen`. */
  datatype Taken = Taken(props: Props, seen: set<Byte>)

  function TakeIn(owner: Owner, t: Taken, p: Property): Result<Taken> {
    if p.pt != USER_PROPERTY && p.pt in t.seen then Err(ProtocolError)
    else
      var props :- Absorb(owner, t.props, p);
      Ok(Taken(props, t.seen + {p.pt}))
  }

  function Taking(owner: Owner): (Taken, Property) -> Result<Taken> {
    (t, p) => TakeIn(owner, t, p)
  }

  lemma {:induction false} AbsorbIsFold(owner: Owner, t: Taken, ps: seq<Property>)
    ensures var r := FoldList(Taking(owner), t, ps);
            AbsorbAll(owner, t.props, t.seen, ps) == if r.Ok? then Ok(r.value.props) else Err(r.kind)
    decreases |ps|
  {
    if ps != [] {
      var t' := TakeIn(owner, t, ps[0]);
      if t'.Ok? {
        AbsorbIsFold(owner, t'.value, ps[1..]);
      }
    }
  }

  function Untaken(r: Result<(Taken, nat)>): Result<(Props, nat)> {
    if r.Ok? then Ok((r.value.0.props, r.value.1)) else Err(r.kind)
  }

  lemma FoldIsPropsIn(w: Wire, owner: Owner, s: Bytes, len: nat)
    ensures PropsIn(w, owner, s, len) ==
            Untaken(FoldFrom(w.property, Taking(owner), s, len, Taken(NO_PROPS, {})))
  {
    var t := Taken(NO_PROPS, {});
    FoldFromList(w.property, Taking(owner), s, len, t);
    AbsorbIsFold(owner, t, DecodeList(w.property, s, len).0);
  }

  lemma FoldIsPropsAt(w: Wire, owner: Owner, s: Bytes, n: nat, len: nat)
    ensures Onwards(n, PropsIn(w, owner, After(s, n), len)) ==
            Untaken(FoldAt(w.property, Taking(owner), s, len + n, n, Taken(NO_PROPS, {})))
  {
    FoldIsPropsIn(w, owner, After(s, n), len);
    FoldAtOffset(w.property, Taking(owner), s, len + n, n, Taken(NO_PROPS, {}));
  }

  predicate Marks(dups: array<bool>, seen: set<Byte>)
    requires dups.Length == 256
    reads dups
  {
    forall pt: Byte :: dups[pt] <==> pt in seen
  }

  /** A property is checked against the table of the types met so far, and taken in. */
  method TakeInto(owner: Owner, dups: array<bool>, t: Taken, p: Property) returns (r: Result<Taken>)
    requires dups.Length == 256 && Marks(dups, t.seen)
    modifies dups
    ensures r == TakeIn(owner, t, p)
    ensures r.Ok? ==> Marks(dups, r.value.seen)
  {
    if p.pt != USER_PROPERTY && dups[p.pt] {
      return Err(ProtocolError);
    }
    dups[p.pt] := true;
    var props :- Absorb(owner, t.props, p);
    return Ok(Taken(props, t.seen + {p.pt}));
  }

  /** The loop, from offset `start` on. */
  method PropsLoop(c: Codec<Property>, owner: Owner, s: Bytes, start: nat, limit: nat) returns (r: Result<(Props, nat)>)
    requires Reencodes(c) && start <= |s|
    ensures r == Untaken(FoldAt(c, Taking(owner), s, limit, start, Taken(NO_PROPS, {})))
  {
    var dups := new bool[256](_ => false);
    var t, n := Taken(NO_PROPS, {}), start;
    while n < limit
      invariant n <= |s| && Marks(dups, t.seen)
      invariant FoldAt(c, Taking(owner), s, limit, n, t) ==
                FoldAt(c, Taking(owner), s, limit, start, Taken(NO_PROPS, {}))
      decreases limit - n
    {
      assert ReencodesAt(c, After(s, n));
      var item :- c.decode(After(s, n));
      var (p, m) := item;
      n := n + m;
      t :- TakeInto(owner, dups, t, p);
    }
    return Ok((t.props, n));
  }

  /** `decode` of the property structs. */
  method DecodePropsLoop(w: Wire, owner: Owner, s: Bytes) returns (r: Result<(Props, nat)>)
    requires Reencodes(w.number) && Reencodes(w.property)
    ensures r == DecodeProps(w, owner, s)
  {
    assert ReencodesAt(w.number, s);
    var header :- w.number.decode(s);
    var (len, n) := header;
    FoldIsPropsAt(w, owner, s, n, len);
    r := PropsLoop(w.property, owner, s, n, len + n);
  }

  /** `encode` of the property structs. */
  method EncodePropsLoop(w: Wire, props: Props) returns (r: Result<Bytes>)
    ensures r == EncodeProps(w, props)
  {
    var data :- EncodeListLoop(w.property, Listed(props));
    var len :- w.number.encode(|data|);
    var out := InsertFront(len, data);
    return Ok(out);
  }
}
