/**
 The properties a packet carries, as values: how decoding takes them in one by one, and how
 encoding lists them.
 */
module PropertySets {
  import opened Basics
  import opened Varint
  import opened Fields
  import opened Codecs
  import opened Properties

  /** Whose block it is: each packet allows its own properties. */
  datatype Owner = OfSubscribe | OfUnSubscribe | OfSubAck | OfPub | OfDisconnect

  /** The five property structs in one: what a packet does not allow stays absent. */
  datatype Props = Props(
    subscriptionId: Option<nat>,
    sessionExpiryInterval: Option<U32>,
    reasonString: Option<Bytes>,
    serverReference: Option<Bytes>,
    userProperties: seq<Pair>)

  const NO_PROPS := Props(None, None, None, None, [])

  predicate Allows(owner: Owner, pt: Byte) {
    match owner
    case OfSubscribe => pt == SUBSCRIPTION_IDENTIFIER || pt == USER_PROPERTY
    case OfUnSubscribe => pt == USER_PROPERTY
    case OfSubAck => pt == REASON_STRING || pt == USER_PROPERTY
    case OfPub => pt == REASON_STRING || pt == USER_PROPERTY
    case OfDisconnect =>
      pt == SESSION_EXPIRY_INTERVAL || pt == REASON_STRING || pt == SERVER_REFERENCE || pt == USER_PROPERTY
  }

  /** The value is of the kind its type says, for the types that blocks allow. */
  predicate Kinded(p: Property) {
    && (p.pt == SUBSCRIPTION_IDENTIFIER ==> p.value.VarValue?)
    && (p.pt == SESSION_EXPIRY_INTERVAL ==> p.value.LongValue?)
    && (p.pt == REASON_STRING || p.pt == SERVER_REFERENCE ==> p.value.TextValue?)
    && (p.pt == USER_PROPERTY ==> p.value.PairValue?)
  }

  /** What the property struct of the packet has a field for. */
  predicate CanHold(owner: Owner, props: Props) {
    && (props.subscriptionId.Some? ==> Allows(owner, SUBSCRIPTION_IDENTIFIER))
    && (props.sessionExpiryInterval.Some? ==> Allows(owner, SESSION_EXPIRY_INTERVAL))
    && (props.reasonString.Some? ==> Allows(owner, REASON_STRING))
    && (props.serverReference.Some? ==> Allows(owner, SERVER_REFERENCE))
  }

  /** The match at the end of the decoding loops; a property that decodes is of its kind. */
  function Absorb(owner: Owner, props: Props, p: Property): Result<Props> {
    if !Allows(owner, p.pt) || !Kinded(p) then Err(ProtocolError)
    else
      match p.value
      case VarValue(v) => if v == 0 then Err(ProtocolError) else Ok(props.(subscriptionId := Some(v)))
      case LongValue(x) => Ok(props.(sessionExpiryInterval := Some(x)))
      case TextValue(t) =>
        if p.pt == REASON_STRING then Ok(props.(reasonString := Some(t))) else Ok(props.(serverReference := Some(t)))
      case PairValue(pair) => Ok(props.(userProperties := props.userProperties + [pair]))
      case _ => Err(ProtocolError)
  }

  /** The loop's effect on the properties in turn; `seen` are the types met so far. */
  function AbsorbAll(owner: Owner, props: Props, seen: set<Byte>, ps: seq<Property>): (r: Result<Props>)
    ensures r.Ok? && CanHold(owner, props) ==> CanHold(owner, r.value)
    ensures r != Err(Panic)
    decreases |ps|
  {
    if ps == [] then Ok(props)
    else if ps[0].pt != USER_PROPERTY && ps[0].pt in seen then Err(ProtocolError)
    else
      var props' :- Absorb(owner, props, ps[0]);
      AbsorbAll(owner, props', seen + {ps[0].pt}, ps[1..])
  }

  function UserList(us: seq<Pair>): (r: seq<Property>)
    ensures |r| == |us| && forall i :: 0 <= i < |us| ==> r[i] == Property(USER_PROPERTY, PairValue(us[i]))
  {
    seq(|us|, i requires 0 <= i < |us| => Property(USER_PROPERTY, PairValue(us[i])))
  }

  function ListedId(id: Option<nat>): seq<Property> {
    if id.Some? then [Property(SUBSCRIPTION_IDENTIFIER, VarValue(id.value))] else []
  }

  function ListedInterval(interval: Option<U32>): seq<Property> {
    if interval.Some? then [Property(SESSION_EXPIRY_INTERVAL, LongValue(interval.value))] else []
  }

  function ListedText(pt: Byte, text: Option<Bytes>): seq<Property> {
    if text.Some? then [Property(pt, TextValue(text.value))] else []
  }

  function ListedNumbers(props: Props): seq<Property> {
    ListedId(props.subscriptionId) + ListedInterval(props.sessionExpiryInterval)
  }

  function ListedTexts(props: Props): seq<Property> {
    ListedText(REASON_STRING, props.reasonString) + ListedText(SERVER_REFERENCE, props.serverReference)
  }

  /** The properties of a block in the order they are written. */
  function Listed(props: Props): seq<Property> {
    ListedNumbers(props) + ListedTexts(props) + UserList(props.userProperties)
  }

  /** Only allowed properties are set, and the subscription identifier is not the forbidden zero. */
  predicate Fits(owner: Owner, props: Props) {
    CanHold(owner, props) && props.subscriptionId != Some(0)
  }

  lemma {:induction false} AbsorbUsers(owner: Owner, props: Props, seen: set<Byte>, us: seq<Pair>)
    ensures AbsorbAll(owner, props, seen, UserList(us)) == Ok(props.(userProperties := props.userProperties + us))
    decreases |us|
  {
    if us == [] {
      assert props.userProperties + us == props.userProperties;
    } else {
      var props' := props.(userProperties := props.userProperties + [us[0]]);
      assert UserList(us)[1..] == UserList(us[1..]);
      AbsorbUsers(owner, props', seen + {USER_PROPERTY}, us[1..]);
      assert props'.userProperties + us[1..] == props.userProperties + us;
    }
  }

  /** Goes on as `next`, or fails if the field just met does not fit. */
  ghost predicate GoesOn(r: Result<Props>, fits: bool, next: Result<Props>) {
    if fits then r == next else r.Err?
  }

  lemma AbsorbOptional(
    owner: Owner, p: Props, seen: set<Byte>, o: seq<Property>, fits: bool, p': Props, ps: seq<Property>)
    requires |o| <= 1
    requires o == [] ==> fits && p' == p
    requires o != [] ==> o[0].pt !in seen && GoesOn(Absorb(owner, p, o[0]), fits, Ok(p'))
    ensures var seen' := if o == [] then seen else seen + {o[0].pt};
            GoesOn(AbsorbAll(owner, p, seen, o + ps), fits, AbsorbAll(owner, p', seen', ps))
  {
    if o == [] {
      assert o + ps == ps;
    } else {
      assert (o + ps)[1..] == ps && (o + ps)[0] == o[0];
    }
  }

  lemma AbsorbLast(owner: Owner, p: Props, seen: set<Byte>, props: Props)
    requires p == props.(serverReference := None, userProperties := [])
    requires SERVER_REFERENCE !in seen && Fits(owner, p)
    ensures var last := ListedText(SERVER_REFERENCE, props.serverReference) + UserList(props.userProperties);
            GoesOn(AbsorbAll(owner, p, seen, last), Fits(owner, props), Ok(props))
  {
    var o := ListedText(SERVER_REFERENCE, props.serverReference);
    var p' := p.(serverReference := props.serverReference);
    var seen' := if o == [] then seen else seen + {o[0].pt};
    AbsorbOptional(owner, p, seen, o, Fits(owner, p'), p', UserList(props.userProperties));
    AbsorbUsers(owner, p', seen', props.userProperties);
    assert p'.userProperties + props.userProperties == props.userProperties;
  }

  lemma AbsorbTexts(owner: Owner, p: Props, seen: set<Byte>, props: Props)
    requires p == props.(reasonString := None, serverReference := None, userProperties := [])
    requires REASON_STRING !in seen && SERVER_REFERENCE !in seen && Fits(owner, p)
    ensures GoesOn(AbsorbAll(owner, p, seen, ListedTexts(props) + UserList(props.userProperties)),
                   Fits(owner, props), Ok(props))
  {
    var o := ListedText(REASON_STRING, props.reasonString);
    var rest := ListedText(SERVER_REFERENCE, props.serverReference) + UserList(props.userProperties);
    assert ListedTexts(props) + UserList(props.userProperties) == o + rest;
    var p' := p.(reasonString := props.reasonString);
    var seen' := if o == [] then seen else seen + {o[0].pt};
    AbsorbOptional(owner, p, seen, o, Fits(owner, p'), p', rest);
    if Fits(owner, p') {
      AbsorbLast(owner, p', seen', props);
    }
  }

  /** Taking in the listed properties rebuilds the block exactly when the packet allows it. */
  lemma AbsorbListed(owner: Owner, props: Props)
    ensures GoesOn(AbsorbAll(owner, NO_PROPS, {}, Listed(props)), Fits(owner, props), Ok(props))
  {
    var o1 := ListedId(props.subscriptionId);
    var o2 := ListedInterval(props.sessionExpiryInterval);
    var rest := ListedTexts(props) + UserList(props.userProperties);
    assert Listed(props) == o1 + (o2 + rest);
    var p1 := NO_PROPS.(subscriptionId := props.subscriptionId);
    var p2 := p1.(sessionExpiryInterval := props.sessionExpiryInterval);
    var s0: set<Byte> := {};
    var s1 := if o1 == [] then s0 else s0 + {o1[0].pt};
    var s2 := if o2 == [] then s1 else s1 + {o2[0].pt};
    AbsorbOptional(owner, NO_PROPS, s0, o1, Fits(owner, p1), p1, o2 + rest);
    if Fits(owner, p1) {
      AbsorbOptional(owner, p1, s1, o2, Fits(owner, p2), p2, rest);
      if Fits(owner, p2) {
        AbsorbTexts(owner, p2, s2, props);
      }
    }
  }

  lemma ListedEmpty(props: Props)
    ensures Listed(props) == [] <==> props == NO_PROPS
  {
    if props != NO_PROPS {
      assert |Listed(props)| == |ListedNumbers(props)| + |ListedTexts(props)| + |props.userProperties|;
    }
  }

  /** Every field that is set is of a type met before. */
  ghost predicate Tracked(props: Props, seen: set<Byte>) {
    && (props.subscriptionId.Some? ==> SUBSCRIPTION_IDENTIFIER in seen)
    && (props.sessionExpiryInterval.Some? ==> SESSION_EXPIRY_INTERVAL in seen)
    && (props.reasonString.Some? ==> REASON_STRING in seen)
    && (props.serverReference.Some? ==> SERVER_REFERENCE in seen)
  }

  predicate Grown(xs: seq<Property>, p: Property, xs': seq<Property>) {
    xs' == [p] + xs || xs' == xs + [p]
  }

  /** One of three lists has grown by `p`. */
  predicate OneGrown(n: seq<Property>, t: seq<Property>, u: seq<Property>, p: Property,
                     n': seq<Property>, t': seq<Property>, u': seq<Property>) {
    || (t' == t && u' == u && Grown(n, p, n'))
    || (n' == n && u' == u && Grown(t, p, t'))
    || (n' == n && t' == t && Grown(u, p, u'))
  }

  lemma OneGrownSize(size: seq<Property> -> Option<nat>, n: seq<Property>, t: seq<Property>, u: seq<Property>,
                     p: Property, n': seq<Property>, t': seq<Property>, u': seq<Property>)
    requires Additive(size) && OneGrown(n, t, u, p, n', t', u')
    ensures size(n' + t' + u') == Plus(size(n + t + u), size([p]))
  {
    assert AddsUp(size, n, t) && AddsUp(size, n + t, u) && AddsUp(size, n', t') && AddsUp(size, n' + t', u');
    assert AddsUp(size, [p], n) && AddsUp(size, n, [p]) && AddsUp(size, [p], t) && AddsUp(size, t, [p]);
    assert AddsUp(size, [p], u) && AddsUp(size, u, [p]);
  }

  /** Taking in a property of a new type adds it to one part of the list. */
  lemma AbsorbGrowsOne(owner: Owner, props: Props, seen: set<Byte>, p: Property)
    requires Tracked(props, seen) && (p.pt == USER_PROPERTY || p.pt !in seen)
    requires Kinded(p) && Absorb(owner, props, p).Ok?
    ensures var props' := Absorb(owner, props, p).value;
            OneGrown(ListedNumbers(props), ListedTexts(props), UserList(props.userProperties), p,
                     ListedNumbers(props'), ListedTexts(props'), UserList(props'.userProperties))
  {
    var props' := Absorb(owner, props, p).value;
    if p.pt == USER_PROPERTY {
      assert UserList(props'.userProperties) == UserList(props.userProperties) + [p];
    }
  }

  lemma AbsorbSize(size: seq<Property> -> Option<nat>, owner: Owner, props: Props, seen: set<Byte>, p: Property)
    requires Additive(size) && Tracked(props, seen) && (p.pt == USER_PROPERTY || p.pt !in seen)
    requires Kinded(p) && Absorb(owner, props, p).Ok?
    ensures size(Listed(Absorb(owner, props, p).value)) == Plus(size(Listed(props)), size([p]))
  {
    var props' := Absorb(owner, props, p).value;
    AbsorbGrowsOne(owner, props, seen, p);
    OneGrownSize(size, ListedNumbers(props), ListedTexts(props), UserList(props.userProperties), p,
                 ListedNumbers(props'), ListedTexts(props'), UserList(props'.userProperties));
  }

  lemma AbsorbTracks(owner: Owner, props: Props, seen: set<Byte>, p: Property)
    requires Tracked(props, seen) && Kinded(p) && Absorb(owner, props, p).Ok?
    ensures Tracked(Absorb(owner, props, p).value, seen + {p.pt})
  {
  }

  lemma SizeChains(size: seq<Property> -> Option<nat>, a: Option<nat>, b: Option<nat>, ps: seq<Property>)
    requires Additive(size) && ps != [] && b == Plus(a, size([ps[0]]))
    ensures Plus(b, size(ps[1..])) == Plus(a, size(ps))
  {
    assert AddsUp(size, [ps[0]], ps[1..]) && [ps[0]] + ps[1..] == ps;
  }

  /** However sizes are measured, what is taken in is what the list grows by. */
  lemma {:induction false} AbsorbGrows(
    size: seq<Property> -> Option<nat>, owner: Owner, props: Props, seen: set<Byte>, ps: seq<Property>)
    requires Additive(size) && Tracked(props, seen)
    requires (forall i :: 0 <= i < |ps| ==> Kinded(ps[i])) && AbsorbAll(owner, props, seen, ps).Ok?
    ensures size(Listed(AbsorbAll(owner, props, seen, ps).value)) == Plus(size(Listed(props)), size(ps))
    decreases |ps|
  {
    if ps == [] {
      assert AddsUp(size, Listed(props), []) && Listed(props) + [] == Listed(props);
    } else {
      AbsorbTracks(owner, props, seen, ps[0]);
      AbsorbSize(size, owner, props, seen, ps[0]);
      var next := Absorb(owner, props, ps[0]).value;
      AbsorbGrows(size, owner, next, seen + {ps[0].pt}, ps[1..]);
      SizeChains(size, size(Listed(props)), size(Listed(next)), ps);
    }
  }

  lemma {:induction false} AbsorbFits(owner: Owner, props: Props, seen: set<Byte>, ps: seq<Property>)
    requires Fits(owner, props) && AbsorbAll(owner, props, seen, ps).Ok?
    requires forall i :: 0 <= i < |ps| ==> Kinded(ps[i])
    ensures Fits(owner, AbsorbAll(owner, props, seen, ps).value)
    decreases |ps|
  {
    if ps != [] {
      AbsorbFits(owner, Absorb(owner, props, ps[0]).value, seen + {ps[0].pt}, ps[1..]);
    }
  }
}
