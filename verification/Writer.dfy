/** `MQTTWrite`: a packet written to a socket that takes as little as it likes at a time. */
module Writer {
  import opened Basics

  datatype Writer =
    | Unset
    | Init(data: Bytes, maxSize: nat)
    | Remain(data: Bytes, start: nat, maxSize: nat)
    | Fin(data: Bytes, maxSize: nat)

  /** What one `io::Write::write` call comes to. */
  datatype Answer = Wrote(n: nat) | Interrupted | WouldBlock | Failed

  datatype Outcome = Next(writer: Writer, wouldBlock: bool) | Disconnected | Unreachable

  function New(buf: Bytes, maxSize: nat): Writer {
    Init(buf, maxSize)
  }

  /** The slice handed to the stream, when it is called at all. */
  function Offered(w: Writer): Option<Bytes> {
    match w
    case Init(data, maxSize) => if |data| > maxSize then None else Some(data)
    case Remain(data, start, _) => if start <= |data| then Some(data[start..]) else None
    case _ => None
  }

  /** A stream never takes more than it was offered. */
  predicate Takes(w: Writer, a: Answer) {
    Offered(w).Some? && a.Wrote? ==> a.n <= |Offered(w).value|
  }

  /** `MQTTWrite::write`, given what the stream answers. */
  function Write(w: Writer, a: Answer): Outcome {
    match w
    case Init(data, maxSize) =>
      if |data| > maxSize then Next(Fin(data, maxSize), false)
      else (
        match a
        case Wrote(n) =>
          if n == 0 then Disconnected
          else if n == |data| then Next(Fin(data, maxSize), false)
          else if n < |data| then Next(Remain(data, n, maxSize), false)
          else Unreachable
        case Interrupted => Next(Remain(data, 0, maxSize), false)
        case WouldBlock => Next(Remain(data, 0, maxSize), true)
        case Failed => Disconnected)
    case Remain(data, start, maxSize) => (
      match a
      case Wrote(n) =>
        if n == 0 then Disconnected
        else if start + n == |data| then Next(Fin(data, maxSize), false)
        else if start + n < |data| then Next(Remain(data, start + n, maxSize), false)
        else Unreachable
      case Interrupted => Next(w, false)
      case WouldBlock => Next(w, true)
      case Failed => Disconnected)
    case Fin(_, _) => Next(w, false)
    case Unset => Unreachable
  }

  /** `MQTTWrite::reset`, allowed on a finished writer only. */
  function Reset(w: Writer, buf: Bytes): Option<Writer> {
    if w.Fin? then Some(Init(buf, w.maxSize)) else None
  }

  // ------------------------------------------------------------------------- the stream

  /** A socket with an arbitrary script of answers. */
  class Stream {
    var accepted: Bytes
    var script: seq<Answer>

    constructor (script: seq<Answer>)
      ensures this.script == script && accepted == []
    {
      this.script := script;
      accepted := [];
    }

    /** A stream takes a prefix of what it is offered, or nothing. */
    method Accept(buf: Bytes) returns (a: Answer)
      modifies this
      ensures a == if old(script) == [] then WouldBlock
                   else if old(script)[0].Wrote? then Wrote(Min(old(script)[0].n, |buf|)) else old(script)[0]
      ensures a.Wrote? ==> a.n <= |buf| && accepted == old(accepted) + buf[..a.n]
      ensures !a.Wrote? ==> accepted == old(accepted)
      ensures script == if old(script) == [] then [] else old(script)[1..]
    {
      a := if script == [] then WouldBlock else script[0];
      script := if script == [] then [] else script[1..];
      if a.Wrote? {
        a := Wrote(Min(a.n, |buf|));
        accepted := accepted + buf[..a.n];
      }
    }
  }

  /** The bytes that leave with one answer. */
  function Taken(w: Writer, a: Answer): Bytes {
    if Offered(w).Some? && a.Wrote? && a.n <= |Offered(w).value| then Offered(w).value[..a.n] else []
  }

  /** A packet that fits and is not finished. */
  predicate Pending(w: Writer) {
    (w.Init? && |w.data| <= w.maxSize) || (w.Remain? && w.start <= |w.data|)
  }

  /** How much of it is on the wire. */
  function Sent(w: Writer): nat {
    if w.Remain? then w.start else 0
  }

  /** What is left of it goes to the stream. */
  lemma OfferedRest(w: Writer)
    requires Pending(w)
    ensures Sent(w) <= |w.data| && Offered(w) == Some(w.data[Sent(w)..])
  {
  }

  /**
   What one call makes of the stream's answer: the connection is lost exactly on an error or a write of nothing,
   `would_block` is said exactly if the stream said so, and the packet is finished or `start` moved on by what
   was taken.
   */
  lemma WriteAnswers(w: Writer, a: Answer)
    requires Pending(w) && Takes(w, a)
    ensures Write(w, a).Disconnected? <==> a.Failed? || a == Wrote(0)
    ensures !Write(w, a).Disconnected? ==>
              var n := Sent(w) + if a.Wrote? then a.n else 0;
              && Write(w, a).Next? && (Write(w, a).wouldBlock <==> a.WouldBlock?)
              && Write(w, a).writer ==
                 if a.Wrote? && n == |w.data| then Fin(w.data, w.maxSize) else Remain(w.data, n, w.maxSize)
  {
  }

  /** The writer's step on a real stream: the answer decides, and what was taken is on the wire. */
  method WriteTo(w: Writer, stream: Stream) returns (r: Outcome, ghost a: Answer)
    requires w.Remain? ==> w.start <= |w.data|
    modifies stream
    ensures r == Write(w, a) && Takes(w, a)
    ensures stream.accepted == old(stream.accepted) + Taken(w, a)
    ensures r.Unreachable? <==> w.Unset?
    ensures r.Disconnected? <==> Pending(w) && (a.Failed? || a == Wrote(0))
    ensures r.Next? ==>
              && (r.wouldBlock <==> Pending(w) && a.WouldBlock?)
              && r.writer.data == w.data && r.writer.maxSize == w.maxSize
              && (r.writer.Fin? <==> !Pending(w) || (a.Wrote? && Sent(w) + a.n == |w.data|))
              && (!r.writer.Fin? ==> r.writer.Remain? && r.writer.start == Sent(w) + if a.Wrote? then a.n else 0)
    ensures !Pending(w) ==> stream.accepted == old(stream.accepted)
  {
    a := WouldBlock;
    match w {
      case Init(data, maxSize) =>
        if |data| > maxSize {
          r := Next(Fin(data, maxSize), false);
        } else {
          var b := stream.Accept(data);
          a := b;
          match b {
            case Wrote(n) =>
              if n == 0 {
                r := Disconnected;
              } else if n == |data| {
                r := Next(Fin(data, maxSize), false);
              } else {
                r := Next(Remain(data, n, maxSize), false);
              }
            case Interrupted => r := Next(Remain(data, 0, maxSize), false);
            case WouldBlock => r := Next(Remain(data, 0, maxSize), true);
            case Failed => r := Disconnected;
          }
        }
      case Remain(data, start, maxSize) =>
        var b := stream.Accept(data[start..]);
        a := b;
        match b {
          case Wrote(n) =>
            if n == 0 {
              r := Disconnected;
            } else if start + n == |data| {
              r := Next(Fin(data, maxSize), false);
            } else {
              r := Next(Remain(data, start + n, maxSize), false);
            }
          case Interrupted => r := Next(w, false);
          case WouldBlock => r := Next(w, true);
          case Failed => r := Disconnected;
        }
      case Fin(_, _) => r := Next(w, false);
      case Unset => r := Unreachable;
    }
  }

  /** The writer after the stream has taken these pieces, if it goes on. */
  function Pump(w: Writer, ns: seq<nat>): Option<Writer>
    decreases |ns|
  {
    if ns == [] then Some(w)
    else
      match Write(w, Wrote(ns[0]))
      case Next(w', _) => Pump(w', ns[1..])
      case _ => None
  }

  function Total(ns: seq<nat>): nat {
    if ns == [] then 0 else ns[0] + Total(ns[1..])
  }

  /** In whatever pieces a stream takes what is left, none of them empty, the packet is finished by the last. */
  lemma {:induction false} PiecesFinish(w: Writer, ns: seq<nat>)
    requires Pending(w) && ns != [] && Sent(w) + Total(ns) == |w.data| && forall i :: 0 <= i < |ns| ==> ns[i] > 0
    ensures Pump(w, ns) == Some(Fin(w.data, w.maxSize))
    decreases |ns|
  {
    OfferedRest(w);
    WriteAnswers(w, Wrote(ns[0]));
    var w' := Write(w, Wrote(ns[0])).writer;
    if |ns| > 1 {
      assert ns[1..][0] == ns[1];
      PiecesFinish(w', ns[1..]);
    } else {
      assert ns[1..] == [];
    }
  }

  // ------------------------------------------------------------------------- whole runs

  datatype Event = Call(answer: Answer) | Load(buf: Bytes)

  /** The writer, all packets given to it so far, and all bytes taken from it so far. */
  datatype Link = Link(writer: Writer, packets: seq<Bytes>, wire: Bytes)

  function Start(buf: Bytes, maxSize: nat): Link {
    Link(New(buf, maxSize), [buf], [])
  }

  /** A load waits for `Fin`. */
  predicate Possible(l: Link, e: Event) {
    match e
    case Call(a) => Takes(l.writer, a)
    case Load(_) => l.writer.Fin?
  }

  /** One event; None once the connection is given up. */
  function Advance(l: Link, e: Event): Option<Link> {
    match e
    case Call(a) => (
      match Write(l.writer, a)
      case Next(w, _) => Some(l.(writer := w, wire := l.wire + Taken(l.writer, a)))
      case _ => None)
    case Load(buf) => (
      match Reset(l.writer, buf)
      case Some(w) => Some(l.(writer := w, packets := l.packets + [buf]))
      case None => None)
  }

  /** A run of events from a fresh writer that never lost the connection. */
  ghost predicate Run(ls: seq<Link>, es: seq<Event>, buf: Bytes, maxSize: nat) {
    && |ls| == |es| + 1 && ls[0] == Start(buf, maxSize)
    && forall i :: 0 <= i < |es| ==> Possible(ls[i], es[i]) && Advance(ls[i], es[i]) == Some(ls[i + 1])
  }

  /** The packets that are not silently skipped. */
  function Fitting(packets: seq<Bytes>, maxSize: nat): seq<Bytes> {
    if packets == [] then []
    else (if |packets[0]| <= maxSize then [packets[0]] else []) + Fitting(packets[1..], maxSize)
  }

  lemma {:induction false} FittingAppend(a: seq<Bytes>, b: Bytes, maxSize: nat)
    ensures Fitting(a + [b], maxSize) == Fitting(a, maxSize) + if |b| <= maxSize then [b] else []
  {
    if a != [] {
      assert (a + [b])[1..] == a[1..] + [b];
      FittingAppend(a[1..], b, maxSize);
    }
  }

  /** The bytes of the packets before the current one, each whole and once. */
  function Before(l: Link, maxSize: nat): Bytes
    requires l.packets != []
  {
    Flatten(Fitting(l.packets[..|l.packets| - 1], maxSize))
  }

  /** What is on the wire at every point: the earlier packets, then a prefix of this one. */
  ghost predicate Account(l: Link, maxSize: nat) {
    && l.packets != []
    && var current := l.packets[|l.packets| - 1];
    OnWire(l.writer, l.wire, current, Before(l, maxSize), Flatten(Fitting(l.packets, maxSize)), maxSize)
  }

  /** The same, with the current packet, what is before it, and what the wire is to hold in the end. */
  ghost predicate OnWire(w: Writer, wire: Bytes, current: Bytes, before: Bytes, whole: Bytes, maxSize: nat) {
    match w
    case Init(data, m) => m == maxSize && data == current && wire == before
    case Remain(data, start, m) =>
      && m == maxSize && data == current && |data| <= maxSize
      && (start < |data| || (data == [] && start == 0)) && wire == before + data[..start]
    case Fin(data, m) => m == maxSize && data == current && data != [] && wire == whole
    case Unset => false
  }

  /** The current packet adds itself whole, or nothing if it is too large. */
  lemma CurrentLast(l: Link, maxSize: nat)
    requires l.packets != []
    ensures var current := l.packets[|l.packets| - 1];
            Flatten(Fitting(l.packets, maxSize)) == Before(l, maxSize) + if |current| <= maxSize then current else []
  {
    var current := l.packets[|l.packets| - 1];
    var init := l.packets[..|l.packets| - 1];
    assert l.packets == init + [current];
    FittingAppend(init, current, maxSize);
    FlattenAppend(Fitting(init, maxSize), if |current| <= maxSize then [current] else []);
    assert Flatten([current]) == current;
  }

  lemma LoadKept(l: Link, buf: Bytes, maxSize: nat)
    requires Account(l, maxSize) && l.writer.Fin?
    ensures Advance(l, Load(buf)).Some? && Account(Advance(l, Load(buf)).value, maxSize)
  {
    var l' := Advance(l, Load(buf)).value;
    assert l'.packets[..|l.packets|] == l.packets && l'.packets[|l.packets|] == buf;
  }

  /** The stream has taken `n` bytes from `start` on. */
  lemma Grown(before: Bytes, data: Bytes, start: nat, n: nat)
    requires start + n <= |data|
    ensures before + data[..start] + data[start..][..n] == before + data[..start + n]
    ensures before + data[..|data|] == before + data && before + data[..0] == before && data[0..] == data
  {
    assert data[..start] + data[start..][..n] == data[..start + n];
  }

  lemma InitKept(w: Writer, a: Answer, wire: Bytes, before: Bytes, whole: Bytes, maxSize: nat)
    requires w.Init? && OnWire(w, wire, w.data, before, whole, maxSize) && Takes(w, a) && Write(w, a).Next?
    requires whole == before + if |w.data| <= maxSize then w.data else []
    ensures OnWire(Write(w, a).writer, wire + Taken(w, a), w.data, before, whole, maxSize)
  {
    Grown(before, w.data, 0, if a.Wrote? && a.n <= |w.data| then a.n else 0);
    assert before + [] == before;
  }

  lemma RemainKept(w: Writer, a: Answer, wire: Bytes, before: Bytes, whole: Bytes, maxSize: nat)
    requires w.Remain? && OnWire(w, wire, w.data, before, whole, maxSize) && Takes(w, a) && Write(w, a).Next?
    requires whole == before + if |w.data| <= maxSize then w.data else []
    ensures OnWire(Write(w, a).writer, wire + Taken(w, a), w.data, before, whole, maxSize)
  {
    Grown(before, w.data, w.start, if a.Wrote? && a.n <= |w.data| - w.start then a.n else 0);
    assert wire + [] == wire;
  }

  lemma CallKept(l: Link, a: Answer, maxSize: nat)
    requires Account(l, maxSize) && Possible(l, Call(a)) && Advance(l, Call(a)).Some?
    ensures Account(Advance(l, Call(a)).value, maxSize)
  {
    CurrentLast(l, maxSize);
    var before, whole := Before(l, maxSize), Flatten(Fitting(l.packets, maxSize));
    match l.writer {
      case Init(_, _) => InitKept(l.writer, a, l.wire, before, whole, maxSize);
      case Remain(_, _, _) => RemainKept(l.writer, a, l.wire, before, whole, maxSize);
      case Fin(_, _) => assert l.wire + [] == l.wire;
    }
  }

  /**
   Over every run of packets, partial writes, would-blocks and interrupts: the wire holds the
   earlier packets whole, once and in order, then exactly `data[..start]` of the current one;
   at `Fin` the current packet is on it whole, or not at all because it exceeds `maxSize`.
   */
  lemma {:induction false} WireIsExact(ls: seq<Link>, es: seq<Event>, buf: Bytes, maxSize: nat, k: nat)
    requires Run(ls, es, buf, maxSize) && k < |ls|
    ensures Account(ls[k], maxSize)
  {
    if k == 0 {
      assert ls[0].packets[..0] == [];
    } else {
      WireIsExact(ls, es, buf, maxSize, k - 1);
      assert Advance(ls[k - 1], es[k - 1]) == Some(ls[k - 1 + 1]);
      match es[k - 1] {
        case Load(b) => LoadKept(ls[k - 1], b, maxSize);
        case Call(a) => CallKept(ls[k - 1], a, maxSize);
      }
    }
  }

  /** In every run, the next call loses the connection exactly on an error or a write of nothing. */
  lemma LostIff(ls: seq<Link>, es: seq<Event>, buf: Bytes, maxSize: nat, a: Answer)
    requires Run(ls, es, buf, maxSize) && Possible(ls[|es|], Call(a))
    ensures var l := ls[|es|];
            l.packets != [] &&
            (Advance(l, Call(a)).None? <==>
             !l.writer.Fin? && |l.packets[|l.packets| - 1]| <= maxSize && (a.Failed? || a == Wrote(0)))
  {
    WireIsExact(ls, es, buf, maxSize, |es|);
    var w := ls[|es|].writer;
    if Pending(w) {
      WriteAnswers(w, a);
    }
  }

  lemma FinishedIff(w: Writer, wire: Bytes, current: Bytes, before: Bytes, maxSize: nat)
    requires !w.Init? && OnWire(w, wire, current, before, before + current, maxSize)
    ensures w.Fin? <==> wire == before + current && current != []
  {
    if w.Remain? {
      assert |wire| == |before| + w.start;
    }
  }

  lemma FinishedAfter(w: Writer, a: Answer, wire: Bytes, before: Bytes, maxSize: nat)
    requires w.Init? || w.Remain?
    requires OnWire(w, wire, w.data, before, before + w.data, maxSize) && Takes(w, a) && Write(w, a).Next?
    requires |w.data| <= maxSize
    ensures Write(w, a).writer.Fin? <==> wire + Taken(w, a) == before + w.data && w.data != []
  {
    if w.Init? {
      InitKept(w, a, wire, before, before + w.data, maxSize);
    } else {
      RemainKept(w, a, wire, before, before + w.data, maxSize);
    }
    FinishedIff(Write(w, a).writer, wire + Taken(w, a), w.data, before, maxSize);
  }

  /** A packet that fits is finished exactly by the answer that takes its last byte. */
  lemma FinishedWhenAllTaken(l: Link, a: Answer, maxSize: nat)
    requires Account(l, maxSize) && Possible(l, Call(a)) && Advance(l, Call(a)).Some?
    requires !l.writer.Fin? && |l.writer.data| <= maxSize
    ensures var l' := Advance(l, Call(a)).value;
            l'.writer.Fin? <==> l'.wire == Before(l, maxSize) + l.writer.data && l.writer.data != []
  {
    CurrentLast(l, maxSize);
    FinishedAfter(l.writer, a, l.wire, Before(l, maxSize), maxSize);
  }
}
