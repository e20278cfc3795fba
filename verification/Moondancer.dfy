/**
  Moondancer: USB events on one side, a host polling through a command channel on the other,
  with three bounded queues between them.
*/
module Moondancer {
  import opened Options
  import opened Seqs
  import opened Words
  import opened Device
  import Control
  import Descriptors
  import opened Modular
  import opened Packetisation
  import UsbDriver

  // a heapless queue of N slots holds N - 1 elements, a heapless vector all N
  const IRQ_CAPACITY: nat := 63
  const CONTROL_CAPACITY: nat := 7
  const PACKET_CAPACITY: nat := 4
  const COMMAND_SIZE: nat := 1024

  /** A queued event, without the data that came with it. */
  datatype Notice = BusReset | ReceiveControl(endpoint: Byte) | ReceivePacket(endpoint: Byte)

  datatype Packet = Packet(endpoint: Byte, data: Bytes)

  datatype State = State(irq: seq<Notice>, control: seq<SetupPacket>, packets: seq<Packet>, pendingAddress: Option<nat>)

  const EMPTY: State := State([], [], [], None)

  /** What may happen: an event is dispatched, or the host issues one of the commands. */
  datatype Action =
    | Dispatch(event: Control.Event)
    | ReadControl
    | ReadEndpoint(arguments: Bytes)
    | GetInterruptEvents
    | Disconnect

  /** What an action gives back; an overflow of the control queue, or reading it empty, never returns. */
  datatype Reply = Nothing | Response(bytes: Bytes) | InvalidArgument | Never

  datatype Result = Result(state: State, calls: seq<Call>, reply: Reply)

  // ---- Bytes ----

  function NoticeBytes(n: Notice): (b: Bytes)
    ensures |b| == 2
  {
    match n
    case BusReset => [10, 0]
    case ReceiveControl(endpoint) => [11, endpoint]
    case ReceivePacket(endpoint) => [12, endpoint]
  }

  function NoticesBytes(notices: seq<Notice>): (b: Bytes)
    ensures |b| == 2 * |notices|
  {
    if notices == [] then [] else NoticeBytes(notices[0]) + NoticesBytes(notices[1..])
  }

  /** The events of a response, up to one that is none. */
  function ParseNotices(b: Bytes): seq<Notice> {
    if |b| < 2 || b[0] < 10 || b[0] > 12 || (b[0] == 10 && b[1] != 0) then []
    else
      [if b[0] == 10 then BusReset else if b[0] == 11 then ReceiveControl(b[1]) else ReceivePacket(b[1])]
      + ParseNotices(b[2..])
  }

  /** The host recovers the events from their bytes. */
  lemma {:induction false} NoticesRoundTrip(notices: seq<Notice>)
    ensures ParseNotices(NoticesBytes(notices)) == notices
  {
    if notices != [] {
      NoticesRoundTrip(notices[1..]);
      assert NoticesBytes(notices)[2..] == NoticesBytes(notices[1..]);
    }
  }

  // ---- Steps ----

  function Queued<T>(q: seq<T>, x: T, capacity: nat): seq<T> {
    if |q| < capacity then q + [x] else q
  }

  function Zeros(n: nat): (b: Bytes)
    ensures |b| == n
  {
    seq(n, _ => 0)
  }

  /** A packet too long for its buffer is kept as a full one of zeros. */
  function Stored(endpoint: Byte, data: Bytes): Packet {
    Packet(endpoint, if |data| > UsbDriver.EP_MAX_PACKET_SIZE then Zeros(UsbDriver.EP_MAX_PACKET_SIZE) else data)
  }

  function Notify(s: State, n: Notice): Result {
    Result(s.(irq := Queued(s.irq, n, IRQ_CAPACITY)), [], Nothing)
  }

  function DispatchStep(s: State, e: Control.Event): Result {
    match e
    case BusReset => Notify(s.(pendingAddress := None), BusReset)
    case ReceiveSetupPacket(endpoint, setup) =>
      if Control.SetsAddress(setup) then
        Result(s.(pendingAddress := Some(setup.value % 0x80)), [Write(endpoint, [])], Nothing)
      else if |s.control| >= CONTROL_CAPACITY then Result(s, [], Never)
      else Notify(s.(control := s.control + [setup]), ReceiveControl(endpoint))
    case SendComplete(_) =>
      if s.pendingAddress.Some? then
        Result(s.(pendingAddress := None), [SetAddress(s.pendingAddress.value)], Nothing)
      else Result(s, [], Nothing)
    case ReceivePacket(endpoint, data) =>
      Notify(s.(packets := Queued(s.packets, Stored(endpoint, data), PACKET_CAPACITY)), ReceivePacket(endpoint))
    case ReceiveControl(endpoint) => Notify(s, ReceiveControl(endpoint))
  }

  /** The position of an endpoint's first packet, or the number of packets if it has none. */
  function Position(packets: seq<Packet>, endpoint: Byte): (i: nat)
    ensures i <= |packets|
    ensures i < |packets| ==> packets[i].endpoint == endpoint
    ensures forall j :: 0 <= j < i ==> packets[j].endpoint != endpoint
  {
    if packets == [] || packets[0].endpoint == endpoint then 0 else 1 + Position(packets[1..], endpoint)
  }

  function ReadEndpointStep(s: State, arguments: Bytes): (r: Result)
    ensures r.state == s.(packets := r.state.packets) && r.calls == [] && !r.reply.Never?
  {
    if |arguments| != 1 then Result(s, [], InvalidArgument)
    else
      var i := Position(s.packets, arguments[0]);
      if i == |s.packets| then Result(s, [], Response([]))
      else Result(s.(packets := s.packets[..i] + s.packets[i + 1..]), [], Response(s.packets[i].data))
  }

  function Step(s: State, a: Action): Result {
    match a
    case Dispatch(e) => DispatchStep(s, e)
    case ReadControl =>
      if s.control == [] then Result(s, [], Never)
      else Result(s.(control := s.control[1..]), [], Response(SetupBytes(s.control[0])))
    case ReadEndpoint(arguments) => ReadEndpointStep(s, arguments)
    case GetInterruptEvents => Result(s.(irq := []), [], Response(NoticesBytes(s.irq)))
    case Disconnect => Result(s.(irq := [], control := [], pendingAddress := None), [], Response([]))
  }

  // ---- The ledger ----

  /**
    What passed in and out, kept apart from the queues: entries follow from the events and
    the replies alone. Everything but the data packets starts afresh when the host disconnects.
  */
  datatype Ledger = Ledger(
    kept: seq<Notice>, delivered: seq<Notice>, lost: nat,
    setups: seq<Setup>, taken: seq<SetupPacket>,
    accepted: seq<Packet>, returned: seq<Packet>)

  datatype Setup = Setup(endpoint: Byte, packet: SetupPacket)

  const BLANK: Ledger := Ledger([], [], 0, [], [], [], [])

  /** The packets of one endpoint. */
  function For(packets: seq<Packet>, endpoint: Byte): (r: seq<Bytes>)
    ensures |r| <= |packets|
  {
    if packets == [] then []
    else (if packets[0].endpoint == endpoint then [packets[0].data] else []) + For(packets[1..], endpoint)
  }

  predicate Outstanding(l: Ledger, endpoint: Byte) {
    |For(l.returned, endpoint)| < |For(l.accepted, endpoint)|
  }

  /** A packet as the host must get it: of up to 512 bytes, as it came; a longer one, as 512 zeros. */
  function Arrived(endpoint: Byte, data: Bytes): Packet {
    Packet(endpoint, if |data| <= 512 then data else seq(512, _ => 0))
  }

  lemma StoredAsArrived(endpoint: Byte, data: Bytes)
    ensures Stored(endpoint, data) == Arrived(endpoint, data)
  {
  }

  function Raise(l: Ledger, n: Notice): Ledger {
    if |l.kept| < |l.delivered| + 63 then l.(kept := l.kept + [n])
    else l.(lost := l.lost + if n.ReceiveControl? then 1 else 0)
  }

  function Enter(l: Ledger, a: Action, reply: Reply): Ledger {
    match a
    case Dispatch(BusReset) => Raise(l, BusReset)
    case Dispatch(ReceiveSetupPacket(endpoint, setup)) =>
      if Control.SetsAddress(setup) || reply.Never? then l
      else Raise(l.(setups := l.setups + [Setup(endpoint, setup)]), ReceiveControl(endpoint))
    case Dispatch(SendComplete(_)) => l
    case Dispatch(ReceivePacket(endpoint, data)) =>
      var fits := |l.accepted| < |l.returned| + 4;
      Raise(if fits then l.(accepted := l.accepted + [Arrived(endpoint, data)]) else l, ReceivePacket(endpoint))
    case Dispatch(ReceiveControl(endpoint)) => Raise(l, ReceiveControl(endpoint))
    case ReadControl =>
      if reply.Response? && |reply.bytes| == 8 then l.(taken := l.taken + [ParseSetup(reply.bytes)]) else l
    case ReadEndpoint(arguments) =>
      if |arguments| == 1 && Outstanding(l, arguments[0]) && reply.Response? then
        l.(returned := l.returned + [Packet(arguments[0], reply.bytes)])
      else l
    case GetInterruptEvents =>
      if reply.Response? then l.(delivered := l.delivered + ParseNotices(reply.bytes)) else l
    case Disconnect => BLANK.(accepted := l.accepted, returned := l.returned)
  }

  /** The firmware and the ledger so far; nothing happens any more once an action never returned. */
  datatype Situation = Situation(state: State, ledger: Ledger, stuck: bool)

  const START: Situation := Situation(EMPTY, BLANK, false)

  function Do(w: Situation, a: Action): Situation {
    if w.stuck then w
    else
      var r := Step(w.state, a);
      Situation(r.state, Enter(w.ledger, a, r.reply), r.reply.Never?)
  }

  function Run(actions: seq<Action>): Situation
    decreases |actions|
  {
    if actions == [] then START else Do(Run(actions[..|actions| - 1]), actions[|actions| - 1])
  }

  lemma RunMore(actions: seq<Action>, a: Action)
    ensures Run(actions + [a]) == Do(Run(actions), a)
  {
    assert (actions + [a])[..|actions|] == actions;
  }

  // ---- Events and setup packets pass in order ----

  ghost predicate QueuesInOrder(s: State, l: Ledger) {
    && l.delivered + s.irq == l.kept && |s.irq| <= IRQ_CAPACITY
    && |s.control| <= CONTROL_CAPACITY && |l.taken| + |s.control| == |l.setups|
    && (forall k :: 0 <= k < |l.taken| ==> l.taken[k] == l.setups[k].packet)
    && (forall k :: 0 <= k < |s.control| ==> s.control[k] == l.setups[|l.taken| + k].packet)
  }

  lemma ReadsInOrder(s: State, l: Ledger)
    requires QueuesInOrder(s, l)
    ensures var r := Step(s, ReadControl); QueuesInOrder(r.state, Enter(l, ReadControl, r.reply))
    ensures s.control != [] ==> Step(s, ReadControl).reply == Response(SetupBytes(l.setups[|l.taken|].packet))
  {
    if s.control != [] {
      SetupRoundTrip(s.control[0]);
      hide SetupBytes, ParseSetup;
    }
  }

  lemma NotifyInOrder(s: State, l: Ledger, n: Notice)
    requires QueuesInOrder(s, l)
    ensures QueuesInOrder(Notify(s, n).state, Raise(l, n))
  {
  }

  lemma SetupInOrder(s: State, l: Ledger, endpoint: Byte, setup: SetupPacket)
    requires QueuesInOrder(s, l) && |s.control| < CONTROL_CAPACITY
    ensures QueuesInOrder(s.(control := s.control + [setup]), l.(setups := l.setups + [Setup(endpoint, setup)]))
  {
  }

  lemma DispatchInOrder(s: State, l: Ledger, e: Control.Event)
    requires QueuesInOrder(s, l)
    ensures var r := Step(s, Dispatch(e)); QueuesInOrder(r.state, Enter(l, Dispatch(e), r.reply))
  {
    match e
    case BusReset => NotifyInOrder(s.(pendingAddress := None), l, BusReset);
    case ReceiveSetupPacket(endpoint, setup) =>
      if !Control.SetsAddress(setup) && |s.control| < CONTROL_CAPACITY {
        SetupInOrder(s, l, endpoint, setup);
        NotifyInOrder(s.(control := s.control + [setup]), l.(setups := l.setups + [Setup(endpoint, setup)]),
          ReceiveControl(endpoint));
      }
      hide Control.SetsAddress, Raise, Notify;
    case ReceivePacket(endpoint, data) =>
      var p := Stored(endpoint, data);
      var s1 := s.(packets := Queued(s.packets, p, PACKET_CAPACITY));
      NotifyInOrder(s1, l, ReceivePacket(endpoint));
      NotifyInOrder(s1, l.(accepted := l.accepted + [Arrived(endpoint, data)]), ReceivePacket(endpoint));
      hide Stored, Arrived, Raise, Notify;
    case ReceiveControl(endpoint) => NotifyInOrder(s, l, ReceiveControl(endpoint));
    case _ =>
  }

  lemma QueuesStayInOrder(s: State, l: Ledger, a: Action)
    requires QueuesInOrder(s, l)
    ensures var r := Step(s, a); QueuesInOrder(r.state, Enter(l, a, r.reply))
  {
    if a.Dispatch? {
      DispatchInOrder(s, l, a.event);
    } else if a.ReadControl? {
      ReadsInOrder(s, l);
    } else {
      NoticesRoundTrip(s.irq);
      hide NoticesBytes, ParseNotices, For, ReadEndpointStep;
    }
  }

  /**
    In every run: the events handed to the host are the first of those kept, and the setup
    packets it read the first of those queued, in order.
  */
  lemma {:induction false} EventsInOrder(actions: seq<Action>)
    ensures var w := Run(actions); QueuesInOrder(w.state, w.ledger)
    decreases |actions|
  {
    if actions != [] {
      var before := actions[..|actions| - 1];
      EventsInOrder(before);
      var w := Run(before);
      QueuesStayInOrder(w.state, w.ledger, actions[|actions| - 1]);
    }
  }

  // ---- Every endpoint has its own queue of packets ----

  ghost predicate PacketsInOrder(s: State, l: Ledger) {
    && |l.returned| + |s.packets| == |l.accepted| && |s.packets| <= PACKET_CAPACITY
    && forall e: Byte :: For(l.returned, e) + For(s.packets, e) == For(l.accepted, e)
  }

  lemma ForOne(packets: seq<Packet>, e: Byte)
    requires packets != []
    ensures For(packets, e) == For([packets[0]], e) + For(packets[1..], e)
    ensures For([packets[0]], e) == if packets[0].endpoint == e then [packets[0].data] else []
  {
    assert For([packets[0]][1..], e) == [];
  }

  lemma {:induction false} ForAppend(a: seq<Packet>, b: seq<Packet>, e: Byte)
    ensures For(a + b, e) == For(a, e) + For(b, e)
  {
    if a == [] {
      assert a + b == b;
    } else {
      assert (a + b)[1..] == a[1..] + b;
      ForAppend(a[1..], b, e);
      Regroup(For([a[0]], e), For(a[1..], e), For(b, e));
      ForOne(a, e);
      ForOne(a + b, e);
      hide For;
    }
  }

  lemma {:induction false} NoneFor(packets: seq<Packet>, e: Byte)
    requires forall p :: p in packets ==> p.endpoint != e
    ensures For(packets, e) == []
  {
    if packets != [] {
      assert packets[0] in packets;
      assert forall p :: p in packets[1..] ==> p in packets;
      NoneFor(packets[1..], e);
    }
  }

  lemma ForWithout(before: seq<Packet>, p: Packet, rest: seq<Packet>, e: Byte)
    requires forall q :: q in before ==> q.endpoint != p.endpoint
    ensures For(before + [p] + rest, e) == (if p.endpoint == e then [p.data] else []) + For(before + rest, e)
  {
    ForOne([p], e);
    ForAppend(before + [p], rest, e);
    ForAppend(before, [p], e);
    ForAppend(before, rest, e);
    if p.endpoint == e {
      NoneFor(before, e);
    }
    hide For;
    Regroup(For(before, e), For([p], e), For(rest, e));
  }

  /** Taking out the first packet of an endpoint leaves the other endpoints' packets alone. */
  lemma ForRemoved(packets: seq<Packet>, i: nat, e: Byte)
    requires i < |packets|
    requires forall j :: 0 <= j < i ==> packets[j].endpoint != packets[i].endpoint
    ensures For(packets, e) ==
      (if packets[i].endpoint == e then [packets[i].data] else []) + For(packets[..i] + packets[i + 1..], e)
  {
    hide For;
    assert packets == packets[..i] + [packets[i]] + packets[i + 1..];
    ForWithout(packets[..i], packets[i], packets[i + 1..], e);
  }

  lemma Accepts(s: State, l: Ledger, endpoint: Byte, data: Bytes)
    requires PacketsInOrder(s, l)
    ensures var a := Dispatch(Control.ReceivePacket(endpoint, data)); var r := Step(s, a);
      PacketsInOrder(r.state, Enter(l, a, r.reply))
  {
    if |s.packets| < PACKET_CAPACITY {
      var p := [Stored(endpoint, data)];
      StoredAsArrived(endpoint, data);
      hide Stored, Arrived;
      forall e: Byte
        ensures For(l.returned, e) + For(s.packets + p, e) == For(l.accepted + p, e)
      {
        ForAppend(s.packets, p, e);
        ForAppend(l.accepted, p, e);
      }
      hide For;
    }
  }

  lemma ReturnsFor(returned: seq<Packet>, packets: seq<Packet>, i: nat, e: Byte)
    requires i < |packets|
    requires forall j :: 0 <= j < i ==> packets[j].endpoint != packets[i].endpoint
    ensures For(returned + [packets[i]], e) + For(packets[..i] + packets[i + 1..], e) ==
      For(returned, e) + For(packets, e)
  {
    var p := [packets[i]];
    ForAppend(returned, p, e);
    ForRemoved(packets, i, e);
    assert For(p, e) == (if p[0].endpoint == e then [p[0].data] else []) + For(p[1..], e);
  }

  lemma Returns(s: State, l: Ledger, endpoint: Byte)
    requires PacketsInOrder(s, l)
    ensures var a := ReadEndpoint([endpoint]); var r := Step(s, a);
      && PacketsInOrder(r.state, Enter(l, a, r.reply))
      && r.reply ==
         Response(if Outstanding(l, endpoint) then For(l.accepted, endpoint)[|For(l.returned, endpoint)|] else [])
  {
    var i := Position(s.packets, endpoint);
    assert For(l.returned, endpoint) + For(s.packets, endpoint) == For(l.accepted, endpoint);
    if i == |s.packets| {
      NoneFor(s.packets, endpoint);
    } else {
      ForRemoved(s.packets, i, endpoint);
      forall e: Byte {
        ReturnsFor(l.returned, s.packets, i, e);
      }
      assert s.packets[i] == Packet(endpoint, s.packets[i].data);
      hide For, Position;
    }
  }

  /**
    In every run, for every endpoint: the packets returned, followed by those still buffered,
    are the packets accepted for it, in order, though all endpoints share one buffer.
  */
  lemma {:induction false} PerEndpointFifo(actions: seq<Action>)
    ensures var w := Run(actions); PacketsInOrder(w.state, w.ledger)
    decreases |actions|
  {
    if actions != [] {
      var before := actions[..|actions| - 1];
      PerEndpointFifo(before);
      var w, a := Run(before), actions[|actions| - 1];
      if a.Dispatch? && a.event.ReceivePacket? {
        Accepts(w.state, w.ledger, a.event.endpoint, a.event.data);
      } else if a.ReadEndpoint? && |a.arguments| == 1 {
        assert a.arguments == [a.arguments[0]];
        Returns(w.state, w.ledger, a.arguments[0]);
      }
      hide For, Position;
    }
  }

  /** After every run, a read returns the endpoint's oldest packet not yet returned, or nothing. */
  lemma ReadReturnsOldest(actions: seq<Action>, endpoint: Byte)
    requires !Run(actions).stuck
    ensures var l := Run(actions).ledger;
      Step(Run(actions).state, ReadEndpoint([endpoint])).reply ==
      Response(if Outstanding(l, endpoint) then For(l.accepted, endpoint)[|For(l.returned, endpoint)|] else [])
  {
    PerEndpointFifo(actions);
    Returns(Run(actions).state, Run(actions).ledger, endpoint);
  }

  // ---- What a disconnect leaves behind ----

  lemma AcceptedGrows(w: Situation, a: Action, e: Byte)
    ensures For(w.ledger.accepted, e) <= For(Do(w, a).ledger.accepted, e)
  {
    if a.Dispatch? && a.event.ReceivePacket? {
      ForAppend(w.ledger.accepted, [Arrived(a.event.endpoint, a.event.data)], e);
    }
    hide For, Step;
  }

  lemma {:induction false} AcceptedGrowsInRun(before: seq<Action>, after: seq<Action>, e: Byte)
    ensures For(Run(before).ledger.accepted, e) <= For(Run(before + after).ledger.accepted, e)
    decreases |after|
  {
    hide For, Do, Run;
    if after == [] {
      assert before + after == before;
    } else {
      var front, last := after[..|after| - 1], after[|after| - 1];
      assert after == front + [last];
      Regroup(before, front, [last]);
      AcceptedGrowsInRun(before, front, e);
      RunMore(before + front, last);
      AcceptedGrows(Run(before + front), last, e);
    }
  }

  /**
    A disconnect forgets events and setup packets but no data packet. After it, whatever else
    happened, a read hands over a packet accepted before it if and only if fewer have been
    returned, in all, than had been accepted by then.
  */
  lemma ReadsAcrossDisconnectIff(before: seq<Action>, after: seq<Action>, e: Byte)
    requires !Run(before + [Disconnect] + after).stuck
    ensures var earlier := For(Run(before + [Disconnect]).ledger.accepted, e);
      var w := Run(before + [Disconnect] + after);
      var k := |For(w.ledger.returned, e)|;
      && (k < |earlier| <==> k < |For(Do(w, ReadEndpoint([e])).ledger.returned, e)| <= |earlier|)
      && (k < |earlier| ==> Step(w.state, ReadEndpoint([e])).reply == Response(earlier[k]))
  {
    var w := Run(before + [Disconnect] + after);
    AcceptedGrowsInRun(before + [Disconnect], after, e);
    ReadReturnsOldest(before + [Disconnect] + after, e);
    hide Run;
    var r := Step(w.state, ReadEndpoint([e])).reply;
    if Outstanding(w.ledger, e) {
      ForAppend(w.ledger.returned, [Packet(e, r.bytes)], e);
      ForOne([Packet(e, r.bytes)], e);
    }
    hide For, ReadEndpointStep;
  }

  /** Right after a disconnect, such packets are there if and only if they were buffered before it. */
  lemma StaleAfterDisconnectIff(before: seq<Action>, e: Byte)
    requires !Run(before).stuck
    ensures var l := Run(before + [Disconnect]).ledger;
      Outstanding(l, e) <==> For(Run(before).state.packets, e) != []
  {
    PerEndpointFifo(before);
    RunMore(before, Disconnect);
    var l := Run(before).ledger;
    assert For(l.returned, e) + For(Run(before).state.packets, e) == For(l.accepted, e);
    hide For, Run;
  }

  /** One packet, a disconnect, a read: the host gets the packet of the connection it has ended. */
  lemma StalePacketExample()
    ensures var actions := [Dispatch(Control.ReceivePacket(1, [7])), Disconnect];
      !Run(actions).stuck && Step(Run(actions).state, ReadEndpoint([1])).reply == Response([7])
  {
    var (arrival, p) := (Dispatch(Control.ReceivePacket(1, [7])), Packet(1, [7]));
    RunMore([], arrival);
    assert [] + [arrival] == [arrival] && Run([arrival]).state.packets == [p];
    RunMore([arrival], Disconnect);
    assert [arrival] + [Disconnect] == [arrival, Disconnect];
    assert Position([p], 1) == 0;
  }

  // ---- Setup packets and their events stay paired ----

  /** The endpoints of the setup events among some events. */
  function SetupsIn(notices: seq<Notice>): (r: seq<Byte>)
    ensures |r| <= |notices|
  {
    if notices == [] then []
    else SetupsIn(notices[..|notices| - 1]) +
         if notices[|notices| - 1].ReceiveControl? then [notices[|notices| - 1].endpoint] else []
  }

  lemma {:induction false} SetupsInAppend(a: seq<Notice>, b: seq<Notice>)
    ensures SetupsIn(a + b) == SetupsIn(a) + SetupsIn(b)
    decreases |b|
  {
    if b == [] {
      assert a + b == a;
    } else {
      assert (a + b)[..|a + b| - 1] == a + b[..|b| - 1];
      SetupsInAppend(a, b[..|b| - 1]);
    }
  }

  function EndpointsOf(setups: seq<Setup>): seq<Byte> {
    seq(|setups|, k requires 0 <= k < |setups| => setups[k].endpoint)
  }

  function PacketsOf(setups: seq<Setup>): seq<SetupPacket> {
    seq(|setups|, k requires 0 <= k < |setups| => setups[k].packet)
  }

  /** Setup packets the host has been told of and has not read. */
  function Unread(l: Ledger): int {
    |SetupsIn(l.delivered)| - |l.taken|
  }

  /** A host reads once for each setup event it is handed; hardware raises no setup event without its packet. */
  predicate Polite(l: Ledger, a: Action) {
    && (a.ReadControl? ==> Unread(l) > 0)
    && (a.Dispatch? ==> !a.event.ReceiveControl?)
  }

  predicate PoliteRun(actions: seq<Action>)
    decreases |actions|
  {
    actions == [] ||
    (PoliteRun(actions[..|actions| - 1]) && Polite(Run(actions[..|actions| - 1]).ledger, actions[|actions| - 1]))
  }

  /** Each setup packet queued has its event kept or lost; if none is lost, in the same order. */
  ghost predicate Balanced(l: Ledger) {
    && |SetupsIn(l.kept)| + l.lost == |l.setups|
    && (l.lost == 0 ==> forall k :: 0 <= k < |l.setups| ==> SetupsIn(l.kept)[k] == l.setups[k].endpoint)
  }

  lemma SetupsInOne(notices: seq<Notice>, n: Notice)
    ensures SetupsIn(notices + [n]) == SetupsIn(notices) + if n.ReceiveControl? then [n.endpoint] else []
  {
    assert (notices + [n])[..|notices|] == notices;
  }

  lemma RaisesBalanced(l: Ledger, n: Notice)
    requires Balanced(l) && !n.ReceiveControl?
    ensures Balanced(Raise(l, n))
  {
    SetupsInOne(l.kept, n);
  }

  lemma RaisesSetup(l: Ledger, endpoint: Byte, s: SetupPacket)
    requires Balanced(l)
    ensures Balanced(Raise(l.(setups := l.setups + [Setup(endpoint, s)]), ReceiveControl(endpoint)))
  {
    SetupsInOne(l.kept, ReceiveControl(endpoint));
  }

  ghost predicate Paired(l: Ledger) {
    Balanced(l) && Unread(l) >= 0
  }

  lemma DispatchBalanced(s: State, l: Ledger, e: Control.Event)
    requires Balanced(l) && !e.ReceiveControl?
    ensures var r := Step(s, Dispatch(e)); var l' := Enter(l, Dispatch(e), r.reply);
      Balanced(l') && Unread(l') == Unread(l)
  {
    match e
    case BusReset => RaisesBalanced(l, BusReset);
    case ReceiveSetupPacket(endpoint, setup) => RaisesSetup(l, endpoint, setup);
    case ReceivePacket(endpoint, data) =>
      RaisesBalanced(l, ReceivePacket(endpoint));
      RaisesBalanced(l.(accepted := l.accepted + [Arrived(endpoint, data)]), ReceivePacket(endpoint));
    case _ =>
  }

  lemma PairsStay(s: State, l: Ledger, a: Action)
    requires QueuesInOrder(s, l) && Paired(l) && Polite(l, a)
    ensures var r := Step(s, a); Paired(Enter(l, a, r.reply))
  {
    if a.Dispatch? {
      DispatchBalanced(s, l, a.event);
    } else {
      NoticesRoundTrip(s.irq);
      SetupsInAppend(l.delivered, s.irq);
      assert SetupsIn([]) == [];
      hide NoticesBytes, ParseNotices, For, ReadEndpointStep, SetupBytes, ParseSetup, SetupsIn;
    }
  }

  lemma {:induction false} RunStaysPaired(actions: seq<Action>)
    requires PoliteRun(actions)
    ensures Paired(Run(actions).ledger)
    decreases |actions|
  {
    if actions != [] {
      var before := actions[..|actions| - 1];
      RunStaysPaired(before);
      EventsInOrder(before);
      PairsStay(Run(before).state, Run(before).ledger, actions[|actions| - 1]);
    }
  }

  /**
    In every run with a polite host: the packets waiting to be read are exactly those it has
    been told of, those whose event is still queued, and those whose event was lost to a full
    queue. As long as none was lost, the k-th setup event belongs to the k-th packet read.
  */
  lemma SetupsArePaired(actions: seq<Action>)
    requires PoliteRun(actions)
    ensures var w := Run(actions);
      && |w.state.control| == Unread(w.ledger) + |SetupsIn(w.state.irq)| + w.ledger.lost
      && |w.state.control| >= Unread(w.ledger) >= 0
      && (w.ledger.lost == 0 ==>
        && SetupsIn(w.ledger.delivered) + SetupsIn(w.state.irq) == EndpointsOf(w.ledger.setups)
        && w.ledger.taken + w.state.control == PacketsOf(w.ledger.setups))
  {
    var w := Run(actions);
    EventsInOrder(actions);
    RunStaysPaired(actions);
    SetupsInAppend(w.ledger.delivered, w.state.irq);
    hide SetupsIn, Run;
  }

  /** A polite host's read always returns: with the oldest setup packet not yet read. */
  lemma PoliteReadReturns(actions: seq<Action>)
    requires PoliteRun(actions + [ReadControl]) && !Run(actions).stuck
    ensures var l := Run(actions).ledger;
      && |l.taken| < |l.setups|
      && Step(Run(actions).state, ReadControl).reply == Response(SetupBytes(l.setups[|l.taken|].packet))
  {
    assert (actions + [ReadControl])[..|actions|] == actions;
    EventsInOrder(actions);
    SetupsArePaired(actions);
    ReadsInOrder(Run(actions).state, Run(actions).ledger);
  }

  /** With a polite host the firmware stops for one reason only: a setup packet found seven unread. */
  lemma PoliteStuckIff(actions: seq<Action>, a: Action)
    requires PoliteRun(actions + [a]) && !Run(actions).stuck
    ensures var l := Run(actions).ledger;
      Run(actions + [a]).stuck <==>
      && a.Dispatch? && a.event.ReceiveSetupPacket? && !Control.SetsAddress(a.event.setup)
      && |l.setups| - |l.taken| == 7
  {
    RunMore(actions, a);
    assert (actions + [a])[..|actions|] == actions;
    EventsInOrder(actions);
    SetupsArePaired(actions);
    hide ReadEndpointStep, Control.SetsAddress, SetupsIn, Run, Enter;
  }

  // ---- The address ----

  /**
    An event sends an empty packet, on its own endpoint and nothing else, exactly if it brings a
    SetAddress request (USB 2.0, table 9-3); apart from that only addresses are set.
  */
  lemma AcknowledgesIff(s: State, e: Control.Event)
    ensures var calls := Step(s, Dispatch(e)).calls;
      && (calls != [] && calls[0].Write? <==>
            e.ReceiveSetupPacket? && e.setup.requestType < 0x20 && e.setup.request == 5)
      && (e.ReceiveSetupPacket? && calls != [] ==> calls == [Write(e.endpoint, [])])
      && |calls| <= 1 && (calls != [] ==> calls[0].Write? || calls[0].SetAddress?)
  {
  }

  predicate Requests(a: Action, address: nat) {
    && a.Dispatch? && a.event.ReceiveSetupPacket? && Control.SetsAddress(a.event.setup)
    && a.event.setup.value % 0x80 == address
  }

  predicate Forgets(a: Action) {
    || a.Disconnect?
    || (a.Dispatch? && (a.event.BusReset? || a.event.SendComplete?))
    || (a.Dispatch? && a.event.ReceiveSetupPacket? && Control.SetsAddress(a.event.setup))
  }

  /** A request for the address, with nothing after it that makes the firmware forget it. */
  predicate Latest(actions: seq<Action>, i: nat, address: nat)
    requires i < |actions|
  {
    Requests(actions[i], address) && forall j :: i < j < |actions| ==> !Forgets(actions[j])
  }

  lemma LatestOfMore(before: seq<Action>, last: Action, address: nat)
    requires Requests(last, address) ==> Forgets(last)
    ensures (exists i :: 0 <= i < |before| + 1 && Latest(before + [last], i, address)) <==>
      Requests(last, address) || (!Forgets(last) && exists i :: 0 <= i < |before| && Latest(before, i, address))
  {
    hide Requests, Forgets;
    var n, all := |before|, before + [last];
    if Requests(last, address) {
      assert Latest(all, n, address);
    } else if !Forgets(last) {
      assert forall j {:trigger before[j]} {:trigger all[j]} :: 0 <= j < n ==> all[j] == before[j];
      assert forall i :: 0 <= i < n ==> Latest(all, i, address) == Latest(before, i, address);
    } else {
      assert Forgets(all[n]);
    }
  }

  /** An address is pending after a run exactly if a request for it has not been superseded since. */
  lemma {:induction false} PendingIff(actions: seq<Action>, address: nat)
    requires !Run(actions).stuck
    ensures Run(actions).state.pendingAddress == Some(address) <==>
      exists i :: 0 <= i < |actions| && Latest(actions, i, address)
    decreases |actions|
  {
    if actions != [] {
      var n := |actions| - 1;
      var before, last := actions[..n], actions[n];
      assert !Run(before).stuck && actions == before + [last];
      PendingIff(before, address);
      PendingStep(Run(before).state, last, address);
      LatestOfMore(before, last, address);
      hide Requests, Forgets, Step, Enter, Latest;
    }
  }

  /** After every run, an event sets the address exactly if it completes a packet while one is pending. */
  lemma AddressSetIff(actions: seq<Action>, e: Control.Event, address: nat)
    requires !Run(actions).stuck
    ensures SetAddress(address) in Step(Run(actions).state, Dispatch(e)).calls <==>
      e.SendComplete? && exists i :: 0 <= i < |actions| && Latest(actions, i, address)
  {
    hide Run, Latest, Control.SetsAddress;
    PendingIff(actions, address);
  }

  /** Whether a request is still the latest, when only what follows may have superseded it. */
  lemma StillLatestIff(before: seq<Action>, request: Action, between: seq<Action>, address: nat)
    requires Requests(request, address) && Forgets(request)
    requires forall a :: a in between ==> !Requests(a, address)
    ensures var all := before + [request] + between;
      (exists i :: 0 <= i < |all| && Latest(all, i, address)) <==> forall a :: a in between ==> !Forgets(a)
  {
    hide Requests, Forgets;
    var (all, n) := (before + [request] + between, |before|);
    assert all[n] == request;
    forall i | n < i < |all| ensures all[i] in between && !Latest(all, i, address) {
      assert all[i] == between[i - n - 1];
    }
    assert forall i :: 0 <= i < n ==> !Latest(all, i, address);
    if a :| a in between && Forgets(a) {
      var j :| 0 <= j < |between| && between[j] == a;
      assert all[n + 1 + j] == a;
    } else {
      assert Latest(all, n, address);
    }
  }

  predicate CompletesOther(a: Action, endpoint: Byte) {
    a.Dispatch? && a.event.SendComplete? && a.event.endpoint != endpoint
  }

  /**
    The completion of a request's own status packet sets the address if and only if no other
    endpoint completed a packet in between: such a completion sets it too early
    (USB 2.0, section 9.4.6 asks for it after the status stage).
  */
  lemma OwnStatusSetsAddressIff(before: seq<Action>, request: Action, between: seq<Action>, address: nat)
    requires Requests(request, address) && !Run(before + [request] + between).stuck
    requires forall a :: a in between && Forgets(a) ==> CompletesOther(a, request.event.endpoint)
    ensures var state := Run(before + [request] + between).state;
      var own := Dispatch(Control.SendComplete(request.event.endpoint));
      SetAddress(address) in Step(state, own).calls <==>
      forall a :: a in between ==> !CompletesOther(a, request.event.endpoint)
  {
    assert forall a :: CompletesOther(a, request.event.endpoint) ==> Forgets(a) && !Requests(a, address);
    assert forall a :: Requests(a, address) ==> Forgets(a);
    hide Requests, Forgets, CompletesOther, Step, Run, Latest;
    AddressSetIff(before + [request] + between, Control.SendComplete(request.event.endpoint), address);
    StillLatestIff(before, request, between, address);
  }

  lemma PendingStep(s: State, a: Action, address: nat)
    requires !Step(s, a).reply.Never?
    ensures Step(s, a).state.pendingAddress == Some(address) <==>
      Requests(a, address) || (!Forgets(a) && s.pendingAddress == Some(address))
    ensures Requests(a, address) ==> Forgets(a)
  {
    hide ReadEndpointStep;
  }

  // ---- The firmware itself ----

  datatype WriteResult = Written | StreamIoctlTimeout | Panics

  /** The most polls of the wait at the end, if there is one. */
  function FinalWait(blocking: bool): nat {
    if blocking then UsbDriver.DEFAULT_TIMEOUT + 1 else 0
  }

  class Firmware {
    const usb: UsbDriver.Usb
    const epInMaxPacketSize: array<nat>
    var irqQueue: seq<Notice>
    var controlQueue: seq<SetupPacket>
    var packetBuffer: seq<Packet>
    var pendingSetAddress: Option<nat>

    ghost predicate Valid()
      reads this
    {
      && epInMaxPacketSize.Length == UsbDriver.EP_MAX_ENDPOINTS
      && |irqQueue| <= IRQ_CAPACITY && |controlQueue| <= CONTROL_CAPACITY && |packetBuffer| <= PACKET_CAPACITY
    }

    /** The state this object stands for. */
    function Now(): State
      reads this
    {
      State(irqQueue, controlQueue, packetBuffer, pendingSetAddress)
    }

    constructor (usb: UsbDriver.Usb)
      ensures Valid() && Now() == EMPTY && this.usb == usb && fresh(epInMaxPacketSize)
    {
      this.usb := usb;
      epInMaxPacketSize := new nat[UsbDriver.EP_MAX_ENDPOINTS](_ => 0);
      irqQueue, controlQueue, packetBuffer, pendingSetAddress := [], [], [], None;
    }

    method Enqueue(n: Notice)
      requires Valid()
      modifies this`irqQueue
      ensures Valid() && irqQueue == Queued(old(irqQueue), n, IRQ_CAPACITY)
    {
      if |irqQueue| < IRQ_CAPACITY {
        irqQueue := irqQueue + [n];
      }
    }

    method ReceiveSetup(endpoint: Byte, setup: SetupPacket) returns (calls: seq<Call>, reply: Reply)
      requires Valid()
      modifies this
      ensures Valid()
      ensures Result(Now(), calls, reply) == DispatchStep(old(Now()), Control.ReceiveSetupPacket(endpoint, setup))
    {
      calls, reply := [], Nothing;
      if Control.SetsAddress(setup) {
        pendingSetAddress := Some(setup.value % 0x80);
        calls := [Write(endpoint, [])];
      } else if |controlQueue| == CONTROL_CAPACITY {
        reply := Never;
      } else {
        controlQueue := controlQueue + [setup];
        Enqueue(ReceiveControl(endpoint));
      }
    }

    /** Copies a packet out of the hardware and keeps it if there is room. */
    method StorePacket(endpoint: Byte, data: Bytes)
      requires Valid()
      modifies this`packetBuffer
      ensures Valid() && packetBuffer == Queued(old(packetBuffer), Stored(endpoint, data), PACKET_CAPACITY)
    {
      var rxBuffer := new Byte[UsbDriver.EP_MAX_PACKET_SIZE](_ => 0);
      var bytesRead := |data|;
      if bytesRead > rxBuffer.Length {
        bytesRead := rxBuffer.Length;
        assert rxBuffer[..bytesRead] == Zeros(UsbDriver.EP_MAX_PACKET_SIZE);
      } else {
        forall i | 0 <= i < |data| {
          rxBuffer[i] := data[i];
        }
        assert rxBuffer[..bytesRead] == data;
      }
      if |packetBuffer| < PACKET_CAPACITY {
        packetBuffer := packetBuffer + [Packet(endpoint, rxBuffer[..bytesRead])];
      }
    }

    method DispatchEvent(e: Control.Event) returns (calls: seq<Call>, reply: Reply)
      requires Valid()
      modifies this
      ensures Valid() && Result(Now(), calls, reply) == Step(old(Now()), Dispatch(e))
    {
      hide Stored, Control.SetsAddress;
      calls, reply := [], Nothing;
      match e {
        case BusReset =>
          pendingSetAddress := None;
          Enqueue(BusReset);
        case ReceiveSetupPacket(endpoint, setup) =>
          calls, reply := ReceiveSetup(endpoint, setup);
        case SendComplete(_) =>
          if pendingSetAddress.Some? {
            calls := [SetAddress(pendingSetAddress.value)];
            pendingSetAddress := None;
          }
        case ReceivePacket(endpoint, data) =>
          StorePacket(endpoint, data);
          Enqueue(ReceivePacket(endpoint));
        case ReceiveControl(endpoint) =>
          Enqueue(ReceiveControl(endpoint));
      }
    }

    method ReadControlVerb() returns (reply: Reply)
      requires Valid()
      modifies this`controlQueue
      ensures Valid() && Result(Now(), [], reply) == Step(old(Now()), ReadControl)
    {
      if controlQueue == [] {
        return Never;
      }
      var setup := controlQueue[0];
      controlQueue := controlQueue[1..];
      reply := Response(SetupBytes(setup));
    }

    method ReadEndpointVerb(arguments: Bytes) returns (reply: Reply)
      requires Valid()
      modifies this`packetBuffer
      ensures Valid() && Result(Now(), [], reply) == Step(old(Now()), ReadEndpoint(arguments))
    {
      if |arguments| != 1 {
        return InvalidArgument;
      }
      var i := 0;
      while i < |packetBuffer| && packetBuffer[i].endpoint != arguments[0]
        invariant 0 <= i <= |packetBuffer|
        invariant forall j :: 0 <= j < i ==> packetBuffer[j].endpoint != arguments[0]
      {
        i := i + 1;
      }
      assert i == Position(packetBuffer, arguments[0]);
      if i == |packetBuffer| {
        return Response([]);
      }
      reply := Response(packetBuffer[i].data);
      packetBuffer := packetBuffer[..i] + packetBuffer[i + 1..];
    }

    /** Hands over all queued events as bytes; a full queue fits the response buffer. */
    method GetInterruptEventsVerb() returns (reply: Reply)
      requires Valid()
      modifies this`irqQueue
      ensures Valid() && Result(Now(), [], reply) == Step(old(Now()), GetInterruptEvents)
    {
      var notices := irqQueue;
      irqQueue := [];
      var txBuffer := new Byte[COMMAND_SIZE](_ => 0);
      var all := NoticesBytes(notices);
      for i := 0 to |all|
        invariant |all| <= txBuffer.Length && txBuffer[..i] == all[..i]
        invariant Now() == old(Now()).(irq := []) && Valid()
      {
        txBuffer[i] := all[i];
        assert txBuffer[..i + 1] == txBuffer[..i] + [all[i]];
      }
      assert txBuffer[..|all|] == all;
      reply := Response(txBuffer[..2 * |notices|]);
    }

    method DisconnectVerb() returns (reply: Reply)
      requires Valid()
      modifies this, epInMaxPacketSize
      ensures Valid() && Result(Now(), [], reply) == Step(old(Now()), Disconnect)
      ensures forall i :: 0 <= i < epInMaxPacketSize.Length ==> epInMaxPacketSize[i] == 0
    {
      forall i | 0 <= i < epInMaxPacketSize.Length {
        epInMaxPacketSize[i] := 0;
      }
      pendingSetAddress := None;
      while irqQueue != []
        invariant Valid() && Now() == old(Now()).(irq := irqQueue, pendingAddress := None)
        invariant forall i :: 0 <= i < epInMaxPacketSize.Length ==> epInMaxPacketSize[i] == 0
        decreases |irqQueue|
      {
        irqQueue := irqQueue[1..];
      }
      while controlQueue != []
        invariant Valid() && Now() == old(Now()).(irq := [], control := controlQueue, pendingAddress := None)
        invariant forall i :: 0 <= i < epInMaxPacketSize.Length ==> epInMaxPacketSize[i] == 0
        decreases |controlQueue|
      {
        controlQueue := controlQueue[1..];
      }
      reply := Response([]);
    }

    /**
      Writes a payload to an IN endpoint, waiting at the end only if asked to. The packet size
      table has an entry for each endpoint and says zero until the endpoint is configured.
    */
    method WriteEndpointVerb(endpoint: Byte, blocking: bool, payload: Bytes)
      returns (result: WriteResult, ghost packets: seq<Bytes>)
      requires Valid() && usb.Valid()
      modifies usb, usb.txAckActive
      ensures usb.Valid() && usb.sent == old(usb.sent) + UsbDriver.Tag(endpoint, packets)
      ensures endpoint as int >= UsbDriver.EP_MAX_ENDPOINTS ==> result.Panics? && packets == []
      ensures endpoint as int < UsbDriver.EP_MAX_ENDPOINTS ==>
        var size := epInMaxPacketSize[endpoint];
        && (result.Panics? ==> size == 0 && payload != [] && usb.fifo == [payload[0]])
        && (size == 0 ==> packets == [] && (result.Written? ==> payload == []))
        && (size > 0 ==> packets <= EndpointPackets(payload, size))
        && (size > 0 && result.Written? ==> packets == EndpointPackets(payload, size))
        && (result.Written? && blocking ==> usb.outstanding <= old(usb.outstanding))
        && (result.StreamIoctlTimeout? ==> usb.polls >= old(usb.polls) + UsbDriver.DEFAULT_TIMEOUT + 1)
        && (size > 0 ==> usb.polls <= old(usb.polls) + UsbDriver.PollBound(payload, size) + FinalWait(blocking))
        && (size == 0 && payload == [] && blocking && old(usb.fifo == [] && usb.outstanding == 0) ==>
              result.StreamIoctlTimeout?)
      ensures old(usb.outstanding) == 0 ==> usb.collided == old(usb.collided)
    {
      assert UsbDriver.Tag(endpoint, []) == [];
      if endpoint as int >= epInMaxPacketSize.Length {
        return Panics, [];
      }
      var size := epInMaxPacketSize[endpoint];
      usb.txAckActive[endpoint] := true;
      var empty := usb.AwaitEmpty(endpoint);
      if !empty {
        return StreamIoctlTimeout, [];
      }
      if size == 0 && payload != [] {
        usb.WriteData(payload[0]);
        return Panics, [];
      }
      result, packets := Written, [];
      if size > 0 {
        result, packets := PushPackets(endpoint, payload, size);
      }
      if result.Written? && blocking {
        var ok := usb.AwaitSent(endpoint);
        if !ok {
          result := StreamIoctlTimeout;
        }
      }
    }

    /** Sends all packets; none is awaited after the last. */
    method PushPackets(endpoint: nat, payload: Bytes, size: nat) returns (result: WriteResult,
                       ghost packets: seq<Bytes>)
      requires usb.Valid() && endpoint < UsbDriver.EP_MAX_ENDPOINTS && size > 0 && usb.fifo == []
      modifies usb, usb.txAckActive
      ensures usb.Valid() && !result.Panics? && usb.sent == old(usb.sent) + UsbDriver.Tag(endpoint, packets)
      ensures packets <= EndpointPackets(payload, size)
      ensures result.Written? ==> packets == EndpointPackets(payload, size)
      ensures result.Written? ==> usb.Awaits(endpoint, old(usb.outstanding))
      ensures usb.polls >= old(usb.polls) + if result.Written? then 0 else UsbDriver.DEFAULT_TIMEOUT + 1
      ensures usb.polls <= old(usb.polls) + |Chop(payload, size, false)| * (UsbDriver.DEFAULT_TIMEOUT + 1)
      ensures old(usb.outstanding) == 0 ==> usb.collided == old(usb.collided)
    {
      hide UsbDriver.Tag, Chop, Wrap;
      ghost var start;
      var written, expired;
      written, expired, start, packets := usb.PushAll(endpoint, payload, size);
      ChopPrefix(payload, start, size, |payload| != size);
      if expired {
        return StreamIoctlTimeout, packets;
      }
      LastPacket(payload, start, size, |payload| != size);
      if written != size {
        assert usb.fifo == payload[start..];
        UsbDriver.TagAppend(old(usb.sent), endpoint, packets, usb.fifo);
        packets := packets + [usb.fifo];
        usb.SendLast(endpoint);
      } else {
        SomeWereSent(payload, start, size);
        assert packets + [] == packets;
      }
      result := Written;
    }

    /**
      Answers a control request with as much of the payload as was asked for, waiting at the end
      only if asked to. A wait that expires between packets goes unreported: giving up clears the
      flag the final wait looks at.
    */
    method WriteControlEndpointVerb(endpoint: Byte, requested: Descriptors.U16, blocking: bool, payload: Bytes)
      returns (result: WriteResult, ghost timedOut: bool)
      requires Valid() && usb.Valid()
      modifies usb, usb.txAckActive
      ensures usb.Valid() && (result.Panics? <==> endpoint as int >= UsbDriver.EP_MAX_ENDPOINTS)
      ensures result.Panics? ==> usb.sent == old(usb.sent)
      ensures endpoint as int < UsbDriver.EP_MAX_ENDPOINTS ==>
        var size := UsbDriver.MaxPacketSize(old(usb.deviceSpeed), endpoint);
        var answer := Take(payload, requested);
        var packets := Packets(answer, size, Some(requested as nat));
        && (requested > 0 ==> Rebuilt(packets, size, requested, answer))
        && old(usb.sent) <= usb.sent <= old(usb.sent) + UsbDriver.Tag(endpoint, packets)
        && (!timedOut ==> usb.sent == old(usb.sent) + UsbDriver.Tag(endpoint, packets))
        && (!timedOut && blocking && result.Written? ==> usb.outstanding <= old(usb.outstanding))
        && (timedOut ==> result.Written?)
        && (timedOut || result.StreamIoctlTimeout? ==> usb.polls >= old(usb.polls) + UsbDriver.DEFAULT_TIMEOUT + 1)
        && usb.polls <= old(usb.polls) + UsbDriver.PollBound(answer, size) + FinalWait(blocking)
        && (old(usb.fifo != [] && usb.outstanding == 0) ==> timedOut && usb.sent == old(usb.sent))
        && (old(usb.fifo == [] && usb.outstanding == 0) && |answer| < size ==> !timedOut)
      ensures old(usb.outstanding) == 0 ==> usb.collided == old(usb.collided)
    {
      hide UsbDriver.Tag, UsbDriver.PollBound, UsbDriver.MaxPacketSize, Rebuilt, Packets;
      if endpoint as int >= epInMaxPacketSize.Length {
        return Panics, false;
      }
      var answer := Take(payload, requested);
      var written;
      written, timedOut := usb.WriteRequested(endpoint, requested, answer);
      UsbDriver.SentIsPrefix(old(usb.sent), usb.sent, endpoint, answer,
        UsbDriver.MaxPacketSize(usb.deviceSpeed, endpoint), Some(requested as nat), written, timedOut);
      result := Written;
      if blocking {
        var ok := usb.AwaitSent(endpoint);
        if !ok {
          result := StreamIoctlTimeout;
        }
      }
    }
  }
}
