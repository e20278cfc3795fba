/** The control endpoint on top of the packet writer: what goes over the wire when an event is handled. */
module ControlOverUsb {
  import opened Options
  import opened Seqs
  import opened Words
  import opened Device
  import opened Control
  import opened Packetisation
  import UsbDriver

  /** The packets one driver call sends; the other calls send none. */
  function SentByCall(call: Call, speed: UsbDriver.Speed): seq<UsbDriver.Sent> {
    match call
    case Write(endpoint, data) =>
      UsbDriver.Tag(endpoint, Packets(data, UsbDriver.MaxPacketSize(speed, endpoint), None))
    case WriteRequested(endpoint, length, data) =>
      UsbDriver.Tag(endpoint, Packets(data, UsbDriver.MaxPacketSize(speed, endpoint), Some(length)))
    case _ => []
  }

  function SentBy(calls: seq<Call>, speed: UsbDriver.Speed): seq<UsbDriver.Sent> {
    if calls == [] then [] else SentBy(calls[..|calls| - 1], speed) + SentByCall(calls[|calls| - 1], speed)
  }

  lemma SentByMore(calls: seq<Call>, call: Call, speed: UsbDriver.Speed)
    ensures SentBy(calls + [call], speed) == SentBy(calls, speed) + SentByCall(call, speed)
  {
    assert (calls + [call])[..|calls|] == calls;
  }

  lemma {:induction false} SentByConcat(a: seq<Call>, b: seq<Call>, speed: UsbDriver.Speed)
    ensures SentBy(a + b, speed) == SentBy(a, speed) + SentBy(b, speed)
    decreases |b|
  {
    if b == [] {
      assert a + b == a;
    } else {
      hide SentBy, SentByCall;
      var front, last := b[..|b| - 1], b[|b| - 1];
      assert b == front + [last];
      Regroup(a, front, [last]);
      SentByMore(a + front, last, speed);
      SentByMore(front, last, speed);
      SentByConcat(a, front, speed);
      Regroup(SentBy(a, speed), SentBy(front, speed), SentByCall(last, speed));
    }
  }

  /** The calls write to endpoints the driver has. */
  predicate InRange(calls: seq<Call>) {
    forall i :: 0 <= i < |calls| && (calls[i].Write? || calls[i].WriteRequested? || calls[i].Prime?) ==>
      calls[i].endpoint < UsbDriver.EP_MAX_ENDPOINTS
  }

  lemma StepInRange(k: Config, c: Control, e: Event)
    requires k.endpoint as int < UsbDriver.EP_MAX_ENDPOINTS
    ensures InRange(Step(k, c, e).calls)
  {
    if e.ReceiveSetupPacket? && Ready(c) {
      assert InRange(WriteDescriptor(k.descriptors, k.endpoint, e.setup).calls);
      assert InRange(MicrosoftRequest(k, c.(next := Idle), e.setup).calls);
      hide WriteDescriptor, MicrosoftRequest;
      assert InRange(SetupStep(k, c, e.setup).calls);
    }
    hide SetupStep;
  }

  predicate Writes(call: Call) {
    call.Write? || call.WriteRequested?
  }

  predicate OneWrite(calls: seq<Call>) {
    forall i, j :: 0 <= i < j < |calls| ==> !(Writes(calls[i]) && Writes(calls[j]))
  }

  lemma StepWritesOnce(k: Config, c: Control, e: Event)
    ensures OneWrite(Step(k, c, e).calls)
  {
    if e.ReceiveSetupPacket? && Ready(c) {
      assert |WriteDescriptor(k.descriptors, k.endpoint, e.setup).calls| <= 1;
      assert |MicrosoftRequest(k, c.(next := Idle), e.setup).calls| <= 1;
      hide WriteDescriptor, MicrosoftRequest;
      assert OneWrite(SetupStep(k, c, e.setup).calls);
    }
    hide SetupStep;
  }

  predicate GetsStatus(s: SetupPacket) {
    TypeOf(s).Standard? && DirectionOf(s.requestType).DeviceToHost? && s.request == GET_STATUS
  }

  /** Everything is written to the machine's own endpoint, except that a status is always written to endpoint 0. */
  lemma WritesOwnEndpointIff(k: Config, c: Control, e: Event)
    ensures var calls := Step(k, c, e).calls;
      (forall i :: 0 <= i < |calls| && Writes(calls[i]) ==> calls[i].endpoint == k.endpoint as nat) <==>
      !(k.endpoint != 0 && Ready(c) && e.ReceiveSetupPacket? && e.endpoint == k.endpoint && GetsStatus(e.setup))
  {
    if e.ReceiveSetupPacket? && e.endpoint == k.endpoint && Ready(c) {
      var calls := Step(k, c, e).calls;
      if GetsStatus(e.setup) {
        assert Writes(calls[0]) && calls[0].endpoint == 0;
      } else {
        var asked := WriteDescriptor(k.descriptors, k.endpoint, e.setup).calls;
        var vendor := MicrosoftRequest(k, c.(next := Idle), e.setup).calls;
        assert forall i :: 0 <= i < |asked| && Writes(asked[i]) ==> asked[i].endpoint == k.endpoint as nat;
        assert forall i :: 0 <= i < |vendor| && Writes(vendor[i]) ==> vendor[i].endpoint == k.endpoint as nat;
        hide WriteDescriptor, MicrosoftRequest;
      }
    }
  }

  /** What calls leave in the driver besides packets: endpoints primed, whether reception is enabled, the address. */
  datatype Side = Side(primed: set<nat>, enabled: bool, address: nat)

  ghost function SideOf(usb: UsbDriver.Usb): Side
    reads usb
  {
    Side(usb.outPrimed, usb.outEnabled, usb.address)
  }

  function AfterCall(call: Call, side: Side): Side {
    match call
    case Prime(endpoint) => Side(side.primed + {endpoint}, true, side.address)
    case SetAddress(address) => side.(address := address % 0x80)
    case _ => side
  }

  function After(calls: seq<Call>, side: Side): Side {
    if calls == [] then side else AfterCall(calls[|calls| - 1], After(calls[..|calls| - 1], side))
  }

  lemma AfterNone(side: Side)
    ensures After([], side) == side
  {
  }

  lemma AfterMore(calls: seq<Call>, call: Call, side: Side)
    ensures After(calls + [call], side) == AfterCall(call, After(calls, side))
  {
    assert (calls + [call])[..|calls|] == calls;
  }

  lemma {:induction false} AfterConcat(a: seq<Call>, b: seq<Call>, side: Side)
    ensures After(a + b, side) == After(b, After(a, side))
    decreases |b|
  {
    if b == [] {
      assert a + b == a;
    } else {
      assert (a + b)[..|a + b| - 1] == a + b[..|b| - 1];
      AfterConcat(a, b[..|b| - 1], side);
    }
  }

  /** Exactly the endpoints that calls prime are primed, and reception is enabled once one is. */
  lemma {:induction false} PrimedIff(calls: seq<Call>, side: Side, endpoint: nat)
    ensures endpoint in After(calls, side).primed <==> endpoint in side.primed || Prime(endpoint) in calls
    ensures After(calls, side).enabled <==> side.enabled || exists e: nat :: Prime(e) in calls
  {
    if calls != [] {
      var front, last := calls[..|calls| - 1], calls[|calls| - 1];
      assert calls == front + [last];
      PrimedIff(front, side, endpoint);
      if last.Prime? {
        assert Prime(last.endpoint) in calls;
      }
    }
  }

  /** The address is the one last set, as seven bits. */
  lemma {:induction false} AddressIsLast(calls: seq<Call>, side: Side, i: nat)
    requires i <= |calls| && forall j :: i <= j < |calls| ==> !calls[j].SetAddress?
    requires i > 0 ==> calls[i - 1].SetAddress?
    ensures After(calls, side).address == if i > 0 then calls[i - 1].address % 0x80 else side.address
    decreases |calls|
  {
    if calls != [] && i < |calls| {
      AddressIsLast(calls[..|calls| - 1], side, i);
    }
  }

  /** One call; what it sent is always a beginning of what it stands for. */
  method Make(usb: UsbDriver.Usb, call: Call) returns (ghost timedOut: bool)
    requires usb.Valid() && InRange([call])
    modifies usb, usb.txAckActive
    ensures usb.Valid() && usb.deviceSpeed == old(usb.deviceSpeed)
    ensures usb.outFifo == [] || usb.outFifo == old(usb.outFifo)
    ensures old(usb.sent) <= usb.sent <= old(usb.sent) + SentByCall(call, usb.deviceSpeed)
    ensures !timedOut ==> usb.sent == old(usb.sent) + SentByCall(call, usb.deviceSpeed)
    ensures usb.polls >= old(usb.polls) + if timedOut then UsbDriver.DEFAULT_TIMEOUT + 1 else 0
    ensures SideOf(usb) == AfterCall(call, old(SideOf(usb)))
    ensures call.Prime? ==> usb.outFifo == [] && usb.outEpno == call.endpoint
  {
    hide Packets, UsbDriver.Tag, Rebuilt, UsbDriver.MaxPacketSize, UsbDriver.PollBound;
    assert call == [call][0];
    timedOut := false;
    var written;
    match call {
      case Write(endpoint, data) =>
        written, timedOut := usb.Write(endpoint, data);
        UsbDriver.SentIsPrefix(old(usb.sent), usb.sent, endpoint, data,
          UsbDriver.MaxPacketSize(usb.deviceSpeed, endpoint), None, written, timedOut);
      case WriteRequested(endpoint, length, data) =>
        written, timedOut := usb.WriteRequested(endpoint, length, data);
        UsbDriver.SentIsPrefix(old(usb.sent), usb.sent, endpoint, data,
          UsbDriver.MaxPacketSize(usb.deviceSpeed, endpoint), Some(length), written, timedOut);
      case Prime(endpoint) =>
        usb.EpOutPrimeReceive(endpoint);
      case SetAddress(address) =>
        usb.SetAddress(address);
      case _ =>
    }
  }

  /** Makes the calls, in order; `timedOut` says whether a wait expired. */
  method Perform(usb: UsbDriver.Usb, calls: seq<Call>) returns (ghost timedOut: bool)
    requires usb.Valid() && InRange(calls)
    modifies usb, usb.txAckActive
    ensures usb.Valid() && usb.deviceSpeed == old(usb.deviceSpeed)
    ensures usb.outFifo == [] || usb.outFifo == old(usb.outFifo)
    ensures !timedOut ==> usb.sent == old(usb.sent) + SentBy(calls, usb.deviceSpeed)
    ensures OneWrite(calls) ==> old(usb.sent) <= usb.sent <= old(usb.sent) + SentBy(calls, usb.deviceSpeed)
    ensures usb.polls >= old(usb.polls) + if timedOut then UsbDriver.DEFAULT_TIMEOUT + 1 else 0
    ensures SideOf(usb) == After(calls, old(SideOf(usb)))
  {
    AfterNone(SideOf(usb));
    hide SentBy, SentByCall, After, AfterCall;
    NothingSent(usb.deviceSpeed);
    timedOut := false;
    ghost var wrote := false;
    for i := 0 to |calls|
      invariant usb.Valid() && usb.deviceSpeed == old(usb.deviceSpeed)
      invariant usb.outFifo == [] || usb.outFifo == old(usb.outFifo)
      invariant !timedOut ==> usb.sent == old(usb.sent) + SentBy(calls[..i], usb.deviceSpeed)
      invariant OneWrite(calls) ==> old(usb.sent) <= usb.sent <= old(usb.sent) + SentBy(calls[..i], usb.deviceSpeed)
      invariant wrote <==> exists j :: 0 <= j < i && Writes(calls[j])
      invariant !wrote ==> usb.sent == old(usb.sent) && SentBy(calls[..i], usb.deviceSpeed) == []
      invariant usb.polls >= old(usb.polls) + if timedOut then UsbDriver.DEFAULT_TIMEOUT + 1 else 0
      invariant SideOf(usb) == After(calls[..i], old(SideOf(usb)))
    {
      assert calls[..i + 1] == calls[..i] + [calls[i]];
      AfterMore(calls[..i], calls[i], old(SideOf(usb)));
      SentByMore(calls[..i], calls[i], usb.deviceSpeed);
      OnlyWritesSend(calls[i], usb.deviceSpeed);
      ghost var late := Make(usb, calls[i]);
      timedOut := timedOut || late;
      wrote := wrote || Writes(calls[i]);
    }
    assert calls[..|calls|] == calls;
  }

  lemma OnlyWritesSend(call: Call, speed: UsbDriver.Speed)
    ensures !Writes(call) ==> SentByCall(call, speed) == []
  {
  }

  lemma NothingSent(speed: UsbDriver.Speed)
    ensures SentBy([], speed) == []
  {
  }

  /** Takes the packet out of the OUT FIFO; one longer than a packet can be is only measured. */
  method Receive(usb: UsbDriver.Usb, e: Event) returns (seen: Event)
    requires usb.Valid() && e.ReceivePacket? && e.data == usb.outFifo
    modifies usb`outFifo
    ensures usb.Valid() && usb.outFifo == [] && seen == e
  {
    var buffer := new Byte[UsbDriver.EP_MAX_PACKET_SIZE](_ => 0);
    var n := usb.Read(buffer);
    if n <= buffer.Length {
      assert buffer[..n] == e.data;
      seen := e.(data := buffer[..n]);
    } else {
      seen := e;
    }
  }

  /** Handles an event: reads the packet that came with it, if any, and makes the driver calls it asks for. */
  method Handle(control: ControlEndpoint, usb: UsbDriver.Usb, e: Event)
    returns (outcome: Outcome, ghost timedOut: bool)
    requires control.Valid() && usb.Valid() && control.config.endpoint as int < UsbDriver.EP_MAX_ENDPOINTS
    requires e.ReceivePacket? ==> e.data == usb.outFifo
    modifies control, control.rxBuffer, usb, usb.txAckActive
    ensures control.Valid() && usb.Valid() && usb.deviceSpeed == old(usb.deviceSpeed)
    ensures (usb.outFifo == [] || usb.outFifo == old(usb.outFifo))
    ensures e.ReceivePacket? && e.endpoint == control.config.endpoint ==>
      (old(control.next.ReceiveHostData? || control.next.WaitForZlp? || control.next.Idle?) ==> usb.outFifo == [])
    ensures usb.polls >= old(usb.polls) + if timedOut then UsbDriver.DEFAULT_TIMEOUT + 1 else 0
    ensures var r := Step(control.config, old(control.Machine()), e);
      && control.Machine() == r.control && outcome == r.outcome
      && (!timedOut ==> usb.sent == old(usb.sent) + SentBy(r.calls, usb.deviceSpeed))
      && old(usb.sent) <= usb.sent <= old(usb.sent) + SentBy(r.calls, usb.deviceSpeed)
      && SideOf(usb) == After(r.calls, old(SideOf(usb)))
  {
    hide Step, SentBy, InRange, OneWrite, After;
    StepInRange(control.config, control.Machine(), e);
    StepWritesOnce(control.config, control.Machine(), e);
    var seen := e;
    if e.ReceivePacket? && e.endpoint == control.config.endpoint
      && (control.next.ReceiveHostData? || control.next.WaitForZlp? || control.next.Idle?) {
      seen := Receive(usb, e);
    }
    var calls;
    calls, outcome := control.DispatchEvent(seen);
    timedOut := Perform(usb, calls);
  }

  /**
    Handles events one after the other, as the hardware raises them, until one panics: the
    machine and the outcomes are the run's, and without a timeout so is everything sent.
  */
  method HandleAll(control: ControlEndpoint, usb: UsbDriver.Usb, events: seq<Event>)
    returns (outcomes: seq<Outcome>, ghost timedOut: bool)
    requires control.Valid() && usb.Valid() && control.config.endpoint as int < UsbDriver.EP_MAX_ENDPOINTS
    modifies control, control.rxBuffer, usb, usb.txAckActive
    ensures control.Valid() && usb.Valid() && usb.deviceSpeed == old(usb.deviceSpeed)
    ensures var t := Run(control.config, old(control.Machine()), events);
      && control.Machine() == t.control && outcomes == t.outcomes
      && (!timedOut ==> usb.sent == old(usb.sent) + SentBy(t.calls, usb.deviceSpeed))
      && SideOf(usb) == After(t.calls, old(SideOf(usb)))
    ensures usb.polls >= old(usb.polls) + if timedOut then UsbDriver.DEFAULT_TIMEOUT + 1 else 0
    decreases |events|
  {
    AfterNone(SideOf(usb));
    hide Step, SentBy, After;
    NothingSent(usb.deviceSpeed);
    if events == [] {
      return [], false;
    }
    var e := events[0];
    if e.ReceivePacket? {
      usb.outFifo := e.data;
    }
    ghost var r := Step(control.config, control.Machine(), e);
    ghost var (before, side) := (usb.sent, SideOf(usb));
    var outcome;
    outcome, timedOut := Handle(control, usb, e);
    outcomes := [outcome];
    if !outcome.Panicked? {
      var others;
      ghost var late;
      ghost var t := Run(control.config, r.control, events[1..]);
      others, late := HandleAll(control, usb, events[1..]);
      outcomes, timedOut := outcomes + others, timedOut || late;
      SentByConcat(r.calls, t.calls, usb.deviceSpeed);
      AfterConcat(r.calls, t.calls, side);
      Regroup(before, SentBy(r.calls, usb.deviceSpeed), SentBy(t.calls, usb.deviceSpeed));
    }
  }

  lemma SentByFirst(first: Call, second: Call, speed: UsbDriver.Speed)
    requires SentByCall(second, speed) == []
    ensures SentBy([first, second], speed) == SentByCall(first, speed)
  {
    NothingSent(speed);
    SentByMore([], first, speed);
    SentByMore([first], second, speed);
    assert [] + [first] == [first] && [first] + [second] == [first, second];
  }

  /** On the wire, a whole descriptor request is its data stage and nothing else, and the host rebuilds it. */
  lemma DescriptorOnTheWire(k: Config, c: Control, s: SetupPacket, speed: UsbDriver.Speed, early: nat)
    requires Ready(c) && GetsDescriptor(s) && s.length > 0 && Descriptor(k.descriptors, s.value).Some?
    requires 0 < early <= |DataStage(k, s, speed)|
    ensures var packets := DataStage(k, s, speed);
      var whole := Descriptor(k.descriptors, s.value).value;
      var t := Run(k, c, ReadTransfer(k.endpoint, s, |packets|, early));
      && SentBy(t.calls, speed) == UsbDriver.Tag(k.endpoint, packets)
      && Rebuilt(packets, UsbDriver.MaxPacketSize(speed, k.endpoint), s.length, Take(whole, s.length))
  {
    hide Step, Run, ReadTransfer, Descriptor, Packets, HostRead, GetsDescriptor, Ready, SentBy, UsbDriver.Tag;
    hide UsbDriver.MaxPacketSize, Repeat;
    var whole := Descriptor(k.descriptors, s.value).value;
    GetDescriptorDelivers(k, c, s, speed, early);
    assert |whole| == s.length ==> whole[..s.length] == whole;
    SentByFirst(WriteRequested(k.endpoint, s.length, Take(whole, s.length)), Prime(k.endpoint), speed);
  }

  lemma PrimesOnce(first: Call, endpoint: nat, side: Side)
    requires first.WriteRequested?
    ensures After([first, Prime(endpoint)], side) == Side(side.primed + {endpoint}, true, side.address)
  {
    AfterMore([], first, side);
    AfterMore([first], Prime(endpoint), side);
    assert [] + [first] == [first] && [first] + [Prime(endpoint)] == [first, Prime(endpoint)];
  }

  /**
    A whole descriptor request, run on the driver: without a timeout exactly the data stage is
    sent, the host rebuilds the beginning of the descriptor it asked for, and the endpoint is idle.
  */
  method ServeDescriptor(control: ControlEndpoint, usb: UsbDriver.Usb, s: SetupPacket, early: nat)
    returns (ghost timedOut: bool)
    requires control.Valid() && usb.Valid() && control.config.endpoint as int < UsbDriver.EP_MAX_ENDPOINTS
    requires Ready(control.Machine()) && GetsDescriptor(s) && s.length > 0
    requires Descriptor(control.config.descriptors, s.value).Some?
    requires 0 < early <= |DataStage(control.config, s, usb.deviceSpeed)|
    modifies control, control.rxBuffer, usb, usb.txAckActive
    ensures control.Valid() && usb.Valid() && control.Machine() == old(control.Machine()).(next := Idle)
    ensures var packets := DataStage(control.config, s, old(usb.deviceSpeed));
      var size := UsbDriver.MaxPacketSize(old(usb.deviceSpeed), control.config.endpoint);
      && (!timedOut ==> usb.sent == old(usb.sent) + UsbDriver.Tag(control.config.endpoint, packets))
      && Rebuilt(packets, size, s.length, Take(Descriptor(control.config.descriptors, s.value).value, s.length))
    ensures timedOut ==> usb.polls > old(usb.polls) + UsbDriver.DEFAULT_TIMEOUT
    ensures SideOf(usb) == Side(old(usb.outPrimed) + {control.config.endpoint as nat}, true, old(usb.address))
  {
    hide Step, Run, ReadTransfer, Descriptor, Packets, HostRead, GetsDescriptor, SentBy, UsbDriver.Tag;
    hide UsbDriver.MaxPacketSize, Repeat;
    ghost var (k, speed) := (control.config, usb.deviceSpeed);
    ghost var part := Take(Descriptor(k.descriptors, s.value).value, s.length);
    PrimesOnce(WriteRequested(k.endpoint, s.length, part), k.endpoint, SideOf(usb));
    DescriptorOnTheWire(k, control.Machine(), s, speed, early);
    GetDescriptorDelivers(k, control.Machine(), s, speed, early);
    var n := |DataStage(control.config, s, usb.deviceSpeed)|;
    var outcomes;
    outcomes, timedOut := HandleAll(control, usb, ReadTransfer(control.config.endpoint, s, n, early));
  }
}
