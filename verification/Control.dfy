/** The control endpoint's state machine: one step per USB event. */
module Control {
  import opened Options
  import opened Seqs
  import opened Words
  import opened Descriptors
  import opened Device
  import opened Packetisation
  import UsbDriver

  datatype State =
    | Idle
    | Send
    | WaitForZlp
    | Addressing(address: nat)
    | ReceiveHostData(setup: SetupPacket)
    | FinishHostData(setup: SetupPacket)
    | Complete
    | Stall

  /** A USB event; for a received packet, with the bytes waiting in the OUT FIFO. */
  datatype Event =
    | BusReset
    | ReceiveSetupPacket(endpoint: Byte, setup: SetupPacket)
    | ReceiveControl(endpoint: Byte)
    | ReceivePacket(endpoint: Byte, data: Descriptors.Bytes)
    | SendComplete(endpoint: Byte)

  /** The fixed part of a control endpoint. */
  datatype Config = Config(endpoint: Byte, descriptors: DescriptorSet, capacity: nat)

  /** The changing part; `data` is the filled part of the receive buffer. */
  datatype Control = Control(next: State, configuration: Option<Byte>, remoteWakeup: bool, data: Descriptors.Bytes)

  datatype Result = Result(control: Control, calls: seq<Call>, outcome: Outcome)

  const INITIAL: Control := Control(Idle, None, false, [])

  const REMOTE_WAKEUP: nat := 1
  const ENDPOINT_HALT: nat := 0
  const MICROSOFT_REQUEST: Byte := 0xEE

  function Quiet(c: Control, calls: seq<Call>): Result {
    Result(c, calls, Returned(None))
  }

  // ---- Requests ----

  function MicrosoftRequest(k: Config, c: Control, s: SetupPacket): Result {
    var feature :=
      if k.descriptors.microsoft10.None? then None
      else if RecipientOf(s).ToDevice? && s.index == 4 then Some(k.descriptors.microsoft10.value.compatibleId)
      else if RecipientOf(s).ToInterface? && s.index == 5 then Some(k.descriptors.microsoft10.value.extendedProperties)
      else None;
    if feature.Some? then
      Quiet(c.(next := Send), [WriteRequested(k.endpoint, s.length, Take(feature.value, s.length))])
    else Quiet(c.(next := Stall), [StallIn(k.endpoint)])
  }

  function ConfigureRequest(k: Config, c: Control, s: SetupPacket): Result {
    var configuration: Byte := s.value % 0x100;
    if configuration > 1 then Quiet(c.(configuration := None, next := Stall), [StallOut(k.endpoint)])
    else Quiet(c.(configuration := Some(configuration), next := Complete), [Write(k.endpoint, [])])
  }

  function ClearFeatureRequest(k: Config, c: Control, s: SetupPacket): Result {
    if RecipientOf(s).ToEndpoint? && s.value == ENDPOINT_HALT then
      var address := s.index % 0x100;
      Quiet(c.(next := Complete), [ClearHalt(address % 0x80, DirectionOf(address)), Write(k.endpoint, [])])
    else if RecipientOf(s).ToDevice? && s.value == REMOTE_WAKEUP then
      Quiet(c.(remoteWakeup := false, next := Complete), [Write(k.endpoint, [])])
    else Quiet(c.(next := Stall), [StallIn(k.endpoint)])
  }

  function SetFeatureRequest(k: Config, c: Control, s: SetupPacket): Result {
    if RecipientOf(s).ToDevice? && s.value == REMOTE_WAKEUP then
      Quiet(c.(remoteWakeup := true, next := Complete), [Write(k.endpoint, [])])
    else Quiet(c.(next := Stall), [StallIn(k.endpoint)])
  }

  /** Requests the machine answers itself, whatever their length. */
  predicate Handled(s: SetupPacket) {
    var input := DirectionOf(s.requestType).DeviceToHost?;
    if TypeOf(s).Standard? then
      s.request == CLEAR_FEATURE || s.request == SET_FEATURE ||
      (if input then s.request == GET_DESCRIPTOR || s.request == GET_CONFIGURATION || s.request == GET_STATUS
       else s.request == SET_ADDRESS || s.request == SET_CONFIGURATION)
    else input && TypeOf(s).Vendor? && s.request == MICROSOFT_REQUEST
  }

  function Answer(k: Config, c: Control, s: SetupPacket): Result
    requires Handled(s)
  {
    if TypeOf(s).Vendor? then MicrosoftRequest(k, c, s)
    else if s.request == CLEAR_FEATURE then ClearFeatureRequest(k, c, s)
    else if s.request == SET_FEATURE then SetFeatureRequest(k, c, s)
    else if DirectionOf(s.requestType).DeviceToHost? then
      if s.request == GET_DESCRIPTOR then
        var r := WriteDescriptor(k.descriptors, k.endpoint, s);
        Result(c.(next := Send), r.calls, r.outcome)
      else if s.request == GET_CONFIGURATION then
        Quiet(c.(next := Send), [Write(k.endpoint, [if c.configuration.Some? then c.configuration.value else 0])])
      else
        Quiet(c.(next := Send), [Write(0, [1 + (if c.remoteWakeup then 2 else 0), 0])])
    else if s.request == SET_ADDRESS then
      Quiet(c.(next := Addressing(s.value % 0x80)), [Write(k.endpoint, [])])
    else ConfigureRequest(k, c, s)
  }

  predicate HostDataRequest(s: SetupPacket) {
    !Handled(s) && DirectionOf(s.requestType).HostToDevice? && s.length > 0
  }

  function SetupStep(k: Config, c: Control, s: SetupPacket): Result {
    if Handled(s) then Answer(k, c.(next := Idle), s)
    else if HostDataRequest(s) then Quiet(c.(data := [], next := ReceiveHostData(s)), [Prime(k.endpoint)])
    else Result(c.(next := Idle), [], Returned(Some(s)))
  }

  /** A packet of host data: too much for the buffer is dropped, none at all ends the transfer early. */
  function HostDataStep(k: Config, c: Control, s: SetupPacket, p: Descriptors.Bytes): Result {
    if p == [] then Quiet(c.(next := FinishHostData(s)), [Write(k.endpoint, [])])
    else if |c.data| + |p| > k.capacity then Quiet(c, [Prime(k.endpoint)])
    else if |p| > UsbDriver.EP_MAX_PACKET_SIZE then Result(c, [], Panicked)
    else
      var d := c.(data := c.data + p);
      if |d.data| >= s.length then Quiet(d.(next := FinishHostData(s)), [Write(k.endpoint, [])])
      else Quiet(d, [Prime(k.endpoint)])
  }

  // ---- Events ----

  /** A SETUP packet is only looked at here; in any other state it is dropped. */
  predicate Ready(c: Control) {
    c.next.Idle? || c.next.Stall?
  }

  function Step(k: Config, c: Control, e: Event): Result {
    if e.BusReset? then Quiet(c.(next := Idle), [])
    else if e.endpoint != k.endpoint then Quiet(c.(next := Idle), [])
    else match e
      case ReceiveSetupPacket(_, s) =>
        if Ready(c) then SetupStep(k, c, s) else Quiet(c.(next := Idle), [])
      case SendComplete(_) =>
        (match c.next
         case Send => Quiet(c.(next := WaitForZlp), [Prime(k.endpoint)])
         case WaitForZlp => Quiet(c, [])
         case Addressing(address) => Quiet(c.(next := Idle), [SetAddress(address)])
         case FinishHostData(s) => Result(c.(next := Idle), [], Returned(Some(s)))
         case _ => Quiet(c.(next := Idle), []))
      case ReceivePacket(_, p) =>
        (match c.next
         case ReceiveHostData(s) => HostDataStep(k, c, s, p)
         case _ => Quiet(c.(next := Idle), []))
      case ReceiveControl(_) => Quiet(c.(next := Idle), [])
  }

  /** What a run of events leaves behind: the machine, every driver call, and every outcome, in order. */
  datatype Trace = Trace(control: Control, calls: seq<Call>, outcomes: seq<Outcome>)

  function Run(k: Config, c: Control, events: seq<Event>): Trace
    decreases |events|
  {
    if events == [] then Trace(c, [], [])
    else
      var r := Step(k, c, events[0]);
      if r.outcome.Panicked? then Trace(r.control, r.calls, [r.outcome])
      else
        var t := Run(k, r.control, events[1..]);
        Trace(t.control, r.calls + t.calls, [r.outcome] + t.outcomes)
  }

  lemma RunOne(k: Config, c: Control, e: Event, rest: seq<Event>)
    requires !Step(k, c, e).outcome.Panicked?
    ensures var r := Step(k, c, e); var t := Run(k, r.control, rest);
      Run(k, c, [e] + rest) == Trace(t.control, r.calls + t.calls, [r.outcome] + t.outcomes)
  {
    assert ([e] + rest)[1..] == rest;
  }

  // ---- The receive buffer ----

  /** In every run of events, whatever their sizes, the received data stay within the buffer. */
  lemma {:induction false} DataFits(k: Config, c: Control, events: seq<Event>)
    requires |c.data| <= k.capacity
    ensures |Run(k, c, events).control.data| <= k.capacity
    decreases |events|
  {
    hide WriteDescriptor, MicrosoftRequest, ClearFeatureRequest, SetFeatureRequest, ConfigureRequest, Handled;
    if events != [] {
      var r := Step(k, c, events[0]);
      StepFits(k, c, events[0]);
      if !r.outcome.Panicked? {
        DataFits(k, r.control, events[1..]);
      }
    }
  }

  lemma StepFits(k: Config, c: Control, e: Event)
    requires |c.data| <= k.capacity
    ensures |Step(k, c, e).control.data| <= k.capacity
  {
  }

  function Packs(endpoint: Byte, packets: seq<Descriptors.Bytes>): (events: seq<Event>)
    ensures |events| == |packets|
  {
    if packets == [] then [] else [ReceivePacket(endpoint, packets[0])] + Packs(endpoint, packets[1..])
  }

  ghost predicate Splits(packets: seq<Descriptors.Bytes>) {
    forall p :: p in packets ==> 0 < |p| <= UsbDriver.EP_MAX_PACKET_SIZE
  }

  /** One packet of a transfer that fits. */
  lemma ReceivesOne(k: Config, c: Control, s: SetupPacket, p: Descriptors.Bytes)
    requires c.next == ReceiveHostData(s) && 0 < |p| <= UsbDriver.EP_MAX_PACKET_SIZE
    requires |c.data| + |p| <= k.capacity
    ensures var done := |c.data| + |p| >= s.length;
      Step(k, c, ReceivePacket(k.endpoint, p)) ==
      Quiet(c.(data := c.data + p, next := if done then FinishHostData(s) else ReceiveHostData(s)),
            [if done then Write(k.endpoint, []) else Prime(k.endpoint)])
  {
  }

  /** The packets of a transfer that fits are appended one by one; the last one ends it. */
  lemma {:induction false} ReceivesAll(k: Config, c: Control, s: SetupPacket, packets: seq<Descriptors.Bytes>)
    requires c.next == ReceiveHostData(s) && packets != [] && Splits(packets)
    requires |c.data| + |Concat(packets)| == s.length <= k.capacity
    ensures Run(k, c, Packs(k.endpoint, packets)) ==
      Trace(c.(next := FinishHostData(s), data := c.data + Concat(packets)),
            Repeat(Prime(k.endpoint), |packets| - 1) + [Write(k.endpoint, [])],
            Repeat(Returned(None), |packets|))
    decreases |packets|
  {
    var p, rest := packets[0], packets[1..];
    var e := ReceivePacket(k.endpoint, p);
    assert p in packets && 0 < |p| <= UsbDriver.EP_MAX_PACKET_SIZE;
    assert Concat(packets) == p + Concat(rest) && Packs(k.endpoint, packets) == [e] + Packs(k.endpoint, rest);
    assert Repeat(Returned(None), |packets|) == [Returned(None)] + Repeat(Returned(None), |rest|);
    ReceivesOne(k, c, s, p);
    RunOne(k, c, e, Packs(k.endpoint, rest));
    if rest == [] {
      hide Step;
      assert Concat(packets) == p;
    } else {
      hide Step, Run, Repeat, Packs, Concat, Splits;
      TailSplits(packets);
      ReceivesAll(k, Step(k, c, e).control, s, rest);
      RepeatEnds(Prime(k.endpoint), |rest|, Write(k.endpoint, []));
      Regroup(c.data, p, Concat(rest));
    }
  }

  lemma TailSplits(packets: seq<Descriptors.Bytes>)
    requires Splits(packets) && |packets| > 1
    ensures Splits(packets[1..]) && |Concat(packets[1..])| > 0
  {
    var rest := packets[1..];
    assert forall q :: q in rest ==> q in packets;
    assert rest[0] in packets && |Concat(rest)| >= |rest[0]|;
  }

  lemma RepeatEnds<T>(x: T, n: nat, y: T)
    requires n > 0
    ensures [x] + (Repeat(x, n - 1) + [y]) == Repeat(x, n) + [y]
  {
  }

  /** A transfer longer than the buffer never finishes, however it is split. */
  lemma {:induction false} NeverFinishes(k: Config, c: Control, s: SetupPacket, packets: seq<Descriptors.Bytes>)
    requires c.next == ReceiveHostData(s) && Splits(packets) && |c.data| <= k.capacity < s.length
    ensures Run(k, c, Packs(k.endpoint, packets)).control.next == ReceiveHostData(s)
    decreases |packets|
  {
    if packets != [] {
      var p, rest := packets[0], packets[1..];
      assert p in packets;
      assert forall q :: q in rest ==> q in packets;
      var e := ReceivePacket(k.endpoint, p);
      RunOne(k, c, e, Packs(k.endpoint, rest));
      NeverFinishes(k, Step(k, c, e).control, s, rest);
    }
  }

  lemma HostDataEnds(k: Config, c: Control, c2: Control, s: SetupPacket)
    requires Ready(c) && HostDataRequest(s) && c2.next == FinishHostData(s)
    ensures Step(k, c, ReceiveSetupPacket(k.endpoint, s)) ==
      Quiet(c.(data := [], next := ReceiveHostData(s)), [Prime(k.endpoint)])
    ensures Run(k, c2, [SendComplete(k.endpoint)]) == Trace(c2.(next := Idle), [], [Returned(Some(s))])
  {
    assert Run(k, c2.(next := Idle), [SendComplete(k.endpoint)][1..]) == Trace(c2.(next := Idle), [], []);
  }

  /**
    Host data arrive whole, for every split into non-empty packets: the request is handed back
    once, at the completion of the one status packet, with the data in order.
  */
  lemma Reassembles(k: Config, c: Control, s: SetupPacket, packets: seq<Descriptors.Bytes>)
    requires Ready(c)
    requires HostDataRequest(s) && Splits(packets) && |Concat(packets)| == s.length <= k.capacity
    ensures var events := [ReceiveSetupPacket(k.endpoint, s)] +
        (Packs(k.endpoint, packets) + [SendComplete(k.endpoint)]);
      Run(k, c, events) ==
      Trace(c.(next := Idle, data := Concat(packets)),
            Repeat(Prime(k.endpoint), |packets|) + [Write(k.endpoint, [])],
            Repeat(Returned(None), |packets| + 1) + [Returned(Some(s))])
  {
    assert packets != [];
    var c1 := c.(data := [], next := ReceiveHostData(s));
    var (events, last) := (Packs(k.endpoint, packets), SendComplete(k.endpoint));
    var c2 := c.(next := FinishHostData(s), data := Concat(packets));
    var end := Trace(c2.(next := Idle), [], [Returned(Some(s))]);
    hide Step, Concat, Packs, HostDataRequest, Repeat;
    HostDataEnds(k, c, c2, s);
    assert [] + Concat(packets) == Concat(packets);
    ReceivesAll(k, c1, s, packets);
    hide Splits, Ready;
    NonePanicked(|packets|);
    RunConcat(k, c1, events, [last]);
    RunOne(k, c, ReceiveSetupPacket(k.endpoint, s), events + [last]);
    hide Run;
    RepeatWraps(Prime(k.endpoint), |packets|, Write(k.endpoint, []));
    RepeatEnds(Returned(None), |packets| + 1, Returned(Some(s)));
  }

  lemma RepeatWraps<T>(x: T, n: nat, y: T)
    requires n > 0
    ensures [x] + (Repeat(x, n - 1) + [y] + []) == Repeat(x, n) + [y]
  {
  }

  /** Whether the transfer reaches its end is decided by the announced length alone. */
  lemma FinishesIff(k: Config, c: Control, s: SetupPacket, packets: seq<Descriptors.Bytes>)
    requires c.next == ReceiveHostData(s) && c.data == [] && s.length > 0
    requires Splits(packets) && |Concat(packets)| == s.length
    ensures Run(k, c, Packs(k.endpoint, packets)).control.next == FinishHostData(s) <==> s.length <= k.capacity
  {
    if s.length <= k.capacity {
      assert packets != [];
      ReceivesAll(k, c, s, packets);
    } else {
      NeverFinishes(k, c, s, packets);
    }
  }

  ghost predicate NoPanic(outcomes: seq<Outcome>) {
    forall o :: o in outcomes ==> !o.Panicked?
  }

  lemma {:induction false} NonePanicked(n: nat)
    ensures NoPanic(Repeat(Returned(None), n))
  {
    if n > 0 {
      NonePanicked(n - 1);
    }
  }

  lemma {:induction false} RunConcat(k: Config, c: Control, events: seq<Event>, more: seq<Event>)
    requires NoPanic(Run(k, c, events).outcomes)
    ensures var t := Run(k, c, events); var u := Run(k, t.control, more);
      Run(k, c, events + more) == Trace(u.control, t.calls + u.calls, t.outcomes + u.outcomes)
    decreases |events|
  {
    hide Step;
    if events == [] {
      assert events + more == more;
    } else {
      var r := Step(k, c, events[0]);
      var t := Run(k, c, events);
      assert t.outcomes[0] in t.outcomes;
      var rest := Run(k, r.control, events[1..]);
      assert t.outcomes == [r.outcome] + rest.outcomes;
      assert forall o :: o in rest.outcomes ==> o in t.outcomes;
      RunConcat(k, r.control, events[1..], more);
      assert (events + more)[1..] == events[1..] + more;
      var u := Run(k, rest.control, more);
      assert r.calls + (rest.calls + u.calls) == (r.calls + rest.calls) + u.calls;
      assert [r.outcome] + (rest.outcomes + u.outcomes) == ([r.outcome] + rest.outcomes) + u.outcomes;
    }
  }

  // ---- Reading a descriptor ----

  /** GetDescriptor, by the bytes of USB 2.0, table 9-3. */
  predicate GetsDescriptor(s: SetupPacket) {
    0x80 <= s.requestType < 0xA0 && s.request == 6
  }

  function Completions(endpoint: Byte, n: nat): (events: seq<Event>)
    ensures |events| == n
  {
    Repeat(SendComplete(endpoint), n)
  }

  /** Completions are ignored once the machine waits for the status packet, or no longer waits. */
  lemma {:induction false} IgnoresCompletions(k: Config, c: Control, n: nat)
    requires c.next.WaitForZlp? || c.next.Idle?
    ensures Run(k, c, Completions(k.endpoint, n)) == Trace(c, [], Repeat(Returned(None), n))
  {
    if n > 0 {
      IgnoresCompletions(k, c, n - 1);
      assert Completions(k.endpoint, n)[1..] == Completions(k.endpoint, n - 1);
      assert Step(k, c, SendComplete(k.endpoint)) == Quiet(c, []);
      hide Step;
      assert Repeat(Returned(None), n) == [Returned(None)] + Repeat(Returned(None), n - 1);
    }
  }

  lemma DataStageSteps(k: Config, c: Control)
    requires c.next == Send
    ensures Step(k, c, SendComplete(k.endpoint)) == Quiet(c.(next := WaitForZlp), [Prime(k.endpoint)])
    ensures Step(k, c.(next := WaitForZlp), ReceivePacket(k.endpoint, [])) == Quiet(c.(next := Idle), [])
  {
  }

  /**
    After a data stage of at least one packet, the status packet brings the machine back to idle
    and OUT is primed once, even if completions are reported after the status packet.
  */
  lemma SendsAndReturns(k: Config, c: Control, sent: nat, early: nat)
    requires c.next == Send && 0 < early <= sent
    ensures var status := [ReceivePacket(k.endpoint, [])];
      Run(k, c, Completions(k.endpoint, early) + (status + Completions(k.endpoint, sent - early))) ==
      Trace(c.(next := Idle), [Prime(k.endpoint)], Repeat(Returned(None), sent + 1))
  {
    var first, status := SendComplete(k.endpoint), ReceivePacket(k.endpoint, []);
    var c1, c2 := c.(next := WaitForZlp), c.(next := Idle);
    var late := Completions(k.endpoint, sent - early);
    var before, after := Completions(k.endpoint, early - 1), [status] + late;
    assert Completions(k.endpoint, early) == [first] + before;
    hide Step, Run, Completions, Repeat;
    Regroup([first], before, after);
    DataStageSteps(k, c);
    IgnoresCompletions(k, c1, early - 1);
    IgnoresCompletions(k, c2, sent - early);
    RunOne(k, c1, status, late);
    NonePanicked(early - 1);
    RunConcat(k, c1, before, after);
    RunOne(k, c, first, before + after);
    RepeatJoins(Returned(None), early - 1, sent - early);
  }

  lemma {:induction false} RepeatAdds<T>(x: T, n: nat, m: nat)
    ensures Repeat(x, n) + Repeat(x, m) == Repeat(x, n + m)
  {
    if n > 0 {
      RepeatAdds(x, n - 1, m);
      assert Repeat(x, n + m) == [x] + Repeat(x, n - 1 + m);
    }
  }

  lemma RepeatJoins<T>(x: T, n: nat, m: nat)
    ensures [x] + (Repeat(x, n) + ([x] + Repeat(x, m))) == Repeat(x, n + m + 2)
  {
    assert [x] + Repeat(x, m) == Repeat(x, m + 1);
    RepeatAdds(x, n, m + 1);
    assert Repeat(x, n + m + 2) == [x] + Repeat(x, n + m + 1);
  }

  /** The packets that answer a request for a descriptor the device has. */
  function DataStage(k: Config, s: SetupPacket, speed: UsbDriver.Speed): seq<Descriptors.Bytes>
    requires Descriptor(k.descriptors, s.value).Some?
  {
    Packets(Take(Descriptor(k.descriptors, s.value).value, s.length),
            UsbDriver.MaxPacketSize(speed, k.endpoint), Some(s.length as nat))
  }

  /**
    The events of a read request: the SETUP packet, the completions of `sent` packets, and the
    status packet after `early` of them.
  */
  function ReadTransfer(endpoint: Byte, s: SetupPacket, sent: nat, early: nat): seq<Event>
    requires early <= sent
  {
    [ReceiveSetupPacket(endpoint, s)] +
    (Completions(endpoint, early) + ([ReceivePacket(endpoint, [])] + Completions(endpoint, sent - early)))
  }

  lemma StartsSending(k: Config, c: Control, s: SetupPacket)
    requires Ready(c) && GetsDescriptor(s) && Descriptor(k.descriptors, s.value).Some?
    ensures Step(k, c, ReceiveSetupPacket(k.endpoint, s)) ==
      Quiet(c.(next := Send),
            [WriteRequested(k.endpoint, s.length, Take(Descriptor(k.descriptors, s.value).value, s.length))])
  {
    hide Descriptor;
  }

  /**
    Reading a descriptor the device has, end to end: the host gets exactly its first bytes, up
    to the length it asked for, with nothing left over, and the machine ends idle, having
    primed OUT once, however the completions of the packets fall around the status packet.
  */
  lemma GetDescriptorDelivers(k: Config, c: Control, s: SetupPacket, speed: UsbDriver.Speed, early: nat)
    requires Ready(c) && GetsDescriptor(s) && s.length > 0 && Descriptor(k.descriptors, s.value).Some?
    requires 0 < early <= |DataStage(k, s, speed)|
    ensures var whole := Descriptor(k.descriptors, s.value).value;
      var part := if |whole| < s.length then whole else whole[..s.length];
      var packets := DataStage(k, s, speed);
      && HostRead(packets, UsbDriver.MaxPacketSize(speed, k.endpoint), s.length) == HostResult(part, [], true)
      && Run(k, c, ReadTransfer(k.endpoint, s, |packets|, early)) ==
         Trace(c.(next := Idle), [WriteRequested(k.endpoint, s.length, part), Prime(k.endpoint)],
                Repeat(Returned(None), |packets| + 2))
  {
    hide Step, Packets, Descriptor, Completions, GetsDescriptor, Run, HostRead, UsbDriver.MaxPacketSize;
    hide Ready, Modular.Wrap;
    var part := Take(Descriptor(k.descriptors, s.value).value, s.length);
    var n := |DataStage(k, s, speed)|;
    HostRebuildsIff(part, UsbDriver.MaxPacketSize(speed, k.endpoint), Some(s.length as nat), s.length);
    StartsSending(k, c, s);
    SendsAndReturns(k, c.(next := Send), n, early);
    RunOne(k, c, ReceiveSetupPacket(k.endpoint, s),
      Completions(k.endpoint, early) + ([ReceivePacket(k.endpoint, [])] + Completions(k.endpoint, n - early)));
    assert Repeat(Returned(None), n + 2) == [Returned(None)] + Repeat(Returned(None), n + 1);
  }

  /** What the host has of a whole read transfer, after its first `early` completions and its status packet. */
  function HostHas(k: Config, c: Control, s: SetupPacket, size: nat, sent: nat, early: nat): Descriptors.Bytes
    requires size > 0 && early <= sent
  {
    var calls := Run(k, c, ReadTransfer(k.endpoint, s, sent, early)).calls;
    if calls != [] && calls[0].WriteRequested? then
      HostRead(Packets(calls[0].data, size, Some(calls[0].length)), size, s.length).data
    else []
  }

  /** The first thing a host asks for: whole, it is the device's descriptor, and a configuration likewise. */
  lemma EnumerationDelivers(k: Config, c: Control, s: SetupPacket, speed: UsbDriver.Speed, early: nat)
    requires Ready(c) && GetsDescriptor(s) && Descriptor(k.descriptors, s.value).Some? && s.length > 0
    requires 0 < early <= |DataStage(k, s, speed)|
    ensures var size := UsbDriver.MaxPacketSize(speed, k.endpoint);
      var got := HostHas(k, c, s, size, |DataStage(k, s, speed)|, early);
      && (s.value == 0x0100 && s.length >= 18 ==> |got| == 18 && ReadDevice(got) == k.descriptors.device)
      && (s.value / 0x100 == 2 && WellFormed(k.descriptors.configuration) &&
          s.length as nat >= 9 + TailLength(k.descriptors.configuration.tail) ==>
            ReadConfiguration(got) == Some(k.descriptors.configuration))
  {
    GetDescriptorDelivers(k, c, s, speed, early);
    DeviceRoundTrip(k.descriptors.device);
    if WellFormed(k.descriptors.configuration) {
      ConfigurationRoundTrip(k.descriptors.configuration);
    }
    hide Run, ReadTransfer, HostRead, Packets, Repeat, DeviceBytes, ConfigurationBytes, ReadConfiguration, WellFormed;
    hide GetsDescriptor, Ready, StringBytes, LanguageBytes, QualifierBytes;
    var whole := Descriptor(k.descriptors, s.value).value;
    assert |whole| == s.length ==> whole[..s.length] == whole;
  }

  /** The data stage is never empty of packets, so some completion does arrive. */
  lemma SomePacketIsSent(k: Config, s: SetupPacket, speed: UsbDriver.Speed)
    requires Descriptor(k.descriptors, s.value).Some? && s.length > 0
    ensures |DataStage(k, s, speed)| > 0
  {
    var part := Take(Descriptor(k.descriptors, s.value).value, s.length);
    var size := UsbDriver.MaxPacketSize(speed, k.endpoint);
    var final := NeedsFinal(|part|, size, Some(s.length as nat));
    hide Descriptor;
    if |part| >= size {
      assert Chop(part, size, final) != [];
    } else {
      assert Modular.Wrap(|part|, size) == |part|;
    }
  }

  // ---- Setting the address ----

  predicate SetsAddress(s: SetupPacket) {
    TypeOf(s).Standard? && DirectionOf(s.requestType).HostToDevice? && s.request == SET_ADDRESS
  }

  /**
    The device takes a new address at an event exactly when that event completes the status
    packet of an accepted SetAddress request, and takes the one requested (USB 2.0, section 9.4.6).
  */
  lemma AddressChangesIff(k: Config, c: Control, e1: Event, e2: Event, address: nat)
    ensures var r1 := Step(k, c, e1);
      SetAddress(address) in Step(k, r1.control, e2).calls <==>
      && Ready(c) && e1.ReceiveSetupPacket? && e1.endpoint == k.endpoint
      && SetsAddress(e1.setup) && address == e1.setup.value % 0x80 && e2 == SendComplete(k.endpoint)
  {
    hide WriteDescriptor, MicrosoftRequest, Handled;
    AddressingAfterIff(k, c, e1, address);
    var c1 := Step(k, c, e1).control;
    hide Step;
    SetAddressIff(k, c1, e2, address);
  }

  lemma AddressingAfterIff(k: Config, c: Control, e: Event, address: nat)
    ensures Step(k, c, e).control.next == Addressing(address) <==>
      && Ready(c) && e.ReceiveSetupPacket? && e.endpoint == k.endpoint
      && SetsAddress(e.setup) && address == e.setup.value % 0x80
  {
  }

  lemma SetAddressIff(k: Config, c: Control, e: Event, address: nat)
    ensures SetAddress(address) in Step(k, c, e).calls <==>
      c.next == Addressing(address) && e == SendComplete(k.endpoint)
  {
    AddressingAfterStatus(k, c, e);
    if e.SendComplete? {
      hide WriteDescriptor, MicrosoftRequest, Handled;
    } else {
      hide Step;
    }
  }

  ghost predicate NoAddress(calls: seq<Call>) {
    forall i :: 0 <= i < |calls| ==> !calls[i].SetAddress?
  }

  lemma AnswersDoNotAddress(k: Config, c: Control, s: SetupPacket)
    requires !c.next.Addressing?
    ensures var r := SetupStep(k, c, s);
      NoAddress(r.calls) && (r.control.next.Addressing? ==> r.calls == [Write(k.endpoint, [])])
  {
    assert NoAddress(WriteDescriptor(k.descriptors, k.endpoint, s).calls);
    assert NoAddress(MicrosoftRequest(k, c.(next := Idle), s).calls);
    hide WriteDescriptor, MicrosoftRequest;
  }

  lemma AddressingAfterStatus(k: Config, c: Control, e: Event)
    ensures var r := Step(k, c, e);
      && (r.control.next.Addressing? ==> r.calls == [Write(k.endpoint, [])])
      && (forall i :: 0 <= i < |r.calls| && r.calls[i].SetAddress? ==> i == 0 && c.next.Addressing? && e.SendComplete?)
  {
    if e.ReceiveSetupPacket? && Ready(c) {
      AnswersDoNotAddress(k, c, e.setup);
    }
    hide SetupStep;
  }

  /** In every run, a change of address directly follows an empty status packet. */
  lemma {:induction false} AddressFollowsStatus(k: Config, c: Control, events: seq<Event>, i: nat)
    requires i < |Run(k, c, events).calls| && Run(k, c, events).calls[i].SetAddress?
    ensures if i == 0 then c.next.Addressing? else Run(k, c, events).calls[i - 1] == Write(k.endpoint, [])
    decreases |events|
  {
    hide Step;
    var r := Step(k, c, events[0]);
    AddressingAfterStatus(k, c, events[0]);
    if i >= |r.calls| {
      assert !r.outcome.Panicked?;
      AddressFollowsStatus(k, r.control, events[1..], i - |r.calls|);
    }
  }

  /**
    A SETUP packet is dropped, with neither a driver call nor an answer, exactly when the machine
    is not ready for it.
  */
  lemma DroppedIff(k: Config, c: Control, s: SetupPacket)
    ensures var r := Step(k, c, ReceiveSetupPacket(k.endpoint, s));
      && (r.calls == [] && r.outcome == Returned(None) <==> !(c.next.Idle? || c.next.Stall?))
      && (!(c.next.Idle? || c.next.Stall?) ==> r.control == c.(next := Idle))
  {
  }

  /** Of the requests handed back, those for descriptors leave the machine unready, and no others. */
  lemma HandedBackUnreadyIff(k: Config, c: Control, s: SetupPacket)
    requires Ready(c) && Step(k, c, ReceiveSetupPacket(k.endpoint, s)).outcome == Returned(Some(s))
    ensures !Ready(Step(k, c, ReceiveSetupPacket(k.endpoint, s)).control) <==> GetsDescriptor(s)
  {
    hide WriteDescriptor;
  }

  /**
    A request that is handed back makes the device lose the SETUP packet after it, whatever that
    is, if and only if it asks for a descriptor the device does not offer.
  */
  lemma HandedBackLosesNextIff(k: Config, c: Control, s: SetupPacket, next: SetupPacket)
    requires Ready(c)
    ensures var r1 := Step(k, c, ReceiveSetupPacket(k.endpoint, s));
      var r2 := Step(k, r1.control, ReceiveSetupPacket(k.endpoint, next));
      r1.outcome == Returned(Some(s)) && r2.calls == [] && r2.outcome == Returned(None) <==>
      GetsDescriptor(s) && NotOffered(k.descriptors, s.value)
  {
    var r1 := Step(k, c, ReceiveSetupPacket(k.endpoint, s));
    assert GetsDescriptor(s) ==> r1.outcome == WriteDescriptor(k.descriptors, k.endpoint, s).outcome by {
      hide WriteDescriptor;
    }
    hide Step, Ready, WriteDescriptor, NotOffered, GetsDescriptor;
    HandedBackIff(k.descriptors, k.endpoint, s);
    DroppedIff(k, r1.control, next);
    if r1.outcome == Returned(Some(s)) {
      HandedBackUnreadyIff(k, c, s);
    }
  }

  // ---- What the requests do ----

  // Requests by the bytes of USB 2.0, tables 9-2 to 9-4.

  predicate StandardOut(s: SetupPacket, request: nat) {
    s.requestType < 0x20 && s.request as nat == request
  }

  predicate StandardIn(s: SetupPacket, request: nat) {
    0x80 <= s.requestType < 0xA0 && s.request as nat == request
  }

  predicate Standard(s: SetupPacket, request: nat) {
    StandardOut(s, request) || StandardIn(s, request)
  }

  function OnSetup(k: Config, c: Control, s: SetupPacket): Result {
    Step(k, c, ReceiveSetupPacket(k.endpoint, s))
  }

  /** SetConfiguration is acknowledged if and only if it names configuration 0 or 1, and is stalled otherwise. */
  lemma SetConfigurationIff(k: Config, c: Control, s: SetupPacket)
    requires Ready(c) && StandardOut(s, 9)
    ensures var (r, v) := (OnSetup(k, c, s), s.value % 0x100);
      && (r.calls == [Write(k.endpoint, [])] <==> v <= 1) && (r.calls == [StallOut(k.endpoint)] <==> v > 1)
      && r.control == c.(next := if v <= 1 then Complete else Stall, configuration := if v <= 1 then Some(v) else None)
      && r.outcome == Returned(None)
  {
  }

  /** A feature request is acknowledged if and only if the device has the feature, and only then changes it. */
  lemma FeaturesExact(k: Config, c: Control, s: SetupPacket)
    requires Ready(c) && (Standard(s, 1) || Standard(s, 3))
    ensures var (r, wakeup) := (OnSetup(k, c, s), s.requestType % 0x20 == 0 && s.value == 1);
      var halt := s.request == 1 && s.requestType % 0x20 == 2 && s.value == 0;
      var address := s.index % 0x100;
      && r.calls ==
         (if halt then
            [ClearHalt(address % 0x80, if address < 0x80 then HostToDevice else DeviceToHost), Write(k.endpoint, [])]
          else if wakeup then [Write(k.endpoint, [])] else [StallIn(k.endpoint)])
      && r.control == c.(next := if halt || wakeup then Complete else Stall,
                         remoteWakeup := if wakeup then s.request == 3 else c.remoteWakeup)
      && r.outcome == Returned(None)
  {
  }

  /** What is reported of the configuration and of the status: self-powered, and whether wake-up is on. */
  lemma ReportsExact(k: Config, c: Control, s: SetupPacket)
    requires Ready(c)
    ensures StandardIn(s, 8) ==>
      OnSetup(k, c, s) == Quiet(c.(next := Send), [Write(k.endpoint, [ConfigurationOf(c)])])
    ensures StandardIn(s, 0) ==>
      OnSetup(k, c, s) == Quiet(c.(next := Send), [Write(0, [if c.remoteWakeup then 3 else 1, 0])])
  {
  }

  function ConfigurationOf(c: Control): Byte {
    if c.configuration.Some? then c.configuration.value else 0
  }

  /** SetAddress is acknowledged, and takes effect later. */
  lemma SetAddressAcknowledged(k: Config, c: Control, s: SetupPacket)
    requires Ready(c) && StandardOut(s, 5)
    ensures OnSetup(k, c, s) == Quiet(c.(next := Addressing(s.value % 0x80)), [Write(k.endpoint, [])])
  {
  }

  /** The Microsoft request of a device that has the descriptors: two indices are answered, to their own recipients. */
  lemma MicrosoftExact(k: Config, c: Control, s: SetupPacket)
    requires Ready(c) && 0xC0 <= s.requestType < 0xE0 && s.request == 0xEE
    ensures var (r, ms, to) := (OnSetup(k, c, s), k.descriptors.microsoft10, s.requestType % 0x20);
      && (ms.Some? && to == 0 && s.index == 4 ==>
            Sends(Reply(r.calls, r.outcome), k.endpoint, s.length, ms.value.compatibleId))
      && (ms.Some? && to == 1 && s.index == 5 ==>
            Sends(Reply(r.calls, r.outcome), k.endpoint, s.length, ms.value.extendedProperties))
      && (r.calls == [StallIn(k.endpoint)] <==> ms.None? || !((to == 0 && s.index == 4) || (to == 1 && s.index == 5)))
      && r.control == c.(next := if r.calls == [StallIn(k.endpoint)] then Stall else Send)
      && r.outcome == Returned(None)
  {
    if k.descriptors.microsoft10.Some? {
      CutSends(k.endpoint, s.length, k.descriptors.microsoft10.value.compatibleId);
      CutSends(k.endpoint, s.length, k.descriptors.microsoft10.value.extendedProperties);
    }
    hide Sends, Take;
  }

  /** Requests the machine answers itself. */
  predicate Known(s: SetupPacket) {
    || Standard(s, 1) || Standard(s, 3) || StandardOut(s, 5) || StandardOut(s, 9)
    || StandardIn(s, 0) || StandardIn(s, 6) || StandardIn(s, 8)
    || (0xC0 <= s.requestType < 0xE0 && s.request == 0xEE)
  }

  /** Of the others, those that bring data have them received, and the rest are handed back at once. */
  lemma OthersExact(k: Config, c: Control, s: SetupPacket)
    requires Ready(c)
    ensures var r := OnSetup(k, c, s);
      && (r.control.next == ReceiveHostData(s) <==> !Known(s) && s.requestType < 0x80 && s.length > 0)
      && (r.control.next == ReceiveHostData(s) ==>
            r == Quiet(c.(next := ReceiveHostData(s), data := []), [Prime(k.endpoint)]))
      && (!Known(s) && (s.requestType >= 0x80 || s.length == 0) ==>
            r == Result(c.(next := Idle), [], Returned(Some(s))))
  {
    hide WriteDescriptor;
  }

  /**
    The machine panics exactly on the descriptor request that does, and on a packet that is too
    long but fits its buffer.
  */
  lemma PanicsIff(k: Config, c: Control, e: Event)
    ensures Step(k, c, e).outcome.Panicked? <==>
      || (&& e.ReceiveSetupPacket? && e.endpoint == k.endpoint && Ready(c) && StandardIn(e.setup, 6)
          && e.setup.value / 0x100 == 3 && e.setup.value % 0x100 == |k.descriptors.strings| + 1
          && e.setup.value % 0x100 != 0xEE)
      || (&& e.ReceivePacket? && e.endpoint == k.endpoint && c.next.ReceiveHostData?
          && 512 < |e.data| <= k.capacity - |c.data|)
  {
    if e.ReceiveSetupPacket? {
      PanicsExactly(k.descriptors, k.endpoint, e.setup);
    }
    hide WriteDescriptor, MicrosoftRequest;
  }

  /**
    A packet of host data is dropped, and another asked for, if and only if it does not fit; none
    at all ends the transfer.
  */
  lemma HostDataExact(k: Config, c: Control, s: SetupPacket, p: Descriptors.Bytes)
    requires c.next == ReceiveHostData(s) && |p| <= 512
    ensures var r := Step(k, c, ReceivePacket(k.endpoint, p));
      && (p != [] ==> (r == Quiet(c, [Prime(k.endpoint)]) <==> |c.data| + |p| > k.capacity))
      && (p == [] ==> r == Quiet(c.(next := FinishHostData(s)), [Write(k.endpoint, [])]))
      && (|c.data| + |p| <= k.capacity ==> r.control.data == c.data + p)
  {
    if p != [] {
      assert |(c.data + p)| > |c.data|;
    }
  }

  /** An acknowledged request is over with the completion of its status packet: the machine listens again. */
  lemma StatusCompletes(k: Config, c: Control, e: Event)
    requires var r := Step(k, c, e);
      r.calls != [] && r.calls[|r.calls| - 1] == Write(k.endpoint, []) && r.control.next != Send
    ensures var r := Step(k, c, e);
      && Step(k, r.control, SendComplete(k.endpoint)).control == r.control.(next := Idle)
      && (e.ReceiveSetupPacket? ==> Step(k, r.control, SendComplete(k.endpoint)).outcome == Returned(None))
      && (e.ReceivePacket? ==> Step(k, r.control, SendComplete(k.endpoint)).outcome == Returned(Some(c.next.setup)))
  {
    hide WriteDescriptor;
  }

  /** A bus reset, or an event of another endpoint, ends whatever is going on, and changes nothing else. */
  lemma ResetListens(k: Config, c: Control, e: Event)
    requires e.BusReset? || e.endpoint != k.endpoint
    ensures Step(k, c, e) == Quiet(c.(next := Idle), [])
  {
  }

  /** So does any other event that nothing waits for. */
  lemma UnexpectedListens(k: Config, c: Control, e: Event)
    requires !e.BusReset? && !e.ReceiveSetupPacket? && e.endpoint == k.endpoint
    requires e.SendComplete? ==> c.next.Idle? || c.next.Stall? || c.next.Complete? || c.next.ReceiveHostData?
    requires e.ReceivePacket? ==> !c.next.ReceiveHostData?
    ensures Step(k, c, e) == Quiet(c.(next := Idle), [])
  {
  }

  // ---- What is remembered over a run ----

  predicate Accepts(k: Config, c: Control, e: Event) {
    Ready(c) && e.ReceiveSetupPacket? && e.endpoint == k.endpoint
  }

  /**
    What a host that watches the requests expects: the configuration last set, and the wake-up
    feature last set or cleared.
  */
  datatype Expected = Expected(configuration: Byte, wakeup: bool)

  function Expect(k: Config, c: Control, e: Event, x: Expected): Expected {
    if !Accepts(k, c, e) then x
    else
      var s := e.setup;
      if StandardOut(s, 9) then x.(configuration := if s.value % 0x100 <= 1 then s.value % 0x100 else 0)
      else if Standard(s, 3) && s.requestType % 0x20 == 0 && s.value == 1 then x.(wakeup := true)
      else if Standard(s, 1) && s.requestType % 0x20 == 0 && s.value == 1 then x.(wakeup := false)
      else x
  }

  function ExpectAll(k: Config, c: Control, events: seq<Event>, x: Expected): Expected
    decreases |events|
  {
    if events == [] then x
    else
      var r := Step(k, c, events[0]);
      var x' := Expect(k, c, events[0], x);
      if r.outcome.Panicked? then x' else ExpectAll(k, r.control, events[1..], x')
  }

  lemma StepRemembers(k: Config, c: Control, e: Event, x: Expected)
    requires ConfigurationOf(c) == x.configuration && c.remoteWakeup == x.wakeup
    ensures var (c', x') := (Step(k, c, e).control, Expect(k, c, e, x));
      ConfigurationOf(c') == x'.configuration && c'.remoteWakeup == x'.wakeup
  {
    hide WriteDescriptor;
  }

  lemma {:induction false} RunRemembers(k: Config, c: Control, events: seq<Event>, x: Expected)
    requires ConfigurationOf(c) == x.configuration && c.remoteWakeup == x.wakeup
    ensures var (t, x') := (Run(k, c, events), ExpectAll(k, c, events, x));
      ConfigurationOf(t.control) == x'.configuration && t.control.remoteWakeup == x'.wakeup
    decreases |events|
  {
    hide Step, Expect;
    if events != [] {
      var (r, x') := (Step(k, c, events[0]), Expect(k, c, events[0], x));
      StepRemembers(k, c, events[0], x);
      if !r.outcome.Panicked? {
        RunRemembers(k, r.control, events[1..], x');
      }
    }
  }

  /**
    After every run from the start, whatever its events: GetConfiguration is answered with the
    configuration last set, 0 if that was refused or none was, and GetStatus with the wake-up
    feature as last set or cleared. A bus reset changes neither.
  */
  lemma ReportsLastSet(k: Config, events: seq<Event>, s: SetupPacket)
    requires Ready(Run(k, INITIAL, events).control)
    ensures var c := Run(k, INITIAL, events).control;
      var x := ExpectAll(k, INITIAL, events, Expected(0, false));
      && (StandardIn(s, 8) ==> OnSetup(k, c, s).calls == [Write(k.endpoint, [x.configuration])])
      && (StandardIn(s, 0) ==> OnSetup(k, c, s).calls == [Write(0, [if x.wakeup then 3 else 1, 0])])
  {
    RunRemembers(k, INITIAL, events, Expected(0, false));
    ReportsExact(k, Run(k, INITIAL, events).control, s);
    hide Step, Run, ExpectAll;
  }

  // ---- The endpoint itself ----

  class ControlEndpoint {
    const config: Config
    const rxBuffer: array<Byte>
    var rxPosition: nat
    var next: State
    var configuration: Option<Byte>
    var remoteWakeup: bool

    ghost predicate Valid()
      reads this, rxBuffer
    {
      rxPosition <= rxBuffer.Length == config.capacity
    }

    /** The machine this object stands for. */
    ghost function Machine(): Control
      reads this, rxBuffer
      requires Valid()
    {
      Control(next, configuration, remoteWakeup, rxBuffer[..rxPosition])
    }

    constructor (endpoint: Byte, descriptors: DescriptorSet, capacity: nat)
      ensures Valid() && Machine() == INITIAL && fresh(rxBuffer)
      ensures config == Config(endpoint, SetTotalLengths(descriptors), capacity)
    {
      config := Config(endpoint, SetTotalLengths(descriptors), capacity);
      rxBuffer := new Byte[capacity](_ => 0);
      rxPosition, next, configuration, remoteWakeup := 0, Idle, None, false;
    }

    /** The last data received from the host. */
    method Data() returns (data: Descriptors.Bytes)
      requires Valid()
      ensures data == Machine().data
    {
      data := rxBuffer[..rxPosition];
    }

    method Feature(enable: bool, s: SetupPacket) returns (calls: seq<Call>)
      requires Valid()
      modifies this`next, this`remoteWakeup
      ensures Valid() && Quiet(Machine(), calls) ==
        if enable then SetFeatureRequest(config, old(Machine()), s) else ClearFeatureRequest(config, old(Machine()), s)
    {
      if !enable && RecipientOf(s).ToEndpoint? && s.value == ENDPOINT_HALT {
        var address := s.index % 0x100;
        next := Complete;
        calls := [ClearHalt(address % 0x80, DirectionOf(address)), Write(config.endpoint, [])];
      } else if RecipientOf(s).ToDevice? && s.value == REMOTE_WAKEUP {
        remoteWakeup := enable;
        next := Complete;
        calls := [Write(config.endpoint, [])];
      } else {
        next := Stall;
        calls := [StallIn(config.endpoint)];
      }
    }

    method MicrosoftOs(s: SetupPacket) returns (calls: seq<Call>)
      requires Valid()
      modifies this`next
      ensures Valid() && Quiet(Machine(), calls) == MicrosoftRequest(config, old(Machine()), s)
    {
      var microsoft := config.descriptors.microsoft10;
      if microsoft.Some? && RecipientOf(s).ToDevice? && s.index == 4 {
        next := Send;
        calls := [WriteRequested(config.endpoint, s.length, Take(microsoft.value.compatibleId, s.length))];
      } else if microsoft.Some? && RecipientOf(s).ToInterface? && s.index == 5 {
        next := Send;
        calls := [WriteRequested(config.endpoint, s.length, Take(microsoft.value.extendedProperties, s.length))];
      } else {
        next := Stall;
        calls := [StallIn(config.endpoint)];
      }
    }

    method SetConfiguration(s: SetupPacket) returns (calls: seq<Call>)
      requires Valid()
      modifies this`next, this`configuration
      ensures Valid() && Quiet(Machine(), calls) == ConfigureRequest(config, old(Machine()), s)
    {
      var wanted: Byte := s.value % 0x100;
      if wanted > 1 {
        configuration, next := None, Stall;
        calls := [StallOut(config.endpoint)];
      } else {
        configuration, next := Some(wanted), Complete;
        calls := [Write(config.endpoint, [])];
      }
    }

    method Request(s: SetupPacket) returns (calls: seq<Call>, outcome: Outcome)
      requires Valid() && Handled(s) && next.Idle?
      modifies this`next, this`configuration, this`remoteWakeup
      ensures Valid() && Result(Machine(), calls, outcome) == Answer(config, old(Machine()), s)
    {
      hide ConfigureRequest, SetFeatureRequest, ClearFeatureRequest, WriteDescriptor;
      outcome := Returned(None);
      if TypeOf(s).Vendor? {
        calls := MicrosoftOs(s);
      } else if s.request == CLEAR_FEATURE || s.request == SET_FEATURE {
        calls := Feature(s.request == SET_FEATURE, s);
      } else if DirectionOf(s.requestType).DeviceToHost? {
        next := Send;
        if s.request == GET_DESCRIPTOR {
          var r := WriteDescriptor(config.descriptors, config.endpoint, s);
          calls, outcome := r.calls, r.outcome;
        } else if s.request == GET_CONFIGURATION {
          calls := [Write(config.endpoint, [if configuration.Some? then configuration.value else 0])];
        } else {
          calls := [Write(0, [1 + (if remoteWakeup then 2 else 0), 0])];
        }
      } else if s.request == SET_ADDRESS {
        next := Addressing(s.value % 0x80);
        calls := [Write(config.endpoint, [])];
      } else {
        calls := SetConfiguration(s);
      }
    }

    method OnSetup(s: SetupPacket) returns (calls: seq<Call>, outcome: Outcome)
      requires Valid() && Ready(Machine())
      modifies this
      ensures Valid() && Result(Machine(), calls, outcome) == SetupStep(config, old(Machine()), s)
    {
      hide Answer;
      next := Idle;
      if Handled(s) {
        calls, outcome := Request(s);
      } else if HostDataRequest(s) {
        rxPosition := 0;
        next := ReceiveHostData(s);
        calls, outcome := [Prime(config.endpoint)], Returned(None);
      } else {
        calls, outcome := [], Returned(Some(s));
      }
    }

    /** Copies a packet of host data behind the data already there. */
    method OnHostData(s: SetupPacket, packet: Descriptors.Bytes) returns (calls: seq<Call>, outcome: Outcome)
      requires Valid() && next == ReceiveHostData(s)
      modifies this, rxBuffer
      ensures Valid() && Result(Machine(), calls, outcome) == HostDataStep(config, old(Machine()), s, packet)
    {
      outcome := Returned(None);
      if packet == [] {
        next := FinishHostData(s);
        calls := [Write(config.endpoint, [])];
      } else if rxPosition + |packet| > config.capacity {
        calls := [Prime(config.endpoint)];
      } else if |packet| > UsbDriver.EP_MAX_PACKET_SIZE {
        calls, outcome := [], Panicked;
      } else {
        var offset := rxPosition;
        forall i | 0 <= i < |packet| {
          rxBuffer[offset + i] := packet[i];
        }
        rxPosition := rxPosition + |packet|;
        assert rxBuffer[..rxPosition] == old(rxBuffer[..rxPosition]) + packet;
        if rxPosition >= s.length {
          next := FinishHostData(s);
          calls := [Write(config.endpoint, [])];
        } else {
          calls := [Prime(config.endpoint)];
        }
      }
    }

    /** Handles one event. A packet it cannot answer, or that has brought data, is handed back. */
    method DispatchEvent(e: Event) returns (calls: seq<Call>, outcome: Outcome)
      requires Valid()
      modifies this, rxBuffer
      ensures Valid() && Result(Machine(), calls, outcome) == Step(config, old(Machine()), e)
    {
      hide SetupStep, HostDataStep;
      calls, outcome := [], Returned(None);
      if !e.BusReset? && e.endpoint == config.endpoint {
        if e.ReceiveSetupPacket? && (next.Idle? || next.Stall?) {
          calls, outcome := OnSetup(e.setup);
          return;
        }
        if e.ReceivePacket? && next.ReceiveHostData? {
          calls, outcome := OnHostData(next.setup, e.data);
          return;
        }
        if e.SendComplete? {
          match next {
            case Send =>
              next := WaitForZlp;
              calls := [Prime(config.endpoint)];
              return;
            case WaitForZlp =>
              return;
            case Addressing(address) =>
              calls := [SetAddress(address)];
            case FinishHostData(s) =>
              outcome := Returned(Some(s));
            case _ =>
          }
        }
      }
      next := Idle;
    }
  }
}
