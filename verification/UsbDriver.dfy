/**
  The HAL's packet writer, running against the interrupt that reports a sent packet.

  Hardware model: bytes written to the data register collect in the IN FIFO; writing the
  endpoint register sends the FIFO's contents as one packet, which stays outstanding until the
  host has acknowledged it. Each acknowledgement raises an interrupt, at any moment the writer
  can observe; its handler cannot tell which packet it is for.
*/
module UsbDriver {
  import opened Options
  import opened Modular
  import opened Words
  import opened Packetisation

  const DEFAULT_TIMEOUT: nat := 1_000_000
  const EP_MAX_ENDPOINTS: nat := 16
  const EP_MAX_PACKET_SIZE: nat := 512

  datatype Speed = High | Full | Low | Super | SuperPlus | Unknown

  function MaxPacketSize(speed: Speed, endpoint: nat): (size: nat)
    ensures 8 <= size <= EP_MAX_PACKET_SIZE
  {
    if endpoint == 0 then 64
    else match speed
      case High => EP_MAX_PACKET_SIZE
      case Full => 64
      case Low => 8
      case _ => 64
  }

  /** The largest packets of the control endpoint and of the others (USB 2.0, sections 5.5.3 and 5.8.3). */
  lemma MaxPacketSizes(speed: Speed, endpoint: nat)
    ensures endpoint == 0 || speed.Full? ==> MaxPacketSize(speed, endpoint) == 64
    ensures endpoint != 0 && speed.High? ==> MaxPacketSize(speed, endpoint) == 512
    ensures endpoint != 0 && speed.Low? ==> MaxPacketSize(speed, endpoint) == 8
    ensures !speed.High? && !speed.Low? ==> MaxPacketSize(speed, endpoint) == 64
  {
  }

  /** A packet as the host sees it. */
  datatype Sent = Sent(endpoint: nat, data: Bytes)

  function Tag(endpoint: nat, packets: seq<Bytes>): (s: seq<Sent>)
    ensures |s| == |packets|
  {
    seq(|packets|, i requires 0 <= i < |packets| => Sent(endpoint, packets[i]))
  }

  lemma TagAppend(before: seq<Sent>, endpoint: nat, packets: seq<Bytes>, p: Bytes)
    ensures before + Tag(endpoint, packets + [p]) == before + Tag(endpoint, packets) + [Sent(endpoint, p)]
  {
  }

  lemma PacketsAre(payload: Bytes, size: nat, requested: Option<nat>, start: nat, done: seq<Bytes>)
    requires size > 0 && Wrap(start, size) == 0 && start <= |payload| < start + size
    requires done == Chop(payload[..start], size, false)
    ensures Wrap(|payload|, size) == |payload| - start
    ensures Packets(payload, size, requested) ==
      if NeedsFinal(|payload|, size, requested) then done + [payload[start..]] else done
  {
    LastPacket(payload, start, size, NeedsFinal(|payload|, size, requested));
  }

  lemma NothingToChop(payload: Bytes, size: nat)
    requires size > 0
    ensures Chop(payload[..0], size, false) == []
    ensures forall endpoint: nat :: Tag(endpoint, []) == []
  {
  }

  /**
    What a write reports and what it sent: all packets of the payload, or, if a wait expired,
    a whole number of full ones.
  */
  ghost predicate Reported(before: seq<Sent>, after: seq<Sent>, endpoint: nat, payload: Bytes, size: nat,
                           requested: Option<nat>, written: nat, timedOut: bool)
    requires size > 0
  {
    if timedOut then
      && written <= |payload| && Wrap(written, size) == 0
      && after == before + Tag(endpoint, Chop(payload[..written], size, false))
    else written == |payload| && after == before + Tag(endpoint, Packets(payload, size, requested))
  }

  /** The most polls a write may spend waiting: linear in its packets. */
  function PollBound(payload: Bytes, size: nat): nat
    requires size > 0
  {
    (DEFAULT_TIMEOUT + 2) + |Chop(payload, size, false)| * (DEFAULT_TIMEOUT + 1)
  }

  lemma SentIsPrefix(before: seq<Sent>, after: seq<Sent>, endpoint: nat, payload: Bytes, size: nat,
                     requested: Option<nat>, written: nat, timedOut: bool)
    requires size > 0 && Reported(before, after, endpoint, payload, size, requested, written, timedOut)
    ensures before <= after <= before + Tag(endpoint, Packets(payload, size, requested))
  {
    if timedOut {
      hide Wrap;
      ChopPrefix(payload, written, size, NeedsFinal(|payload|, size, requested));
      hide Chop, NeedsFinal;
      var (some, all) := (Chop(payload[..written], size, false), Packets(payload, size, requested));
      assert all == some + all[|some|..];
      assert Tag(endpoint, all) == Tag(endpoint, some) + Tag(endpoint, all[|some|..]);
    }
  }

  // ---- The line to the host ----

  /** Packets not yet acknowledged, whether the last one is still in the FIFO, the endpoint register, and the flags. */
  datatype Line = Line(outstanding: nat, unread: bool, epno: nat, flags: seq<bool>)

  predicate ValidLine(l: Line) {
    |l.flags| == EP_MAX_ENDPOINTS && l.epno < EP_MAX_ENDPOINTS && (l.unread ==> l.outstanding > 0)
  }

  function HostReads(l: Line): Line {
    l.(unread := false)
  }

  /** The host acknowledges a packet, and the handler clears the flag of the endpoint the register names by then. */
  function Acknowledged(l: Line): (l': Line)
    requires ValidLine(l)
    ensures ValidLine(l')
  {
    if l.outstanding == 0 then l
    else Line(l.outstanding - 1, l.unread && l.outstanding > 1, l.epno, l.flags[l.epno := false])
  }

  function PacketWritten(l: Line, endpoint: nat): (l': Line)
    requires ValidLine(l) && endpoint < EP_MAX_ENDPOINTS
    ensures ValidLine(l')
  {
    Line(l.outstanding + 1, true, endpoint, l.flags[endpoint := true])
  }

  function Acknowledgements(l: Line, n: nat): (l': Line)
    requires ValidLine(l)
    ensures ValidLine(l')
    decreases n
  {
    if n == 0 then l else Acknowledgements(Acknowledged(l), n - 1)
  }

  lemma {:induction false} AcknowledgementsCount(l: Line, n: nat)
    requires ValidLine(l)
    ensures var l' := Acknowledgements(l, n);
      && l'.outstanding == (if n < l.outstanding then l.outstanding - n else 0) && l'.epno == l.epno
      && l'.flags == if n > 0 && l.outstanding > 0 then l.flags[l.epno := false] else l.flags
    decreases n
  {
    if n > 0 {
      AcknowledgementsCount(Acknowledged(l), n - 1);
    }
  }

  /**
    A packet is sent and its flag awaited: the first acknowledgement ends the wait, whosever it
    is. Then nothing is outstanding if and only if nothing was before the packet.
  */
  lemma WaitEndsCleanIff(l: Line, endpoint: nat, n: nat)
    requires ValidLine(l) && endpoint < EP_MAX_ENDPOINTS
    ensures var l' := Acknowledgements(PacketWritten(l, endpoint), n);
      && (!l'.flags[endpoint] <==> n > 0)
      && (n == 1 ==> l'.outstanding == l.outstanding && (l'.outstanding == 0 <==> l.outstanding == 0))
  {
    AcknowledgementsCount(PacketWritten(l, endpoint), n);
  }

  class Usb {
    var deviceSpeed: Speed
    const txAckActive: array<bool>
    // hardware
    var fifo: Bytes
    var unread: bool
    var outstanding: nat
    var epno: nat
    var address: nat
    var outFifo: Bytes
    var outEpno: nat
    var outPrimed: set<nat>
    var outEnabled: bool
    // history: the packets sent, the polls spent waiting, and whether data ever ran into an outstanding packet
    ghost var sent: seq<Sent>
    ghost var polls: nat
    ghost var collided: bool

    ghost function Now(): Line
      reads this, txAckActive
    {
      Line(outstanding, unread, epno, txAckActive[..])
    }

    /** The OUT side: the packet received, the endpoint register, the endpoints primed so far, whether it is enabled. */
    ghost function Out(): (Bytes, nat, set<nat>, bool)
      reads this
    {
      (outFifo, outEpno, outPrimed, outEnabled)
    }

    ghost predicate Valid()
      reads this, txAckActive
    {
      ValidLine(Now())
    }

    constructor (speed: Speed)
      ensures Valid() && fifo == [] && outstanding == 0 && sent == [] && polls == 0 && !collided
      ensures deviceSpeed == speed && address == 0 && Out() == ([], 0, {}, false)
      ensures fresh(txAckActive)
    {
      deviceSpeed, fifo, unread, outstanding, epno, sent, polls, collided := speed, [], false, 0, 0, [], 0, false;
      address, outFifo, outEpno, outPrimed, outEnabled := 0, [], 0, {}, false;
      txAckActive := new bool[EP_MAX_ENDPOINTS](_ => false);
    }

    /** What may happen between two steps of the writer. */
    method Environment()
      requires Valid()
      modifies this`unread, this`outstanding, txAckActive
      ensures Valid()
      ensures Now() == old(Now()) || Now() == HostReads(old(Now())) || Now() == Acknowledged(old(Now()))
    {
      if * {
        unread := false;
      } else if * {
        if outstanding > 0 {
          unread := unread && outstanding > 1;
          outstanding := outstanding - 1;
          txAckActive[epno] := false;
        }
      }
    }

    method WriteData(b: Byte)
      requires Valid()
      modifies this`fifo, this`collided
      ensures Valid() && fifo == old(fifo) + [b] && collided == (old(collided) || outstanding > 0)
    {
      fifo := fifo + [b];
      collided := collided || outstanding > 0;
    }

    method WriteEpno(endpoint: nat)
      requires Valid() && endpoint < EP_MAX_ENDPOINTS && txAckActive[endpoint]
      modifies this`fifo, this`collided, this`sent, this`epno, this`outstanding, this`unread
      ensures Valid() && fifo == [] && Now() == PacketWritten(old(Now()), endpoint)
      ensures sent == old(sent) + [Sent(endpoint, old(fifo))] && collided == (old(collided) || old(outstanding) > 0)
    {
      collided := collided || outstanding > 0;
      sent := sent + [Sent(endpoint, fifo)];
      fifo, epno, outstanding, unread := [], endpoint, outstanding + 1, true;
    }

    /** No more than `before` packets are outstanding, or one more, with the endpoint's flag still set. */
    ghost predicate Awaits(endpoint: nat, before: nat)
      reads this, txAckActive
      requires Valid() && endpoint < EP_MAX_ENDPOINTS
    {
      outstanding <= before || (outstanding == before + 1 && txAckActive[endpoint])
    }

    /** Reads the flag, or the FIFO's `have` bit, after whatever happened meanwhile. */
    method PollFlag(endpoint: nat) returns (active: bool)
      requires Valid() && endpoint < EP_MAX_ENDPOINTS
      modifies this`unread, this`outstanding, this`polls, txAckActive
      ensures Valid() && polls == old(polls) + 1 && active == txAckActive[endpoint] && outstanding <= old(outstanding)
      ensures old(txAckActive[endpoint]) && !active ==> outstanding < old(outstanding)
      ensures old(!txAckActive[endpoint]) ==> !active
    {
      Environment();
      polls := polls + 1;
      active := txAckActive[endpoint];
    }

    method PollHave() returns (have: bool)
      requires Valid()
      modifies this`unread, this`outstanding, this`polls, txAckActive
      ensures Valid() && polls == old(polls) + 1 && have == (fifo != [] || unread) && outstanding <= old(outstanding)
      ensures old(outstanding) == 0 ==> txAckActive[..] == old(txAckActive[..])
    {
      Environment();
      polls := polls + 1;
      have := fifo != [] || unread;
    }

    /**
      Waits for the flag to be cleared; false if that took too long, and then clears it. A wait
      that succeeds has seen an acknowledgement: of the packet just sent, if it was the only one.
    */
    method AwaitSent(endpoint: nat) returns (ok: bool)
      requires Valid() && endpoint < EP_MAX_ENDPOINTS
      modifies this`unread, this`outstanding, this`polls, txAckActive
      ensures Valid() && old(polls) <= polls <= old(polls) + DEFAULT_TIMEOUT + 1 && outstanding <= old(outstanding)
      ensures ok && old(txAckActive[endpoint]) ==> outstanding < old(outstanding)
      ensures !ok ==> !txAckActive[endpoint] && old(txAckActive[endpoint])
      ensures !ok ==> polls == old(polls) + DEFAULT_TIMEOUT + 1
    {
      var timeout := 0;
      ok := true;
      var active := PollFlag(endpoint);
      while active
        invariant Valid() && 0 <= timeout <= DEFAULT_TIMEOUT && polls == old(polls) + timeout + 1
        invariant active == txAckActive[endpoint] && outstanding <= old(outstanding)
        invariant active ==> old(txAckActive[endpoint])
        invariant old(txAckActive[endpoint]) && !active ==> outstanding < old(outstanding)
        decreases DEFAULT_TIMEOUT - timeout
      {
        timeout := timeout + 1;
        if timeout > DEFAULT_TIMEOUT {
          txAckActive[endpoint] := false;
          return false;
        }
        active := PollFlag(endpoint);
      }
    }

    /** Sends the FIFO's contents as one packet and waits; success leaves no more outstanding than before. */
    method SendPacket(endpoint: nat) returns (ok: bool)
      requires Valid() && endpoint < EP_MAX_ENDPOINTS
      modifies this`fifo, this`collided, this`sent, this`epno, this`outstanding, this`unread, this`polls, txAckActive
      ensures Valid() && fifo == [] && old(polls) <= polls <= old(polls) + DEFAULT_TIMEOUT + 1
      ensures sent == old(sent) + [Sent(endpoint, old(fifo))]
      ensures collided == (old(collided) || old(outstanding) > 0)
      ensures outstanding <= old(outstanding) + (if ok then 0 else 1)
      ensures !ok ==> !txAckActive[endpoint] && polls == old(polls) + DEFAULT_TIMEOUT + 1
    {
      SendLast(endpoint);
      ok := AwaitSent(endpoint);
    }

    /** Sends the FIFO's contents as one packet, without waiting for it. */
    method SendLast(endpoint: nat)
      requires Valid() && endpoint < EP_MAX_ENDPOINTS
      modifies this`fifo, this`collided, this`sent, this`epno, this`outstanding, this`unread, txAckActive
      ensures Valid() && fifo == [] && outstanding == old(outstanding) + 1 && txAckActive[endpoint]
      ensures sent == old(sent) + [Sent(endpoint, old(fifo))]
      ensures collided == (old(collided) || old(outstanding) > 0)
    {
      txAckActive[endpoint] := true;
      WriteEpno(endpoint);
    }

    /** Waits for leftovers to leave the FIFO; false if they did not, and then discards them. */
    method AwaitEmpty(endpoint: nat) returns (ok: bool)
      requires Valid() && endpoint < EP_MAX_ENDPOINTS
      modifies this`fifo, this`unread, this`outstanding, this`polls, txAckActive
      ensures Valid() && old(polls) <= polls <= old(polls) + DEFAULT_TIMEOUT + 2 && outstanding <= old(outstanding)
      ensures ok ==> fifo == [] == old(fifo)
      ensures !ok ==> fifo == [] && !unread && !txAckActive[endpoint] && polls == old(polls) + DEFAULT_TIMEOUT + 2
      ensures old(outstanding) == 0 ==> (ok <==> old(fifo) == [])
      ensures ok && old(outstanding) == 0 ==> txAckActive[..] == old(txAckActive[..])
    {
      var timeout := 0;
      ok := true;
      var have := PollHave();
      while have
        invariant Valid() && 0 <= timeout <= DEFAULT_TIMEOUT + 1 && polls == old(polls) + timeout + 1
        invariant fifo == old(fifo) && have == (fifo != [] || unread) && outstanding <= old(outstanding)
        invariant old(outstanding) == 0 ==> txAckActive[..] == old(txAckActive[..])
        decreases DEFAULT_TIMEOUT + 1 - timeout
      {
        if timeout > DEFAULT_TIMEOUT {
          fifo, unread := [], false;
          txAckActive[endpoint] := false;
          return false;
        }
        timeout := timeout + 1;
        have := PollHave();
      }
    }

    /** Pushes the payload, sending every packet that fills up; `start` is where the unsent rest begins. */
    method PushAll(endpoint: nat, payload: Bytes, packetSize: nat)
      returns (written: nat, expired: bool, ghost start: nat, ghost done: seq<Bytes>)
      requires Valid() && endpoint < EP_MAX_ENDPOINTS && packetSize > 0 && fifo == []
      modifies this`fifo, this`collided, this`sent, this`epno, this`outstanding, this`unread, this`polls, txAckActive
      ensures Valid() && written <= |payload| && start <= written < start + packetSize
      ensures Wrap(start, packetSize) == 0 && fifo == payload[start..written]
      ensures done == Chop(payload[..start], packetSize, false) && sent == old(sent) + Tag(endpoint, done)
      ensures if expired then written == start > 0 && !txAckActive[endpoint] else written == |payload|
      ensures collided == (old(collided) || (old(outstanding) > 0 && payload != []))
      ensures outstanding <= old(outstanding) + (if expired then 1 else 0)
      ensures old(polls) <= polls <= old(polls) + |Chop(payload, packetSize, false)| * (DEFAULT_TIMEOUT + 1)
      ensures expired ==> polls >= old(polls) + DEFAULT_TIMEOUT + 1
    {
      assert Wrap(0, packetSize) == 0 && Wrap(packetSize, packetSize) == 0;
      hide Wrap, Chop, Tag;
      NothingToChop(payload, packetSize);
      written, expired, start, done := 0, false, 0, [];
      for i := 0 to |payload|
        invariant Valid() && written == i
        invariant start <= i < start + packetSize && Wrap(start, packetSize) == 0
        invariant fifo == payload[start..i]
        invariant done == Chop(payload[..start], packetSize, false) && |done| <= |Chop(payload, packetSize, false)|
        invariant sent == old(sent) + Tag(endpoint, done)
        invariant collided == (old(collided) || (old(outstanding) > 0 && i > 0))
        invariant outstanding <= old(outstanding) && (i == 0 ==> outstanding == old(outstanding))
        invariant old(polls) <= polls <= old(polls) + |done| * (DEFAULT_TIMEOUT + 1)
      {
        WriteData(payload[i]);
        written := written + 1;
        WrapAdd(start, written - start, packetSize);
        if Wrap(written, packetSize) == 0 {
          assert fifo == payload[start..written];
          NextPacket(payload, start, written, packetSize);
          TagAppend(old(sent), endpoint, done, payload[start..written]);
          start, done := written, done + [payload[start..written]];
          var ok := SendPacket(endpoint);
          if !ok {
            expired := true;
            return;
          }
        }
      }
    }

    /**
      Writes a payload, split into packets, and reports the bytes written. `timedOut` says
      whether a wait expired; the caller cannot always tell, since a wait that expires on the
      last full packet still reports the whole payload.
    */
    method WriteWithPacketSize(endpoint: nat, requested: Option<nat>, payload: Bytes, packetSize: nat)
      returns (written: nat, ghost timedOut: bool)
      requires Valid() && endpoint < EP_MAX_ENDPOINTS && packetSize > 0
      modifies this, txAckActive
      ensures Valid() && deviceSpeed == old(deviceSpeed) && address == old(address) && Out() == old(Out())
      ensures Reported(old(sent), sent, endpoint, payload, packetSize, requested, written, timedOut)
      ensures if timedOut then !txAckActive[endpoint] else Awaits(endpoint, old(outstanding))
      ensures fifo == [] && outstanding <= old(outstanding) + 1
      ensures timedOut ==> polls >= old(polls) + DEFAULT_TIMEOUT + 1
      ensures old(outstanding) == 0 ==> collided == old(collided)
      ensures old(fifo != [] && outstanding == 0) ==> timedOut && written == 0
      ensures old(fifo == [] && outstanding == 0) && |payload| < packetSize ==> !timedOut
      ensures old(polls) <= polls <= old(polls) + PollBound(payload, packetSize)
    {
      assert Wrap(0, packetSize) == 0;
      hide Wrap, Chop, Tag, Packets;
      NothingToChop(payload, packetSize);
      txAckActive[endpoint] := true;
      var empty := AwaitEmpty(endpoint);
      if !empty {
        return 0, true;
      }
      ghost var start, done;
      var expired;
      written, expired, start, done := PushAll(endpoint, payload, packetSize);
      if expired {
        return written, true;
      }
      timedOut := false;
      PacketsAre(payload, packetSize, requested, start, done);
      var isPartial := Wrap(written, packetSize) != 0;
      var isRequested := requested == Some(written);
      if !(!isPartial && isRequested && written != 0) {
        assert fifo == payload[start..];
        TagAppend(old(sent), endpoint, done, fifo);
        SendLast(endpoint);
      }
    }

    /** Writes a payload of unannounced length: one that fills its last packet is followed by an empty one. */
    method Write(endpoint: nat, payload: Bytes) returns (written: nat, ghost timedOut: bool)
      requires Valid() && endpoint < EP_MAX_ENDPOINTS
      modifies this, txAckActive
      ensures Valid() && deviceSpeed == old(deviceSpeed) && address == old(address) && Out() == old(Out())
      ensures var size := MaxPacketSize(deviceSpeed, endpoint);
        && Reported(old(sent), sent, endpoint, payload, size, None, written, timedOut)
        && old(polls) <= polls <= old(polls) + PollBound(payload, size)
      ensures if timedOut then !txAckActive[endpoint] else Awaits(endpoint, old(outstanding))
      ensures fifo == [] && outstanding <= old(outstanding) + 1
      ensures timedOut ==> polls >= old(polls) + DEFAULT_TIMEOUT + 1
      ensures old(outstanding) == 0 ==> collided == old(collided)
      ensures old(fifo != [] && outstanding == 0) ==> timedOut && written == 0
      ensures old(fifo == [] && outstanding == 0) && |payload| < MaxPacketSize(deviceSpeed, endpoint) ==> !timedOut
    {
      hide Reported, PollBound;
      written, timedOut := WriteWithPacketSize(endpoint, None, payload, MaxPacketSize(deviceSpeed, endpoint));
    }

    /** Writes the answer to a request for `length` bytes: the host rebuilds it with nothing left over. */
    method WriteRequested(endpoint: nat, length: nat, payload: Bytes) returns (written: nat, ghost timedOut: bool)
      requires Valid() && endpoint < EP_MAX_ENDPOINTS
      modifies this, txAckActive
      ensures Valid() && deviceSpeed == old(deviceSpeed) && address == old(address) && Out() == old(Out())
      ensures var size := MaxPacketSize(deviceSpeed, endpoint);
        && Reported(old(sent), sent, endpoint, payload, size, Some(length), written, timedOut)
        && old(polls) <= polls <= old(polls) + PollBound(payload, size)
        && (|payload| <= length && 0 < length ==> Rebuilt(Packets(payload, size, Some(length)), size, length, payload))
      ensures if timedOut then !txAckActive[endpoint] else Awaits(endpoint, old(outstanding))
      ensures fifo == [] && outstanding <= old(outstanding) + 1
      ensures timedOut ==> polls >= old(polls) + DEFAULT_TIMEOUT + 1
      ensures old(outstanding) == 0 ==> collided == old(collided)
      ensures old(fifo != [] && outstanding == 0) ==> timedOut && written == 0
      ensures old(fifo == [] && outstanding == 0) && |payload| < MaxPacketSize(deviceSpeed, endpoint) ==> !timedOut
    {
      hide Reported, PollBound, Rebuilt, Packets;
      var size := MaxPacketSize(deviceSpeed, endpoint);
      written, timedOut := WriteWithPacketSize(endpoint, Some(length), payload, size);
      if |payload| <= length && 0 < length {
        HostRebuildsIff(payload, size, Some(length), length);
      }
    }

    /** Reads a packet from the OUT FIFO into the buffer; what does not fit is counted but dropped. */
    method Read(buffer: array<Byte>) returns (bytesRead: nat)
      modifies this`outFifo, buffer
      ensures bytesRead == |old(outFifo)| && outFifo == []
      ensures forall i :: 0 <= i < buffer.Length ==>
        buffer[i] == if i < |old(outFifo)| then old(outFifo)[i] else old(buffer[i])
    {
      var count, didOverflow := 0, true;
      while count < buffer.Length
        invariant didOverflow && 0 <= count <= buffer.Length && count <= |old(outFifo)|
        invariant outFifo == old(outFifo)[count..]
        invariant forall i :: 0 <= i < buffer.Length ==>
          buffer[i] == if i < count then old(outFifo)[i] else old(buffer[i])
      {
        if outFifo == [] {
          didOverflow := false;
          break;
        }
        buffer[count] := outFifo[0];
        outFifo := outFifo[1..];
        count := count + 1;
      }
      assert !didOverflow ==> count == |old(outFifo)|;
      var overflow := 0;
      while didOverflow && outFifo != []
        invariant count + overflow + |outFifo| == |old(outFifo)| && (!didOverflow ==> outFifo == [])
        invariant forall i :: 0 <= i < buffer.Length ==>
          buffer[i] == if i < count then old(outFifo)[i] else old(buffer[i])
        decreases |outFifo|
      {
        outFifo := outFifo[1..];
        overflow := overflow + 1;
      }
      bytesRead := count + overflow;
    }

    /** Answers to a new address from now on. */
    method SetAddress(newAddress: nat)
      modifies this`address
      ensures address == newAddress % 0x80
    {
      address := newAddress % 0x80;
    }

    /** Prepares an OUT endpoint for one packet; an unread one is discarded first. */
    method EpOutPrimeReceive(endpoint: nat)
      modifies this`outFifo, this`outEpno, this`outPrimed, this`outEnabled
      ensures outFifo == [] && outEpno == endpoint && outEnabled && outPrimed == old(outPrimed) + {endpoint}
    {
      if outFifo != [] {
        outFifo := [];
      }
      outEpno := endpoint;
      outPrimed := outPrimed + {endpoint};
      outEnabled := true;
    }
  }
}
