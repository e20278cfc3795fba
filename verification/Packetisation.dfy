/**
  How a payload becomes USB packets, and how a host puts them together again: a transfer ends
  at the requested length or at the first short packet (USB 2.0, section 5.5.3).
*/
module Packetisation {
  import opened Options
  import opened Modular
  import opened Words

  type Bytes = seq<Byte>

  /** Full packets of `size` bytes, then the remainder as one more packet if `final`. */
  function Chop(payload: Bytes, size: nat, final: bool): (packets: seq<Bytes>)
    requires size > 0
    decreases |payload|
  {
    if |payload| < size then (if final then [payload] else [])
    else [payload[..size]] + Chop(payload[size..], size, final)
  }

  /** Whether a last, short or empty, packet has to be sent after the full ones. */
  predicate NeedsFinal(length: nat, size: nat, requested: Option<nat>)
    requires size > 0
  {
    !(Wrap(length, size) == 0 && requested == Some(length) && length != 0)
  }

  function Packets(payload: Bytes, size: nat, requested: Option<nat>): seq<Bytes>
    requires size > 0
  {
    Chop(payload, size, NeedsFinal(|payload|, size, requested))
  }

  /** What a host asking for `want` bytes makes of a sequence of packets. */
  datatype HostResult = HostResult(data: Bytes, unread: seq<Bytes>, done: bool)

  function HostRead(packets: seq<Bytes>, size: nat, want: nat): HostResult {
    if packets == [] then HostResult([], [], false)
    else
      var p := packets[0];
      if |p| < size || |p| >= want then HostResult(p, packets[1..], true)
      else
        var r := HostRead(packets[1..], size, want - |p|);
        HostResult(p + r.data, r.unread, r.done)
  }

  /** A transfer is rebuilt when the host ends with the payload and no packet is left to confuse the next one. */
  predicate Rebuilt(packets: seq<Bytes>, size: nat, want: nat, payload: Bytes) {
    HostRead(packets, size, want) == HostResult(payload, [], true)
  }

  /** The payload ends on a packet boundary just where the host stops reading. */
  predicate EndsAtWant(length: nat, size: nat, want: nat)
    requires size > 0
  {
    0 < length == want && Wrap(length, size) == 0
  }

  /**
    What the host gets, exactly: always the payload; a final packet is left over if the host
    had stopped without it, and the host waits for ever if it is missing and needed.
  */
  lemma {:induction false} HostReadsChop(payload: Bytes, size: nat, want: nat, final: bool)
    requires 0 < size && |payload| <= want && 0 < want && (final || Wrap(|payload|, size) == 0)
    ensures var end := EndsAtWant(|payload|, size, want);
      HostRead(Chop(payload, size, final), size, want) ==
      HostResult(payload, if end && final then [[]] else [], end || final)
    decreases |payload|
  {
    if |payload| >= size {
      var packets := Chop(payload, size, final);
      var rest := payload[size..];
      assert packets[1..] == Chop(rest, size, final) && packets[0] == payload[..size];
      assert payload == payload[..size] + rest;
      if size < want {
        HostReadsChop(rest, size, want - size, final);
      } else {
        assert rest == [] && payload[..size] == payload;
      }
    }
  }

  /**
    For every payload within what the host wants: the packets rebuild it with nothing left
    over if and only if, when it fills its last packet, the writer was told it is the whole
    request exactly when it is.
  */
  lemma HostRebuildsIff(payload: Bytes, size: nat, requested: Option<nat>, want: nat)
    requires 0 < size && |payload| <= want && 0 < want
    ensures Rebuilt(Packets(payload, size, requested), size, want, payload) <==>
      (|payload| > 0 && Wrap(|payload|, size) == 0 ==> (requested == Some(|payload|) <==> |payload| == want))
  {
    HostReadsChop(payload, size, want, NeedsFinal(|payload|, size, requested));
  }

  /** Every packet but the last is full, none is longer, and together they are the payload. */
  lemma {:induction false} PacketSizes(payload: Bytes, size: nat, final: bool)
    requires 0 < size
    ensures var packets := Chop(payload, size, final);
      && (forall i :: 0 <= i < |packets| - 1 ==> |packets[i]| == size)
      && (packets != [] ==> |packets[|packets| - 1]| <= size)
      && (final ==> packets != [])
      && (final ==> Concat(packets) == payload)
    decreases |payload|
  {
    if |payload| >= size {
      var rest := payload[size..];
      PacketSizes(rest, size, final);
      var packets := Chop(payload, size, final);
      assert packets[1..] == Chop(rest, size, final) && packets[0] == payload[..size];
      assert payload == payload[..size] + rest;
      hide Chop;
      assert Concat(packets) == packets[0] + Concat(packets[1..]);
      hide Concat;
      assert forall i :: 0 < i < |packets| ==> packets[i] == packets[1..][i - 1];
    } else {
      assert Concat([]) == [] && Concat([payload]) == payload + [];
    }
  }

  function Concat(packets: seq<Bytes>): Bytes {
    if packets == [] then [] else packets[0] + Concat(packets[1..])
  }

  /** Full packets come out one at a time: a whole number of them, then the rest. */
  lemma {:induction false} ChopAppend(front: Bytes, rest: Bytes, size: nat, final: bool)
    requires 0 < size && Wrap(|front|, size) == 0
    ensures Chop(front + rest, size, final) == Chop(front, size, false) + Chop(rest, size, final)
    decreases |front|
  {
    if |front| >= size {
      ChopAppend(front[size..], rest, size, final);
      assert (front + rest)[..size] == front[..size] && (front + rest)[size..] == front[size..] + rest;
    } else {
      assert front + rest == rest;
    }
  }

  /** Sending the full packet that ends at `end`. */
  lemma NextPacket(payload: Bytes, start: nat, end: nat, size: nat)
    requires 0 < size && Wrap(start, size) == 0 && end == start + size <= |payload|
    ensures Wrap(end, size) == 0
    ensures Chop(payload[..end], size, false) == Chop(payload[..start], size, false) + [payload[start..end]]
    ensures |Chop(payload[..end], size, false)| <= |Chop(payload, size, false)|
  {
    WrapAdd(start, size, size);
    assert payload[..end] == payload[..start] + payload[start..end];
    ChopAppend(payload[..start], payload[start..end], size, false);
    assert payload[start..end][..size] == payload[start..end] && payload[start..end][size..] == [];
    assert Chop(payload[start..end], size, false) == [payload[start..end]] + Chop([], size, false);
    assert payload == payload[..end] + payload[end..];
    ChopAppend(payload[..end], payload[end..], size, false);
  }

  /** What is left after the full packets, and whether it is sent. */
  lemma LastPacket(payload: Bytes, start: nat, size: nat, final: bool)
    requires 0 < size && Wrap(start, size) == 0 && start <= |payload| < start + size
    ensures Wrap(|payload|, size) == |payload| - start
    ensures Chop(payload, size, final) ==
      Chop(payload[..start], size, false) + if final then [payload[start..]] else []
  {
    WrapAdd(start, |payload| - start, size);
    assert Wrap(|payload|, size) == |payload| - start;
    hide Wrap;
    assert payload == payload[..start] + payload[start..];
    ChopAppend(payload[..start], payload[start..], size, final);
  }

  /** How a payload of full packets begins the packets of a longer one. */
  lemma ChopPrefix(payload: Bytes, start: nat, size: nat, final: bool)
    requires 0 < size && Wrap(start, size) == 0 && start <= |payload|
    ensures Chop(payload[..start], size, false) <= Chop(payload, size, final)
  {
    ChopAppend(payload[..start], payload[start..], size, final);
    assert payload == payload[..start] + payload[start..];
  }

  lemma SomeWereSent(payload: Bytes, start: nat, size: nat)
    requires 0 < size && Wrap(start, size) == 0 && 0 < start <= |payload|
    ensures Chop(payload[..start], size, false) != []
  {
  }

  /** A host loses nothing: what it has and what it left unread are the packets. */
  lemma {:induction false} HostReadConserves(packets: seq<Bytes>, size: nat, want: nat)
    ensures var r := HostRead(packets, size, want); r.data + Concat(r.unread) == Concat(packets)
    decreases |packets|
  {
    if packets == [] {
      assert Concat([]) == [];
    } else {
      var p := packets[0];
      if !(|p| < size || |p| >= want) {
        HostReadConserves(packets[1..], size, want - |p|);
        var r := HostRead(packets[1..], size, want - |p|);
        assert p + (r.data + Concat(r.unread)) == (p + r.data) + Concat(r.unread);
      }
    }
  }

  /**
    An answer sent without being cut gives the host what it asked for, and no more, if and only if
    it is no longer than that.
  */
  lemma UncutAnswerIff(payload: Bytes, size: nat, want: nat)
    requires 0 < size && 0 < want
    ensures var asked := if |payload| < want then payload else payload[..want];
      Rebuilt(Packets(payload, size, Some(want)), size, want, asked) <==> |payload| <= want
  {
    if |payload| <= want {
      assert |payload| == want ==> payload[..want] == payload;
      HostRebuildsIff(payload, size, Some(want), want);
    } else {
      HostReadConserves(Packets(payload, size, Some(want)), size, want);
      PacketSizes(payload, size, true);
      assert Concat([]) == [];
    }
  }

  // ---- Packets split by the host of the command channel ----

  /** What the endpoint write command sends: a last packet, unless the payload is exactly one full packet. */
  function EndpointPackets(payload: Bytes, size: nat): seq<Bytes>
    requires size > 0
  {
    Chop(payload, size, |payload| != size)
  }

  /**
    When the payload fills its last packet, one packet must be what the host wants and several
    must be less than it wants; any other payload is rebuilt.
  */
  lemma EndpointRebuildsIff(payload: Bytes, size: nat, want: nat)
    requires 0 < size && |payload| <= want && 0 < want
    ensures Rebuilt(EndpointPackets(payload, size), size, want, payload) <==>
      (|payload| > 0 && Wrap(|payload|, size) == 0 ==> (|payload| == size <==> |payload| == want))
  {
    HostReadsChop(payload, size, want, |payload| != size);
  }

  function SentInPieces(pieces: seq<Bytes>, size: nat): seq<Bytes>
    requires size > 0
  {
    if pieces == [] then [] else EndpointPackets(pieces[0], size) + SentInPieces(pieces[1..], size)
  }

  /**
    Pieces of at most a packet go out as they are, one packet each, so whoever split the payload
    decides its packets.
  */
  lemma {:induction false} PiecesAreKept(pieces: seq<Bytes>, size: nat)
    requires size > 0 && forall p :: p in pieces ==> |p| <= size
    ensures SentInPieces(pieces, size) == pieces
  {
    if pieces != [] {
      var p := pieces[0];
      assert p in pieces;
      assert EndpointPackets(p, size) == [p] by {
        if |p| == size {
          assert p[..size] == p && Chop(p[size..], size, false) == [];
        }
      }
      assert forall q :: q in pieces[1..] ==> q in pieces;
      PiecesAreKept(pieces[1..], size);
    }
  }
}
