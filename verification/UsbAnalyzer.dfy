/**
  USBAnalyzer: the capture state machine, the buffer-write state machine and the ring buffer.

  The sync clock runs at twice the usb clock, with every other sync edge on a usb edge. One
  usb cycle is therefore a sync edge alone, then a sync edge together with the usb edge; the
  pins hold still throughout. `d` is the ring's depth in words, a power of two.
*/
module UsbAnalyzer {
  import opened Options
  import opened Modular
  import opened Rings
  import opened Seqs
  import opened Words
  import opened CaptureSpec

  const HEADER_WORDS: nat := 2
  const EVENT_WORDS: nat := 2
  const HEADER_BYTES: nat := 4
  const EVENT_BYTES: nat := 4

  /** Range of the 11-bit count of uncommitted words. */
  const PENDING_RANGE: nat := 2048

  /** The longest packet whose words the 11-bit count can hold; the largest USB packet has 1027 bytes. */
  const MAX_COUNTABLE_BYTES: nat := 4090

  datatype Capture = AwaitStart | AwaitPacket | CapturePacket | Overrun
  datatype WriteState = StartWrite | FinishHeader | FinishEvent | IdleWrite

  /** Registers clocked by usb. */
  datatype UsbRegs = UsbRegs(capture: Capture, writeByte: nat, headerWord: nat, size: nat, packetTime: nat, time: nat)

  /** Registers clocked by sync, with the memory and its output register. */
  datatype SyncRegs = SyncRegs(write: WriteState, readWord: nat, count: nat, pending: nat,
                               valid: bool, last: bool, payload: Word, mem: seq<Word>)

  datatype Regs = Regs(u: UsbRegs, y: SyncRegs)

  predicate Shaped(d: nat, s: Regs) {
    && d >= 4
    && |s.y.mem| == d && s.y.readWord < d && s.y.count < d && s.y.pending < PENDING_RANGE
    && s.u.writeByte < 2 * d && s.u.headerWord < d
    && s.u.size < WRAP && s.u.packetTime < WRAP && s.u.time < WRAP
  }

  // ---- Combinational signals ----

  predicate Discarding(u: UsbRegs, p: Pins) {
    u.capture.AwaitStart? && p.enable
  }

  predicate StartsPacket(u: UsbRegs, p: Pins) {
    u.capture.AwaitPacket? && p.enable && p.rxActive
  }

  predicate WriteEvent(u: UsbRegs, p: Pins) {
    u.capture.AwaitPacket? && p.enable && !p.rxActive && u.time == 0xFFFF
  }

  predicate WritePacket(u: UsbRegs, p: Pins) {
    u.capture.CapturePacket? && p.rxActive && p.rxValid
  }

  predicate WriteHeader(u: UsbRegs, p: Pins) {
    u.capture.CapturePacket? && !p.rxActive
  }

  function WriteWord(d: nat, u: UsbRegs): nat
    requires d > 0
  {
    Wrap(u.writeByte / 2, d)
  }

  function NextWord(d: nat, u: UsbRegs): nat
    requires d > 0
  {
    Wrap((u.writeByte + u.writeByte % 2) / 2, d)
  }

  predicate Popped(y: SyncRegs, ready: bool) {
    (!y.valid || ready) && y.count != 0
  }

  /** Words fetched at a sync edge. */
  function Fetched(y: SyncRegs, ready: bool): nat {
    if Popped(y, ready) then 1 else 0
  }

  predicate Commit(y: SyncRegs) {
    y.write.FinishHeader? || y.write.FinishEvent?
  }

  // ---- Clock edges ----

  function MemNext(d: nat, s: Regs, p: Pins): (mem: seq<Word>)
    requires Shaped(d, s)
    ensures |mem| == d
  {
    var (u, mem) := (s.u, s.y.mem);
    match s.y.write
    case StartWrite =>
      if WritePacket(u, p) then mem[WriteWord(d, u) := SetLane(mem[WriteWord(d, u)], u.writeByte, p.rxData)]
      else if WriteHeader(u, p) then mem[u.headerWord := ToWord(u.size)]
      else if WriteEvent(u, p) then mem[NextWord(d, u) := Word(0xFF, ROLLOVER.code)]
      else mem
    case FinishHeader => mem[Wrap(u.headerWord + 1, d) := ToWord(u.packetTime)]
    case FinishEvent => mem[Wrap(NextWord(d, u) + 1, d) := ToWord(u.time)]
    case IdleWrite => mem
  }

  function WriteStateNext(s: Regs, p: Pins): WriteState {
    if !s.y.write.StartWrite? then StartWrite
    else if WritePacket(s.u, p) then IdleWrite
    else if WriteHeader(s.u, p) then FinishHeader
    else if WriteEvent(s.u, p) then FinishEvent
    else StartWrite
  }

  function PendingNext(s: Regs, p: Pins): nat {
    if Discarding(s.u, p) then 0
    else if StartsPacket(s.u, p) then HEADER_WORDS
    else if WriteEvent(s.u, p) then EVENT_WORDS
    else if s.y.write.StartWrite? && WritePacket(s.u, p) then
      Wrap(s.y.pending + (if s.u.writeByte % 2 == 0 then 1 else 0), PENDING_RANGE)
    else s.y.pending
  }

  function SyncEdge(d: nat, s: Regs, p: Pins, ready: bool): SyncRegs
    requires Shaped(d, s)
  {
    var (y, discard) := (s.y, Discarding(s.u, p));
    var popped := if Popped(y, ready) then 1 else 0;
    SyncRegs(
      WriteStateNext(s, p),
      if discard then 0 else Wrap(y.readWord + popped, d),
      if discard then 0 else Wrap(y.count - popped + (if Commit(y) then y.pending else 0), d),
      PendingNext(s, p),
      if discard then false else if !y.valid || ready then popped == 1 else y.valid,
      if !y.valid || ready then y.count == 1 else y.last,
      if popped == 1 then y.mem[y.readWord] else y.payload,
      MemNext(d, s, p))
  }

  function UsbEdge(d: nat, s: Regs, p: Pins): UsbRegs
    requires d > 0
  {
    var u := s.u.(time := Wrap(s.u.time + 1, WRAP));
    match u.capture
    case AwaitStart =>
      var v := if p.enable then u.(writeByte := 0) else u;
      if p.enable && !p.rxActive then v.(capture := AwaitPacket, time := 0) else v
    case AwaitPacket =>
      if !p.enable then u.(capture := AwaitStart)
      else if p.rxActive then
        u.(capture := CapturePacket, headerWord := NextWord(d, u),
           writeByte := Wrap(u.writeByte + u.writeByte % 2 + HEADER_BYTES, 2 * d),
           size := 0, packetTime := s.u.time, time := 0)
      else if s.u.time == 0xFFFF then
        u.(writeByte := Wrap(u.writeByte + u.writeByte % 2 + EVENT_BYTES, 2 * d))
      else u
    case CapturePacket =>
      if !p.rxActive then u.(capture := AwaitPacket)
      else if !p.rxValid then u
      else
        u.(writeByte := Wrap(u.writeByte + 1, 2 * d), size := Wrap(u.size + 1, WRAP),
           capture := if s.y.count + s.y.pending == d - 1 then Overrun else CapturePacket)
    case Overrun =>
      if !p.enable then u.(capture := AwaitStart) else u
  }

  /** The state between a usb cycle's two sync edges. */
  function Mid(d: nat, s: Regs, p: Pins, ready0: bool): (mid: Regs)
    requires Shaped(d, s)
    ensures Shaped(d, mid)
  {
    Regs(s.u, SyncEdge(d, s, p, ready0))
  }

  /** Words fetched in a usb cycle. */
  function Fetches(d: nat, s: Regs, p: Pins, ready0: bool, ready1: bool): nat
    requires Shaped(d, s)
  {
    Fetched(s.y, ready0) + Fetched(Mid(d, s, p, ready0).y, ready1)
  }

  /** One usb cycle; `ready0` and `ready1` are the reader's answers at its two sync edges. */
  function Cycle(d: nat, s: Regs, p: Pins, ready0: bool, ready1: bool): (s': Regs)
    requires Shaped(d, s)
    ensures Shaped(d, s')
  {
    var mid := Mid(d, s, p, ready0);
    Regs(UsbEdge(d, mid, p), SyncEdge(d, mid, p, ready1))
  }

  // ---- History ----

  /**
    `words`: everything committed this session. `popped`: how many of those the reader has
    fetched. `out`: those it has passed on.
  */
  datatype Log = Log(words: seq<Word>, popped: nat, out: seq<Word>)

  /** `cursor`: the unbounded byte address written next. `session`: the ideal capture so far. */
  datatype History = History(log: Log, cursor: nat, session: Session)

  function RecordSync(d: nat, s: Regs, g: Log, p: Pins, ready: bool): Log
    requires Shaped(d, s)
  {
    if Discarding(s.u, p) then Log([], 0, [])
    else
      Log(if Commit(s.y) then g.words + RingSlice(MemNext(d, s, p), |g.words|, s.y.pending) else g.words,
          g.popped + (if Popped(s.y, ready) then 1 else 0),
          if s.y.valid && ready then g.out + [s.y.payload] else g.out)
  }

  function RecordUsb(u: UsbRegs, u': UsbRegs, h: History, p: Pins): (h': History)
    ensures h'.log == h.log
  {
    var even := h.cursor + h.cursor % 2;
    h.(session := SessionStep(h.session, p, !u.capture.Overrun? && u'.capture.Overrun?),
       cursor := if Discarding(u, p) then 0
                 else if StartsPacket(u, p) then even + HEADER_BYTES
                 else if WriteEvent(u, p) then even + EVENT_BYTES
                 else if WritePacket(u, p) then h.cursor + 1
                 else h.cursor)
  }

  function Record(d: nat, s: Regs, h: History, p: Pins, ready0: bool, ready1: bool): History
    requires Shaped(d, s)
  {
    var mid := Mid(d, s, p, ready0);
    var log := RecordSync(d, mid, RecordSync(d, s, h.log, p, ready0), p, ready1);
    RecordUsb(s.u, UsbEdge(d, mid, p), h.(log := log), p)
  }

  // ---- The reader's side ----

  /** The count agrees with the committed words, and no committed unread word is overwritten. */
  ghost predicate CountInv(d: nat, y: SyncRegs, g: Log) {
    && d > 0 && |y.mem| == d
    && g.popped + y.count == |g.words| && y.count < d
    && y.readWord == Wrap(g.popped, d)
    && RingHolds(y.mem, g.words, g.popped)
  }

  /** What the reader took, with the word now offered to it, is all that was fetched; `last` is honest. */
  ghost predicate StreamInv(y: SyncRegs, g: Log) {
    && g.popped <= |g.words|
    && g.out + (if y.valid then [y.payload] else []) == g.words[..g.popped]
    && (y.valid && !y.last ==> y.count > 0)
  }

  ghost predicate ReaderInv(d: nat, y: SyncRegs, g: Log) {
    CountInv(d, y, g) && StreamInv(y, g)
  }

  /** Committed words are never lost, duplicated or reordered on their way out. */
  lemma WordsConserved(d: nat, y: SyncRegs, g: Log)
    requires ReaderInv(d, y, g)
    ensures |y.mem| > 0
    ensures g.out + (if y.valid then [y.payload] else []) + RingSlice(y.mem, g.popped, y.count) == g.words
  {
    hide Wrap;
    assert g.words[g.popped..] == RingSlice(y.mem, g.popped, y.count);
    assert g.words == g.words[..g.popped] + g.words[g.popped..];
  }

  lemma CommitKeepsRing(mem: seq<Word>, g: Log, n: nat)
    requires |mem| > 0 && RingHolds(mem, g.words, g.popped)
    ensures RingHolds(mem, g.words + RingSlice(mem, |g.words|, n), g.popped)
  {
    hide Wrap;
    forall i | |g.words| <= i < |g.words| + n
      ensures mem[Wrap(i, |mem|)] == (g.words + RingSlice(mem, |g.words|, n))[i]
    {
      assert RingSlice(mem, |g.words|, n)[i - |g.words|] == mem[Wrap(|g.words| + (i - |g.words|), |mem|)];
    }
  }

  lemma RecordKeepsRing(d: nat, s: Regs, g: Log, p: Pins, ready: bool)
    requires Shaped(d, s) && !Discarding(s.u, p)
    requires RingHolds(MemNext(d, s, p), g.words, g.popped + Fetched(s.y, ready))
    ensures var g' := RecordSync(d, s, g, p, ready); RingHolds(MemNext(d, s, p), g'.words, g'.popped)
  {
    CommitKeepsRing(MemNext(d, s, p), g.(popped := g.popped + Fetched(s.y, ready)), s.y.pending);
    hide MemNext, Wrap;
  }

  lemma SyncKeepsCount(d: nat, s: Regs, g: Log, p: Pins, ready: bool)
    requires Shaped(d, s) && CountInv(d, s.y, g) && !Discarding(s.u, p)
    requires RingHolds(MemNext(d, s, p), g.words, g.popped + Fetched(s.y, ready))
    requires Commit(s.y) ==> s.y.count - Fetched(s.y, ready) + s.y.pending < d
    ensures CountInv(d, SyncEdge(d, s, p, ready), RecordSync(d, s, g, p, ready))
  {
    hide MemNext, WriteStateNext, PendingNext, RingHolds, RingSlice;
    RecordKeepsRing(d, s, g, p, ready);
    WrapAdd(g.popped, if Popped(s.y, ready) then 1 else 0, d);
  }

  lemma SyncKeepsStream(d: nat, s: Regs, g: Log, p: Pins, ready: bool)
    requires Shaped(d, s) && ReaderInv(d, s.y, g) && !Discarding(s.u, p)
    requires CountInv(d, SyncEdge(d, s, p, ready), RecordSync(d, s, g, p, ready))
    ensures StreamInv(SyncEdge(d, s, p, ready), RecordSync(d, s, g, p, ready))
  {
    hide MemNext, Wrap, WriteStateNext, PendingNext;
    var words' := RecordSync(d, s, g, p, ready).words;
    assert words'[..g.popped] == g.words[..g.popped];
    if Popped(s.y, ready) {
      assert words'[..g.popped + 1] == g.words[..g.popped] + [g.words[g.popped]];
    }
  }

  /** A sync edge keeps the reader's side if what it writes and commits stays clear of unread words. */
  lemma SyncKeepsReader(d: nat, s: Regs, g: Log, p: Pins, ready: bool)
    requires Shaped(d, s) && ReaderInv(d, s.y, g) && !Discarding(s.u, p)
    requires RingHolds(MemNext(d, s, p), g.words, g.popped + Fetched(s.y, ready))
    requires Commit(s.y) ==> s.y.count - Fetched(s.y, ready) + s.y.pending < d
    ensures ReaderInv(d, SyncEdge(d, s, p, ready), RecordSync(d, s, g, p, ready))
  {
    SyncKeepsCount(d, s, g, p, ready);
    SyncKeepsStream(d, s, g, p, ready);
  }

  lemma DiscardKeepsReader(d: nat, s: Regs, g: Log, p: Pins, ready: bool)
    requires Shaped(d, s) && Discarding(s.u, p)
    ensures ReaderInv(d, SyncEdge(d, s, p, ready), RecordSync(d, s, g, p, ready))
  {
  }

  // ---- Exactly when an edge is safe for the reader ----

  /** The slot written at a sync edge, if any. */
  function WriteSlot(d: nat, s: Regs, p: Pins): (slot: Option<nat>)
    requires Shaped(d, s)
    ensures slot.Some? ==> slot.value < d
  {
    match s.y.write
    case StartWrite =>
      if WritePacket(s.u, p) then Some(WriteWord(d, s.u))
      else if WriteHeader(s.u, p) then Some(s.u.headerWord)
      else if WriteEvent(s.u, p) then Some(NextWord(d, s.u))
      else None
    case FinishHeader => Some(Wrap(s.u.headerWord + 1, d))
    case FinishEvent => Some(Wrap(NextWord(d, s.u) + 1, d))
    case IdleWrite => None
  }

  lemma OnlySlotChanges(d: nat, s: Regs, p: Pins, i: nat)
    requires Shaped(d, s) && i < d && WriteSlot(d, s, p) != Some(i)
    ensures MemNext(d, s, p)[i] == s.y.mem[i]
  {
    hide Wrap, NextWord;
  }

  /** The slot holds a committed word that is still unread after the edge. */
  predicate Unread(d: nat, y: SyncRegs, ready: bool, slot: nat)
    requires y.readWord < d
  {
    Fetched(y, ready) <= Wrap(slot + d - y.readWord, d) < y.count
  }

  /** What a sync edge commits finds room, and what it writes spares the unread words or leaves them as they are. */
  predicate EdgeClear(d: nat, s: Regs, p: Pins, ready: bool)
    requires Shaped(d, s)
  {
    || Discarding(s.u, p)
    || (&& (Commit(s.y) ==> s.y.count - Fetched(s.y, ready) + s.y.pending < d)
        && SlotClear(d, s, p, ready))
  }

  predicate SlotClear(d: nat, s: Regs, p: Pins, ready: bool)
    requires Shaped(d, s)
  {
    var slot := WriteSlot(d, s, p);
    slot.Some? ==> !Unread(d, s.y, ready, slot.value) || MemNext(d, s, p)[slot.value] == s.y.mem[slot.value]
  }

  /** Word i is unread exactly if its slot says so. */
  lemma UnreadIff(d: nat, y: SyncRegs, g: Log, ready: bool, slot: nat)
    requires d > 0 && |y.mem| == d && y.readWord < d && slot < d && CountInv(d, y, g)
    ensures Unread(d, y, ready, slot) <==>
      exists i: nat :: g.popped + Fetched(y, ready) <= i < |g.words| && Wrap(i, d) == slot
  {
    hide Wrap, RingHolds;
    var off := Wrap(slot + d - y.readWord, d);
    OffsetSlot(g.popped, slot, d);
    if Unread(d, y, ready, slot) {
      assert Wrap(g.popped + off, d) == slot;
    }
    forall i: nat | g.popped + Fetched(y, ready) <= i < |g.words| && Wrap(i, d) == slot
      ensures i == g.popped + off
    {
      if i < g.popped + off {
        SlotsDiffer(i, g.popped + off, d);
      } else if i > g.popped + off {
        SlotsDiffer(g.popped + off, i, d);
      }
    }
  }

  lemma OffsetSlot(popped: nat, slot: nat, d: nat)
    requires d > 0 && slot < d
    ensures Wrap(popped, d) < d
    ensures Wrap(popped + Wrap(slot + d - Wrap(popped, d), d), d) == slot
  {
    hide Wrap;
    var r := Wrap(popped, d);
    WrapAdd(popped, Wrap(slot + d - r, d), d);
    WrapSmall(slot, r, d);
  }

  lemma WrapSmall(slot: nat, r: nat, d: nat)
    requires slot < d && r < d
    ensures Wrap(r + Wrap(slot + d - r, d), d) == slot
  {
  }

  lemma SlotClearIff(d: nat, s: Regs, g: Log, p: Pins, ready: bool)
    requires Shaped(d, s) && CountInv(d, s.y, g)
    ensures SlotClear(d, s, p, ready) <==> RingHolds(MemNext(d, s, p), g.words, g.popped + Fetched(s.y, ready))
  {
    hide Wrap, MemNext, WriteSlot, Unread;
    var (slot, mem, from) := (WriteSlot(d, s, p), MemNext(d, s, p), g.popped + Fetched(s.y, ready));
    forall i: nat | i < d && slot != Some(i) ensures mem[i] == s.y.mem[i] {
      OnlySlotChanges(d, s, p, i);
    }
    WrapInRange(d);
    if slot.Some? {
      UnreadIff(d, s.y, g, ready, slot.value);
      if RingHolds(mem, g.words, from) && Unread(d, s.y, ready, slot.value) {
        var i: nat :| from <= i < |g.words| && Wrap(i, d) == slot.value;
        assert mem[slot.value] == g.words[i] == s.y.mem[slot.value];
      }
    }
    if SlotClear(d, s, p, ready) {
      forall i: nat | from <= i < |g.words| ensures mem[Wrap(i, d)] == g.words[i] {
        assert s.y.mem[Wrap(i, d)] == g.words[i];
      }
    }
  }

  lemma WrapInRange(d: nat)
    requires d > 0
    ensures forall i: nat :: Wrap(i, d) < d
  {
  }

  /**
    A sync edge, whatever it does, keeps the count true and the unread words whole if and only
    if it is clear. This is a condition on the registers at the edge.
  */
  lemma EdgeClearIff(d: nat, s: Regs, g: Log, p: Pins, ready: bool)
    requires Shaped(d, s) && CountInv(d, s.y, g)
    ensures CountInv(d, SyncEdge(d, s, p, ready), RecordSync(d, s, g, p, ready)) <==> EdgeClear(d, s, p, ready)
  {
    if Discarding(s.u, p) {
      DiscardKeepsReader(d, s, g, p, ready);
    } else {
      SlotClearIff(d, s, g, p, ready);
      EdgeCounts(d, s, g, p, ready);
      hide MemNext, WriteStateNext, PendingNext, SlotClear, RingHolds;
      if EdgeClear(d, s, p, ready) {
        hide Wrap;
        SyncKeepsCount(d, s, g, p, ready);
      } else if CountInv(d, SyncEdge(d, s, p, ready), RecordSync(d, s, g, p, ready)) {
        WordsKept(d, s, g, p, ready);
      }
    }
  }

  /** A clear edge keeps the whole of the reader's side. */
  lemma ClearKeepsReader(d: nat, s: Regs, g: Log, p: Pins, ready: bool)
    requires Shaped(d, s) && ReaderInv(d, s.y, g) && EdgeClear(d, s, p, ready)
    ensures ReaderInv(d, SyncEdge(d, s, p, ready), RecordSync(d, s, g, p, ready))
  {
    EdgeClearIff(d, s, g, p, ready);
    hide EdgeClear;
    if Discarding(s.u, p) {
      DiscardKeepsReader(d, s, g, p, ready);
    } else {
      SyncKeepsStream(d, s, g, p, ready);
    }
  }

  lemma EdgeCounts(d: nat, s: Regs, g: Log, p: Pins, ready: bool)
    requires Shaped(d, s) && !Discarding(s.u, p) && g.popped + s.y.count == |g.words|
    ensures var y', g' := SyncEdge(d, s, p, ready), RecordSync(d, s, g, p, ready);
      var n := if Commit(s.y) then s.y.pending else 0;
      && g'.popped == g.popped + Fetched(s.y, ready) && |g'.words| == |g.words| + n
      && y'.count == Wrap(s.y.count - Fetched(s.y, ready) + n, d)
  {
    hide MemNext, Wrap;
  }

  /** If the ring holds what was committed and still more, it holds what was committed. */
  lemma WordsKept(d: nat, s: Regs, g: Log, p: Pins, ready: bool)
    requires Shaped(d, s) && !Discarding(s.u, p) && |s.y.mem| == d
    requires RingHolds(MemNext(d, s, p), RecordSync(d, s, g, p, ready).words, g.popped + Fetched(s.y, ready))
    ensures RingHolds(MemNext(d, s, p), g.words, g.popped + Fetched(s.y, ready))
  {
    hide MemNext, Wrap, RingSlice;
    var words' := RecordSync(d, s, g, p, ready).words;
    assert forall i :: 0 <= i < |g.words| ==> words'[i] == g.words[i];
  }

  // ---- The writer's side ----

  /** The captured bytes lie in the ring, two to a word, from word `base` on. */
  ghost predicate BytesIn(mem: seq<Word>, base: nat, bytes: seq<Byte>)
    requires |mem| > 0
  {
    forall j :: 0 <= j < |bytes| ==> Lane(mem[Wrap(base + j / 2, |mem|)], j) == bytes[j]
  }

  ghost predicate Aligned(d: nat, u: UsbRegs, h: History)
    requires d > 0
  {
    && u.writeByte == Wrap(h.cursor, 2 * d)
    && u.time == h.session.since % WRAP
  }

  /** Between packets the next word to write is the first uncommitted one. */
  ghost predicate WaitingInv(d: nat, u: UsbRegs, h: History)
    requires d > 0
  {
    && Aligned(d, u, h)
    && h.session.phase.Waiting?
    && h.cursor + h.cursor % 2 == 2 * |h.log.words|
  }

  /** Inside a packet: two words are reserved for the header, the bytes so far follow them, and all of it fits. */
  ghost predicate CapturingInv(d: nat, s: Regs, h: History)
    requires d > 0 && |s.y.mem| == d
  {
    && Aligned(d, s.u, h)
    && h.session.phase.Capturing?
    && var bytes := h.session.phase.bytes;
    && h.cursor == 2 * |h.log.words| + HEADER_BYTES + |bytes|
    && s.u.headerWord == Wrap(|h.log.words|, d)
    && s.u.size == |bytes| <= MAX_COUNTABLE_BYTES
    && s.u.packetTime == h.session.phase.time
    && s.y.pending == HEADER_WORDS + WordsFor(|bytes|)
    && s.y.pending <= d
    && BytesIn(s.y.mem, |h.log.words| + HEADER_WORDS, bytes)
  }

  ghost predicate WriterInv(d: nat, s: Regs, h: History)
    requires d > 0 && |s.y.mem| == d
  {
    match s.u.capture
    case AwaitStart => h.session.phase.Stopped?
    case AwaitPacket => WaitingInv(d, s.u, h)
    case CapturePacket => CapturingInv(d, s, h)
    case Overrun => h.session.phase.Lost?
  }

  ghost predicate Inv(d: nat, s: Regs, h: History) {
    && Shaped(d, s) && s.y.write.StartWrite?
    && ReaderInv(d, s.y, h.log) && WriterInv(d, s, h)
    && Parse(h.log.words) == Some(h.session.items)
  }

  /** The words a cycle commits. */
  function Committed(s: Regs, p: Pins): nat {
    if WriteHeader(s.u, p) then s.y.pending else if WriteEvent(s.u, p) then EVENT_WORDS else 0
  }

  /** What a cycle commits fits beside the words still unread after it. */
  predicate HasRoom(d: nat, s: Regs, p: Pins, ready0: bool, ready1: bool)
    requires Shaped(d, s)
  {
    s.y.count - Fetches(d, s, p, ready0, ready1) + Committed(s, p) < d
  }

  /** Both edges of a usb cycle are clear. */
  predicate CycleClear(d: nat, s: Regs, p: Pins, ready0: bool, ready1: bool)
    requires Shaped(d, s)
  {
    EdgeClear(d, s, p, ready0) && EdgeClear(d, Mid(d, s, p, ready0), p, ready1)
  }

  /** A packet is no longer than the 11-bit count can say, nor than the ring can hold beside its header. */
  predicate SizeOk(d: nat, s: Regs, p: Pins) {
    WritePacket(s.u, p) ==> s.u.size < MAX_COUNTABLE_BYTES && HEADER_WORDS + s.u.size / 2 < d
  }

  predicate RoomOk(d: nat, s: Regs, p: Pins, ready0: bool, ready1: bool)
    requires Shaped(d, s)
  {
    CycleClear(d, s, p, ready0, ready1) && SizeOk(d, s, p)
  }

  lemma {:induction false} ByteOfWord(w: nat, odd: nat, d: nat)
    requires d > 0 && odd < 2
    ensures Wrap(2 * w + odd, 2 * d) == 2 * Wrap(w, d) + odd
    decreases w
  {
    if w >= d {
      ByteOfWord(w - d, odd, d);
    }
  }

  /** Byte addresses wrap in step with the word addresses they contain. */
  lemma ByteAddress(c: nat, d: nat)
    requires d > 0
    ensures Wrap(c, 2 * d) % 2 == c % 2
    ensures Wrap(Wrap(c, 2 * d) / 2, d) == Wrap(c / 2, d)
    ensures Wrap((Wrap(c, 2 * d) + c % 2) / 2, d) == Wrap((c + c % 2) / 2, d)
  {
    hide Wrap;
    var w, odd := c / 2, c % 2;
    ByteOfWord(w, odd, d);
    assert Wrap(c, 2 * d) == 2 * Wrap(w, d) + odd;
    WrapAdd(w, 0, d);
    WrapAdd(w, odd, d);
    assert (Wrap(c, 2 * d) + odd) / 2 == Wrap(w, d) + odd && (c + odd) / 2 == w + odd;
  }

  /** The 16-bit counter follows the unbounded one. */
  lemma TimeFollows(since: nat)
    ensures Wrap(since % WRAP + 1, WRAP) == (since + 1) % WRAP
  {
    assert since % WRAP + 1 == WRAP ==> Wrap(WRAP, WRAP) == Wrap(0, WRAP);
  }

  /** Writing a word that is not committed leaves the unread ones alone. */
  lemma SpareSlot(mem: seq<Word>, words: seq<Word>, from: nat, slot: nat, w: Word)
    requires |mem| > 0 && RingHolds(mem, words, from)
    requires |words| <= slot < from + |mem|
    ensures RingHolds(mem[Wrap(slot, |mem|) := w], words, from)
  {
    hide Wrap;
    forall i | from <= i < |words|
      ensures Wrap(i, |mem|) != Wrap(slot, |mem|)
    {
      SlotsDiffer(i, slot, |mem|);
    }
  }

  /** One more byte, written into its own lane, joins the bytes already captured. */
  lemma ByteJoins(mem: seq<Word>, base: nat, bytes: seq<Byte>, b: Byte)
    requires |mem| > 0 && |bytes| / 2 < |mem| && BytesIn(mem, base, bytes)
    ensures var a := Wrap(base + |bytes| / 2, |mem|);
      BytesIn(mem[a := SetLane(mem[a], |bytes|, b)], base, bytes + [b])
  {
    hide Wrap;
    var k := |bytes|;
    forall j | 0 <= j < k && j / 2 != k / 2
      ensures Wrap(base + j / 2, |mem|) != Wrap(base + k / 2, |mem|)
    {
      SlotsDiffer(base + j / 2, base + k / 2, |mem|);
    }
    forall j | 0 <= j < k && j / 2 == k / 2
      ensures j % 2 != k % 2
    {
    }
  }

  /** Filling the two reserved words completes the packet's image. */
  lemma HeaderCompletes(mem: seq<Word>, first: nat, bytes: seq<Byte>, time: nat)
    requires |mem| > 0 && HEADER_WORDS + WordsFor(|bytes|) <= |mem|
    requires BytesIn(mem, first + HEADER_WORDS, bytes)
    ensures var mem' := mem[Wrap(first, |mem|) := ToWord(|bytes|)][Wrap(first + 1, |mem|) := ToWord(time)];
      Matches(RingSlice(mem', first, HEADER_WORDS + WordsFor(|bytes|)), Packet(bytes, time))
  {
    hide Wrap;
    var d := |mem|;
    var mem' := mem[Wrap(first, d) := ToWord(|bytes|)][Wrap(first + 1, d) := ToWord(time)];
    var chunk := RingSlice(mem', first, HEADER_WORDS + WordsFor(|bytes|));
    SlotsDiffer(first, first + 1, d);
    assert chunk[0] == mem'[Wrap(first + 0, d)] && chunk[1] == mem'[Wrap(first + 1, d)];
    forall j | 0 <= j < |bytes|
      ensures Lane(chunk[2 + j / 2], j) == bytes[j]
    {
      var i := first + HEADER_WORDS + j / 2;
      SlotsDiffer(first, i, d);
      SlotsDiffer(first + 1, i, d);
      assert chunk[2 + j / 2] == mem'[Wrap(first + (2 + j / 2), d)];
    }
  }

  // ---- One usb cycle keeps the invariant ----

  /** The reader's side of a cycle in which the buffer-write machine has nothing to do. */
  lemma QuietCycle(d: nat, s: Regs, h: History, p: Pins, ready0: bool, ready1: bool)
    requires Inv(d, s, h) && !Discarding(s.u, p)
    requires !WritePacket(s.u, p) && !WriteHeader(s.u, p) && !WriteEvent(s.u, p)
    ensures var s', h' := Cycle(d, s, p, ready0, ready1), Record(d, s, h, p, ready0, ready1);
      && ReaderInv(d, s'.y, h'.log) && s'.y.write.StartWrite?
      && h'.log.words == h.log.words && s'.y.mem == s.y.mem && s'.y.count <= s.y.count
      && s'.y.pending == if StartsPacket(s.u, p) then HEADER_WORDS else s.y.pending
  {
    hide Wrap, ReaderInv, UsbEdge, SessionStep;
    var mid, g1 := Mid(d, s, p, ready0), RecordSync(d, s, h.log, p, ready0);
    QuietEdge(d, s, h.log, p, ready0);
    QuietEdge(d, mid, g1, p, ready1);
  }

  lemma QuietEdge(d: nat, s: Regs, g: Log, p: Pins, ready: bool)
    requires Shaped(d, s) && ReaderInv(d, s.y, g) && !Discarding(s.u, p)
    requires s.y.write.IdleWrite? || s.y.write.StartWrite?
    requires s.y.write.StartWrite? ==> !WritePacket(s.u, p) && !WriteHeader(s.u, p) && !WriteEvent(s.u, p)
    ensures var y', g' := SyncEdge(d, s, p, ready), RecordSync(d, s, g, p, ready);
      && ReaderInv(d, y', g') && y'.write.StartWrite?
      && g'.words == g.words && y'.mem == s.y.mem && y'.count <= s.y.count
      && y'.pending == if StartsPacket(s.u, p) then HEADER_WORDS
                       else if WriteEvent(s.u, p) then EVENT_WORDS else s.y.pending
  {
    HoldsLess(s.y.mem, g.words, g.popped, g.popped + Fetched(s.y, ready));
    SyncKeepsReader(d, s, g, p, ready);
  }

  /** A discarding cycle empties the ring and starts the session's history afresh. */
  lemma DiscardCycle(d: nat, s: Regs, h: History, p: Pins, ready0: bool, ready1: bool)
    requires Inv(d, s, h) && Discarding(s.u, p)
    ensures Inv(d, Cycle(d, s, p, ready0, ready1), Record(d, s, h, p, ready0, ready1))
  {
    hide MemNext;
    var mid, g1 := Mid(d, s, p, ready0), RecordSync(d, s, h.log, p, ready0);
    DiscardKeepsReader(d, s, h.log, p, ready0);
    DiscardKeepsReader(d, mid, g1, p, ready1);
    assert Parse([]) == Some([]);
  }

  /** A cycle that neither writes to the buffer nor starts a packet. */
  lemma IdleCycle(d: nat, s: Regs, h: History, p: Pins, ready0: bool, ready1: bool)
    requires Inv(d, s, h) && !Discarding(s.u, p) && !StartsPacket(s.u, p)
    requires !WritePacket(s.u, p) && !WriteHeader(s.u, p) && !WriteEvent(s.u, p)
    ensures Inv(d, Cycle(d, s, p, ready0, ready1), Record(d, s, h, p, ready0, ready1))
  {
    hide MemNext, SyncEdge, RecordSync, ReaderInv, Parse;
    QuietCycle(d, s, h, p, ready0, ready1);
  }

  /** The cycle in which a packet starts: its header is reserved and its timestamp taken. */
  lemma StartCycle(d: nat, s: Regs, h: History, p: Pins, ready0: bool, ready1: bool)
    requires Inv(d, s, h) && StartsPacket(s.u, p)
    ensures Inv(d, Cycle(d, s, p, ready0, ready1), Record(d, s, h, p, ready0, ready1))
  {
    hide MemNext, SyncEdge, RecordSync, ReaderInv, Parse, Wrap;
    QuietCycle(d, s, h, p, ready0, ready1);
    ByteAddress(h.cursor, d);
    WrapAdd(h.cursor, h.cursor % 2 + HEADER_BYTES, 2 * d);
  }

  /** The reader's side of the sync edge at which a packet byte is stored. */
  lemma ByteEdge(d: nat, s: Regs, g: Log, p: Pins, ready: bool)
    requires Shaped(d, s) && s.y.write.StartWrite? && ReaderInv(d, s.y, g) && WritePacket(s.u, p)
    requires EdgeClear(d, s, p, ready)
    ensures var y', g' := SyncEdge(d, s, p, ready), RecordSync(d, s, g, p, ready);
      var a := WriteWord(d, s.u);
      && ReaderInv(d, y', g') && y'.write.IdleWrite? && g'.words == g.words
      && y'.mem == s.y.mem[a := SetLane(s.y.mem[a], s.u.writeByte, p.rxData)]
      && y'.pending == Wrap(s.y.pending + (if s.u.writeByte % 2 == 0 then 1 else 0), PENDING_RANGE)
  {
    hide Wrap, EdgeClear, ReaderInv;
    ClearKeepsReader(d, s, g, p, ready);
  }

  lemma ByteSlot(d: nat, s: Regs, h: History)
    requires Inv(d, s, h) && s.u.capture.CapturePacket?
    ensures WriteWord(d, s.u) == Wrap(|h.log.words| + HEADER_WORDS + |h.session.phase.bytes| / 2, d)
    ensures s.u.writeByte % 2 == |h.session.phase.bytes| % 2
  {
    hide MemNext, Parse, Wrap, BytesIn;
    ByteAddress(h.cursor, d);
  }

  /** The cycle in which a packet byte arrives: it joins the packet, or finds the last slot taken and loses it. */
  lemma ByteCycle(d: nat, s: Regs, h: History, p: Pins, ready0: bool, ready1: bool)
    requires Inv(d, s, h) && WritePacket(s.u, p) && RoomOk(d, s, p, ready0, ready1)
    ensures Inv(d, Cycle(d, s, p, ready0, ready1), Record(d, s, h, p, ready0, ready1))
  {
    hide MemNext, SyncEdge, UsbEdge, RecordSync, ReaderInv, Parse, Wrap, BytesIn, SetLane, WordsFor;
    hide EdgeClear, WriteWord;
    var bytes := h.session.phase.bytes;
    var base := |h.log.words| + HEADER_WORDS;
    ByteSlot(d, s, h);
    ReaderCounts(d, s.y, h.log);
    PendingGrows(|bytes|);
    PendingFits(|bytes|, d);
    ByteEdge(d, s, h.log, p, ready0);
    QuietEdge(d, Mid(d, s, p, ready0), RecordSync(d, s, h.log, p, ready0), p, ready1);
    ByteJoins(s.y.mem, base, bytes, p.rxData);
    SameLane(s.y.mem[WriteWord(d, s.u)], s.u.writeByte, |bytes|, p.rxData);
    ByteUsbEdge(d, Mid(d, s, p, ready0), p, h.cursor, h.session.since);
  }

  /** A byte at an even offset opens a new word. */
  lemma PendingGrows(n: nat)
    ensures WordsFor(n + 1) == WordsFor(n) + (if n % 2 == 0 then 1 else 0)
    ensures n / 2 <= WordsFor(n)
    ensures n < MAX_COUNTABLE_BYTES ==> HEADER_WORDS + WordsFor(n + 1) < PENDING_RANGE
  {
  }

  lemma PendingFits(n: nat, d: nat)
    requires HEADER_WORDS + n / 2 < d
    ensures HEADER_WORDS + WordsFor(n + 1) <= d && n / 2 < d
  {
  }

  lemma HoldsLess(mem: seq<Word>, words: seq<Word>, from: nat, later: nat)
    requires |mem| > 0 && RingHolds(mem, words, from) && from <= later
    ensures RingHolds(mem, words, later)
  {
  }

  lemma ReaderCounts(d: nat, y: SyncRegs, g: Log)
    requires ReaderInv(d, y, g)
    ensures g.popped + y.count == |g.words| && |y.mem| == d > 0 && RingHolds(y.mem, g.words, g.popped)
  {
  }

  lemma SameLane(w: Word, i: nat, j: nat, b: Byte)
    requires i % 2 == j % 2
    ensures SetLane(w, i, b) == SetLane(w, j, b)
  {
  }

  /** The address of the first of the two words a header or an event takes, and those words. */
  predicate Commits(d: nat, u: UsbRegs, p: Pins, k: nat, first: Word, second: Word)
    requires d > 0
  {
    if u.capture.CapturePacket? then
      !p.rxActive && u.headerWord == Wrap(k, d) && first == ToWord(u.size) && second == ToWord(u.packetTime)
    else
      WriteEvent(u, p) && NextWord(d, u) == Wrap(k, d) && first == Word(0xFF, ROLLOVER.code) && second == ToWord(u.time)
  }

  lemma FirstWordEdge(d: nat, s: Regs, g: Log, p: Pins, ready: bool, first: Word, second: Word)
    requires Shaped(d, s) && s.y.write.StartWrite? && ReaderInv(d, s.y, g)
    requires Commits(d, s.u, p, |g.words|, first, second)
    ensures var y', g' := SyncEdge(d, s, p, ready), RecordSync(d, s, g, p, ready);
      && ReaderInv(d, y', g') && g'.words == g.words && y'.count == s.y.count - Fetched(s.y, ready)
      && y'.mem == s.y.mem[Wrap(|g.words|, d) := first]
      && y'.write == (if s.u.capture.CapturePacket? then FinishHeader else FinishEvent)
      && y'.pending == if s.u.capture.CapturePacket? then s.y.pending else EVENT_WORDS
  {
    hide Wrap, NextWord, WriteWord;
    ReaderCounts(d, s.y, g);
    SpareSlot(s.y.mem, g.words, g.popped, |g.words|, first);
    HoldsLess(MemNext(d, s, p), g.words, g.popped, g.popped + Fetched(s.y, ready));
    SyncKeepsReader(d, s, g, p, ready);
  }

  lemma SecondWordMem(d: nat, s: Regs, k: nat, p: Pins, first: Word, second: Word)
    requires Shaped(d, s) && Commits(d, s.u, p, k, first, second)
    requires s.y.write == if s.u.capture.CapturePacket? then FinishHeader else FinishEvent
    ensures MemNext(d, s, p) == s.y.mem[Wrap(k + 1, d) := second]
  {
    hide Wrap, NextWord;
    WrapAdd(k, 1, d);
  }

  lemma SecondWordEdge(d: nat, s: Regs, g: Log, p: Pins, ready: bool, first: Word, second: Word)
    requires Shaped(d, s) && ReaderInv(d, s.y, g) && s.y.count - Fetched(s.y, ready) + s.y.pending < d
    requires s.y.pending >= 2
    requires s.y.write == if s.u.capture.CapturePacket? then FinishHeader else FinishEvent
    requires Commits(d, s.u, p, |g.words|, first, second)
    ensures var y', g' := SyncEdge(d, s, p, ready), RecordSync(d, s, g, p, ready);
      && ReaderInv(d, y', g') && y'.write.StartWrite?
      && g'.words == g.words + RingSlice(s.y.mem[Wrap(|g.words| + 1, d) := second], |g.words|, s.y.pending)
  {
    hide Wrap, NextWord, WriteWord, RingSlice, MemNext, ReaderInv;
    ReaderCounts(d, s.y, g);
    SecondWordMem(d, s, |g.words|, p, first, second);
    SpareSlot(s.y.mem, g.words, g.popped, |g.words| + 1, second);
    HoldsLess(MemNext(d, s, p), g.words, g.popped, g.popped + Fetched(s.y, ready));
    SyncKeepsReader(d, s, g, p, ready);
  }

  /** The reader's side of a cycle in which a header or an event is written and committed. */
  lemma CommitEdges(d: nat, s: Regs, g: Log, p: Pins, ready0: bool, ready1: bool, first: Word, second: Word,
                    pending: nat)
    requires Shaped(d, s) && s.y.write.StartWrite? && ReaderInv(d, s.y, g)
    requires Commits(d, s.u, p, |g.words|, first, second)
    requires pending == (if s.u.capture.CapturePacket? then s.y.pending else EVENT_WORDS) >= 2
    requires s.y.count - Fetches(d, s, p, ready0, ready1) + pending < d
    ensures var mid, g1 := Mid(d, s, p, ready0), RecordSync(d, s, g, p, ready0);
      var y', g' := SyncEdge(d, mid, p, ready1), RecordSync(d, mid, g1, p, ready1);
      var mem := s.y.mem[Wrap(|g.words|, d) := first][Wrap(|g.words| + 1, d) := second];
      && ReaderInv(d, y', g') && y'.write.StartWrite?
      && g'.words == g.words + RingSlice(mem, |g.words|, pending)
  {
    hide Wrap, SyncEdge, RecordSync, RingSlice, ReaderInv, Commits;
    FirstWordEdge(d, s, g, p, ready0, first, second);
    SecondWordEdge(d, Mid(d, s, p, ready0), RecordSync(d, s, g, p, ready0), p, ready1, first, second);
  }

  lemma ByteUsbEdge(d: nat, s: Regs, p: Pins, cursor: nat, since: nat)
    requires Shaped(d, s) && WritePacket(s.u, p) && s.u.size < MAX_COUNTABLE_BYTES
    requires s.u.writeByte == Wrap(cursor, 2 * d) && s.u.time == since % WRAP
    ensures UsbEdge(d, s, p) == UsbRegs(
      if s.y.count + s.y.pending == d - 1 then Overrun else CapturePacket,
      Wrap(cursor + 1, 2 * d), s.u.headerWord, s.u.size + 1, s.u.packetTime, (since + 1) % WRAP)
  {
    hide Wrap;
    TimeFollows(since);
    WrapAdd(cursor, 1, 2 * d);
  }

  lemma EventUsbEdge(d: nat, s: Regs, p: Pins, cursor: nat, since: nat)
    requires Shaped(d, s) && WriteEvent(s.u, p)
    requires s.u.writeByte == Wrap(cursor, 2 * d) && s.u.time == since % WRAP
    ensures UsbEdge(d, s, p) ==
      s.u.(writeByte := Wrap(cursor + cursor % 2 + EVENT_BYTES, 2 * d), time := (since + 1) % WRAP)
  {
    hide Wrap;
    TimeFollows(since);
    ByteAddress(cursor, d);
    WrapAdd(cursor, cursor % 2 + EVENT_BYTES, 2 * d);
  }

  /** The cycle in which a packet ends: its header is patched in and the whole packet committed. */
  lemma HeaderCycle(d: nat, s: Regs, h: History, p: Pins, ready0: bool, ready1: bool)
    requires Inv(d, s, h) && WriteHeader(s.u, p)
    requires s.y.count - Fetches(d, s, p, ready0, ready1) + s.y.pending < d
    ensures Inv(d, Cycle(d, s, p, ready0, ready1), Record(d, s, h, p, ready0, ready1))
  {
    hide MemNext, SyncEdge, RecordSync, ReaderInv, Parse, Wrap, BytesIn, Matches, RingSlice, Fetches;
    TimeFollows(h.session.since);
    var (bytes, time) := (h.session.phase.bytes, h.session.phase.time);
    var k := |h.log.words|;
    CommitEdges(d, s, h.log, p, ready0, ready1, ToWord(|bytes|), ToWord(time), s.y.pending);
    HeaderCompletes(s.y.mem, k, bytes, time);
    var mem := s.y.mem[Wrap(k, d) := ToWord(|bytes|)][Wrap(k + 1, d) := ToWord(time)];
    ParseAppend(h.log.words, h.session.items, RingSlice(mem, k, s.y.pending), Packet(bytes, time));
  }

  lemma RolloverChunk(mem: seq<Word>, k: nat)
    requires |mem| > 1
    ensures var mem' := mem[Wrap(k, |mem|) := Word(0xFF, ROLLOVER.code)][Wrap(k + 1, |mem|) := ToWord(0xFFFF)];
      Matches(RingSlice(mem', k, EVENT_WORDS), ROLLOVER)
  {
    hide Wrap;
    var d := |mem|;
    var mem' := mem[Wrap(k, d) := Word(0xFF, ROLLOVER.code)][Wrap(k + 1, d) := ToWord(0xFFFF)];
    SlotsDiffer(k, k + 1, d);
    var chunk := RingSlice(mem', k, EVENT_WORDS);
    assert chunk[0] == mem'[Wrap(k + 0, d)] && chunk[1] == mem'[Wrap(k + 1, d)];
  }

  /** The cycle in which the counter is about to wrap between packets: a rollover event is committed. */
  lemma EventCycle(d: nat, s: Regs, h: History, p: Pins, ready0: bool, ready1: bool)
    requires Inv(d, s, h) && WriteEvent(s.u, p) && s.y.count - Fetches(d, s, p, ready0, ready1) + EVENT_WORDS < d
    ensures Inv(d, Cycle(d, s, p, ready0, ready1), Record(d, s, h, p, ready0, ready1))
  {
    hide MemNext, SyncEdge, UsbEdge, RecordSync, ReaderInv, Parse, Wrap, RingSlice, Matches, Fetches;
    var k := |h.log.words|;
    ByteAddress(h.cursor, d);
    CommitEdges(d, s, h.log, p, ready0, ready1, Word(0xFF, ROLLOVER.code), ToWord(0xFFFF), EVENT_WORDS);
    RolloverChunk(s.y.mem, k);
    EventUsbEdge(d, Mid(d, s, p, ready0), p, h.cursor, h.session.since);
    var mem := s.y.mem[Wrap(k, d) := Word(0xFF, ROLLOVER.code)][Wrap(k + 1, d) := ToWord(0xFFFF)];
    ParseAppend(h.log.words, h.session.items, RingSlice(mem, k, EVENT_WORDS), ROLLOVER);
  }

  /** If both edges are clear, what the cycle commits finds room. */
  lemma ClearMeansRoom(d: nat, s: Regs, p: Pins, ready0: bool, ready1: bool)
    requires Shaped(d, s) && s.y.write.StartWrite? && CycleClear(d, s, p, ready0, ready1)
    ensures HasRoom(d, s, p, ready0, ready1)
  {
    hide MemNext, Wrap, SlotClear;
  }

  /** Every usb cycle whose edges are clear, in a packet not too long, keeps the invariant. */
  lemma CycleKeepsInv(d: nat, s: Regs, h: History, p: Pins, ready0: bool, ready1: bool)
    requires Inv(d, s, h) && RoomOk(d, s, p, ready0, ready1)
    ensures Inv(d, Cycle(d, s, p, ready0, ready1), Record(d, s, h, p, ready0, ready1))
  {
    ClearMeansRoom(d, s, p, ready0, ready1);
    hide Inv, Cycle, Record, RoomOk, Fetches;
    if Discarding(s.u, p) {
      DiscardCycle(d, s, h, p, ready0, ready1);
    } else if StartsPacket(s.u, p) {
      StartCycle(d, s, h, p, ready0, ready1);
    } else if WriteEvent(s.u, p) {
      EventCycle(d, s, h, p, ready0, ready1);
    } else if WritePacket(s.u, p) {
      ByteCycle(d, s, h, p, ready0, ready1);
    } else if WriteHeader(s.u, p) {
      HeaderCycle(d, s, h, p, ready0, ready1);
    } else {
      IdleCycle(d, s, h, p, ready0, ready1);
    }
  }

  /**
    Burst hand-off: while nothing is being discarded, a word the reader takes that is not
    marked last is followed by another one at the very next sync edge.
  */
  lemma BurstHandOff(d: nat, s: Regs, g: Log, p: Pins, ready0: bool, ready1: bool)
    requires Shaped(d, s) && ReaderInv(d, s.y, g) && EdgeClear(d, s, p, ready0) && !Discarding(s.u, p)
    ensures s.y.valid && ready0 && !s.y.last ==> Mid(d, s, p, ready0).y.valid
    ensures var mid := Mid(d, s, p, ready0);
      mid.y.valid && ready1 && !mid.y.last ==> Cycle(d, s, p, ready0, ready1).y.valid
  {
    ClearKeepsReader(d, s, g, p, ready0);
    hide EdgeClear, MemNext, CountInv;
  }

  // ---- Whole runs ----

  datatype Stimulus = Stimulus(pins: Pins, ready0: bool, ready1: bool)

  datatype Sim = Sim(regs: Regs, hist: History)

  function Next(d: nat, x: Sim, t: Stimulus): (y: Sim)
    requires Shaped(d, x.regs)
    ensures Shaped(d, y.regs)
  {
    Sim(Cycle(d, x.regs, t.pins, t.ready0, t.ready1), Record(d, x.regs, x.hist, t.pins, t.ready0, t.ready1))
  }

  function Run(d: nat, x: Sim, trace: seq<Stimulus>): (y: Sim)
    requires Shaped(d, x.regs)
    ensures Shaped(d, y.regs)
    decreases |trace|
  {
    if trace == [] then x else Run(d, Next(d, x, trace[0]), trace[1..])
  }

  /** Every edge of the run is clear, and no packet in it is too long. */
  predicate RoomRun(d: nat, x: Sim, trace: seq<Stimulus>)
    requires Shaped(d, x.regs)
    decreases |trace|
  {
    trace == [] ||
    (&& RoomOk(d, x.regs, trace[0].pins, trace[0].ready0, trace[0].ready1)
     && RoomRun(d, Next(d, x, trace[0]), trace[1..]))
  }

  predicate NoOverrun(d: nat, x: Sim, trace: seq<Stimulus>)
    requires Shaped(d, x.regs)
    decreases |trace|
  {
    !x.regs.u.capture.Overrun? && (trace == [] || NoOverrun(d, Next(d, x, trace[0]), trace[1..]))
  }

  /** The ideal capture of a trace: pins only, no buffer, nothing lost. */
  function Observe(x: Session, trace: seq<Stimulus>): Session
    decreases |trace|
  {
    if trace == [] then x else Observe(SessionStep(x, trace[0].pins, false), trace[1..])
  }

  /** Power-on: registers zero, the memory and its output register anything. */
  function PowerOn(d: nat, mem: seq<Word>, payload: Word): Sim {
    Sim(Regs(UsbRegs(AwaitStart, 0, 0, 0, 0, 0), SyncRegs(StartWrite, 0, 0, 0, false, false, payload, mem)),
        History(Log([], 0, []), 0, NEW_SESSION))
  }

  lemma PowerOnInv(d: nat, mem: seq<Word>, payload: Word)
    requires d >= 4 && |mem| == d
    ensures var x := PowerOn(d, mem, payload); Inv(d, x.regs, x.hist) && ClockInv(x.hist.session)
  {
    assert Parse([]) == Some([]);
  }

  lemma {:induction false} RunKeepsInv(d: nat, x: Sim, trace: seq<Stimulus>)
    requires Inv(d, x.regs, x.hist) && ClockInv(x.hist.session) && RoomRun(d, x, trace)
    ensures var y := Run(d, x, trace); Inv(d, y.regs, y.hist) && ClockInv(y.hist.session)
    decreases |trace|
  {
    hide Cycle, WriterInv, ReaderInv, Parse, ClockInv, SessionStep, RecordSync;
    if trace != [] {
      var t := trace[0];
      CycleKeepsInv(d, x.regs, x.hist, t.pins, t.ready0, t.ready1);
      StepKeepsClock(x.hist.session, t.pins,
        !x.regs.u.capture.Overrun? && UsbEdge(d, Mid(d, x.regs, t.pins, t.ready0), t.pins).capture.Overrun?);
      RunKeepsInv(d, Next(d, x, t), trace[1..]);
    }
  }

  lemma {:induction false} NoOverrunIsIdeal(d: nat, x: Sim, trace: seq<Stimulus>)
    requires Shaped(d, x.regs) && NoOverrun(d, x, trace)
    ensures Run(d, x, trace).hist.session == Observe(x.hist.session, trace)
    decreases |trace|
  {
    hide UsbEdge, SyncEdge, RecordSync, SessionStep;
    if trace != [] {
      var y := Next(d, x, trace[0]);
      assert !y.regs.u.capture.Overrun?;
      NoOverrunIsIdeal(d, y, trace[1..]);
    }
  }

  /**
    Capture round trip, for every trace of pins and every back-pressure whose edges are all
    clear: the committed words parse to exactly the session's items; the words passed on, the
    one on offer and those still in the ring are the committed words, in order; and without an
    overrun those items are what the pins showed, packet by packet.
  */
  lemma CaptureRoundTrip(d: nat, mem: seq<Word>, payload: Word, trace: seq<Stimulus>, y: Sim)
    requires d >= 4 && |mem| == d
    requires RoomRun(d, PowerOn(d, mem, payload), trace) && y == Run(d, PowerOn(d, mem, payload), trace)
    ensures var g, r := y.hist.log, y.regs.y;
      && Parse(g.words) == Some(y.hist.session.items)
      && g.out + (if r.valid then [r.payload] else []) + RingSlice(r.mem, g.popped, r.count) == g.words
    ensures !y.regs.y.valid && y.regs.y.count == 0 ==> Parse(y.hist.log.out) == Some(y.hist.session.items)
    ensures NoOverrun(d, PowerOn(d, mem, payload), trace) ==> y.hist.session == Observe(NEW_SESSION, trace)
    ensures ClockInv(y.hist.session)
  {
    hide Parse, ClockInv, Observe, NoOverrun, SessionStep, Cycle, Record, Wrap;
    PowerOnInv(d, mem, payload);
    RunKeepsInv(d, PowerOn(d, mem, payload), trace);
    var g, r := y.hist.log, y.regs.y;
    WordsConserved(d, r, g);
    if !r.valid && r.count == 0 {
      assert g.out == g.words;
    }
    if NoOverrun(d, PowerOn(d, mem, payload), trace) {
      NoOverrunIsIdeal(d, PowerOn(d, mem, payload), trace);
    }
  }

  /** Once a packet has overrun, nothing is committed until the next session empties the ring. */
  lemma OverrunStaysHidden(d: nat, s: Regs, h: History, p: Pins, ready0: bool, ready1: bool)
    requires Inv(d, s, h) && (s.u.capture.Overrun? || s.u.capture.AwaitStart?)
    ensures var s', h' := Cycle(d, s, p, ready0, ready1), Record(d, s, h, p, ready0, ready1);
      && (h'.log.words == h.log.words || h'.log.words == [])
      && (s.u.capture.Overrun? ==> h'.log.words == h.log.words && !s'.u.capture.AwaitPacket?)
      && (!s'.u.capture.Overrun? && !s'.u.capture.AwaitStart? ==> s'.u.capture.AwaitPacket? && h'.log.words == [])
  {
    hide MemNext, Parse, Wrap, ReaderInv;
    if !Discarding(s.u, p) {
      QuietCycle(d, s, h, p, ready0, ready1);
    }
  }

  /** A word is offered as the last one exactly if no other was committed when it was fetched. */
  lemma LastExact(d: nat, s: Regs, g: Log, p: Pins, ready: bool)
    requires Shaped(d, s) && CountInv(d, s.y, g) && !Discarding(s.u, p) && Popped(s.y, ready)
    ensures SyncEdge(d, s, p, ready).valid
    ensures SyncEdge(d, s, p, ready).last <==> g.popped + 1 == |g.words|
  {
    hide MemNext, Wrap, WriteStateNext, PendingNext;
  }

  /**
    An overrun is entered exactly in a cycle whose byte brings the words unread after its first
    edge, with the header and the words of the packet, to one less than the ring holds.
  */
  lemma OverrunIff(d: nat, s: Regs, h: History, p: Pins, ready0: bool, ready1: bool)
    requires Inv(d, s, h) && SizeOk(d, s, p) && !s.u.capture.Overrun?
    ensures Cycle(d, s, p, ready0, ready1).u.capture.Overrun? <==>
      && s.u.capture.CapturePacket? && p.rxActive && p.rxValid
      && s.y.count - Fetched(s.y, ready0) + HEADER_WORDS + WordsFor(s.u.size + 1) == d - 1
  {
    hide MemNext, Parse, RingHolds, StreamInv, BytesIn;
    if WritePacket(s.u, p) {
      ByteSlot(d, s, h);
      EdgeCounts(d, s, h.log, p, ready0);
      PendingGrows(s.u.size);
      hide Wrap;
    }
  }

  // ---- Exactly when room is enough ----

  /** The words counted are those committed and not yet fetched. */
  ghost predicate Counted(d: nat, s: Regs, g: Log) {
    Shaped(d, s) && s.y.write.StartWrite? && g.popped + s.y.count == |g.words|
  }

  /**
    Whatever the reader does, a cycle keeps the count of committed words true if and only if
    what it commits fits beside the words still unread; otherwise the count wraps.
  */
  lemma CycleCountsIff(d: nat, s: Regs, h: History, p: Pins, ready0: bool, ready1: bool)
    requires Counted(d, s, h.log)
    ensures Counted(d, Cycle(d, s, p, ready0, ready1), Record(d, s, h, p, ready0, ready1).log) <==>
      HasRoom(d, s, p, ready0, ready1)
  {
    hide MemNext, UsbEdge, RecordUsb;
    if !Discarding(s.u, p) {
      var mid, g1 := Mid(d, s, p, ready0), RecordSync(d, s, h.log, p, ready0);
      EdgeCounts(d, s, h.log, p, ready0);
      EdgeCounts(d, mid, g1, p, ready1);
      var n := mid.y.count - Fetched(mid.y, ready1) + Committed(s, p);
      assert Wrap(n, d) == n <==> n < d;
      hide Wrap, RecordSync;
    }
  }

  /** The count is true at every moment of a run. */
  ghost predicate CountedRun(d: nat, x: Sim, trace: seq<Stimulus>)
    requires Shaped(d, x.regs)
    decreases |trace|
  {
    Counted(d, x.regs, x.hist.log) && (trace == [] || CountedRun(d, Next(d, x, trace[0]), trace[1..]))
  }

  /** Every commit of a run finds room. */
  predicate CommitsFit(d: nat, x: Sim, trace: seq<Stimulus>)
    requires Shaped(d, x.regs)
    decreases |trace|
  {
    trace == [] ||
    (&& HasRoom(d, x.regs, trace[0].pins, trace[0].ready0, trace[0].ready1)
     && CommitsFit(d, Next(d, x, trace[0]), trace[1..]))
  }

  /**
    Over every run, with no hypothesis on space: the count stays true throughout if and only if
    every commit finds room.
  */
  lemma {:induction false} RunCountsIff(d: nat, x: Sim, trace: seq<Stimulus>)
    requires Counted(d, x.regs, x.hist.log)
    ensures CountedRun(d, x, trace) <==> CommitsFit(d, x, trace)
    decreases |trace|
  {
    hide Cycle, Record, HasRoom;
    if trace != [] {
      var t := trace[0];
      CycleCountsIff(d, x.regs, x.hist, t.pins, t.ready0, t.ready1);
      if HasRoom(d, x.regs, t.pins, t.ready0, t.ready1) {
        RunCountsIff(d, Next(d, x, t), trace[1..]);
      }
    }
  }

  /** A rollover event is recorded safely, with all that the invariant says, if and only if it finds room. */
  lemma EventNeedsRoom(d: nat, s: Regs, h: History, p: Pins, ready0: bool, ready1: bool)
    requires Inv(d, s, h) && WriteEvent(s.u, p)
    ensures Inv(d, Cycle(d, s, p, ready0, ready1), Record(d, s, h, p, ready0, ready1)) <==>
      s.y.count - Fetches(d, s, p, ready0, ready1) + EVENT_WORDS < d
  {
    hide MemNext, SyncEdge, UsbEdge, RecordSync, RecordUsb, Parse, Wrap, RingHolds, StreamInv, WriterInv, Fetches;
    CycleCountsIff(d, s, h, p, ready0, ready1);
    if s.y.count - Fetches(d, s, p, ready0, ready1) + EVENT_WORDS < d {
      EventCycle(d, s, h, p, ready0, ready1);
    }
  }

  /** A packet's commit keeps the count true if and only if it finds room, however full the ring became. */
  lemma PacketNeedsRoom(d: nat, s: Regs, h: History, p: Pins, ready0: bool, ready1: bool)
    requires Counted(d, s, h.log) && WriteHeader(s.u, p)
    ensures var s', g' := Cycle(d, s, p, ready0, ready1), Record(d, s, h, p, ready0, ready1).log;
      g'.popped + s'.y.count == |g'.words| <==> s.y.count - Fetches(d, s, p, ready0, ready1) + s.y.pending < d
  {
    hide MemNext, UsbEdge, RecordUsb, RecordSync, Wrap, Fetches;
    CycleCountsIff(d, s, h, p, ready0, ready1);
    CommitReturns(d, s, p, ready0, ready1);
  }

  lemma CommitReturns(d: nat, s: Regs, p: Pins, ready0: bool, ready1: bool)
    requires Shaped(d, s) && s.y.write.StartWrite? && WriteHeader(s.u, p)
    ensures Cycle(d, s, p, ready0, ready1).y.write.StartWrite?
  {
    hide MemNext, Wrap;
  }

  /** At every sync edge of a run, the count is true and the unread words are whole. */
  ghost predicate SafeRun(d: nat, x: Sim, trace: seq<Stimulus>)
    requires Shaped(d, x.regs)
    decreases |trace|
  {
    && CountInv(d, x.regs.y, x.hist.log)
    && (trace == [] ||
        var (s, t) := (x.regs, trace[0]);
        && CountInv(d, Mid(d, s, t.pins, t.ready0).y, RecordSync(d, s, x.hist.log, t.pins, t.ready0))
        && SafeRun(d, Next(d, x, t), trace[1..]))
  }

  predicate ClearRun(d: nat, x: Sim, trace: seq<Stimulus>)
    requires Shaped(d, x.regs)
    decreases |trace|
  {
    trace == [] ||
    (&& CycleClear(d, x.regs, trace[0].pins, trace[0].ready0, trace[0].ready1)
     && ClearRun(d, Next(d, x, trace[0]), trace[1..]))
  }

  /**
    Over every run, with no hypothesis at all: no unread word is overwritten and the count stays
    true throughout if and only if every commit finds room and every write spares the unread
    words or leaves them as they are.
  */
  lemma {:induction false} RunSafeIff(d: nat, x: Sim, trace: seq<Stimulus>)
    requires Shaped(d, x.regs) && CountInv(d, x.regs.y, x.hist.log)
    ensures SafeRun(d, x, trace) <==> ClearRun(d, x, trace)
    decreases |trace|
  {
    hide SyncEdge, UsbEdge, RecordSync, RecordUsb, CountInv, EdgeClear;
    if trace != [] {
      var (s, g, t) := (x.regs, x.hist.log, trace[0]);
      var mid, g1 := Mid(d, s, t.pins, t.ready0), RecordSync(d, s, g, t.pins, t.ready0);
      EdgeClearIff(d, s, g, t.pins, t.ready0);
      if EdgeClear(d, s, t.pins, t.ready0) {
        EdgeClearIff(d, mid, g1, t.pins, t.ready1);
        if EdgeClear(d, mid, t.pins, t.ready1) {
          RunSafeIff(d, Next(d, x, t), trace[1..]);
        }
      }
    }
  }

  /** In such a run the reader gets the committed words, in order. */
  lemma {:induction false} ClearRunIsHonest(d: nat, x: Sim, trace: seq<Stimulus>)
    requires Shaped(d, x.regs) && ReaderInv(d, x.regs.y, x.hist.log) && ClearRun(d, x, trace)
    ensures var y := Run(d, x, trace); ReaderInv(d, y.regs.y, y.hist.log) && y.hist.log.out <= y.hist.log.words
    decreases |trace|
  {
    hide SyncEdge, UsbEdge, RecordSync, RecordUsb, EdgeClear, CountInv;
    if trace != [] {
      var (s, g, t) := (x.regs, x.hist.log, trace[0]);
      ClearKeepsReader(d, s, g, t.pins, t.ready0);
      ClearKeepsReader(d, Mid(d, s, t.pins, t.ready0), RecordSync(d, s, g, t.pins, t.ready0), t.pins, t.ready1);
      ClearRunIsHonest(d, Next(d, x, t), trace[1..]);
    } else {
      assert x.hist.log.out == x.hist.log.words[..|x.hist.log.out|];
    }
  }

  /** While a packet is open, its byte's slot is clear exactly if the packet has not caught up with the unread words. */
  lemma ByteClearIff(d: nat, s: Regs, h: History, p: Pins, ready: bool)
    requires Inv(d, s, h) && WritePacket(s.u, p) && HEADER_WORDS + s.u.size / 2 < d
    ensures var slot := WriteWord(d, s.u);
      EdgeClear(d, s, p, ready) <==>
      || s.y.count - Fetched(s.y, ready) + HEADER_WORDS + s.u.size / 2 < d
      || Lane(s.y.mem[slot], s.u.writeByte) == p.rxData
  {
    hide Wrap, Parse, BytesIn, StreamInv, WriteWord;
    var off := HEADER_WORDS + s.u.size / 2;
    var i := |h.log.words| + off;
    ByteSlot(d, s, h);
    assert WriteSlot(d, s, p) == Some(WriteWord(d, s.u)) by {
      WrapInRange(d);
    }
    UnreadIff(d, s.y, h.log, ready, WriteWord(d, s.u));
    SlotOfOther(h.log.popped + Fetched(s.y, ready), |h.log.words|, i, d);
    LaneUnchanged(s.y.mem[WriteWord(d, s.u)], s.u.writeByte, p.rxData);
  }

  lemma LaneUnchanged(w: Word, i: nat, b: Byte)
    ensures SetLane(w, i, b) == w <==> Lane(w, i) == b
  {
  }

  /**
    The slot of a word beyond the unread ones, but within a ring of their end, holds an unread one
    just if it is a ring beyond the first.
  */
  lemma SlotOfOther(from: nat, end: nat, i: nat, d: nat)
    requires d > 0 && end <= i < end + d && end <= from + d
    ensures (exists j: nat :: from <= j < end && Wrap(j, d) == Wrap(i, d)) <==> from + d <= i
  {
    hide Wrap;
    if from + d <= i {
      WrapAdd(i - d, d, d);
      WrapSame(i - d, d);
      assert from <= i - d < end && Wrap(i - d, d) == Wrap(i, d);
    }
    forall j: nat | from <= j < end && Wrap(j, d) == Wrap(i, d) ensures from + d <= i {
      if i < j + d {
        SlotsDiffer(j, i, d);
      }
    }
  }

  // ---- A hypothesis a designer can check ahead ----

  /** Room for what this cycle begins, and no packet too long for the 11-bit count. */
  predicate SpaceOk(d: nat, s: Regs, p: Pins) {
    && (StartsPacket(s.u, p) ==> s.y.count + 4 <= d)
    && (WriteEvent(s.u, p) ==> s.y.count + 3 <= d)
    && (WritePacket(s.u, p) ==> s.u.size < MAX_COUNTABLE_BYTES)
  }

  predicate SpaceRun(d: nat, x: Sim, trace: seq<Stimulus>)
    requires Shaped(d, x.regs)
    decreases |trace|
  {
    trace == [] || (SpaceOk(d, x.regs, trace[0].pins) && SpaceRun(d, Next(d, x, trace[0]), trace[1..]))
  }

  /** An open packet and all committed words leave two places free. */
  predicate Roomy(d: nat, s: Regs) {
    s.u.capture.CapturePacket? ==> s.y.count + s.y.pending + 2 <= d
  }

  lemma SpaceKeepsReader(d: nat, s: Regs, h: History, p: Pins, ready0: bool, ready1: bool)
    requires Inv(d, s, h) && Roomy(d, s) && SpaceOk(d, s, p)
    ensures CycleClear(d, s, p, ready0, ready1)
  {
    hide MemNext, SyncEdge, RecordSync, UsbEdge, StreamInv, Parse, Wrap, BytesIn, Aligned, EdgeClear;
    var mid, g1 := Mid(d, s, p, ready0), RecordSync(d, s, h.log, p, ready0);
    EdgeClearIff(d, s, h.log, p, ready0);
    if CountInv(d, mid.y, g1) {
      EdgeClearIff(d, mid, g1, p, ready1);
    }
    SpaceKeepsCount(d, s, h, p, ready0, ready1);
  }

  lemma SpaceKeepsCount(d: nat, s: Regs, h: History, p: Pins, ready0: bool, ready1: bool)
    requires Inv(d, s, h) && Roomy(d, s) && SpaceOk(d, s, p)
    ensures var mid, g1 := Mid(d, s, p, ready0), RecordSync(d, s, h.log, p, ready0);
      CountInv(d, mid.y, g1) && CountInv(d, SyncEdge(d, mid, p, ready1), RecordSync(d, mid, g1, p, ready1))
  {
    hide MemNext, SyncEdge, RecordSync, UsbEdge, ReaderInv, Parse, Wrap, BytesIn;
    var mid, g1 := Mid(d, s, p, ready0), RecordSync(d, s, h.log, p, ready0);
    if Discarding(s.u, p) {
      DiscardKeepsReader(d, s, h.log, p, ready0);
      DiscardKeepsReader(d, mid, g1, p, ready1);
    } else if WritePacket(s.u, p) {
      ReaderCounts(d, s.y, h.log);
      PendingGrows(s.u.size);
      ByteClearIff(d, s, h, p, ready0);
      ByteEdge(d, s, h.log, p, ready0);
      QuietEdge(d, mid, g1, p, ready1);
    } else if WriteHeader(s.u, p) {
      CommitsHeader(d, s, h, p, ready0, ready1);
    } else if WriteEvent(s.u, p) {
      CommitsEvent(d, s, h, p, ready0, ready1);
    } else {
      QuietEdge(d, s, h.log, p, ready0);
      QuietEdge(d, mid, g1, p, ready1);
    }
    ReaderCountsOnly(d, mid.y, g1);
    ReaderCountsOnly(d, SyncEdge(d, mid, p, ready1), RecordSync(d, mid, g1, p, ready1));
  }

  lemma ReaderCountsOnly(d: nat, y: SyncRegs, g: Log)
    ensures ReaderInv(d, y, g) ==> CountInv(d, y, g)
  {
  }

  lemma CommitsHeader(d: nat, s: Regs, h: History, p: Pins, ready0: bool, ready1: bool)
    requires Inv(d, s, h) && Roomy(d, s) && WriteHeader(s.u, p)
    ensures var mid, g1 := Mid(d, s, p, ready0), RecordSync(d, s, h.log, p, ready0);
      ReaderInv(d, mid.y, g1) && ReaderInv(d, SyncEdge(d, mid, p, ready1), RecordSync(d, mid, g1, p, ready1))
  {
    hide MemNext, SyncEdge, RecordSync, ReaderInv, Parse, Wrap, BytesIn, RingSlice;
    FirstWordEdge(d, s, h.log, p, ready0, ToWord(s.u.size), ToWord(s.u.packetTime));
    CommitEdges(d, s, h.log, p, ready0, ready1, ToWord(s.u.size), ToWord(s.u.packetTime), s.y.pending);
  }

  lemma CommitsEvent(d: nat, s: Regs, h: History, p: Pins, ready0: bool, ready1: bool)
    requires Inv(d, s, h) && WriteEvent(s.u, p) && SpaceOk(d, s, p)
    ensures var mid, g1 := Mid(d, s, p, ready0), RecordSync(d, s, h.log, p, ready0);
      ReaderInv(d, mid.y, g1) && ReaderInv(d, SyncEdge(d, mid, p, ready1), RecordSync(d, mid, g1, p, ready1))
  {
    hide MemNext, SyncEdge, RecordSync, ReaderInv, Parse, Wrap, RingSlice;
    ByteAddress(h.cursor, d);
    FirstWordEdge(d, s, h.log, p, ready0, Word(0xFF, ROLLOVER.code), ToWord(s.u.time));
    CommitEdges(d, s, h.log, p, ready0, ready1, Word(0xFF, ROLLOVER.code), ToWord(s.u.time), EVENT_WORDS);
  }

  /** The overrun test keeps an open packet clear of the unread words if it starts with room to spare. */
  lemma RoomyStays(d: nat, s: Regs, h: History, p: Pins, ready0: bool, ready1: bool)
    requires Inv(d, s, h) && Roomy(d, s) && SpaceOk(d, s, p)
    ensures Roomy(d, Cycle(d, s, p, ready0, ready1))
  {
    hide MemNext, RecordSync, ReaderInv, Parse, Wrap, BytesIn;
    if !Discarding(s.u, p) {
      ReaderCounts(d, s.y, h.log);
      EdgeCounts(d, s, h.log, p, ready0);
      EdgeCounts(d, Mid(d, s, p, ready0), RecordSync(d, s, h.log, p, ready0), p, ready1);
      PendingGrows(s.u.size);
    }
  }

  /** Room at the starts of packets and at events is enough. */
  lemma {:induction false} SpaceSuffices(d: nat, x: Sim, trace: seq<Stimulus>)
    requires Inv(d, x.regs, x.hist) && Roomy(d, x.regs) && SpaceRun(d, x, trace)
    ensures RoomRun(d, x, trace)
    decreases |trace|
  {
    hide Cycle, Record, CycleClear, Parse;
    if trace != [] {
      var (s, h, t) := (x.regs, x.hist, trace[0]);
      SpaceKeepsReader(d, s, h, t.pins, t.ready0, t.ready1);
      SizeFits(d, s, h, t.pins);
      RoomyStays(d, s, h, t.pins, t.ready0, t.ready1);
      CycleKeepsInv(d, s, h, t.pins, t.ready0, t.ready1);
      hide Inv, Roomy, SpaceOk, SizeOk;
      SpaceSuffices(d, Next(d, x, t), trace[1..]);
    }
  }

  lemma SizeFits(d: nat, s: Regs, h: History, p: Pins)
    requires Inv(d, s, h) && Roomy(d, s) && SpaceOk(d, s, p)
    ensures SizeOk(d, s, p)
  {
    hide ReaderInv, Parse, BytesIn, Aligned;
    if WritePacket(s.u, p) {
      PendingGrows(s.u.size);
    }
  }

  /** One byte beyond the limit makes the 11-bit count of uncommitted words wrap to zero. */
  lemma OverlongPacketWraps(d: nat, s: Regs, h: History, p: Pins, ready0: bool, ready1: bool)
    requires Inv(d, s, h) && WritePacket(s.u, p) && s.u.size == MAX_COUNTABLE_BYTES
    ensures Cycle(d, s, p, ready0, ready1).y.pending == 0
  {
    hide MemNext, Parse, BytesIn, ReaderInv;
    ByteSlot(d, s, h);
    assert s.y.pending == 2047 && s.u.writeByte % 2 == 0;
    assert Wrap(2048, PENDING_RANGE) == 0;
  }

  // ---- The registers, updated in place ----

  class Analyzer {
    const depth: nat
    const mem: array<Word>
    // usb domain
    var capture: Capture
    var writeByte: nat
    var headerWord: nat
    var size: nat
    var packetTime: nat
    var time: nat
    // sync domain
    var write: WriteState
    var readWord: nat
    var count: nat
    var pending: nat
    var valid: bool
    var last: bool
    var payload: Word

    function Usb(): UsbRegs
      reads this
    {
      UsbRegs(capture, writeByte, headerWord, size, packetTime, time)
    }

    ghost function State(): Regs
      reads this, mem
    {
      Regs(Usb(), SyncRegs(write, readWord, count, pending, valid, last, payload, mem[..]))
    }

    constructor (mem: array<Word>, payload: Word)
      requires mem.Length >= 4
      ensures this.mem == mem && depth == mem.Length
      ensures State() == PowerOn(depth, mem[..], payload).regs
    {
      this.mem, depth, this.payload := mem, mem.Length, payload;
      capture, writeByte, headerWord, size, packetTime, time := AwaitStart, 0, 0, 0, 0, 0;
      write, readWord, count, pending, valid, last := StartWrite, 0, 0, 0, false, false;
    }

    /** The buffer-write state machine: at most one memory write, and the next state. */
    method StepWriteMachine(p: Pins)
      requires mem.Length == depth && Shaped(depth, State())
      modifies mem, this`write
      ensures mem[..] == MemNext(depth, old(State()), p)
      ensures write == WriteStateNext(old(State()), p)
    {
      hide Wrap;
      var nextWord := Wrap((writeByte + writeByte % 2) / 2, depth);
      match write
      case StartWrite =>
        if WritePacket(Usb(), p) {
          var slot := Wrap(writeByte / 2, depth);
          mem[slot] := if writeByte % 2 == 0 then mem[slot].(hi := p.rxData) else mem[slot].(lo := p.rxData);
          write := IdleWrite;
        } else if WriteHeader(Usb(), p) {
          mem[headerWord] := ToWord(size);
          write := FinishHeader;
        } else if WriteEvent(Usb(), p) {
          mem[nextWord] := Word(0xFF, ROLLOVER.code);
          write := FinishEvent;
        }
      case FinishHeader =>
        mem[Wrap(headerWord + 1, depth)] := ToWord(packetTime);
        write := StartWrite;
      case FinishEvent =>
        mem[Wrap(nextWord + 1, depth)] := ToWord(time);
        write := StartWrite;
      case IdleWrite =>
        write := StartWrite;
    }

    /** The uncommitted-word count; the last assignment that applies wins. */
    method StepPending(ghost s: Regs, starting: bool, p: Pins)
      requires Usb() == s.u && pending == s.y.pending && starting == s.y.write.StartWrite?
      modifies this`pending
      ensures pending == PendingNext(s, p)
    {
      if capture.AwaitStart? && p.enable {
        pending := 0;
      }
      if capture.AwaitPacket? && p.enable && (p.rxActive || time == 0xFFFF) {
        pending := if p.rxActive then HEADER_WORDS else EVENT_WORDS;
      }
      if starting && capture.CapturePacket? && p.rxActive && p.rxValid {
        pending := Wrap(pending + (if writeByte % 2 == 0 then 1 else 0), PENDING_RANGE);
      }
    }

    /** The output stream and the committed-word count. */
    method StepReader(ghost s: Regs, fetched: Word, committed: nat, p: Pins, ready: bool)
      requires Shaped(depth, s) && Usb() == s.u && fetched == s.y.mem[s.y.readWord]
      requires readWord == s.y.readWord && count == s.y.count && valid == s.y.valid && last == s.y.last
      requires payload == s.y.payload && committed == if Commit(s.y) then s.y.pending else 0
      modifies this`readWord, this`count, this`valid, this`last, this`payload
      ensures var y := SyncEdge(depth, s, p, ready);
        readWord == y.readWord && count == y.count && valid == y.valid && last == y.last && payload == y.payload
    {
      hide Wrap, MemNext, WriteStateNext, PendingNext;
      var popped := 0;
      if !valid || ready {
        popped := if count != 0 then 1 else 0;
        last := count == 1;
        valid := count != 0;
        payload := if count != 0 then fetched else payload;
      }
      readWord := Wrap(readWord + popped, depth);
      count := Wrap(count - popped + committed, depth);
      if capture.AwaitStart? && p.enable {
        valid, readWord, count := false, 0, 0;
      }
    }

    /** A rising edge of sync. */
    method OnSyncEdge(p: Pins, ready: bool)
      requires mem.Length == depth && Shaped(depth, State())
      modifies mem, this`write, this`readWord, this`count, this`pending, this`valid, this`last, this`payload
      ensures State() == Regs(old(State()).u, SyncEdge(depth, old(State()), p, ready))
    {
      hide Wrap, MemNext, WriteStateNext, PendingNext;
      ghost var s := State();
      var committed := if write.FinishHeader? || write.FinishEvent? then pending else 0;
      var fetched := mem[readWord];
      var starting := write.StartWrite?;
      StepWriteMachine(p);
      StepPending(s, starting, p);
      StepReader(s, fetched, committed, p, ready);
    }

    /** The capture state machine and its counters: the usb registers after the next usb edge. */
    method NextUsb(p: Pins) returns (u: UsbRegs)
      requires mem.Length == depth && Shaped(depth, State())
      ensures u == UsbEdge(depth, State(), p)
    {
      hide Wrap;
      var odd := writeByte % 2;
      u := Usb().(time := Wrap(time + 1, WRAP));
      match capture
      case AwaitStart =>
        if p.enable {
          u := u.(writeByte := 0);
          if !p.rxActive {
            u := u.(capture := AwaitPacket, time := 0);
          }
        }
      case AwaitPacket =>
        if !p.enable {
          u := u.(capture := AwaitStart);
        } else if p.rxActive {
          u := u.(capture := CapturePacket, headerWord := Wrap((writeByte + odd) / 2, depth),
                  writeByte := Wrap(writeByte + odd + HEADER_BYTES, 2 * depth),
                  size := 0, packetTime := time, time := 0);
        } else if time == 0xFFFF {
          u := u.(writeByte := Wrap(writeByte + odd + EVENT_BYTES, 2 * depth));
        }
      case CapturePacket =>
        if p.rxValid && p.rxActive {
          u := u.(writeByte := Wrap(writeByte + 1, 2 * depth), size := Wrap(size + 1, WRAP));
          if count + pending == depth - 1 {
            u := u.(capture := Overrun);
          }
        }
        if !p.rxActive {
          u := u.(capture := AwaitPacket);
        }
      case Overrun =>
        if !p.enable {
          u := u.(capture := AwaitStart);
        }
    }

    /** One usb cycle: a sync edge, then a sync edge with the usb edge on it. */
    method OnUsbCycle(p: Pins, ready0: bool, ready1: bool)
      requires mem.Length == depth && Shaped(depth, State())
      modifies this, mem
      ensures State() == Cycle(depth, old(State()), p, ready0, ready1)
    {
      hide Wrap, SyncEdge, UsbEdge;
      OnSyncEdge(p, ready0);
      assert State() == Mid(depth, old(State()), p, ready0);
      var u := NextUsb(p);
      OnSyncEdge(p, ready1);
      capture, writeByte, headerWord, size, packetTime, time :=
        u.capture, u.writeByte, u.headerWord, u.size, u.packetTime, u.time;
    }
  }
}
