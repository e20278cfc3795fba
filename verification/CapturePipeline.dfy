/**
  The whole capture chain: analyzer, deep FIFO, byte converter and clock crossing, wired as in
  the gateware's top level. One usb cycle is a sync edge alone, then both clocks' edge.
*/
module CapturePipeline {
  import opened Options
  import opened Modular
  import opened Rings
  import opened Words
  import opened CaptureSpec
  import GrayCode
  import UsbAnalyzer
  import HyperRamFifo
  import Stream16to8
  import AsyncFifo

  /** Everything behind the analyzer. */
  datatype Tail = Tail(ram: HyperRamFifo.System, conv: Stream16to8.Regs, fifo: AsyncFifo.Regs<Byte>)

  /**
    The stages' histories; those of the deep FIFO and the converter start afresh with each
    session. `stale`: bytes that entered the clock crossing before this session did.
  */
  datatype Books = Books(ram: HyperRamFifo.Log, conv: Stream16to8.Log, fifo: AsyncFifo.History<Byte>, stale: nat)

  /** The PSRAM controller's outputs at a sync edge. */
  datatype Strobes = Strobes(writeReady: bool, readReady: bool, idle: bool)

  /**
    The usb side of the clock crossing at a usb edge: the host takes a byte or not, and what the
    synchroniser catches.
  */
  datatype Port = Port(en: bool, sample: GrayCode.Code, collision: Byte)

  /** The environment at a sync edge, which may also be a usb edge. */
  datatype Tick = Tick(psram: Strobes, sample: GrayCode.Code, port: Option<Port>)

  // ---- Wiring ----

  function RamPins(n: nat, t: Tail, y: UsbAnalyzer.SyncRegs, k: Tick): HyperRamFifo.Pins
    requires AsyncFifo.Shaped(n, t.fifo)
  {
    HyperRamFifo.Pins(y.valid, y.payload, y.last, k.psram.writeReady, k.psram.readReady, k.psram.idle,
                      Stream16to8.InputReady(t.conv, !AsyncFifo.Full(n, t.fifo)))
  }

  function ConvPins(n: nat, t: Tail): Stream16to8.Pins
    requires AsyncFifo.Shaped(n, t.fifo)
  {
    Stream16to8.Pins(t.ram.queue != [], if t.ram.queue != [] then t.ram.queue[0] else Word(0, 0),
                     !AsyncFifo.Full(n, t.fifo))
  }

  function FifoEdge(t: Tail, discard: bool, k: Tick): AsyncFifo.Edge<Byte> {
    var w := AsyncFifo.WritePins(t.conv.valid, Stream16to8.Output(t.conv), k.sample);
    match k.port
    case None => AsyncFifo.WriteEdge(w)
    case Some(port) => AsyncFifo.BothEdges(w, AsyncFifo.ReadPins(port.en, discard, port.sample, port.collision))
  }

  predicate Shaped(n: nat, t: Tail) {
    HyperRamFifo.Shaped(t.ram) && AsyncFifo.Shaped(n, t.fifo)
  }

  /** What the environment must respect at a sync edge. */
  predicate Legal(n: nat, t: Tail, y: UsbAnalyzer.SyncRegs, discard: bool, k: Tick)
    requires Shaped(n, t)
  {
    && (!discard ==> HyperRamFifo.Strobed(t.ram, RamPins(n, t, y, k)))
    && AsyncFifo.Legal(n, t.fifo, FifoEdge(t, discard, k))
  }

  /** A sync edge; while the analyzer discards, the deep FIFO and the converter are held in reset. */
  function TailStep(n: nat, t: Tail, y: UsbAnalyzer.SyncRegs, discard: bool, k: Tick): (t': Tail)
    requires Shaped(n, t) && Legal(n, t, y, discard, k)
    ensures Shaped(n, t')
  {
    Tail(if discard then HyperRamFifo.PowerOn(t.ram.psram.mem, t.ram.outDepth)
         else HyperRamFifo.Step(t.ram, RamPins(n, t, y, k)),
         if discard then Stream16to8.RESET else Stream16to8.Step(true, t.conv, ConvPins(n, t)),
         AsyncFifo.Step(n, t.fifo, FifoEdge(t, discard, k)))
  }

  function TailRecord(n: nat, t: Tail, b: Books, y: UsbAnalyzer.SyncRegs, discard: bool, k: Tick): Books
    requires Shaped(n, t)
  {
    var fifo := AsyncFifo.Record(n, t.fifo, b.fifo, FifoEdge(t, discard, k));
    Books(if discard then HyperRamFifo.Log([], 0, []) else HyperRamFifo.Record(t.ram, b.ram, RamPins(n, t, y, k)),
          if discard then Stream16to8.Log([], []) else Stream16to8.Record(t.conv, b.conv, ConvPins(n, t)),
          fifo, if discard then |fifo.accepted| else b.stale)
  }

  // ---- The invariant ----

  /** Each stage has taken exactly what the one before it gave. */
  ghost predicate Linked(t: Tail, b: Books, y: UsbAnalyzer.SyncRegs, g: UsbAnalyzer.Log) {
    && b.ram.stored == g.out && b.conv.taken == b.ram.out
    && b.stale <= |b.fifo.accepted| && b.fifo.accepted[b.stale..] == b.conv.given
    && (t.ram.owed ==> y.valid)
  }

  ghost predicate FifoInv(n: nat, t: Tail, b: Books) {
    AsyncFifo.Core(n, t.fifo, b.fifo) && AsyncFifo.OrderlyFrom(t.fifo, b.fifo, b.stale)
  }

  ghost predicate TailInv(n: nat, t: Tail, b: Books, y: UsbAnalyzer.SyncRegs, g: UsbAnalyzer.Log) {
    && HyperRamFifo.Inv(t.ram, b.ram) && Stream16to8.Inv(true, t.conv, b.conv)
    && FifoInv(n, t, b) && Linked(t, b, y, g)
  }

  lemma PowerOnRam(mem: seq<Word>, outDepth: nat)
    requires |mem| == HyperRamFifo.DEPTH && outDepth > 0
    ensures HyperRamFifo.Inv(HyperRamFifo.PowerOn(mem, outDepth), HyperRamFifo.Log([], 0, []))
  {
  }

  lemma RamStage(n: nat, t: Tail, b: Books, y: UsbAnalyzer.SyncRegs, g: UsbAnalyzer.Log, discard: bool, k: Tick)
    requires Shaped(n, t) && TailInv(n, t, b, y, g) && Legal(n, t, y, discard, k)
    ensures HyperRamFifo.Inv(TailStep(n, t, y, discard, k).ram, TailRecord(n, t, b, y, discard, k).ram)
  {
    if discard {
      PowerOnRam(t.ram.psram.mem, t.ram.outDepth);
    } else {
      HyperRamFifo.StepKeepsInv(t.ram, b.ram, RamPins(n, t, y, k));
    }
    hide HyperRamFifo.Inv, HyperRamFifo.Step, HyperRamFifo.Record, AsyncFifo.Step, AsyncFifo.Record, Stream16to8.Step;
  }

  lemma ConvStage(n: nat, t: Tail, b: Books, y: UsbAnalyzer.SyncRegs, g: UsbAnalyzer.Log, discard: bool, k: Tick)
    requires Shaped(n, t) && TailInv(n, t, b, y, g) && Legal(n, t, y, discard, k)
    ensures Stream16to8.Inv(true, TailStep(n, t, y, discard, k).conv, TailRecord(n, t, b, y, discard, k).conv)
  {
    if !discard {
      Stream16to8.StepKeepsInv(true, t.conv, b.conv, ConvPins(n, t));
      hide Stream16to8.Inv;
    }
    hide HyperRamFifo.Inv, HyperRamFifo.Step, HyperRamFifo.Record, AsyncFifo.Step, AsyncFifo.Record;
    hide Stream16to8.Step, Stream16to8.Record;
  }

  lemma FifoStage(n: nat, t: Tail, b: Books, y: UsbAnalyzer.SyncRegs, g: UsbAnalyzer.Log, discard: bool, k: Tick)
    requires Shaped(n, t) && TailInv(n, t, b, y, g) && Legal(n, t, y, discard, k)
    ensures FifoInv(n, TailStep(n, t, y, discard, k), TailRecord(n, t, b, y, discard, k))
  {
    AsyncFifo.StepKeepsOrderly(n, t.fifo, b.fifo, FifoEdge(t, discard, k), b.stale);
    hide HyperRamFifo.Inv, HyperRamFifo.Step, HyperRamFifo.Record, AsyncFifo.Step, AsyncFifo.Record;
    hide Stream16to8.Step, Stream16to8.Record;
    hide Stream16to8.Inv, AsyncFifo.Core;
  }

  /** The stages stay linked; the analyzer owes the deep FIFO a word only when it has one. */
  lemma LinkStage(d: nat, n: nat, s: UsbAnalyzer.Regs, t: Tail, b: Books, g: UsbAnalyzer.Log, p: Pins, k: Tick)
    requires UsbAnalyzer.Shaped(d, s) && UsbAnalyzer.StreamInv(s.y, g)
    requires Shaped(n, t) && TailInv(n, t, b, s.y, g) && Legal(n, t, s.y, UsbAnalyzer.Discarding(s.u, p), k)
    ensures var discard := UsbAnalyzer.Discarding(s.u, p);
      Linked(TailStep(n, t, s.y, discard, k), TailRecord(n, t, b, s.y, discard, k),
             UsbAnalyzer.SyncEdge(d, s, p, k.psram.writeReady),
             UsbAnalyzer.RecordSync(d, s, g, p, k.psram.writeReady))
  {
    hide HyperRamFifo.Inv, HyperRamFifo.RegsNext, HyperRamFifo.PsramNext, AsyncFifo.Step, AsyncFifo.Core;
    hide AsyncFifo.OrderlyFrom, Stream16to8.Step;
    hide UsbAnalyzer.MemNext, UsbAnalyzer.WriteStateNext, UsbAnalyzer.PendingNext, Wrap, AsyncFifo.Full;
  }

  // ---- One usb cycle ----

  datatype World = World(a: UsbAnalyzer.Sim, t: Tail, b: Books)

  /** One usb cycle's pins, and the environment at its two sync edges; the second is also a usb edge. */
  datatype Input = Input(pins: Pins, first: Tick, second: Tick)

  function Stimulus(i: Input): UsbAnalyzer.Stimulus {
    UsbAnalyzer.Stimulus(i.pins, i.first.psram.writeReady, i.second.psram.writeReady)
  }

  function MidSync(d: nat, w: World, i: Input): UsbAnalyzer.Regs
    requires UsbAnalyzer.Shaped(d, w.a.regs)
  {
    UsbAnalyzer.Mid(d, w.a.regs, i.pins, i.first.psram.writeReady)
  }

  predicate WorldShaped(d: nat, n: nat, w: World) {
    UsbAnalyzer.Shaped(d, w.a.regs) && Shaped(n, w.t)
  }

  predicate Fits(d: nat, n: nat, w: World, i: Input)
    requires WorldShaped(d, n, w)
  {
    var discard := UsbAnalyzer.Discarding(w.a.regs.u, i.pins);
    && i.first.port.None? && i.second.port.Some?
    && UsbAnalyzer.RoomOk(d, w.a.regs, i.pins, i.first.psram.writeReady, i.second.psram.writeReady)
    && Legal(n, w.t, w.a.regs.y, discard, i.first)
    && Legal(n, TailStep(n, w.t, w.a.regs.y, discard, i.first), MidSync(d, w, i).y, discard, i.second)
  }

  function Next(d: nat, n: nat, w: World, i: Input): (w': World)
    requires WorldShaped(d, n, w) && Fits(d, n, w, i)
    ensures WorldShaped(d, n, w') && w'.a == UsbAnalyzer.Next(d, w.a, Stimulus(i))
  {
    var discard := UsbAnalyzer.Discarding(w.a.regs.u, i.pins);
    var t1 := TailStep(n, w.t, w.a.regs.y, discard, i.first);
    var b1 := TailRecord(n, w.t, w.b, w.a.regs.y, discard, i.first);
    var y1 := MidSync(d, w, i).y;
    World(UsbAnalyzer.Next(d, w.a, Stimulus(i)),
          TailStep(n, t1, y1, discard, i.second), TailRecord(n, t1, b1, y1, discard, i.second))
  }

  /** An environment that does nothing: no strobes, no reader, and synchronisers that catch the old codes. */
  function Quiet(t: Tail, usb: bool): Tick {
    Tick(Strobes(false, false, false), t.fifo.r.consumeGray,
         if usb then Some(Port(false, t.fifo.w.produceGray, 0)) else None)
  }

  lemma QuietIsLegal(n: nat, t: Tail, y: UsbAnalyzer.SyncRegs, discard: bool, usb: bool)
    requires Shaped(n, t)
    ensures Legal(n, t, y, discard, Quiet(t, usb))
  {
    hide AsyncFifo.WriteSide, AsyncFifo.ReadSide, AsyncFifo.StoreNext;
    var e := FifoEdge(t, discard, Quiet(t, usb));
    assert AsyncFifo.Sampled(n, e);
    assert AsyncFifo.Shaped(n, AsyncFifo.Step(n, t.fifo, e));
  }

  /**
    The assumptions on the environment never block a run: whatever the pins, if the ring has room
    while nothing is read, some input fits.
  */
  lemma SomeInputFits(d: nat, n: nat, w: World, p: Pins)
    requires WorldShaped(d, n, w) && UsbAnalyzer.RoomOk(d, w.a.regs, p, false, false)
    ensures exists i: Input :: i.pins == p && Fits(d, n, w, i)
  {
    hide Legal, TailStep, UsbAnalyzer.RoomOk, UsbAnalyzer.Mid;
    var discard, y := UsbAnalyzer.Discarding(w.a.regs.u, p), w.a.regs.y;
    var first := Quiet(w.t, false);
    QuietIsLegal(n, w.t, y, discard, false);
    var t1 := TailStep(n, w.t, y, discard, first);
    QuietIsLegal(n, t1, UsbAnalyzer.Mid(d, w.a.regs, p, false).y, discard, true);
    assert Fits(d, n, w, Input(p, first, Quiet(t1, true)));
  }

  ghost predicate Inv(d: nat, n: nat, w: World) {
    && WorldShaped(d, n, w) && UsbAnalyzer.Inv(d, w.a.regs, w.a.hist)
    && TailInv(n, w.t, w.b, w.a.regs.y, w.a.hist.log)
  }

  lemma TailKeepsInv(d: nat, n: nat, s: UsbAnalyzer.Regs, t: Tail, b: Books, g: UsbAnalyzer.Log, p: Pins, k: Tick)
    requires UsbAnalyzer.Shaped(d, s) && UsbAnalyzer.ReaderInv(d, s.y, g)
    requires Shaped(n, t) && TailInv(n, t, b, s.y, g) && Legal(n, t, s.y, UsbAnalyzer.Discarding(s.u, p), k)
    ensures var discard := UsbAnalyzer.Discarding(s.u, p);
      TailInv(n, TailStep(n, t, s.y, discard, k), TailRecord(n, t, b, s.y, discard, k),
              UsbAnalyzer.SyncEdge(d, s, p, k.psram.writeReady),
              UsbAnalyzer.RecordSync(d, s, g, p, k.psram.writeReady))
  {
    hide Linked, FifoInv, HyperRamFifo.Inv, Stream16to8.Inv, Legal, TailStep, TailRecord;
    hide UsbAnalyzer.SyncEdge, UsbAnalyzer.RecordSync, UsbAnalyzer.CountInv, UsbAnalyzer.StreamInv;
    var discard := UsbAnalyzer.Discarding(s.u, p);
    RamStage(n, t, b, s.y, g, discard, k);
    ConvStage(n, t, b, s.y, g, discard, k);
    FifoStage(n, t, b, s.y, g, discard, k);
    LinkStage(d, n, s, t, b, g, p, k);
  }

  lemma NextKeepsInv(d: nat, n: nat, w: World, i: Input)
    requires Inv(d, n, w) && Fits(d, n, w, i)
    ensures Inv(d, n, Next(d, n, w, i))
  {
    hide TailInv, Legal, TailStep, TailRecord, UsbAnalyzer.SyncEdge, UsbAnalyzer.UsbEdge;
    hide UsbAnalyzer.RecordSync, UsbAnalyzer.RecordUsb;
    hide UsbAnalyzer.WriterInv, UsbAnalyzer.ReaderInv, Parse;
    var (s, h, p) := (w.a.regs, w.a.hist, i.pins);
    var discard := UsbAnalyzer.Discarding(s.u, p);
    var (ready0, ready1) := (i.first.psram.writeReady, i.second.psram.writeReady);
    UsbAnalyzer.CycleKeepsInv(d, s, h, p, ready0, ready1);
    UsbAnalyzer.ClearKeepsReader(d, s, h.log, p, ready0);
    TailKeepsInv(d, n, s, w.t, w.b, h.log, p, i.first);
    TailKeepsInv(d, n, MidSync(d, w, i), TailStep(n, w.t, s.y, discard, i.first),
      TailRecord(n, w.t, w.b, s.y, discard, i.first), UsbAnalyzer.RecordSync(d, s, h.log, p, ready0), p, i.second);
  }

  /**
    A write edge at which nothing is written leaves the writer's pointer alone; any other moves it
    past what the reader sees.
  */
  lemma PointerMovesIff(n: nat, s: AsyncFifo.Regs<Byte>, h: AsyncFifo.History<Byte>, e: AsyncFifo.Edge<Byte>)
    requires AsyncFifo.Core(n, s, h) && e.WriteEdge? && AsyncFifo.Legal(n, s, e)
    ensures var s' := AsyncFifo.Step(n, s, e);
      s'.r.produceGray == s'.w.produceGray <==> s.r.produceGray == s.w.produceGray && !AsyncFifo.DoWrite(n, s, e.w)
  {
    hide GrayCode.Pow2, Wrap, GrayCode.ToGray, GrayCode.FromGray, AsyncFifo.DoWrite, AsyncFifo.Full;
    hide AsyncFifo.StoreNext;
    AsyncFifo.StepKeepsCore(n, s, h, e);
    var (s', h') := (AsyncFifo.Step(n, s, e), AsyncFifo.Record(n, s, h, e));
    AsyncFifo.SeenAllIff(n, s, h);
    AsyncFifo.SeenAllIff(n, s', h');
  }

  /**
    A usb cycle in which the analyzer discards leaves no byte of an earlier session if and only
    if the reader already saw the writer's pointer and the converter put no last byte in at the
    cycle's first edge.
  */
  lemma DiscardLeavesNothingIff(d: nat, n: nat, w: World, i: Input)
    requires Inv(d, n, w) && Fits(d, n, w, i) && UsbAnalyzer.Discarding(w.a.regs.u, i.pins)
    ensures var b := Next(d, n, w, i).b;
      |b.fifo.fate| == b.stale <==>
      w.t.fifo.r.produceGray == w.t.fifo.w.produceGray && !(w.t.conv.valid && !AsyncFifo.Full(n, w.t.fifo))
  {
    hide HyperRamFifo.Inv, HyperRamFifo.Strobed, Stream16to8.Inv, AsyncFifo.Core, AsyncFifo.OrderlyFrom;
    hide AsyncFifo.Step, AsyncFifo.Record;
    hide AsyncFifo.Full, AsyncFifo.Legal, UsbAnalyzer.Inv, UsbAnalyzer.Next, UsbAnalyzer.SyncEdge, UsbAnalyzer.RoomOk;
    var (s, h, e1) := (w.t.fifo, w.b.fifo, FifoEdge(w.t, true, i.first));
    var t1 := TailStep(n, w.t, w.a.regs.y, true, i.first);
    var e2 := FifoEdge(t1, true, i.second);
    AsyncFifo.StepKeepsCore(n, s, h, e1);
    PointerMovesIff(n, s, h, e1);
    AsyncFifo.ResetEmptiesIff(n, t1.fifo, AsyncFifo.Record(n, s, h, e1), e2);
  }

  // ---- Whole runs ----

  ghost predicate FitsRun(d: nat, n: nat, w: World, inputs: seq<Input>)
    requires WorldShaped(d, n, w)
    decreases |inputs|
  {
    inputs == [] || (Fits(d, n, w, inputs[0]) && FitsRun(d, n, Next(d, n, w, inputs[0]), inputs[1..]))
  }

  ghost function Run(d: nat, n: nat, w: World, inputs: seq<Input>): World
    requires WorldShaped(d, n, w) && FitsRun(d, n, w, inputs)
    decreases |inputs|
  {
    if inputs == [] then w else Run(d, n, Next(d, n, w, inputs[0]), inputs[1..])
  }

  function Trace(inputs: seq<Input>): seq<UsbAnalyzer.Stimulus> {
    if inputs == [] then [] else [Stimulus(inputs[0])] + Trace(inputs[1..])
  }

  /** The chain runs the analyzer unchanged, with the deep FIFO's strobes as its reader. */
  lemma {:induction false} RunKeepsInv(d: nat, n: nat, w: World, inputs: seq<Input>)
    requires Inv(d, n, w) && FitsRun(d, n, w, inputs)
    ensures Inv(d, n, Run(d, n, w, inputs))
    ensures UsbAnalyzer.RoomRun(d, w.a, Trace(inputs))
    ensures Run(d, n, w, inputs).a == UsbAnalyzer.Run(d, w.a, Trace(inputs))
    decreases |inputs|
  {
    hide TailInv, Legal, TailStep, TailRecord, UsbAnalyzer.Inv, UsbAnalyzer.Cycle, UsbAnalyzer.Record;
    hide UsbAnalyzer.RoomOk;
    if inputs != [] {
      NextKeepsInv(d, n, w, inputs[0]);
      RunKeepsInv(d, n, Next(d, n, w, inputs[0]), inputs[1..]);
      assert Trace(inputs)[1..] == Trace(inputs[1..]);
    }
  }

  // ---- What the host receives ----

  /** The words of a byte stream, high byte first. */
  function Join(bytes: seq<Byte>): seq<Word> {
    if |bytes| < 2 then [] else [Word(bytes[0], bytes[1])] + Join(bytes[2..])
  }

  lemma {:induction false} JoinMore(bytes: seq<Byte>, w: Word)
    requires |bytes| % 2 == 0
    ensures Join(bytes + [w.hi, w.lo]) == Join(bytes) + [w]
    decreases |bytes|
  {
    var all := bytes + [w.hi, w.lo];
    if bytes == [] {
      assert all[2..] == [];
    } else {
      assert all[2..] == bytes[2..] + [w.hi, w.lo];
      JoinMore(bytes[2..], w);
    }
  }

  /** The host puts the converter's bytes together again. */
  lemma {:induction false} JoinSplit(words: seq<Word>)
    ensures Join(Stream16to8.Split(true, words)) == words
  {
    if words != [] {
      var front, w := words[..|words| - 1], words[|words| - 1];
      JoinSplit(front);
      JoinMore(Stream16to8.Split(true, front), w);
      assert words == front + [w];
    }
  }

  lemma {:induction false} JoinGrows(bytes: seq<Byte>, more: seq<Byte>)
    ensures Join(bytes) <= Join(bytes + more)
    decreases |bytes|
  {
    if |bytes| >= 2 {
      assert (bytes + more)[2..] == bytes[2..] + more;
      JoinGrows(bytes[2..], more);
    }
  }

  /** Of a stream that parses, the items whole in the first bytes are the first items. */
  lemma FirstItems(bytes: seq<Byte>, more: seq<Byte>, words: seq<Word>)
    requires bytes + more == Stream16to8.Split(true, words) && Parse(words).Some?
    ensures Whole(Join(bytes)) <= Parse(words).value
  {
    hide Parse, Whole, Join, Stream16to8.Split;
    JoinGrows(bytes, more);
    JoinSplit(words);
    var first := Join(bytes);
    assert words == first + words[|first|..];
    WholeGrows(first, words[|first|..]);
    WholeIsParse(words);
  }

  lemma {:induction false} SplitConcat(words: seq<Word>, more: seq<Word>)
    ensures Stream16to8.Split(true, words + more) == Stream16to8.Split(true, words) + Stream16to8.Split(true, more)
    decreases |more|
  {
    if more == [] {
      assert words + more == words;
    } else {
      var front := more[..|more| - 1];
      assert (words + more)[..|words + more| - 1] == words + front;
      SplitConcat(words, front);
    }
  }

  /** The bytes of this session that the host has taken. */
  function Received(b: Books): seq<Byte> {
    if |b.fifo.fate| <= b.stale then [] else AsyncFifo.Delivered(b.fifo.fate[b.stale..])
  }

  /** The bytes of this session inside the clock crossing. */
  function Crossing(b: Books): seq<Byte>
    requires |b.fifo.fate| <= |b.fifo.accepted| && b.stale <= |b.fifo.accepted|
  {
    b.fifo.accepted[if |b.fifo.fate| <= b.stale then b.stale else |b.fifo.fate|..]
  }

  /** The words committed in this session that have not reached the converter. */
  function Upstream(w: World): seq<Word>
    requires |w.t.ram.psram.mem| > 0 && |w.a.regs.y.mem| > 0
  {
    var (y, g, ram) := (w.a.regs.y, w.a.hist.log, w.t.ram);
    ram.queue + RingSlice(ram.psram.mem, w.b.ram.fetched, ram.regs.wordCount)
    + ((if y.valid then [y.payload] else []) + RingSlice(y.mem, g.popped, y.count))
  }

  lemma ReceivedInOrder(n: nat, t: Tail, b: Books, y: UsbAnalyzer.SyncRegs, g: UsbAnalyzer.Log)
    requires TailInv(n, t, b, y, g)
    ensures |b.fifo.fate| <= |b.fifo.accepted| && b.stale <= |b.fifo.accepted|
    ensures Received(b) + Crossing(b) == b.conv.given
  {
    var h := b.fifo;
    hide HyperRamFifo.Inv, Stream16to8.Inv, AsyncFifo.Mirrors, AsyncFifo.Stored;
    if |h.fate| > b.stale {
      AsyncFifo.DeliveredPrefix(h.fate[b.stale..], b.conv.given);
      hide AsyncFifo.Delivered;
      assert Crossing(b) == b.conv.given[|h.fate| - b.stale..];
    }
  }

  /** Nothing committed is lost, duplicated or reordered anywhere in the chain. */
  lemma BytesConserved(d: nat, n: nat, w: World)
    requires Inv(d, n, w)
    ensures |w.b.fifo.fate| <= |w.b.fifo.accepted| && w.b.stale <= |w.b.fifo.accepted|
    ensures Received(w.b) + Crossing(w.b) + Stream16to8.Held(w.t.conv) + Stream16to8.Split(true, Upstream(w)) ==
      Stream16to8.Split(true, w.a.hist.log.words)
  {
    hide UsbAnalyzer.WriterInv, UsbAnalyzer.ReaderInv, Parse, HyperRamFifo.Inv, FifoInv, Received, Crossing;
    hide Stream16to8.Held;
    var (y, g, ram) := (w.a.regs.y, w.a.hist.log, w.t.ram);
    ReceivedInOrder(n, w.t, w.b, y, g);
    HyperRamFifo.WordsConserved(ram, w.b.ram);
    UsbAnalyzer.WordsConserved(d, y, g);
    var inRam := ram.queue + RingSlice(ram.psram.mem, w.b.ram.fetched, ram.regs.wordCount);
    var inRing := (if y.valid then [y.payload] else []) + RingSlice(y.mem, g.popped, y.count);
    assert g.words == w.b.ram.out + (inRam + inRing) by {
      assert g.words == g.out + inRing;
      assert g.out == w.b.ram.out + inRam;
    }
    SplitConcat(w.b.ram.out, inRam + inRing);
  }

  function PowerOn(d: nat, n: nat, mem: seq<Word>, payload: Word, ram: seq<Word>, outDepth: nat,
                   storage: seq<Byte>, data: Byte): World
    requires n >= 2
  {
    World(UsbAnalyzer.PowerOn(d, mem, payload),
          Tail(HyperRamFifo.PowerOn(ram, outDepth), Stream16to8.RESET, AsyncFifo.PowerOn(n, storage, data).regs),
          Books(HyperRamFifo.Log([], 0, []), Stream16to8.Log([], []), AsyncFifo.PowerOn(n, storage, data).hist, 0))
  }

  lemma PowerOnInv(d: nat, n: nat, mem: seq<Word>, payload: Word, ram: seq<Word>, outDepth: nat,
                   storage: seq<Byte>, data: Byte)
    requires d >= 4 && |mem| == d && n >= 2 && |storage| == AsyncFifo.Depth(n)
    requires |ram| == HyperRamFifo.DEPTH && outDepth > 0
    ensures Inv(d, n, PowerOn(d, n, mem, payload, ram, outDepth, storage, data))
  {
    UsbAnalyzer.PowerOnInv(d, mem, payload);
    PowerOnRam(ram, outDepth);
    AsyncFifo.PowerOnInv(n, storage, data);
    assert AsyncFifo.OrderlyFrom(AsyncFifo.PowerOn(n, storage, data).regs, AsyncFifo.PowerOn(n, storage, data).hist, 0);
    hide UsbAnalyzer.Inv, HyperRamFifo.Inv, AsyncFifo.Core;
  }

  lemma NothingSplits()
    ensures Stream16to8.Split(true, []) == []
  {
  }

  /**
    The whole chain is a queue of packets. For every run from power-on, or from where such a
    run may lead, with any number of sessions, any PSRAM timing and any host: what the host has
    taken in this session is the beginning of a byte stream that parses to exactly the session's
    items, the rest of which is still on its way. So the items whole in what it has taken are
    the session's first; once nothing is on its way, they are all; and without an overrun they
    are what the pins showed.
  */
  lemma HostReceivesSession(d: nat, n: nat, w: World, inputs: seq<Input>, z: World)
    requires Inv(d, n, w) && FitsRun(d, n, w, inputs) && z == Run(d, n, w, inputs)
    ensures Inv(d, n, z)
    ensures var words := z.a.hist.log.words;
      && Parse(words) == Some(z.a.hist.session.items)
      && Received(z.b) + Crossing(z.b) + Stream16to8.Held(z.t.conv) + Stream16to8.Split(true, Upstream(z)) ==
         Stream16to8.Split(true, words)
    ensures Crossing(z.b) == [] && Stream16to8.Held(z.t.conv) == [] && Upstream(z) == [] ==>
      Parse(Join(Received(z.b))) == Some(z.a.hist.session.items)
    ensures Whole(Join(Received(z.b))) <= z.a.hist.session.items
    ensures UsbAnalyzer.NoOverrun(d, w.a, Trace(inputs)) ==>
      z.a.hist.session == UsbAnalyzer.Observe(w.a.hist.session, Trace(inputs))
  {
    hide TailInv, UsbAnalyzer.WriterInv, UsbAnalyzer.ReaderInv, Parse, Received, Crossing, Stream16to8.Held, Upstream;
    hide Run, FitsRun, Join, Whole, Stream16to8.Split, Stream16to8.Inv, HyperRamFifo.Inv;
    RunKeepsInv(d, n, w, inputs);
    BytesConserved(d, n, z);
    JoinSplit(z.a.hist.log.words);
    NothingSplits();
    var rest := Crossing(z.b) + Stream16to8.Held(z.t.conv) + Stream16to8.Split(true, Upstream(z));
    assert Received(z.b) + rest == Stream16to8.Split(true, z.a.hist.log.words);
    FirstItems(Received(z.b), rest, z.a.hist.log.words);
    if Crossing(z.b) == [] && Stream16to8.Held(z.t.conv) == [] && Upstream(z) == [] {
      assert Received(z.b) == Stream16to8.Split(true, z.a.hist.log.words);
    }
    if UsbAnalyzer.NoOverrun(d, w.a, Trace(inputs)) {
      UsbAnalyzer.NoOverrunIsIdeal(d, w.a, Trace(inputs));
    }
    hide UsbAnalyzer.NoOverrun, UsbAnalyzer.Observe, UsbAnalyzer.Run;
  }
}
