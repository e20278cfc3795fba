/**
  The capture chain can always be emptied: from whatever state a run has reached, once the
  bus is quiet and capture disabled, an environment that keeps moving brings every captured
  word to the host.
*/
module CaptureDrain {
  import opened Options
  import opened Modular
  import opened Rings
  import opened Words
  import opened CaptureSpec
  import UsbAnalyzer
  import HyperRamFifo
  import Stream16to8
  import AsyncFifo
  import opened CapturePipeline

  // ---- Environments ----

  /** Nothing is written to the ring or committed, and no packet or session begins. */
  predicate NothingBegins(u: UsbAnalyzer.UsbRegs, p: Pins) {
    && !UsbAnalyzer.Discarding(u, p) && !UsbAnalyzer.StartsPacket(u, p)
    && !UsbAnalyzer.WriteEvent(u, p) && !UsbAnalyzer.WritePacket(u, p) && !UsbAnalyzer.WriteHeader(u, p)
  }

  /** The environment is asked for something: to go on with a transfer or to end it, or to take a byte on offer. */
  predicate Asked(t: Tail, k: Tick) {
    t.ram.regs.busy || (k.port.Some? && AsyncFifo.ReadReady(t.fifo, false))
  }

  /** It does one of the things it is asked for. */
  predicate Answered(t: Tail, k: Tick) {
    || k.psram.writeReady || k.psram.readReady
    || (t.ram.regs.busy && !t.ram.psram.active && k.psram.idle)
    || (k.port.Some? && AsyncFifo.ReadReady(t.fifo, false) && k.port.value.en)
  }

  // ---- How much is left ----

  /** Steps a transfer is away from its next strobe. */
  function Phase(x: HyperRamFifo.System): nat {
    if x.psram.active then 0 else if x.regs.busy then 2 else 1
  }

  /** Everything inside the chain, weighted so that each move downstream makes it less. */
  function Work(t: Tail, b: Books, y: UsbAnalyzer.SyncRegs): int {
    8 * y.count + (if y.valid then 7 else 0) + 6 * t.ram.regs.wordCount + 5 * |t.ram.queue|
    + 2 * |Stream16to8.Held(t.conv)| + (|b.fifo.accepted| - |b.fifo.fate|)
  }

  /** Steps in which nothing moves but something is on its way: a transfer about to start, pointers about to cross. */
  function Lag(t: Tail, b: Books): int {
    var h := b.fifo;
    Phase(t.ram) + (|h.accepted| - h.seen) + (|h.accepted| - h.seen0) + (|h.fate| - h.freed) + (|h.fate| - h.freed0)
  }

  /** The two together, as one number. */
  function Left(n: nat, t: Tail, b: Books, y: UsbAnalyzer.SyncRegs): int
    requires n >= 2
  {
    Work(t, b, y) * (4 * AsyncFifo.Depth(n) + 3) + Lag(t, b)
  }

  // ---- What one sync edge does to each stage ----

  lemma AnalyzerEdge(d: nat, s: UsbAnalyzer.Regs, p: Pins, ready: bool)
    requires UsbAnalyzer.Shaped(d, s) && s.y.write.StartWrite? && NothingBegins(s.u, p)
    ensures UsbAnalyzer.EdgeClear(d, s, p, ready)
    ensures var y' := UsbAnalyzer.SyncEdge(d, s, p, ready);
      && y'.write.StartWrite?
      && (s.y.valid && !ready ==> y'.count == s.y.count && y'.valid)
      && (!s.y.valid || ready ==>
            y'.count == (if s.y.count > 0 then s.y.count - 1 else 0) && y'.valid == (s.y.count > 0))
  {
    hide UsbAnalyzer.MemNext;
  }

  lemma RamEdge(x: HyperRamFifo.System, g: HyperRamFifo.Log, p: HyperRamFifo.Pins)
    requires HyperRamFifo.Inv(x, g) && HyperRamFifo.Legal(x, p)
    ensures var x' := HyperRamFifo.Step(x, p);
      var strobe := p.writeReady || p.readReady;
      && x'.regs.wordCount == x.regs.wordCount + (if p.writeReady then 1 else 0) - (if p.readReady then 1 else 0)
      && |x'.queue| == |x.queue| - (if p.outTaken && x.queue != [] then 1 else 0) + (if p.readReady then 1 else 0)
      && (p.writeReady ==> p.inValid && !p.readReady)
      && (!strobe ==> Phase(x') <= Phase(x))
      && (!strobe && x.regs.busy && !x.psram.active && p.idle ==> Phase(x') < Phase(x))
      && (!x.regs.busy && (HyperRamFifo.StartsWrite(x, p) || HyperRamFifo.StartsRead(x, p)) ==> Phase(x') < Phase(x))
  {
    HyperRamFifo.StepKeepsInv(x, g, p);
    HyperRamFifo.StrobesAreSafe(x, g, p);
    hide Wrap, HyperRamFifo.HighBit, RingHolds;
  }

  /** The converter moves bytes on whenever it may; it holds some exactly when it offers one. */
  lemma ConvEdge(c: Stream16to8.Regs, p: Stream16to8.Pins)
    requires c.odd ==> c.valid
    ensures var taken := p.valid && Stream16to8.InputReady(c, p.ready);
      |Stream16to8.Held(Stream16to8.Step(true, c, p))| ==
      |Stream16to8.Held(c)| + (if taken then 2 else 0) - (if c.valid && p.ready then 1 else 0)
    ensures Stream16to8.Held(c) == [] <==> !c.valid
    ensures !c.valid ==> Stream16to8.InputReady(c, p.ready)
  {
  }

  /** The clock crossing: what enters, what leaves, and how its pointers catch up when neither happens. */
  lemma FifoEdgeCounts(n: nat, s: AsyncFifo.Regs<Byte>, h: AsyncFifo.History<Byte>, e: AsyncFifo.Edge<Byte>)
    requires AsyncFifo.Core(n, s, h) && AsyncFifo.Legal(n, s, e) && !e.ReadEdge? && (e.BothEdges? ==> !e.r.rst)
    ensures var h' := AsyncFifo.Record(n, s, h, e);
      var full := AsyncFifo.Full(n, s);
      && |h'.accepted| == |h.accepted| + (if e.w.en && !full then 1 else 0)
      && |h'.fate| == |h.fate| + (if e.BothEdges? && e.r.en && |h.fate| < h.seen then 1 else 0)
      && (full <==> |h.accepted| == h.freed + AsyncFifo.Depth(n))
      && h'.freed == h.freed0 && h'.freed0 >= |h.fate|
      && (if e.BothEdges? then h'.seen == h.seen0 && h'.seen0 >= |h.accepted|
          else h'.seen == h.seen && h'.seen0 == h.seen0)
    ensures AsyncFifo.ReadReady(s, false) <==> |h.fate| < h.seen
  {
    AsyncFifo.FullIff(n, s, h);
    AsyncFifo.EmptyIff(n, s, h);
    hide AsyncFifo.Full, AsyncFifo.Mirrors, AsyncFifo.Stored, AsyncFifo.Step;
  }

  // ---- What one sync edge does to the whole chain ----

  lemma Bounds(n: nat, t: Tail, b: Books, y: UsbAnalyzer.SyncRegs, g: UsbAnalyzer.Log)
    requires TailInv(n, t, b, y, g)
    ensures var h := b.fifo;
      && h.freed <= h.freed0 <= |h.fate| <= h.seen <= h.seen0 <= |h.accepted| <= h.freed + AsyncFifo.Depth(n)
    ensures t.conv.odd ==> t.conv.valid
    ensures t.ram.owed ==> y.valid
    ensures t.ram.psram.active ==> t.ram.regs.busy
    ensures t.ram.outDepth > 0 && AsyncFifo.Depth(n) > 0
    ensures Work(t, b, y) >= 0 && 0 <= Lag(t, b) <= 4 * AsyncFifo.Depth(n) + 2
  {
    hide AsyncFifo.Mirrors, AsyncFifo.Stored, HyperRamFifo.RamInv, HyperRamFifo.QueueInv, Stream16to8.Held;
  }

  /** What is left never grows, and shrinks if the environment answers or, at a usb edge, is not asked for anything. */
  lemma EdgeMoves(d: nat, n: nat, s: UsbAnalyzer.Regs, t: Tail, b: Books, g: UsbAnalyzer.Log, p: Pins, k: Tick)
    requires UsbAnalyzer.Shaped(d, s) && s.y.write.StartWrite? && NothingBegins(s.u, p)
    requires Shaped(n, t) && TailInv(n, t, b, s.y, g) && Legal(n, t, s.y, false, k)
    ensures var t', b' := TailStep(n, t, s.y, false, k), TailRecord(n, t, b, s.y, false, k);
      var y' := UsbAnalyzer.SyncEdge(d, s, p, k.psram.writeReady);
      && Work(t', b', y') <= Work(t, b, s.y)
      && (Work(t', b', y') == Work(t, b, s.y) ==> Lag(t', b') <= Lag(t, b))
      && (Work(t, b, s.y) > 0 && (Answered(t, k) || (k.port.Some? && !Asked(t, k))) ==>
            Work(t', b', y') < Work(t, b, s.y) || Lag(t', b') < Lag(t, b))
  {
    hide RingHolds, Wrap, HyperRamFifo.RegsNext, HyperRamFifo.PsramNext, HyperRamFifo.Record;
    hide Stream16to8.Inv, Stream16to8.Step, Stream16to8.Record, Stream16to8.Held;
    hide AsyncFifo.Core, AsyncFifo.OrderlyFrom, AsyncFifo.Step, AsyncFifo.Record, AsyncFifo.Full, AsyncFifo.ReadReady;
    hide UsbAnalyzer.SyncEdge, UsbAnalyzer.EdgeClear, Phase;
    Bounds(n, t, b, s.y, g);
    AnalyzerEdge(d, s, p, k.psram.writeReady);
    RamEdge(t.ram, b.ram, RamPins(n, t, s.y, k));
    ConvEdge(t.conv, ConvPins(n, t));
    FifoEdgeCounts(n, t.fifo, b.fifo, FifoEdge(t, false, k));
    hide HyperRamFifo.Inv, HyperRamFifo.Step, AsyncFifo.Legal, Legal;
  }

  // ---- Cycles ----

  function FirstStep(n: nat, w: World, i: Input): Tail
    requires Shaped(n, w.t) && Legal(n, w.t, w.a.regs.y, false, i.first)
  {
    TailStep(n, w.t, w.a.regs.y, false, i.first)
  }

  /** In a cycle with nothing begun, the environment answers something it is asked for, or is asked for nothing. */
  predicate Moves(d: nat, n: nat, w: World, i: Input)
    requires WorldShaped(d, n, w) && Fits(d, n, w, i) && NothingBegins(w.a.regs.u, i.pins)
  {
    var t := FirstStep(n, w, i);
    Answered(w.t, i.first) || Answered(t, i.second) || !Asked(t, i.second)
  }

  function LeftIn(n: nat, w: World): int
    requires n >= 2
  {
    Left(n, w.t, w.b, w.a.regs.y)
  }

  /** A quiet cycle leaves no more than there was; one that moves leaves less, until nothing is left. */
  lemma CycleMoves(d: nat, n: nat, w: World, i: Input)
    requires Inv(d, n, w) && Fits(d, n, w, i) && NothingBegins(w.a.regs.u, i.pins)
    ensures LeftIn(n, Next(d, n, w, i)) <= LeftIn(n, w)
    ensures Work(w.t, w.b, w.a.regs.y) == 0 ==> var z := Next(d, n, w, i); Work(z.t, z.b, z.a.regs.y) == 0
    ensures Work(w.t, w.b, w.a.regs.y) > 0 && Moves(d, n, w, i) ==> LeftIn(n, Next(d, n, w, i)) < LeftIn(n, w)
  {
    hide TailInv, Legal, Asked, Answered, Work, Lag, TailStep, TailRecord, Parse, AsyncFifo.Depth;
    hide UsbAnalyzer.SyncEdge, UsbAnalyzer.UsbEdge, UsbAnalyzer.RecordSync, UsbAnalyzer.RecordUsb;
    hide UsbAnalyzer.WriterInv, UsbAnalyzer.ReaderInv, UsbAnalyzer.EdgeClear;
    var (s, g, p) := (w.a.regs, w.a.hist.log, i.pins);
    var (ready0, ready1) := (i.first.psram.writeReady, i.second.psram.writeReady);
    var t1, b1 := TailStep(n, w.t, s.y, false, i.first), TailRecord(n, w.t, w.b, s.y, false, i.first);
    var mid, g1 := UsbAnalyzer.Mid(d, s, p, ready0), UsbAnalyzer.RecordSync(d, s, g, p, ready0);
    AnalyzerEdge(d, s, p, ready0);
    UsbAnalyzer.ClearKeepsReader(d, s, g, p, ready0);
    TailKeepsInv(d, n, s, w.t, w.b, g, p, i.first);
    EdgeMoves(d, n, s, w.t, w.b, g, p, i.first);
    EdgeMoves(d, n, mid, t1, b1, g1, p, i.second);
    var t2, b2 := TailStep(n, t1, mid.y, false, i.second), TailRecord(n, t1, b1, mid.y, false, i.second);
    var y2 := UsbAnalyzer.SyncEdge(d, mid, p, ready1);
    AnalyzerEdge(d, mid, p, ready1);
    UsbAnalyzer.ClearKeepsReader(d, mid, g1, p, ready1);
    TailKeepsInv(d, n, mid, t1, b1, g1, p, i.second);
    Bounds(n, w.t, w.b, s.y, g);
    Bounds(n, t1, b1, mid.y, g1);
    Bounds(n, t2, b2, y2, UsbAnalyzer.RecordSync(d, mid, g1, p, ready1));
    var k := 4 * AsyncFifo.Depth(n) + 2;
    Weighted(Work(w.t, w.b, s.y), Lag(w.t, w.b), Work(t1, b1, mid.y), Lag(t1, b1), k);
    Weighted(Work(t1, b1, mid.y), Lag(t1, b1), Work(t2, b2, y2), Lag(t2, b2), k);
  }

  /** Less work outweighs any lag. */
  lemma Weighted(work: int, lag: int, work': int, lag': int, k: nat)
    requires 0 <= lag <= k && 0 <= lag' <= k && work' <= work && (work' == work ==> lag' <= lag)
    ensures work' * (k + 1) + lag' <= work * (k + 1) + lag
    ensures work' < work || lag' < lag ==> work' * (k + 1) + lag' < work * (k + 1) + lag
  {
    if work' < work {
      OneLess(work', work, k + 1);
    }
  }

  lemma OneLess(a: int, b: int, m: nat)
    requires a < b
    ensures a * m + m <= b * m
  {
    var c := b - a - 1;
    assert b * m == a * m + m + c * m;
    assert c * m >= 0;
  }

  /** The session's items stay as they are while nothing begins. */
  lemma ItemsStay(d: nat, n: nat, w: World, i: Input)
    requires Inv(d, n, w) && Fits(d, n, w, i) && NothingBegins(w.a.regs.u, i.pins)
    ensures Next(d, n, w, i).a.hist.session.items == w.a.hist.session.items
  {
    hide TailInv, Legal, TailStep, TailRecord, UsbAnalyzer.SyncEdge, UsbAnalyzer.RecordSync, UsbAnalyzer.ReaderInv;
    hide UsbAnalyzer.RoomOk, UsbAnalyzer.BytesIn, Parse;
  }

  lemma NothingLeft(d: nat, n: nat, w: World)
    requires Inv(d, n, w)
    ensures Work(w.t, w.b, w.a.regs.y) >= 0 && LeftIn(n, w) >= 0
    ensures |w.b.fifo.fate| <= |w.b.fifo.accepted| && w.b.stale <= |w.b.fifo.accepted|
    ensures Work(w.t, w.b, w.a.regs.y) == 0 ==>
      Crossing(w.b) == [] && Stream16to8.Held(w.t.conv) == [] && Upstream(w) == []
  {
    hide UsbAnalyzer.Inv, HyperRamFifo.RamInv, HyperRamFifo.QueueInv, AsyncFifo.Mirrors, AsyncFifo.Stored;
    hide AsyncFifo.OrderlyFrom, Stream16to8.Held;
    Bounds(n, w.t, w.b, w.a.regs.y, w.a.hist.log);
    assert Work(w.t, w.b, w.a.regs.y) == 0 ==>
      Crossing(w.b) == [] && Stream16to8.Held(w.t.conv) == [] && Upstream(w) == [];
    hide Work, Lag, Crossing, Upstream, AsyncFifo.Depth;
    NonNegative(Work(w.t, w.b, w.a.regs.y), 4 * AsyncFifo.Depth(n) + 3);
  }

  lemma NonNegative(a: nat, m: nat)
    ensures a * m >= 0
  {
  }

  // ---- Every environment that keeps moving ----

  /** A run in which nothing begins, with no more than `patience` cycles in a row that do not move, `left` at first. */
  ghost predicate KeepsMoving(d: nat, n: nat, w: World, inputs: seq<Input>, patience: nat, left: nat)
    requires WorldShaped(d, n, w) && FitsRun(d, n, w, inputs)
    decreases |inputs|
  {
    inputs == [] ||
    (&& NothingBegins(w.a.regs.u, inputs[0].pins)
     && (Moves(d, n, w, inputs[0]) || left > 0)
     && KeepsMoving(d, n, Next(d, n, w, inputs[0]), inputs[1..], patience,
                    if Moves(d, n, w, inputs[0]) then patience else left - 1))
  }

  /** How many cycles a run may take. */
  function Budget(amount: int, patience: nat, left: int): int {
    amount * (patience + 1) + left
  }

  lemma BudgetFalls(amount: int, amount': int, patience: nat, left: nat, moved: bool)
    requires amount' <= amount && (moved ==> amount' < amount) && (!moved ==> left > 0)
    ensures Budget(amount', patience, if moved then patience else left - 1) < Budget(amount, patience, left)
  {
    if amount' < amount {
      OneLess(amount', amount, patience + 1);
    }
  }

  /**
    A run in which nothing begins and the environment keeps moving, however it moves, takes no
    longer than its budget to empty the chain, and keeps the session's items.
  */
  lemma {:induction false} QuietRun(d: nat, n: nat, w: World, inputs: seq<Input>, patience: nat, left: nat)
    requires Inv(d, n, w) && FitsRun(d, n, w, inputs) && KeepsMoving(d, n, w, inputs, patience, left)
    requires left <= patience
    ensures var z := Run(d, n, w, inputs);
      && Inv(d, n, z) && z.a.hist.session.items == w.a.hist.session.items
      && (Work(z.t, z.b, z.a.regs.y) == 0 || |inputs| <= Budget(LeftIn(n, w), patience, left))
    decreases |inputs|
  {
    hide TailInv, Fits, Moves, NothingBegins, Next, Work, Left, UsbAnalyzer.Inv, Budget;
    NothingLeft(d, n, w);
    if inputs != [] {
      var (i, moved) := (inputs[0], Moves(d, n, w, inputs[0]));
      var z, left' := Next(d, n, w, i), if moved then patience else left - 1;
      CycleMoves(d, n, w, i);
      NextKeepsInv(d, n, w, i);
      ItemsStay(d, n, w, i);
      QuietRun(d, n, z, inputs[1..], patience, left');
      if Work(w.t, w.b, w.a.regs.y) == 0 {
        EmptyStays(d, n, w, inputs, patience, left);
      } else {
        BudgetFalls(LeftIn(n, w), LeftIn(n, z), patience, left, moved);
      }
    } else {
      BudgetHolds(LeftIn(n, w), patience, left);
    }
  }

  lemma BudgetHolds(amount: nat, patience: nat, left: nat)
    ensures Budget(amount, patience, left) >= 0
  {
    NonNegative(amount, patience + 1);
  }

  lemma {:induction false} EmptyStays(d: nat, n: nat, w: World, inputs: seq<Input>, patience: nat, left: nat)
    requires Inv(d, n, w) && FitsRun(d, n, w, inputs) && KeepsMoving(d, n, w, inputs, patience, left)
    requires Work(w.t, w.b, w.a.regs.y) == 0
    ensures var z := Run(d, n, w, inputs); Work(z.t, z.b, z.a.regs.y) == 0
    decreases |inputs|
  {
    hide TailInv, Fits, Moves, NothingBegins, Next, Work, Left, UsbAnalyzer.Inv;
    if inputs != [] {
      var i := inputs[0];
      CycleMoves(d, n, w, i);
      NextKeepsInv(d, n, w, i);
      EmptyStays(d, n, Next(d, n, w, i), inputs[1..], patience, if Moves(d, n, w, i) then patience else left - 1);
    }
  }

  /** Every environment that keeps moving empties the chain, and the host then has all items of the session. */
  lemma KeepsMovingDrains(d: nat, n: nat, w: World, inputs: seq<Input>, patience: nat)
    requires Inv(d, n, w) && FitsRun(d, n, w, inputs) && KeepsMoving(d, n, w, inputs, patience, patience)
    requires |inputs| > Budget(LeftIn(n, w), patience, patience)
    ensures var z := Run(d, n, w, inputs);
      && Inv(d, n, z) && Crossing(z.b) == [] && Stream16to8.Held(z.t.conv) == [] && Upstream(z) == []
      && Parse(Join(Received(z.b))) == Some(w.a.hist.session.items)
  {
    hide TailInv, UsbAnalyzer.Inv, Parse, Join, Received, Crossing, Upstream, Stream16to8.Held;
    hide FitsRun, Run, KeepsMoving, Budget, Work, Left;
    QuietRun(d, n, w, inputs, patience, patience);
    var z := Run(d, n, w, inputs);
    NothingLeft(d, n, z);
    HostReceivesSession(d, n, w, inputs, z);
  }

  // ---- One that does ----

  function RestPins(u: UsbAnalyzer.UsbRegs): Pins {
    Pins(false, u.capture.CapturePacket?, false, 0)
  }

  /** A busy environment: the PSRAM strobes in every transfer and rests after it, the host takes every byte. */
  function Busy(t: Tail, usb: bool): Tick {
    var m := t.ram.psram;
    Tick(Strobes(m.active && m.write, m.active && !m.write, !m.active), t.fifo.r.consumeGray,
         if usb then Some(Port(true, t.fifo.w.produceGray, 0)) else None)
  }

  lemma BusyIsLegal(n: nat, t: Tail, y: UsbAnalyzer.SyncRegs, usb: bool)
    requires Shaped(n, t)
    ensures Legal(n, t, y, false, Busy(t, usb))
  {
    hide AsyncFifo.WriteSide, AsyncFifo.ReadSide, AsyncFifo.StoreNext;
    var e := FifoEdge(t, false, Busy(t, usb));
    assert AsyncFifo.Sampled(n, e);
    assert AsyncFifo.Shaped(n, AsyncFifo.Step(n, t.fifo, e));
  }

  function BusyInput(n: nat, w: World): Input
    requires Shaped(n, w.t)
  {
    BusyIsLegal(n, w.t, w.a.regs.y, false);
    Input(RestPins(w.a.regs.u), Busy(w.t, false),
          Busy(TailStep(n, w.t, w.a.regs.y, false, Busy(w.t, false)), true))
  }

  lemma BusyMoves(d: nat, n: nat, w: World)
    requires Inv(d, n, w)
    ensures var i := BusyInput(n, w);
      Fits(d, n, w, i) && NothingBegins(w.a.regs.u, i.pins) && Moves(d, n, w, i)
  {
    hide Legal, TailStep, TailInv, UsbAnalyzer.SyncEdge, UsbAnalyzer.WriterInv, UsbAnalyzer.ReaderInv, Parse;
    hide UsbAnalyzer.EdgeClear;
    var i := BusyInput(n, w);
    BusyIsLegal(n, w.t, w.a.regs.y, false);
    AnalyzerEdge(d, w.a.regs, i.pins, i.first.psram.writeReady);
    var t1 := TailStep(n, w.t, w.a.regs.y, false, i.first);
    BusyIsLegal(n, t1, MidSync(d, w, i).y, true);
    AnalyzerEdge(d, MidSync(d, w, i), i.pins, i.second.psram.writeReady);
  }

  lemma BusyRun(d: nat, n: nat, w: World, cycles: nat) returns (inputs: seq<Input>)
    requires Inv(d, n, w)
    ensures |inputs| == cycles && FitsRun(d, n, w, inputs) && KeepsMoving(d, n, w, inputs, 0, 0)
    decreases cycles
  {
    hide TailInv, Fits, Moves, NothingBegins, Next, BusyInput, UsbAnalyzer.Inv;
    inputs := [];
    if cycles > 0 {
      var i := BusyInput(n, w);
      BusyMoves(d, n, w);
      NextKeepsInv(d, n, w, i);
      var rest := BusyRun(d, n, Next(d, n, w, i), cycles - 1);
      inputs := [i] + rest;
      assert inputs[1..] == rest;
    }
  }

  /** The host, joining and parsing the bytes it has taken in this session, then has all items captured before. */
  ghost predicate ReadsAll(d: nat, n: nat, w: World, inputs: seq<Input>)
    requires WorldShaped(d, n, w)
  {
    FitsRun(d, n, w, inputs) && Parse(Join(Received(Run(d, n, w, inputs).b))) == Some(w.a.hist.session.items)
  }

  /** From wherever a run has led there is a continuation that brings the host all items of the session so far. */
  lemma EverySessionCanBeRead(d: nat, n: nat, w: World)
    requires Inv(d, n, w)
    ensures exists inputs: seq<Input> :: ReadsAll(d, n, w, inputs)
  {
    hide TailInv, UsbAnalyzer.Inv, FitsRun, Run, KeepsMoving, Budget, Left, Work, Parse, Join, Received;
    NothingLeft(d, n, w);
    BudgetHolds(LeftIn(n, w), 0, 0);
    var inputs := BusyRun(d, n, w, Budget(LeftIn(n, w), 0, 0) + 1);
    KeepsMovingDrains(d, n, w, inputs, 0);
    assert ReadsAll(d, n, w, inputs);
  }
}
