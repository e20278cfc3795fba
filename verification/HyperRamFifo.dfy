/**
  HyperRAMPacketFIFO: a deep FIFO in external memory, filled and drained in bursts.

  The PSRAM controller, the output FIFO and the word source are the environment. The PSRAM is
  assumed to latch address and direction when a transfer starts, to strobe one word at a time
  while the transfer lasts, to end it with the strobe that carries `final_word`, and to be
  idle only between transfers.
*/
module HyperRamFifo {
  import opened Modular
  import opened Rings
  import opened Words

  /** Words in the memory: 2 to the power 22. */
  const DEPTH: nat := 0x40_0000

  /** Range of the 23-bit word count. */
  const COUNT_RANGE: nat := 0x80_0000

  datatype Regs = Regs(writeAddress: nat, readAddress: nat, wordCount: nat, isWrite: bool, busy: bool)

  /** The PSRAM: a transfer in progress or not, its direction and next address, and the memory. */
  datatype Psram = Psram(active: bool, write: bool, address: nat, mem: seq<Word>)

  /** Inputs of one cycle: the word stream, the PSRAM's strobes and idle flag, and whether the output FIFO is read. */
  datatype Pins = Pins(inValid: bool, inPayload: Word, inLast: bool,
                       writeReady: bool, readReady: bool, idle: bool, outTaken: bool)

  /** `owed`: the source must offer a word this cycle. `queue`: the output FIFO, of `outDepth` words. */
  datatype System = System(regs: Regs, psram: Psram, outDepth: nat, queue: seq<Word>, owed: bool)

  predicate Shaped(x: System) {
    && x.outDepth > 0 && |x.psram.mem| == DEPTH && x.psram.address < DEPTH
    && x.regs.writeAddress < DEPTH && x.regs.readAddress < DEPTH
  }

  // ---- Combinational signals ----

  predicate IsPowerOfTwo(n: nat) {
    n == 1 || (n > 0 && n % 2 == 0 && IsPowerOfTwo(n / 2))
  }

  /** The weight of the highest bit of a signal that counts up to n. */
  function HighBit(n: nat): (b: nat)
    requires n > 0
    ensures 0 < b <= n < 2 * b && IsPowerOfTwo(b)
  {
    if n == 1 then 1 else 2 * HighBit(n / 2)
  }

  predicate StartsWrite(x: System, p: Pins) {
    !x.regs.busy && p.inValid && x.regs.wordCount != DEPTH
  }

  predicate StartsRead(x: System, p: Pins)
    requires x.outDepth > 0
  {
    !x.regs.busy && !StartsWrite(x, p) && x.regs.wordCount != 0 && |x.queue| < HighBit(x.outDepth)
  }

  predicate FinalWord(x: System, p: Pins) {
    if x.regs.isWrite then x.regs.wordCount == DEPTH - 1 || p.inLast
    else x.regs.wordCount == 1 || |x.queue| == x.outDepth - 1
  }

  // ---- One clock edge ----

  function RegsNext(x: System, p: Pins): Regs
    requires x.outDepth > 0
  {
    var r := x.regs;
    Regs(Wrap(r.writeAddress + (if p.writeReady then 1 else 0), DEPTH),
         Wrap(r.readAddress + (if p.readReady then 1 else 0), DEPTH),
         Wrap(r.wordCount + COUNT_RANGE - (if p.readReady then 1 else 0) + (if p.writeReady then 1 else 0),
              COUNT_RANGE),
         if StartsWrite(x, p) then true else if StartsRead(x, p) then false else r.isWrite,
         if r.busy then !p.idle else StartsWrite(x, p) || StartsRead(x, p))
  }

  function PsramNext(x: System, p: Pins): Psram
    requires Shaped(x)
  {
    var m := x.psram;
    if StartsWrite(x, p) then Psram(true, true, x.regs.writeAddress, m.mem)
    else if StartsRead(x, p) then Psram(true, false, x.regs.readAddress, m.mem)
    else if p.writeReady || p.readReady then
      Psram(!FinalWord(x, p), m.write, Wrap(m.address + 1, DEPTH),
            if p.writeReady then m.mem[m.address := p.inPayload] else m.mem)
    else m
  }

  function Step(x: System, p: Pins): (x': System)
    requires Shaped(x)
    ensures Shaped(x') && x'.outDepth == x.outDepth
  {
    var taken := if p.outTaken && x.queue != [] then x.queue[1..] else x.queue;
    System(RegsNext(x, p), PsramNext(x, p), x.outDepth,
           if p.readReady then taken + [x.psram.mem[x.psram.address]] else taken,
           p.inValid && (p.writeReady ==> !p.inLast))
  }

  /** The PSRAM strobes only inside a transfer of that direction, and is idle only outside. */
  predicate Strobed(x: System, p: Pins) {
    && (p.writeReady ==> x.psram.active && x.psram.write)
    && (p.readReady ==> x.psram.active && !x.psram.write)
    && (p.idle ==> !x.psram.active)
  }

  /** The environment keeps its side: the PSRAM's strobes, and the source's hand-off rule. */
  predicate Legal(x: System, p: Pins) {
    Strobed(x, p) && (x.owed ==> p.inValid)
  }

  // ---- History and invariant ----

  /** Words stored from valid offers, words fetched back, and words handed on. */
  datatype Log = Log(stored: seq<Word>, fetched: nat, out: seq<Word>)

  function Record(x: System, g: Log, p: Pins): Log {
    Log(if p.writeReady && p.inValid then g.stored + [p.inPayload] else g.stored,
        g.fetched + (if p.readReady then 1 else 0),
        if p.outTaken && x.queue != [] then g.out + [x.queue[0]] else g.out)
  }

  ghost predicate RamInv(x: System, g: Log) {
    && |x.psram.mem| == DEPTH
    && g.fetched + x.regs.wordCount == |g.stored| && x.regs.wordCount <= DEPTH
    && x.regs.writeAddress == Wrap(|g.stored|, DEPTH)
    && x.regs.readAddress == Wrap(g.fetched, DEPTH)
    && RingHolds(x.psram.mem, g.stored, g.fetched)
  }

  predicate BurstInv(x: System) {
    && Shaped(x) && |x.queue| <= x.outDepth
    && (x.psram.active ==> x.regs.busy && x.regs.isWrite == x.psram.write)
    && (x.psram.active && x.psram.write ==>
          x.owed && x.regs.wordCount < DEPTH && x.psram.address == x.regs.writeAddress)
    && (x.psram.active && !x.psram.write ==>
          x.regs.wordCount > 0 && |x.queue| < x.outDepth && x.psram.address == x.regs.readAddress)
  }

  predicate QueueInv(x: System, g: Log) {
    g.fetched <= |g.stored| && g.out + x.queue == g.stored[..g.fetched]
  }

  ghost predicate Inv(x: System, g: Log) {
    RamInv(x, g) && BurstInv(x) && QueueInv(x, g)
  }

  lemma CountsFollow(x: System, g: Log, p: Pins)
    requires Inv(x, g) && Legal(x, p)
    ensures var (r, g') := (RegsNext(x, p), Record(x, g, p));
      && g'.fetched + r.wordCount == |g'.stored| && r.wordCount <= DEPTH
      && r.writeAddress == Wrap(|g'.stored|, DEPTH) && r.readAddress == Wrap(g'.fetched, DEPTH)
  {
    hide HighBit, Wrap, RingHolds, QueueInv;
    WrapSame(x.regs.wordCount - (if p.readReady then 1 else 0) + (if p.writeReady then 1 else 0), COUNT_RANGE);
    WrapAdd(|g.stored|, 1, DEPTH);
    WrapAdd(g.fetched, 1, DEPTH);
  }

  lemma RingFollows(x: System, g: Log, p: Pins)
    requires Inv(x, g) && Legal(x, p)
    ensures var (m, g') := (PsramNext(x, p).mem, Record(x, g, p));
      |m| == DEPTH && RingHolds(m, g'.stored, g'.fetched)
  {
    hide HighBit, Wrap, QueueInv;
    if p.writeReady {
      RingAppend(x.psram.mem, g.stored, g.fetched, p.inPayload);
    }
  }

  lemma StepKeepsRam(x: System, g: Log, p: Pins)
    requires Inv(x, g) && Legal(x, p)
    ensures RamInv(Step(x, p), Record(x, g, p))
  {
    CountsFollow(x, g, p);
    RingFollows(x, g, p);
    hide Wrap, RingHolds, RegsNext, PsramNext, Record, Legal, HighBit, BurstInv, QueueInv;
  }

  lemma StepKeepsBurst(x: System, g: Log, p: Pins)
    requires Inv(x, g) && Legal(x, p) && RamInv(Step(x, p), Record(x, g, p))
    ensures BurstInv(Step(x, p))
  {
    hide Wrap, HighBit;
    WrapAdd(|g.stored|, 1, DEPTH);
    WrapAdd(g.fetched, 1, DEPTH);
  }

  lemma StepKeepsQueue(x: System, g: Log, p: Pins)
    requires Inv(x, g) && Legal(x, p)
    ensures QueueInv(Step(x, p), Record(x, g, p))
  {
    hide Wrap, HighBit, RegsNext, PsramNext;
    var g' := Record(x, g, p);
    var rest := if p.outTaken && x.queue != [] then x.queue[1..] else x.queue;
    assert g'.out + rest == g.out + x.queue;
    assert g'.stored[..g.fetched] == g.stored[..g.fetched];
    if p.readReady {
      var w := x.psram.mem[x.psram.address];
      assert w == g.stored[g.fetched];
      assert g'.out + (rest + [w]) == (g'.out + rest) + [w];
      assert g'.stored[..g.fetched + 1] == g.stored[..g.fetched] + [w];
    }
  }

  lemma StepKeepsInv(x: System, g: Log, p: Pins)
    requires Inv(x, g) && Legal(x, p)
    ensures Inv(Step(x, p), Record(x, g, p))
  {
    hide Step, Record, RamInv, BurstInv, QueueInv, Legal;
    StepKeepsRam(x, g, p);
    StepKeepsBurst(x, g, p);
    StepKeepsQueue(x, g, p);
  }

  /**
    No write strobe ever takes a word the source is not offering, no read strobe overfills the
    output FIFO, and neither burst runs past the end of the data or of the memory.
  */
  lemma StrobesAreSafe(x: System, g: Log, p: Pins)
    requires Inv(x, g) && Legal(x, p)
    ensures p.writeReady ==> p.inValid && x.regs.wordCount < DEPTH
    ensures p.readReady ==> x.regs.wordCount > 0 && |x.queue| < x.outDepth
  {
  }

  /** What the invariant says about the words: none is lost, duplicated or reordered. */
  lemma WordsConserved(x: System, g: Log)
    requires Inv(x, g)
    ensures |x.psram.mem| == DEPTH && x.regs.wordCount == |g.stored| - g.fetched <= DEPTH
    ensures g.out + x.queue + RingSlice(x.psram.mem, g.fetched, x.regs.wordCount) == g.stored
  {
    hide Wrap;
    assert g.stored[g.fetched..] == RingSlice(x.psram.mem, g.fetched, x.regs.wordCount);
    assert g.stored == g.stored[..g.fetched] + g.stored[g.fetched..];
  }

  /**
    A burst goes on after a strobe exactly as long as it can: a write while the memory has room
    and the source more words, a read while the memory has words and the output FIFO room.
  */
  lemma BurstGoesOnIff(x: System, g: Log, p: Pins)
    requires Inv(x, g) && Legal(x, p) && (p.writeReady || p.readReady)
    ensures var x' := Step(x, p);
      x'.psram.active <==>
      if p.writeReady then x'.regs.wordCount < DEPTH && !p.inLast
      else x'.regs.wordCount > 0 && |x.queue| + 1 < x.outDepth
  {
    CountsFollow(x, g, p);
    hide Wrap, HighBit, RingHolds;
  }

  /**
    When a transfer starts: on an idle controller, a write whenever there is a word and room for
    it, and otherwise a read if there are words and the top bit of the output FIFO's level is
    clear. For a depth that is a power of two that means: if the output FIFO is not full.
  */
  lemma TransferStartsIff(x: System, g: Log, p: Pins)
    requires Inv(x, g) && Legal(x, p) && !x.psram.active
    ensures var x' := Step(x, p);
      && (x'.psram.active && x'.psram.write <==> !x.regs.busy && p.inValid && |g.stored| - g.fetched < DEPTH)
      && (IsPowerOfTwo(x.outDepth) ==>
            (x'.psram.active && !x'.psram.write <==>
               && !x.regs.busy && !(p.inValid && |g.stored| - g.fetched < DEPTH)
               && |g.stored| > g.fetched && |x.queue| < x.outDepth))
  {
    hide Wrap, RingHolds;
    if IsPowerOfTwo(x.outDepth) {
      PowersApart(HighBit(x.outDepth), x.outDepth);
    }
  }

  lemma {:induction false} PowersApart(a: nat, b: nat)
    requires IsPowerOfTwo(a) && IsPowerOfTwo(b) && a <= b < 2 * a
    ensures a == b
  {
    if a > 1 && b > 1 {
      PowersApart(a / 2, b / 2);
    }
  }

  // ---- Whole runs ----

  function PowerOn(mem: seq<Word>, outDepth: nat): System {
    System(Regs(0, 0, 0, false, false), Psram(false, false, 0, mem), outDepth, [], false)
  }

  ghost predicate LegalRun(x: System, pins: seq<Pins>)
    requires Shaped(x)
    decreases |pins|
  {
    pins == [] ||
    (Legal(x, pins[0]) && LegalRun(Step(x, pins[0]), pins[1..]))
  }

  ghost function Run(x: System, g: Log, pins: seq<Pins>): (System, Log)
    requires Shaped(x) && LegalRun(x, pins)
    decreases |pins|
  {
    if pins == [] then (x, g) else Run(Step(x, pins[0]), Record(x, g, pins[0]), pins[1..])
  }

  lemma {:induction false} RunKeepsInv(x: System, g: Log, pins: seq<Pins>)
    requires Inv(x, g) && LegalRun(x, pins)
    ensures var (x', g') := Run(x, g, pins); Inv(x', g')
    decreases |pins|
  {
    hide Step, Record, RamInv, QueueInv, Legal;
    if pins != [] {
      StepKeepsInv(x, g, pins[0]);
      RunKeepsInv(Step(x, pins[0]), Record(x, g, pins[0]), pins[1..]);
    }
  }

  /**
    In every legal run the words handed on, those in the output FIFO and those in the memory
    are the words taken in, in order; the count is writes minus reads, within 0..DEPTH, and
    the addresses agree with it.
  */
  lemma FifoInOrder(mem: seq<Word>, outDepth: nat, pins: seq<Pins>, y: System, g: Log)
    requires |mem| == DEPTH && outDepth > 0 && LegalRun(PowerOn(mem, outDepth), pins)
    requires (y, g) == Run(PowerOn(mem, outDepth), Log([], 0, []), pins)
    ensures |y.psram.mem| == DEPTH && g.out + y.queue + RingSlice(y.psram.mem, g.fetched, y.regs.wordCount) == g.stored
    ensures y.regs.wordCount == |g.stored| - g.fetched <= DEPTH
    ensures y.regs.writeAddress == Wrap(y.regs.readAddress + y.regs.wordCount, DEPTH)
    ensures |y.queue| <= outDepth
  {
    hide Wrap, Step, Record, HighBit;
    RunKeepsInv(PowerOn(mem, outDepth), Log([], 0, []), pins);
    OutDepthFixed(PowerOn(mem, outDepth), Log([], 0, []), pins);
    WrapAdd(g.fetched, y.regs.wordCount, DEPTH);
    WordsConserved(y, g);
  }

  lemma {:induction false} OutDepthFixed(x: System, g: Log, pins: seq<Pins>)
    requires Shaped(x) && LegalRun(x, pins)
    ensures Run(x, g, pins).0.outDepth == x.outDepth
    decreases |pins|
  {
    hide RegsNext, PsramNext;
    if pins != [] {
      OutDepthFixed(Step(x, pins[0]), Record(x, g, pins[0]), pins[1..]);
    }
  }

  // ---- The registers, updated in place ----

  class PacketFifo {
    var writeAddress: nat
    var readAddress: nat
    var wordCount: nat
    var isWrite: bool
    var busy: bool

    function State(): Regs
      reads this
    {
      Regs(writeAddress, readAddress, wordCount, isWrite, busy)
    }

    constructor ()
      ensures State() == Regs(0, 0, 0, false, false)
    {
      writeAddress, readAddress, wordCount, isWrite, busy := 0, 0, 0, false, false;
    }

    /** A rising sync edge; `x` is the environment around these registers. */
    method OnEdge(x: System, p: Pins)
      requires x.regs == State() && x.outDepth > 0
      modifies this
      ensures State() == RegsNext(x, p)
    {
      hide Wrap, HighBit;
      if busy {
        busy := !p.idle;
      } else if p.inValid && wordCount != DEPTH {
        isWrite, busy := true, true;
      } else if wordCount != 0 && |x.queue| < HighBit(x.outDepth) {
        isWrite, busy := false, true;
      }
      wordCount := Wrap(wordCount + COUNT_RANGE - (if p.readReady then 1 else 0) + (if p.writeReady then 1 else 0),
                        COUNT_RANGE);
      readAddress := Wrap(readAddress + (if p.readReady then 1 else 0), DEPTH);
      writeAddress := Wrap(writeAddress + (if p.writeReady then 1 else 0), DEPTH);
    }
  }
}
