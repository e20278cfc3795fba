/** Runs of the analyzer from power-on in which data are lost or spoiled and no overrun is raised. */
module AnalyzerRuns {
  import opened Options
  import opened Modular
  import opened Seqs
  import opened Words
  import opened CaptureSpec
  import opened UsbAnalyzer

  // ---- Words that vanish ----

  /** A stalled reader: it takes nothing at either edge. */
  function Stalled(p: Pins): Stimulus {
    Stimulus(p, false, false)
  }

  const QUIET: Pins := Pins(true, false, false, 0)
  const ACTIVE: Pins := Pins(true, true, false, 0)

  /** What decides a run of a four-word ring with a stalled reader: everything but the words themselves. */
  ghost predicate At(x: Sim, capture: Capture, writeByte: nat, time: nat, count: nat, pending: nat, words: nat,
                     popped: nat) {
    && Shaped(4, x.regs) && x.regs.y.write.StartWrite?
    && x.regs.u.capture == capture && x.regs.u.writeByte == writeByte && x.regs.u.time == time < 0xFFFF
    && x.regs.y.count == count && x.regs.y.pending == pending
    && x.regs.y.valid == (popped == 1) && |x.hist.log.words| == words && x.hist.log.popped == popped <= 1
  }

  lemma StalledStart(x: Sim, writeByte: nat, time: nat, count: nat, pending: nat, words: nat, popped: nat)
    requires At(x, AwaitPacket, writeByte, time, count, pending, words, popped) && writeByte % 2 == 0
    ensures var n := if popped == 0 && count > 0 then 1 else 0;
      At(Next(4, x, Stalled(ACTIVE)), CapturePacket, Wrap(writeByte + 4, 8), 0, count - n, 2, words, popped + n)
  {
    hide MemNext;
  }

  lemma StalledEnd(x: Sim, writeByte: nat, time: nat, count: nat, pending: nat, words: nat, popped: nat)
    requires At(x, CapturePacket, writeByte, time, count, pending, words, popped) && (popped == 1 || count == 0)
    requires time + 1 < 0xFFFF
    ensures At(Next(4, x, Stalled(QUIET)), AwaitPacket, writeByte, time + 1,
               Wrap(count + pending, 4), pending, words + pending, popped)
  {
    hide MemNext;
  }

  lemma StalledByte(x: Sim, b: Byte, time: nat, count: nat, words: nat)
    requires At(x, CapturePacket, 0, time, count, 2, words, 1) && count > 0 && time + 1 < 0xFFFF
    ensures At(Next(4, x, Stalled(Pins(true, true, true, b))), CapturePacket, 1, time + 1, count, 3, words, 1)
  {
    hide MemNext;
  }

  lemma AtMeans(x: Sim, capture: Capture, writeByte: nat, time: nat, count: nat, pending: nat, words: nat, popped: nat)
    requires At(x, capture, writeByte, time, count, pending, words, popped)
    ensures Shaped(4, x.regs) && x.regs.u.capture == capture && x.regs.y.count == count
    ensures |x.hist.log.words| == words && x.hist.log.popped == popped
  {
  }

  /** An idle bus brings the counter to its last value; nothing else changes. */
  lemma {:induction false} StalledIdle(x: Sim, n: nat, writeByte: nat, time: nat, count: nat, pending: nat, words: nat)
    requires At(x, AwaitPacket, writeByte, time, count, pending, words, 1) && time + n < 0xFFFF
    decreases n
    ensures var trace := Repeat(Stalled(QUIET), n);
      At(Run(4, x, trace), AwaitPacket, writeByte, time + n, count, pending, words, 1) && NoOverrun(4, x, trace)
  {
    if n > 0 {
      var y := Next(4, x, Stalled(QUIET));
      assert At(y, AwaitPacket, writeByte, time + 1, count, pending, words, 1) by {
        hide MemNext;
      }
      hide Next, Stalled;
      StalledIdle(y, n - 1, writeByte, time + 1, count, pending, words);
      RunMore(4, x, Stalled(QUIET), Repeat(Stalled(QUIET), n - 1));
    }
  }

  function Then(t: Stimulus, rest: seq<Stimulus>): seq<Stimulus> {
    [t] + rest
  }

  lemma RunMore(d: nat, x: Sim, t: Stimulus, rest: seq<Stimulus>)
    requires Shaped(d, x.regs)
    ensures Run(d, x, Then(t, rest)) == Run(d, Next(d, x, t), rest)
    ensures NoOverrun(d, x, Then(t, rest)) <==> !x.regs.u.capture.Overrun? && NoOverrun(d, Next(d, x, t), rest)
  {
    assert Then(t, rest)[1..] == rest;
  }

  lemma PowerOnStarts(mem: seq<Word>, payload: Word)
    requires |mem| == 4
    ensures Shaped(4, PowerOn(4, mem, payload).regs)
    ensures At(Next(4, PowerOn(4, mem, payload), Stalled(QUIET)), AwaitPacket, 0, 0, 0, 0, 0, 0)
  {
    hide MemNext;
  }

  /** From power-on: a session starts, and two words are committed for an empty packet. */
  lemma OneEmptyPacket(mem: seq<Word>, payload: Word, rest: seq<Stimulus>, x: Sim)
    requires |mem| == 4
    requires var x1 := Next(4, PowerOn(4, mem, payload), Stalled(QUIET));
      x == Next(4, Next(4, x1, Stalled(ACTIVE)), Stalled(QUIET))
    ensures At(x, AwaitPacket, 4, 1, 2, 2, 2, 0)
    ensures var trace := Then(Stalled(QUIET), Then(Stalled(ACTIVE), Then(Stalled(QUIET), rest)));
      && Run(4, PowerOn(4, mem, payload), trace) == Run(4, x, rest)
      && (NoOverrun(4, x, rest) ==> NoOverrun(4, PowerOn(4, mem, payload), trace))
  {
    hide Next, Run, NoOverrun, Stalled, Then;
    var x0 := PowerOn(4, mem, payload);
    var x1 := Next(4, x0, Stalled(QUIET));
    var x2 := Next(4, x1, Stalled(ACTIVE));
    PowerOnStarts(mem, payload);
    StalledStart(x1, 0, 0, 0, 0, 0, 0);
    StalledEnd(x2, 4, 0, 0, 2, 0, 0);
    RunMore(4, x0, Stalled(QUIET), Then(Stalled(ACTIVE), Then(Stalled(QUIET), rest)));
    RunMore(4, x1, Stalled(ACTIVE), Then(Stalled(QUIET), rest));
    RunMore(4, x2, Stalled(QUIET), rest);
  }

  /**
    From power-on, in a ring of four words with a stalled reader: an empty packet, then one of
    a single byte. No overrun is raised, five words are committed and one fetched, and the
    count says that nothing is left.
  */
  lemma LostPacketRun(mem: seq<Word>, payload: Word, b: Byte)
    requires |mem| == 4
    ensures var trace := Then(Stalled(QUIET), Then(Stalled(ACTIVE), Then(Stalled(QUIET),
        Then(Stalled(ACTIVE), Then(Stalled(Pins(true, true, true, b)), Then(Stalled(QUIET), []))))));
      var y := Run(4, PowerOn(4, mem, payload), trace);
      && NoOverrun(4, PowerOn(4, mem, payload), trace)
      && |y.hist.log.words| == 5 && y.hist.log.popped == 1 && y.regs.y.count == 0
  {
    assert Wrap(8, 8) == 0 && Wrap(4, 4) == 0;
    hide Next, Run, NoOverrun, Stalled, Wrap, At, Shaped, PowerOn, Then;
    PowerOnStarts(mem, payload);
    var x3 := Next(4, Next(4, Next(4, PowerOn(4, mem, payload), Stalled(QUIET)), Stalled(ACTIVE)), Stalled(QUIET));
    var byte := Stalled(Pins(true, true, true, b));
    var x4 := Next(4, x3, Stalled(ACTIVE));
    var x5 := Next(4, x4, byte);
    OneEmptyPacket(mem, payload, Then(Stalled(ACTIVE), Then(byte, Then(Stalled(QUIET), []))), x3);
    StalledStart(x3, 4, 1, 2, 2, 2, 0);
    StalledByte(x4, b, 0, 1, 2);
    StalledEnd(x5, 1, 1, 1, 3, 2, 1);
    RunMore(4, x3, Stalled(ACTIVE), Then(byte, Then(Stalled(QUIET), [])));
    RunMore(4, x4, byte, Then(Stalled(QUIET), []));
    RunMore(4, x5, Stalled(QUIET), []);
    RunNone(4, Next(4, x5, Stalled(QUIET)));
    AtMeans(x3, AwaitPacket, 4, 1, 2, 2, 2, 0);
    AtMeans(x4, CapturePacket, 0, 0, 1, 2, 2, 1);
    AtMeans(x5, CapturePacket, 1, 1, 1, 3, 2, 1);
    AtMeans(Next(4, x5, Stalled(QUIET)), AwaitPacket, 1, 2, 0, 3, 5, 1);
  }

  lemma RunNone(d: nat, x: Sim)
    requires Shaped(d, x.regs)
    ensures Run(d, x, []) == x && (NoOverrun(d, x, []) <==> !x.regs.u.capture.Overrun?)
  {
  }

  lemma StalledEvent(x: Sim, writeByte: nat, count: nat, pending: nat, words: nat)
    requires At(x, AwaitPacket, writeByte, 0xFFFE, count, pending, words, 1)
    ensures var y := Next(4, Next(4, x, Stalled(QUIET)), Stalled(QUIET));
      !Next(4, x, Stalled(QUIET)).regs.u.capture.Overrun? && !y.regs.u.capture.Overrun?
      && |y.hist.log.words| == words + 2 && y.hist.log.popped == 1 && y.regs.y.count == Wrap(count + 2, 4)
  {
    hide MemNext;
    var z := Next(4, x, Stalled(QUIET));
    assert z.regs.u.capture.AwaitPacket? && z.regs.u.time == 0xFFFF && z.regs.y.write.StartWrite? && z.regs.y.valid
      && z.regs.y.count == count && |z.hist.log.words| == words && z.hist.log.popped == 1;
  }

  /**
    The same ring and reader: two empty packets, then an idle bus until the counter wraps. The
    rollover event makes six committed words with one fetched, and the count says one is left.
  */
  lemma LostEventRun(mem: seq<Word>, payload: Word)
    requires |mem| == 4
    ensures var trace := Then(Stalled(QUIET), Then(Stalled(ACTIVE), Then(Stalled(QUIET),
        Then(Stalled(ACTIVE), Then(Stalled(QUIET), Repeat(Stalled(QUIET), 0xFFFF))))));
      var y := Run(4, PowerOn(4, mem, payload), trace);
      && NoOverrun(4, PowerOn(4, mem, payload), trace)
      && |y.hist.log.words| == 6 && y.hist.log.popped == 1 && y.regs.y.count == 1
  {
    assert Wrap(8, 8) == 0 && Wrap(3, 4) == 3 && Wrap(5, 4) == 1;
    hide Next, Run, NoOverrun, Stalled, Wrap, Repeat, At, Shaped, PowerOn, Then;
    PowerOnStarts(mem, payload);
    var x3 := Next(4, Next(4, Next(4, PowerOn(4, mem, payload), Stalled(QUIET)), Stalled(ACTIVE)), Stalled(QUIET));
    var idle := Repeat(Stalled(QUIET), 0xFFFF);
    var x4 := Next(4, x3, Stalled(ACTIVE));
    var x5 := Next(4, x4, Stalled(QUIET));
    OneEmptyPacket(mem, payload, Then(Stalled(ACTIVE), Then(Stalled(QUIET), idle)), x3);
    StalledStart(x3, 4, 1, 2, 2, 2, 0);
    StalledEnd(x4, 0, 0, 1, 2, 2, 1);
    RunMore(4, x3, Stalled(ACTIVE), Then(Stalled(QUIET), idle));
    RunMore(4, x4, Stalled(QUIET), idle);
    AtMeans(x3, AwaitPacket, 4, 1, 2, 2, 2, 0);
    AtMeans(x4, CapturePacket, 0, 0, 1, 2, 2, 1);
    IdleThenEvent(x5, 0, 3, 2, 4);
  }

  lemma IdleThenEvent(x: Sim, writeByte: nat, count: nat, pending: nat, words: nat)
    requires At(x, AwaitPacket, writeByte, 1, count, pending, words, 1)
    ensures var trace := Repeat(Stalled(QUIET), 0xFFFF);
      var y := Run(4, x, trace);
      && NoOverrun(4, x, trace) && |y.hist.log.words| == words + 2
      && y.hist.log.popped == 1 && y.regs.y.count == Wrap(count + 2, 4)
  {
    hide Next, Stalled, Repeat;
    var q := Stalled(QUIET);
    var (front, last) := (Repeat(q, 0xFFFD), Then(q, Then(q, [])));
    RepeatEnds(q, 0xFFFD);
    StalledIdle(x, 0xFFFD, writeByte, 1, count, pending, words);
    var x1 := Run(4, x, front);
    RunConcat(4, x, front, last);
    hide Run, NoOverrun, Wrap, Then;
    StalledEvent(x1, writeByte, count, pending, words);
    var x2 := Next(4, x1, q);
    RunMore(4, x1, q, Then(q, []));
    RunMore(4, x2, q, []);
    RunNone(4, Next(4, x2, q));
  }

  lemma {:induction false} RepeatEnds(t: Stimulus, n: nat)
    ensures Repeat(t, n + 2) == Repeat(t, n) + (Then(t, Then(t, [])))
  {
    if n > 0 {
      RepeatEnds(t, n - 1);
    } else {
      assert Repeat(t, 1) == [t] + Repeat(t, 0);
    }
  }

  lemma {:induction false} RunConcat(d: nat, x: Sim, trace: seq<Stimulus>, more: seq<Stimulus>)
    requires Shaped(d, x.regs)
    ensures Run(d, x, trace + more) == Run(d, Run(d, x, trace), more)
    ensures NoOverrun(d, x, trace) && NoOverrun(d, Run(d, x, trace), more) ==> NoOverrun(d, x, trace + more)
    decreases |trace|
  {
    hide Next;
    if trace == [] {
      assert trace + more == more;
    } else {
      assert (trace + more)[1..] == trace[1..] + more;
      RunConcat(d, Next(d, x, trace[0]), trace[1..], more);
    }
  }

  // ---- A run that corrupts a word in silence ----

  const ZERO: Word := Word(0, 0)

  /** What decides a run of an eight-word ring, with the count true. */
  ghost predicate Scene(x: Sim, capture: Capture, writeByte: nat, headerWord: nat, pending: nat, words: nat,
                        popped: nat, valid: bool) {
    && Shaped(8, x.regs) && x.regs.y.write.StartWrite?
    && x.regs.u.capture == capture && x.regs.u.writeByte == writeByte
    && (capture.CapturePacket? ==> x.regs.u.headerWord == headerWord)
    && x.regs.y.pending == pending && |x.hist.log.words| == words && x.hist.log.popped == popped < 8
    && x.regs.y.readWord == popped && popped + x.regs.y.count == words && x.regs.y.valid == valid
  }

  /** The first two words: as committed, zero; as they stand in the ring; and not yet passed on. */
  ghost predicate FirstTwo(x: Sim, first: Word, second: Word) {
    && |x.regs.y.mem| == 8 && x.regs.y.mem[0] == first && x.regs.y.mem[1] == second
    && |x.hist.log.words| >= 2 && x.hist.log.words[0] == x.hist.log.words[1] == ZERO
    && x.hist.log.out == [] && (x.regs.y.valid ==> x.regs.y.payload == ZERO)
  }

  /** The host's view of them, once it has them. */
  ghost predicate GotWrong(x: Sim, b: Byte) {
    && |x.hist.log.words| >= 2 && x.hist.log.words[..2] == [ZERO, ZERO]
    && |x.hist.log.out| >= 2 && x.hist.log.out[..2] == [ZERO, Word(b, 0)]
  }

  lemma SessionScene(mem: seq<Word>, payload: Word)
    requires |mem| == 8
    ensures Shaped(8, PowerOn(8, mem, payload).regs)
    ensures var x := Next(8, PowerOn(8, mem, payload), Stalled(QUIET));
      Scene(x, AwaitPacket, 0, 0, 0, 0, 0, false) && x.regs.u.time == 0 && x.hist.log == Log([], 0, [])
  {
    hide MemNext;
  }

  lemma FirstStartScene(x: Sim)
    requires Scene(x, AwaitPacket, 0, 0, 0, 0, 0, false) && x.regs.u.time == 0 && x.hist.log == Log([], 0, [])
    ensures var y := Next(8, x, Stalled(ACTIVE));
      && Scene(y, CapturePacket, 4, 0, 2, 0, 0, false) && y.hist.log == Log([], 0, [])
      && y.regs.u.size == 0 && y.regs.u.packetTime == 0
  {
    hide MemNext;
  }

  lemma FirstPacketScene(mem: seq<Word>, payload: Word)
    requires |mem| == 8
    ensures Shaped(8, PowerOn(8, mem, payload).regs)
    ensures var x1 := Next(8, PowerOn(8, mem, payload), Stalled(QUIET));
      var x2 := Next(8, x1, Stalled(ACTIVE));
      var x3 := Next(8, x2, Stalled(QUIET));
      && Scene(x1, AwaitPacket, 0, 0, 0, 0, 0, false)
      && Scene(x2, CapturePacket, 4, 0, 2, 0, 0, false)
      && Scene(x3, AwaitPacket, 4, 0, 2, 2, 0, false) && FirstTwo(x3, ZERO, ZERO)
  {
    hide Next, PowerOn, Stalled, FirstTwo, Shaped;
    SessionScene(mem, payload);
    var x1 := Next(8, PowerOn(8, mem, payload), Stalled(QUIET));
    FirstStartScene(x1);
    EmptyPacketScene(Next(8, x1, Stalled(ACTIVE)));
  }

  lemma EmptyPacketScene(x: Sim)
    requires Scene(x, CapturePacket, 4, 0, 2, 0, 0, false) && x.hist.log == Log([], 0, [])
    requires x.regs.u.size == 0 && x.regs.u.packetTime == 0
    ensures var y := Next(8, x, Stalled(QUIET));
      Scene(y, AwaitPacket, 4, 0, 2, 2, 0, false) && FirstTwo(y, ZERO, ZERO)
  {
  }

  lemma SceneStart(x: Sim, writeByte: nat, words: nat, popped: nat)
    requires Scene(x, AwaitPacket, writeByte, 0, 2, words, popped, popped == 1) && FirstTwo(x, ZERO, ZERO)
    requires popped <= 1 && writeByte % 2 == 0 && words >= 2
    ensures var y := Next(8, x, Stalled(ACTIVE));
      && Scene(y, CapturePacket, Wrap(writeByte + 4, 16), Wrap(writeByte / 2, 8), 2, words, 1, true)
      && FirstTwo(y, ZERO, ZERO)
  {
    hide MemNext;
    NoWriteMem(8, x.regs, ACTIVE);
    NoWriteMem(8, Mid(8, x.regs, ACTIVE, false), ACTIVE);
  }

  lemma NoWriteMem(d: nat, s: Regs, p: Pins)
    requires Shaped(d, s) && WriteSlot(d, s, p).None?
    ensures MemNext(d, s, p) == s.y.mem
  {
  }

  lemma SceneEnd(x: Sim, writeByte: nat, headerWord: nat, words: nat)
    requires Scene(x, CapturePacket, writeByte, headerWord, 2, words, 1, true) && FirstTwo(x, ZERO, ZERO)
    requires 2 <= headerWord < 6 && words <= 5
    ensures var y := Next(8, x, Stalled(QUIET));
      Scene(y, AwaitPacket, writeByte, 0, 2, words + 2, 1, true) && FirstTwo(y, ZERO, ZERO)
  {
  }

  lemma SceneByte(x: Sim, b: Byte, writeByte: nat, pending: nat, first: Word, second: Word)
    requires Scene(x, CapturePacket, writeByte, 6, pending, 6, 1, true) && FirstTwo(x, first, second)
    requires writeByte < 3 && 3 <= pending + (1 - writeByte % 2) < PENDING_RANGE
    ensures var y := Next(8, x, Stalled(Pins(true, true, true, b)));
      && Scene(y, CapturePacket, writeByte + 1, 6, pending + (1 - writeByte % 2), 6, 1, true)
      && FirstTwo(y, if writeByte < 2 then SetLane(first, writeByte, b) else first,
                     if writeByte == 2 then SetLane(second, writeByte, b) else second)
  {
  }

  function Draining(p: Pins): Stimulus {
    Stimulus(p, true, true)
  }

  lemma SceneFetch(x: Sim, b: Byte, first: Word)
    requires Scene(x, CapturePacket, 3, 6, 4, 6, 1, true) && FirstTwo(x, first, Word(b, 0))
    ensures var y := Next(8, x, Draining(ACTIVE));
      Scene(y, CapturePacket, 3, 6, 4, 6, 3, true) && GotWrong(y, b)
  {
    hide MemNext;
    NoWriteMem(8, x.regs, ACTIVE);
  }

  lemma SceneDrain(x: Sim, b: Byte, popped: nat)
    requires Scene(x, CapturePacket, 3, 6, 4, 6, popped, true) && GotWrong(x, b) && 3 <= popped <= 5
    ensures var y := Next(8, x, Draining(ACTIVE));
      Scene(y, CapturePacket, 3, 6, 4, 6, if popped < 5 then popped + 2 else 6, popped < 5) && GotWrong(y, b)
  {
    hide MemNext;
  }

  lemma SceneLast(x: Sim, b: Byte)
    requires Scene(x, CapturePacket, 3, 6, 4, 6, 6, false) && GotWrong(x, b)
    ensures var y := Next(8, x, Draining(QUIET));
      Scene(y, AwaitPacket, 3, 6, 4, 10, 6, false) && GotWrong(y, b)
  {
    hide MemNext;
  }

  /** A step that keeps the count true has found room for what it commits. */
  lemma SceneMore(x: Sim, t: Stimulus, rest: seq<Stimulus>)
    requires Counted(8, x.regs, x.hist.log) && Counted(8, Next(8, x, t).regs, Next(8, x, t).hist.log)
    requires !x.regs.u.capture.Overrun?
    ensures Run(8, x, Then(t, rest)) == Run(8, Next(8, x, t), rest)
    ensures NoOverrun(8, Next(8, x, t), rest) ==> NoOverrun(8, x, Then(t, rest))
    ensures CommitsFit(8, Next(8, x, t), rest) ==> CommitsFit(8, x, Then(t, rest))
  {
    RunMore(8, x, t, rest);
    CycleCountsIff(8, x.regs, x.hist, t.pins, t.ready0, t.ready1);
    assert Then(t, rest)[0] == t && Then(t, rest)[1..] == rest;
    hide Cycle, HasRoom, Record, Counted;
  }

  lemma SceneCounts(x: Sim, capture: Capture, writeByte: nat, headerWord: nat, pending: nat, words: nat,
                    popped: nat, valid: bool)
    requires Scene(x, capture, writeByte, headerWord, pending, words, popped, valid)
    ensures Shaped(8, x.regs) && Counted(8, x.regs, x.hist.log) && x.regs.u.capture == capture
  {
  }

  /** A whole run in which every commit finds room and nothing overruns. */
  ghost predicate Unnoticed(x: Sim, trace: seq<Stimulus>, y: Sim)
    requires Shaped(8, x.regs)
  {
    Run(8, x, trace) == y && NoOverrun(8, x, trace) && CommitsFit(8, x, trace)
  }

  lemma UnnoticedMore(x: Sim, t: Stimulus, rest: seq<Stimulus>, y: Sim)
    requires Counted(8, x.regs, x.hist.log) && Counted(8, Next(8, x, t).regs, Next(8, x, t).hist.log)
    requires !x.regs.u.capture.Overrun? && Unnoticed(Next(8, x, t), rest, y)
    ensures Unnoticed(x, Then(t, rest), y)
  {
    SceneMore(x, t, rest);
  }

  lemma UnnoticedNone(x: Sim)
    requires Shaped(8, x.regs) && !x.regs.u.capture.Overrun?
    ensures Unnoticed(x, [], x)
  {
  }

  /** The reader drains the ring while the packet is still open; then the packet ends. */
  lemma DrainAndEnd(x: Sim, b: Byte) returns (y: Sim)
    requires Scene(x, CapturePacket, 3, 6, 4, 6, 1, true) && FirstTwo(x, Word(b, b), Word(b, 0))
    ensures var drain := Draining(ACTIVE);
      Unnoticed(x, Then(drain, Then(drain, Then(drain, Then(Draining(QUIET), [])))), y)
    ensures GotWrong(y, b) && Counted(8, y.regs, y.hist.log)
  {
    hide Next, Scene, Counted, Unnoticed, Then, Draining, FirstTwo, GotWrong, Run, Shaped;
    var (drain, quiet) := (Draining(ACTIVE), Draining(QUIET));
    SceneCounts(x, CapturePacket, 3, 6, 4, 6, 1, true);
    SceneFetch(x, b, Word(b, b));
    var x1 := Next(8, x, drain);
    SceneDrain(x1, b, 3);
    var x2 := Next(8, x1, drain);
    SceneDrain(x2, b, 5);
    var x3 := Next(8, x2, drain);
    SceneLast(x3, b);
    y := Next(8, x3, quiet);
    SceneCounts(x1, CapturePacket, 3, 6, 4, 6, 3, true);
    SceneCounts(x2, CapturePacket, 3, 6, 4, 6, 5, true);
    SceneCounts(x3, CapturePacket, 3, 6, 4, 6, 6, false);
    SceneCounts(y, AwaitPacket, 3, 6, 4, 10, 6, false);
    UnnoticedNone(y);
    UnnoticedMore(x3, quiet, [], y);
    UnnoticedMore(x2, drain, Then(quiet, []), y);
    UnnoticedMore(x1, drain, Then(drain, Then(quiet, [])), y);
    UnnoticedMore(x, drain, Then(drain, Then(drain, Then(quiet, []))), y);
  }

  /** The fourth packet: its third byte lands on the second word of the first, still unread. */
  lemma OverlappingPacket(x: Sim, b: Byte) returns (y: Sim)
    requires Scene(x, AwaitPacket, 12, 0, 2, 6, 1, true) && FirstTwo(x, ZERO, ZERO)
    ensures var (byte, drain) := (Stalled(Pins(true, true, true, b)), Draining(ACTIVE));
      Unnoticed(x, Then(Stalled(ACTIVE), Then(byte, Then(byte, Then(byte,
        Then(drain, Then(drain, Then(drain, Then(Draining(QUIET), [])))))))), y)
    ensures GotWrong(y, b) && Counted(8, y.regs, y.hist.log)
  {
    assert Wrap(16, 16) == 0 && Wrap(6, 8) == 6;
    hide Next, Scene, Counted, Unnoticed, Then, Stalled, Draining, FirstTwo, GotWrong, Run, Shaped, Wrap;
    var (active, byte, drain) := (Stalled(ACTIVE), Stalled(Pins(true, true, true, b)), Draining(ACTIVE));
    SceneCounts(x, AwaitPacket, 12, 0, 2, 6, 1, true);
    SceneStart(x, 12, 6, 1);
    var x1 := Next(8, x, active);
    SceneCounts(x1, CapturePacket, 0, 6, 2, 6, 1, true);
    var rest := Then(drain, Then(drain, Then(drain, Then(Draining(QUIET), []))));
    var x4 := ThreeBytes(x1, b, rest, x);
    y := DrainAndEnd(x4, b);
    x4 := ThreeBytes(x1, b, rest, y);
    UnnoticedMore(x, active, Then(byte, Then(byte, Then(byte, rest))), y);
  }

  lemma ThreeBytes(x: Sim, b: Byte, rest: seq<Stimulus>, z: Sim) returns (y: Sim)
    requires Scene(x, CapturePacket, 0, 6, 2, 6, 1, true) && FirstTwo(x, ZERO, ZERO)
    ensures var byte := Stalled(Pins(true, true, true, b));
      && Shaped(8, x.regs) && y == Next(8, Next(8, Next(8, x, byte), byte), byte)
      && (Unnoticed(y, rest, z) ==> Unnoticed(x, Then(byte, Then(byte, Then(byte, rest))), z))
    ensures Scene(y, CapturePacket, 3, 6, 4, 6, 1, true) && FirstTwo(y, Word(b, b), Word(b, 0))
  {
    assert SetLane(SetLane(ZERO, 0, b), 1, b) == Word(b, b) && SetLane(ZERO, 2, b) == Word(b, 0);
    hide Next, Scene, Counted, Unnoticed, Then, Stalled, FirstTwo, Run, Shaped, SetLane;
    var byte := Stalled(Pins(true, true, true, b));
    SceneCounts(x, CapturePacket, 0, 6, 2, 6, 1, true);
    SceneByte(x, b, 0, 2, ZERO, ZERO);
    var x2 := Next(8, x, byte);
    SceneCounts(x2, CapturePacket, 1, 6, 3, 6, 1, true);
    SceneByte(x2, b, 1, 3, SetLane(ZERO, 0, b), ZERO);
    var x3 := Next(8, x2, byte);
    SceneCounts(x3, CapturePacket, 2, 6, 3, 6, 1, true);
    SceneByte(x3, b, 2, 3, Word(b, b), ZERO);
    y := Next(8, x3, byte);
    SceneCounts(y, CapturePacket, 3, 6, 4, 6, 1, true);
    if Unnoticed(y, rest, z) {
      UnnoticedMore(x3, byte, rest, z);
      UnnoticedMore(x2, byte, Then(byte, rest), z);
      UnnoticedMore(x, byte, Then(byte, Then(byte, rest)), z);
    }
  }

  /** An empty packet more, from the one the reader has begun to take. */
  lemma EmptyPacketMore(x: Sim, writeByte: nat, words: nat, popped: nat, rest: seq<Stimulus>, z: Sim) returns (y: Sim)
    requires Scene(x, AwaitPacket, writeByte, 0, 2, words, popped, popped == 1) && FirstTwo(x, ZERO, ZERO)
    requires popped <= 1 && (writeByte == 4 || writeByte == 8) && words == writeByte / 2
    ensures y == Next(8, Next(8, x, Stalled(ACTIVE)), Stalled(QUIET))
    ensures Scene(y, AwaitPacket, writeByte + 4, 0, 2, words + 2, 1, true) && FirstTwo(y, ZERO, ZERO)
    ensures Shaped(8, y.regs)
    ensures Unnoticed(y, rest, z) ==> Unnoticed(x, Then(Stalled(ACTIVE), Then(Stalled(QUIET), rest)), z)
  {
    assert Wrap(writeByte + 4, 16) == writeByte + 4 && Wrap(writeByte / 2, 8) == writeByte / 2;
    hide Next, Scene, Counted, Unnoticed, Then, Stalled, FirstTwo, Run, Shaped, Wrap;
    SceneCounts(x, AwaitPacket, writeByte, 0, 2, words, popped, popped == 1);
    SceneStart(x, writeByte, words, popped);
    var x1 := Next(8, x, Stalled(ACTIVE));
    SceneEnd(x1, writeByte + 4, writeByte / 2, words);
    y := Next(8, x1, Stalled(QUIET));
    SceneCounts(x1, CapturePacket, writeByte + 4, writeByte / 2, 2, words, 1, true);
    SceneCounts(y, AwaitPacket, writeByte + 4, 0, 2, words + 2, 1, true);
    if Unnoticed(y, rest, z) {
      UnnoticedMore(x1, Stalled(QUIET), rest, z);
      UnnoticedMore(x, Stalled(ACTIVE), Then(Stalled(QUIET), rest), z);
    }
  }

  lemma EmptyPacketHead(words: seq<Word>, t: Byte)
    requires |words| >= 2 && words[..2] == [ZERO, Word(t, 0)]
    ensures Head(words) == Some((Packet([], 0x100 * t), 2))
  {
    var (chunk, item) := ([ZERO, Word(t, 0)], Packet([], 0x100 * t));
    assert ToWord(0) == ZERO && ToWord(0x100 * t) == Word(t, 0);
    assert Matches(chunk, item);
    HeadOfChunk(chunk, item);
    assert words == chunk + words[2..];
    HeadStable(chunk, words[2..]);
  }

  /** Three empty packets, a fourth of three bytes `b`, then a reader that drains the ring before it ends. */
  function FillThenDrain(b: Byte): seq<Stimulus> {
    var (active, quiet) := (Stalled(ACTIVE), Stalled(QUIET));
    var byte, drain := Stalled(Pins(true, true, true, b)), Draining(ACTIVE);
    Then(quiet, Then(active, Then(quiet, Then(active, Then(quiet, Then(active, Then(quiet,
      Then(active, Then(byte, Then(byte, Then(byte,
        Then(drain, Then(drain, Then(drain, Then(Draining(QUIET), [])))))))))))))))
  }

  /**
    From power-on, in a ring of eight words: three empty packets with a stalled reader, a fourth
    of three bytes, and a reader that drains the ring before it ends. No overrun is raised and
    every commit finds room, yet the second word the reader takes is not the one committed: for
    a timestamp of zero the host reads the third byte.
  */
  lemma CorruptedRun(mem: seq<Word>, payload: Word, b: Byte) returns (y: Sim)
    requires |mem| == 8 && b > 0
    ensures Unnoticed(PowerOn(8, mem, payload), FillThenDrain(b), y) && Counted(8, y.regs, y.hist.log)
    ensures GotWrong(y, b) && !(y.hist.log.out <= y.hist.log.words)
    ensures Head(y.hist.log.words) == Some((Packet([], 0), 2))
    ensures Head(y.hist.log.out) == Some((Packet([], 0x100 * b), 2))
    ensures !ClearRun(8, PowerOn(8, mem, payload), FillThenDrain(b))
  {
    var (active, quiet) := (Stalled(ACTIVE), Stalled(QUIET));
    var byte, drain := Stalled(Pins(true, true, true, b)), Draining(ACTIVE);
    var fourth := Then(active, Then(byte, Then(byte, Then(byte,
      Then(drain, Then(drain, Then(drain, Then(Draining(QUIET), []))))))));
    var third := Then(active, Then(quiet, fourth));
    var second := Then(active, Then(quiet, third));
    var trace := FillThenDrain(b);
    hide Next, Scene, FirstTwo, GotWrong, Counted, Unnoticed, Then, Stalled, Draining, Run, Shaped, ClearRun;
    hide ReaderInv, Head, PowerOn;
    FirstPacketScene(mem, payload);
    var x0 := PowerOn(8, mem, payload);
    var x1 := Next(8, x0, quiet);
    SceneCounts(x1, AwaitPacket, 0, 0, 0, 0, 0, false);
    var x2 := Next(8, x1, active);
    SceneCounts(x2, CapturePacket, 4, 0, 2, 0, 0, false);
    var x3 := Next(8, x2, quiet);
    SceneCounts(x3, AwaitPacket, 4, 0, 2, 2, 0, false);
    var x5 := Next(8, Next(8, x3, active), quiet);
    var z := EmptyPacketMore(x3, 4, 2, 0, third, x0);
    z := EmptyPacketMore(x5, 8, 4, 1, fourth, x0);
    y := OverlappingPacket(z, b);
    z := EmptyPacketMore(x5, 8, 4, 1, fourth, y);
    z := EmptyPacketMore(x3, 4, 2, 0, third, y);
    PowerOnReady(8, mem, payload);
    UnnoticedMore(x2, quiet, second, y);
    UnnoticedMore(x1, active, Then(quiet, second), y);
    UnnoticedMore(x0, quiet, Then(active, Then(quiet, second)), y);
    if ClearRun(8, x0, trace) {
      ClearRunIsHonest(8, x0, trace);
    }
    Discrepancy(y, b);
  }

  lemma PowerOnReady(d: nat, mem: seq<Word>, payload: Word)
    requires d >= 4 && |mem| == d
    ensures var x := PowerOn(d, mem, payload);
      && Shaped(d, x.regs) && ReaderInv(d, x.regs.y, x.hist.log) && Counted(d, x.regs, x.hist.log)
      && x.regs.u.capture.AwaitStart?
  {
  }

  lemma Discrepancy(y: Sim, b: Byte)
    requires GotWrong(y, b) && b > 0
    ensures !(y.hist.log.out <= y.hist.log.words)
    ensures Head(y.hist.log.words) == Some((Packet([], 0), 2))
    ensures Head(y.hist.log.out) == Some((Packet([], 0x100 * b), 2))
  {
    EmptyPacketHead(y.hist.log.words, 0);
    EmptyPacketHead(y.hist.log.out, b);
    hide Head;
    assert y.hist.log.words[..2][1] == y.hist.log.words[1] && y.hist.log.out[..2][1] == y.hist.log.out[1];
  }
}
