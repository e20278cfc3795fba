/** Stream16to8: a stream of words turned into a stream of bytes, one clock edge at a time. */
module Stream16to8 {
  import opened Words

  datatype Regs = Regs(shift: Word, odd: bool, valid: bool)

  /** The upstream word on offer and the downstream side's readiness. */
  datatype Pins = Pins(valid: bool, payload: Word, ready: bool)

  const RESET: Regs := Regs(Word(0, 0), false, false)

  /** The word as the shift register wants it: the byte to send first in the low lane. */
  function Arrange(msbFirst: bool, w: Word): Word {
    if msbFirst then Word(w.lo, w.hi) else w
  }

  predicate InputReady(s: Regs, ready: bool) {
    (ready || !s.valid) && !s.odd
  }

  function Output(s: Regs): Byte {
    s.shift.lo
  }

  function Step(msbFirst: bool, s: Regs, p: Pins): Regs {
    if !(p.ready || !s.valid) then s
    else if s.odd then Regs(Word(0, s.shift.hi), false, true)
    else if p.valid then Regs(Arrange(msbFirst, p.payload), true, true)
    else s.(valid := false)
  }

  /** Words accepted upstream and bytes accepted downstream. */
  datatype Log = Log(taken: seq<Word>, given: seq<Byte>)

  function Record(s: Regs, g: Log, p: Pins): Log {
    Log(if p.valid && InputReady(s, p.ready) then g.taken + [p.payload] else g.taken,
        if s.valid && p.ready then g.given + [Output(s)] else g.given)
  }

  /** The bytes of a word stream, in the order a host wants them. */
  function Split(msbFirst: bool, words: seq<Word>): (bytes: seq<Byte>)
    ensures |bytes| == 2 * |words|
  {
    if words == [] then []
    else
      var w := words[|words| - 1];
      Split(msbFirst, words[..|words| - 1]) + if msbFirst then [w.hi, w.lo] else [w.lo, w.hi]
  }

  /** The bytes taken in but not yet passed on. */
  function Held(s: Regs): seq<Byte> {
    (if s.valid then [s.shift.lo] else []) + (if s.odd then [s.shift.hi] else [])
  }

  predicate Inv(msbFirst: bool, s: Regs, g: Log) {
    (s.odd ==> s.valid) && g.given + Held(s) == Split(msbFirst, g.taken)
  }

  lemma StepKeepsInv(msbFirst: bool, s: Regs, g: Log, p: Pins)
    requires Inv(msbFirst, s, g)
    ensures Inv(msbFirst, Step(msbFirst, s, p), Record(s, g, p))
  {
    var g' := Record(s, g, p);
    if p.valid && InputReady(s, p.ready) {
      assert g'.taken[..|g.taken|] == g.taken;
      assert g'.given == Split(msbFirst, g.taken);
    }
  }

  function Run(msbFirst: bool, s: Regs, g: Log, pins: seq<Pins>): (Regs, Log)
    decreases |pins|
  {
    if pins == [] then (s, g) else Run(msbFirst, Step(msbFirst, s, pins[0]), Record(s, g, pins[0]), pins[1..])
  }

  lemma {:induction false} RunKeepsInv(msbFirst: bool, s: Regs, g: Log, pins: seq<Pins>)
    requires Inv(msbFirst, s, g)
    ensures var (s', g') := Run(msbFirst, s, g, pins); Inv(msbFirst, s', g')
    decreases |pins|
  {
    if pins != [] {
      StepKeepsInv(msbFirst, s, g, pins[0]);
      RunKeepsInv(msbFirst, Step(msbFirst, s, pins[0]), Record(s, g, pins[0]), pins[1..]);
    }
  }

  /** From reset, under every schedule of valid and ready: nothing is lost, duplicated or reordered. */
  lemma ConvertsExactly(msbFirst: bool, pins: seq<Pins>)
    ensures var (s, g) := Run(msbFirst, RESET, Log([], []), pins);
      g.given + Held(s) == Split(msbFirst, g.taken)
  {
    RunKeepsInv(msbFirst, RESET, Log([], []), pins);
  }

  /** A byte on offer stays on offer, unchanged, until it is accepted; with the reader ready a word takes two edges. */
  lemma StableAndPrompt(msbFirst: bool, s: Regs, g: Log, p: Pins, q: Pins)
    requires Inv(msbFirst, s, g)
    ensures s.valid && !p.ready ==> Step(msbFirst, s, p).valid && Output(Step(msbFirst, s, p)) == Output(s)
    ensures p.ready && q.ready ==> InputReady(s, true) || InputReady(Step(msbFirst, s, p), true)
    ensures p.ready && q.ready ==>
      var s1, g1 := Step(msbFirst, s, p), Record(s, g, p);
      |Split(msbFirst, g.taken)| <= |Record(s1, g1, q).given|
  {
  }

  class Converter {
    const msbFirst: bool
    var dataShift: Word
    var oddByte: bool
    var valid: bool

    ghost function State(): Regs
      reads this
    {
      Regs(dataShift, oddByte, valid)
    }

    constructor (msbFirst: bool)
      ensures this.msbFirst == msbFirst && State() == RESET
    {
      this.msbFirst, dataShift, oddByte, valid := msbFirst, Word(0, 0), false, false;
    }

    /** A rising clock edge; the result says whether the input word was consumed. */
    method OnEdge(p: Pins) returns (consumed: bool)
      modifies this
      ensures State() == Step(msbFirst, old(State()), p)
      ensures consumed == (p.valid && InputReady(old(State()), p.ready))
    {
      consumed := false;
      if p.ready || !valid {
        if oddByte {
          dataShift := Word(0, dataShift.hi);
          valid := true;
          oddByte := false;
        } else {
          consumed := p.valid;
          valid := p.valid;
          if p.valid {
            dataShift := Arrange(msbFirst, p.payload);
            oddByte := true;
          }
        }
      }
    }
  }
}
