/**
  AsyncFIFOReadReset: a FIFO between two clock domains. Its pointers cross as Gray codes
  through two flip-flops each, and its reset is driven from the read side.

  A counter has n bits, one more than an address; n >= 2 because the full flag looks at
  the two highest bits.
*/
module AsyncFifo {
  import opened Options
  import opened Modular
  import opened Rings
  import opened GrayCode

  function Depth(n: nat): (d: nat)
    requires n >= 2
    ensures d >= 1 && Pow2(n) == 2 * d
  {
    Pow2(n - 1)
  }

  /** The registers of the write domain, with the consume pointer as it arrives there. */
  datatype WriteRegs = WriteRegs(
    produce: nat, produceGray: Code, consumeGray0: Code, consumeGray: Code, consume: nat, level: nat)

  /** The registers of the read domain, with the produce pointer as it arrives there. */
  datatype ReadRegs<T> = ReadRegs(
    consume: nat, consumeGray: Code, produceGray0: Code, produceGray: Code, data: T)

  datatype Regs<T> = Regs(w: WriteRegs, r: ReadRegs<T>, storage: seq<T>)

  /** Write-side inputs at a write edge; `sample` is what the first synchroniser stage catches. */
  datatype WritePins<T> = WritePins(en: bool, data: T, sample: Code)

  /** Read-side inputs at a read edge; `collision` is read when the slot is written at the same instant. */
  datatype ReadPins<T> = ReadPins(en: bool, rst: bool, sample: Code, collision: T)

  /** The clocks are unrelated: an edge of either, or of both at once. */
  datatype Edge<T> = WriteEdge(w: WritePins<T>) | ReadEdge(r: ReadPins<T>) | BothEdges(w: WritePins<T>, r: ReadPins<T>)

  predicate Shaped<T>(n: nat, s: Regs<T>) {
    && n >= 2
    && |s.w.produceGray| == |s.w.consumeGray0| == |s.w.consumeGray| == n
    && |s.r.consumeGray| == |s.r.produceGray0| == |s.r.produceGray| == n
    && |s.storage| == Depth(n)
    && s.w.produce < Pow2(n) && s.w.consume < Pow2(n) && s.r.consume < Pow2(n)
  }

  predicate Sampled<T>(n: nat, e: Edge<T>) {
    (!e.ReadEdge? ==> |e.w.sample| == n) && (!e.WriteEdge? ==> |e.r.sample| == n)
  }

  // ---- Combinational signals ----

  predicate Full<T>(n: nat, s: Regs<T>)
    requires Shaped(n, s)
  {
    FullPattern(s.w.produceGray, s.w.consumeGray)
  }

  predicate ReadReady<T>(s: Regs<T>, rst: bool) {
    !rst && s.r.consumeGray != s.r.produceGray
  }

  function ReadLevel<T>(n: nat, s: Regs<T>): nat
    requires Shaped(n, s)
  {
    Wrap(FromGray(s.r.produceGray) + Pow2(n) - s.r.consume, Pow2(n))
  }

  predicate DoWrite<T>(n: nat, s: Regs<T>, w: WritePins<T>)
    requires Shaped(n, s)
  {
    w.en && !Full(n, s)
  }

  predicate DoRead<T>(s: Regs<T>, r: ReadPins<T>) {
    r.en && ReadReady(s, r.rst)
  }

  function ConsumeNext<T>(n: nat, s: Regs<T>, r: ReadPins<T>): nat
    requires Shaped(n, s)
  {
    Wrap(s.r.consume + (if DoRead(s, r) then 1 else 0), Pow2(n))
  }

  // ---- Clock edges ----

  function WriteSide<T>(n: nat, s: Regs<T>, w: WritePins<T>): WriteRegs
    requires Shaped(n, s)
  {
    var next := Wrap(s.w.produce + (if DoWrite(n, s, w) then 1 else 0), Pow2(n));
    WriteRegs(next, ToGray(n, next), w.sample, s.w.consumeGray0,
              FromGray(s.w.consumeGray), Wrap(s.w.produce + Pow2(n) - s.w.consume, Pow2(n)))
  }

  function StoreNext<T>(n: nat, s: Regs<T>, w: WritePins<T>): seq<T>
    requires Shaped(n, s)
  {
    if DoWrite(n, s, w) then s.storage[Wrap(s.w.produce, Depth(n)) := w.data] else s.storage
  }

  function ReadSide<T>(n: nat, s: Regs<T>, r: ReadPins<T>, collides: bool): ReadRegs<T>
    requires Shaped(n, s)
  {
    var next := ConsumeNext(n, s, r);
    ReadRegs(if r.rst then FromGray(s.r.produceGray) else next,
             if r.rst then s.r.produceGray else ToGray(n, next),
             r.sample, s.r.produceGray0,
             if collides then r.collision else s.storage[Wrap(next, Depth(n))])
  }

  predicate Collides<T>(n: nat, s: Regs<T>, w: WritePins<T>, r: ReadPins<T>)
    requires Shaped(n, s)
  {
    DoWrite(n, s, w) && Wrap(s.w.produce, Depth(n)) == Wrap(ConsumeNext(n, s, r), Depth(n))
  }

  function Step<T>(n: nat, s: Regs<T>, e: Edge<T>): (s': Regs<T>)
    requires Shaped(n, s) && Sampled(n, e)
    ensures Shaped(n, s')
  {
    match e
    case WriteEdge(w) => Regs(WriteSide(n, s, w), s.r, StoreNext(n, s, w))
    case ReadEdge(r) => Regs(s.w, ReadSide(n, s, r, false), s.storage)
    case BothEdges(w, r) => Regs(WriteSide(n, s, w), ReadSide(n, s, r, Collides(n, s, w, r)), StoreNext(n, s, w))
  }

  /**
    What the first synchroniser stages can catch. A code that is not changing is caught as
    it is; one that changes at the same instant is caught bit by bit, old or new. A reset
    moves the read pointer by several codes, and is taken to be caught whole.
  */
  predicate Legal<T>(n: nat, s: Regs<T>, e: Edge<T>)
    requires Shaped(n, s)
  {
    && Sampled(n, e)
    && match e
       case WriteEdge(w) => w.sample == s.r.consumeGray
       case ReadEdge(r) => r.sample == s.w.produceGray
       case BothEdges(w, r) =>
         var s' := Step(n, s, e);
         && MixOf(r.sample, s.w.produceGray, s'.w.produceGray)
         && if r.rst then w.sample == s.r.consumeGray || w.sample == s'.r.consumeGray
            else MixOf(w.sample, s.r.consumeGray, s'.r.consumeGray)
  }

  // ---- History: unbounded counters beside the registers ----

  /**
    `accepted`: every word written so far. `fate[i]`: the word handed to the reader as word
    i, or None if a reset discarded it. The rest are the true values behind the synchroniser
    stages and the decoded consume pointer.
  */
  datatype History<T> = History(accepted: seq<T>, fate: seq<Option<T>>,
                                seen0: nat, seen: nat, freed0: nat, freed: nat, freedBin: nat)

  function Discarded<T>(count: int): (d: seq<Option<T>>)
    ensures |d| == if count > 0 then count else 0
    ensures forall i :: 0 <= i < |d| ==> d[i] == None
  {
    if count > 0 then seq(count, i => None) else []
  }

  function Accept<T>(n: nat, s: Regs<T>, h: History<T>, e: Edge<T>): seq<T>
    requires Shaped(n, s)
  {
    if !e.ReadEdge? && DoWrite(n, s, e.w) then h.accepted + [e.w.data] else h.accepted
  }

  function Consume<T>(s: Regs<T>, h: History<T>, e: Edge<T>): seq<Option<T>> {
    if e.WriteEdge? then h.fate
    else if e.r.rst then h.fate + Discarded(h.seen - |h.fate|)
    else if DoRead(s, e.r) then h.fate + [Some(s.r.data)]
    else h.fate
  }

  function Record<T>(n: nat, s: Regs<T>, h: History<T>, e: Edge<T>): History<T>
    requires Shaped(n, s)
  {
    var accepted, fate := Accept(n, s, h, e), Consume(s, h, e);
    var h1 := if e.WriteEdge? then h else
      h.(seen := h.seen0, seen0 := if e.r.sample == s.w.produceGray then |h.accepted| else |accepted|);
    var h2 := if e.ReadEdge? then h1 else
      h1.(freedBin := h.freed, freed := h.freed0,
          freed0 := if e.w.sample == s.r.consumeGray then |h.fate| else |fate|);
    h2.(accepted := accepted, fate := fate)
  }

  // ---- The invariant ----

  /** The counter chain: what each side knows never runs ahead of the truth, nor the writer past the reader. */
  predicate Chain<T>(n: nat, h: History<T>)
    requires n >= 2
  {
    h.freedBin <= h.freed <= h.freed0 <= |h.fate| <= h.seen <= h.seen0 <= |h.accepted| <= h.freedBin + Depth(n)
  }

  predicate Pointer(n: nat, gray: Code, count: nat)
    requires n >= 2
  {
    gray == ToGray(n, Wrap(count, Pow2(n)))
  }

  /** Each register is its unbounded counter, truncated. */
  predicate Mirrors<T>(n: nat, s: Regs<T>, h: History<T>)
    requires n >= 2
  {
    && s.w.produce == Wrap(|h.accepted|, Pow2(n)) && Pointer(n, s.w.produceGray, |h.accepted|)
    && s.r.consume == Wrap(|h.fate|, Pow2(n)) && Pointer(n, s.r.consumeGray, |h.fate|)
    && Pointer(n, s.r.produceGray0, h.seen0) && Pointer(n, s.r.produceGray, h.seen)
    && Pointer(n, s.w.consumeGray0, h.freed0) && Pointer(n, s.w.consumeGray, h.freed)
    && s.w.consume == Wrap(h.freedBin, Pow2(n))
  }

  /** No unread word has been overwritten. */
  ghost predicate Stored<T>(n: nat, s: Regs<T>, h: History<T>)
    requires Shaped(n, s)
  {
    RingHolds(s.storage, h.accepted, |h.fate|)
  }

  /** Every word handed out as word i is word i. */
  ghost predicate Faithful<T>(h: History<T>) {
    forall i :: 0 <= i < |h.fate| && i < |h.accepted| && h.fate[i].Some? ==> h.fate[i].value == h.accepted[i]
  }

  /** Whenever the reader sees a word, it is the oldest unread one. */
  ghost predicate Fresh<T>(s: Regs<T>, h: History<T>)
    requires h.seen <= |h.accepted|
  {
    |h.fate| < h.seen ==> s.r.data == h.accepted[|h.fate|]
  }

  /** What every legal edge keeps. */
  ghost predicate Core<T>(n: nat, s: Regs<T>, h: History<T>) {
    Shaped(n, s) && Chain(n, h) && Mirrors(n, s, h) && Stored(n, s, h) && 0 <= s.w.level <= Depth(n)
  }

  /** What every legal edge keeps as long as resets are clean. */
  ghost predicate Inv<T>(n: nat, s: Regs<T>, h: History<T>) {
    Core(n, s, h) && Faithful(h) && Fresh(s, h)
  }

  // ---- Flags and levels are exact ----

  /** The writer sees full exactly when every slot it knows of is taken. */
  lemma FullIff<T>(n: nat, s: Regs<T>, h: History<T>)
    requires Shaped(n, s) && Chain(n, h) && Mirrors(n, s, h)
    ensures Full(n, s) <==> |h.accepted| == h.freed + Depth(n)
  {
    hide Pow2, Wrap, ToGray, FromGray;
    FullExact(n, Wrap(|h.accepted|, Pow2(n)), Wrap(h.freed, Pow2(n)));
    WrapOpposite(|h.accepted|, h.freed, Depth(n));
  }

  /** The reader sees empty, outside reset, exactly when it has consumed all it has seen. */
  lemma EmptyIff<T>(n: nat, s: Regs<T>, h: History<T>)
    requires Shaped(n, s) && Chain(n, h) && Mirrors(n, s, h)
    ensures ReadReady(s, false) <==> |h.fate| < h.seen
  {
    hide Pow2, Wrap, ToGray, FromGray;
    GrayInjective(n, Wrap(|h.fate|, Pow2(n)), Wrap(h.seen, Pow2(n)));
    if Wrap(|h.fate|, Pow2(n)) == Wrap(h.seen, Pow2(n)) {
      WrapInjective(|h.fate|, h.seen, Pow2(n));
    }
  }

  /** The reported levels bracket the true occupancy and never leave 0..depth. */
  lemma LevelBounds<T>(n: nat, s: Regs<T>, h: History<T>)
    requires Core(n, s, h)
    ensures 0 <= ReadLevel(n, s) <= |h.accepted| - |h.fate|
    ensures |h.accepted| - |h.fate| <= Wrap(s.w.produce + Pow2(n) - s.w.consume, Pow2(n)) <= Depth(n)
    ensures ReadLevel(n, s) == h.seen - |h.fate|
  {
    hide Pow2, Wrap, ToGray, FromGray;
    FromToGray(n, Wrap(h.seen, Pow2(n)));
    WrapDistance(h.seen, |h.fate|, Pow2(n));
    WrapDistance(|h.accepted|, h.freedBin, Pow2(n));
  }

  // ---- One edge keeps the invariant ----

  /**
    The writer's level, a register, is what was accepted less what the writer knew to be consumed,
    at the last edge.
  */
  lemma WriteLevelExact<T>(n: nat, s: Regs<T>, h: History<T>, w: WritePins<T>)
    requires Core(n, s, h)
    ensures WriteSide(n, s, w).level == |h.accepted| - h.freedBin
  {
    hide Pow2, ToGray, FromGray, Wrap;
    WrapDistance(|h.accepted|, h.freedBin, Pow2(n));
  }

  /** Whatever an edge catches of a stepping counter is the counter's code before or after. */
  lemma CaughtCode(n: nat, count: nat, count': nat, sample: Code)
    requires n >= 2 && count <= count' <= count + 1
    requires MixOf(sample, ToGray(n, Wrap(count, Pow2(n))), ToGray(n, Wrap(count', Pow2(n))))
    ensures sample == ToGray(n, Wrap(count, Pow2(n))) || sample == ToGray(n, Wrap(count', Pow2(n)))
  {
    hide ToGray;
    if count' == count + 1 {
      WrapAdd(count, 1, Pow2(n));
      SampledCodeIsOldOrNew(n, Wrap(count, Pow2(n)), sample);
    } else {
      assert sample == ToGray(n, Wrap(count, Pow2(n)));
    }
  }

  /** The write domain's own registers follow their counters, and no unread slot is overwritten. */
  lemma WriteSideFollows<T>(n: nat, s: Regs<T>, h: History<T>, w: WritePins<T>)
    requires Core(n, s, h)
    ensures var w', acc := WriteSide(n, s, w), Accept(n, s, h, WriteEdge(w));
      && |acc| <= h.freed + Depth(n)
      && w'.produce == Wrap(|acc|, Pow2(n)) && Pointer(n, w'.produceGray, |acc|)
      && w'.consume == Wrap(h.freed, Pow2(n))
      && w'.level <= Depth(n)
      && RingHolds(StoreNext(n, s, w), acc, |h.fate|)
  {
    hide Pow2, Wrap, ToGray, FromGray;
    FullIff(n, s, h);
    LevelBounds(n, s, h);
    FromToGray(n, Wrap(h.freed, Pow2(n)));
    if DoWrite(n, s, w) {
      WrapAdd(|h.accepted|, 1, Pow2(n));
      WrapHalf(|h.accepted|, Depth(n));
      RingAppend(s.storage, h.accepted, |h.fate|, w.data);
    } else {
      WrapAdd(|h.accepted|, 0, Pow2(n));
    }
  }

  /** The fetch address follows the read counter; a reset edge fetches from where the counter was. */
  lemma FetchAddress<T>(n: nat, s: Regs<T>, h: History<T>, r: ReadPins<T>)
    requires Core(n, s, h)
    ensures var count := |h.fate| + if DoRead(s, r) then 1 else 0;
      ConsumeNext(n, s, r) == Wrap(count, Pow2(n)) && Wrap(ConsumeNext(n, s, r), Depth(n)) == Wrap(count, Depth(n))
  {
    hide Pow2, Wrap, ToGray, FromGray;
    var step := if DoRead(s, r) then 1 else 0;
    WrapAdd(|h.fate|, step, Pow2(n));
    WrapHalf(|h.fate| + step, Depth(n));
  }

  /** The read domain's own registers follow their counters, reset edges included. */
  lemma ReadSideFollows<T>(n: nat, s: Regs<T>, h: History<T>, r: ReadPins<T>, collides: bool)
    requires Core(n, s, h)
    ensures var r', fate := ReadSide(n, s, r, collides), Consume(s, h, ReadEdge(r));
      && |h.fate| <= |fate| <= h.seen
      && r'.consume == Wrap(|fate|, Pow2(n)) && Pointer(n, r'.consumeGray, |fate|)
      && (if r.rst then |fate| == h.seen else |fate| == |h.fate| + if DoRead(s, r) then 1 else 0)
  {
    hide Pow2, Wrap, ToGray, FromGray;
    EmptyIff(n, s, h);
    FromToGray(n, Wrap(h.seen, Pow2(n)));
    FetchAddress(n, s, h, r);
  }

  /** Every legal edge, reset edges included, keeps the counter chain, the stored words and the levels. */
  lemma StepKeepsCore<T>(n: nat, s: Regs<T>, h: History<T>, e: Edge<T>)
    requires Core(n, s, h) && Legal(n, s, e)
    ensures var s', h' := Step(n, s, e), Record(n, s, h, e);
      Core(n, s', h')
  {
    hide Pow2, Wrap, ToGray, FromGray;
    var s', h' := Step(n, s, e), Record(n, s, h, e);
    if !e.ReadEdge? {
      WriteSideFollows(n, s, h, e.w);
      assert h'.accepted == Accept(n, s, h, WriteEdge(e.w));
    }
    if !e.WriteEdge? {
      ReadSideFollows(n, s, h, e.r, e.BothEdges? && Collides(n, s, e.w, e.r));
      assert h'.fate == Consume(s, h, ReadEdge(e.r));
    }
    if e.BothEdges? {
      CaughtCode(n, |h.accepted|, |h'.accepted|, e.r.sample);
      if !e.r.rst {
        CaughtCode(n, |h.fate|, |h'.fate|, e.w.sample);
      }
    }
  }

  /**
    A reset edge is clean if it has nothing to discard, or if the produce pointer visible to
    the reader does not advance on it. The fetch address is not redirected by the reset, so
    otherwise the fetched word is a discarded one.
  */
  predicate CleanReset<T>(s: Regs<T>) {
    s.r.produceGray0 == s.r.produceGray || s.r.consumeGray == s.r.produceGray
  }

  /** What a read edge fetches is the word its counter addresses, if the reader is about to see it. */
  lemma FetchIsStored<T>(n: nat, s: Regs<T>, h: History<T>, e: Edge<T>)
    requires Core(n, s, h) && Legal(n, s, e) && !e.WriteEdge?
    ensures var count := |h.fate| + if DoRead(s, e.r) then 1 else 0;
      count < h.seen0 ==> Step(n, s, e).r.data == h.accepted[count]
  {
    hide Pow2, Wrap, ToGray, FromGray;
    var count := |h.fate| + if DoRead(s, e.r) then 1 else 0;
    FetchAddress(n, s, h, e.r);
    if count < h.seen0 && e.BothEdges? && Collides(n, s, e.w, e.r) {
      FullIff(n, s, h);
      WrapHalf(|h.accepted|, Depth(n));
      WrapInjective(count, |h.accepted|, Depth(n));
      assert false;
    }
  }

  lemma VisibleAdvance<T>(n: nat, s: Regs<T>, h: History<T>)
    requires Core(n, s, h)
    ensures s.r.produceGray0 == s.r.produceGray <==> h.seen0 == h.seen
  {
    hide Pow2, Wrap, ToGray, FromGray;
    GrayInjective(n, Wrap(h.seen0, Pow2(n)), Wrap(h.seen, Pow2(n)));
    if Wrap(h.seen0, Pow2(n)) == Wrap(h.seen, Pow2(n)) {
      WrapInjective(h.seen0, h.seen, Pow2(n));
    }
  }

  /** After a read edge without reset the word at the head is the oldest unread one. */
  lemma HeadAfterRead<T>(n: nat, s: Regs<T>, h: History<T>, e: Edge<T>, s': Regs<T>, h': History<T>)
    requires Core(n, s, h) && Legal(n, s, e) && s' == Step(n, s, e) && h' == Record(n, s, h, e)
    requires Core(n, s', h') && !e.WriteEdge? && !e.r.rst
    ensures Fresh(s', h')
  {
    hide Pow2, Wrap, ToGray, FromGray;
    ReadSideFollows(n, s, h, e.r, e.BothEdges? && Collides(n, s, e.w, e.r));
    FetchIsStored(n, s, h, e);
  }

  /** After a reset edge the word at the head is the one the old read counter addressed. */
  lemma HeadAfterReset<T>(n: nat, s: Regs<T>, h: History<T>, e: Edge<T>, s': Regs<T>, h': History<T>)
    requires Core(n, s, h) && Legal(n, s, e) && s' == Step(n, s, e) && h' == Record(n, s, h, e)
    requires !e.WriteEdge? && e.r.rst
    ensures |h'.fate| == h.seen && h'.seen == h.seen0
    ensures CleanReset(s) <==> h.seen0 == h.seen || |h.fate| == h.seen
    ensures |h.fate| < h.seen0 ==> s'.r.data == h.accepted[|h.fate|]
  {
    hide Pow2, Wrap, ToGray, FromGray;
    FetchIsStored(n, s, h, e);
    EmptyIff(n, s, h);
    VisibleAdvance(n, s, h);
  }

  lemma EdgeKeepsFaithful<T>(n: nat, s: Regs<T>, h: History<T>, e: Edge<T>)
    requires Inv(n, s, h)
    ensures Faithful(Record(n, s, h, e))
  {
    hide Pow2, Wrap, ToGray, FromGray;
    EmptyIff(n, s, h);
    var fate, fate' := h.fate, Consume(s, h, e);
    assert forall i :: 0 <= i < |fate| ==> fate'[i] == fate[i];
    assert !e.WriteEdge? && !e.r.rst && DoRead(s, e.r) ==> fate'[|fate|] == Some(h.accepted[|fate|]);
    assert !e.WriteEdge? && e.r.rst ==> forall i :: |fate| <= i < |fate'| ==> fate'[i] == None;
  }

  /** With clean resets, every word handed to the reader is the oldest unread word. */
  lemma StepKeepsInv<T>(n: nat, s: Regs<T>, h: History<T>, e: Edge<T>)
    requires Inv(n, s, h) && Legal(n, s, e)
    requires !e.WriteEdge? && e.r.rst ==> CleanReset(s)
    ensures Inv(n, Step(n, s, e), Record(n, s, h, e))
  {
    hide Pow2, Wrap, ToGray, FromGray;
    StepKeepsCore(n, s, h, e);
    EdgeKeepsFaithful(n, s, h, e);
    if !e.WriteEdge? {
      if e.r.rst {
        HeadAfterReset(n, s, h, e, Step(n, s, e), Record(n, s, h, e));
      } else {
        HeadAfterRead(n, s, h, e, Step(n, s, e), Record(n, s, h, e));
      }
    }
  }

  /** From word `k` on, every word is handed out as accepted, none is skipped, and the one on offer is right. */
  ghost predicate OrderlyFrom<T>(s: Regs<T>, h: History<T>, k: nat)
    requires |h.fate| <= h.seen <= |h.accepted|
  {
    && (forall i :: k <= i < |h.fate| ==> h.fate[i] == Some(h.accepted[i]))
    && (k <= |h.fate| < h.seen ==> s.r.data == h.accepted[|h.fate|])
  }

  /**
    Words accepted after a reset are delivered in order whether or not the reset was clean:
    an unclean one can only spoil a word accepted before it.
  */
  lemma StepKeepsOrderly<T>(n: nat, s: Regs<T>, h: History<T>, e: Edge<T>, k: nat)
    requires Core(n, s, h) && Legal(n, s, e) && OrderlyFrom(s, h, k)
    ensures var s', h' := Step(n, s, e), Record(n, s, h, e);
      Core(n, s', h') && OrderlyFrom(s', h', if !e.WriteEdge? && e.r.rst then |h'.accepted| else k)
  {
    hide Pow2, Wrap, ToGray, FromGray, WriteSide, ReadSide, StoreNext, Mirrors, Stored, DoWrite, MixOf;
    StepKeepsCore(n, s, h, e);
    EmptyIff(n, s, h);
    var s', h' := Step(n, s, e), Record(n, s, h, e);
    assert h'.accepted[..|h.accepted|] == h.accepted;
    if !e.WriteEdge? && !e.r.rst {
      HeadAfterRead(n, s, h, e, s', h');
    }
    hide Core, Step;
  }

  // ---- Whole runs ----

  datatype Sim<T> = Sim(regs: Regs<T>, hist: History<T>)

  ghost predicate LegalRun<T>(n: nat, s: Regs<T>, edges: seq<Edge<T>>)
    requires Shaped(n, s)
    decreases |edges|
  {
    edges == [] || (Legal(n, s, edges[0]) && LegalRun(n, Step(n, s, edges[0]), edges[1..]))
  }

  ghost predicate CleanRun<T>(n: nat, s: Regs<T>, edges: seq<Edge<T>>)
    requires Shaped(n, s) && LegalRun(n, s, edges)
    decreases |edges|
  {
    edges == [] ||
    ((!edges[0].WriteEdge? && edges[0].r.rst ==> CleanReset(s)) && CleanRun(n, Step(n, s, edges[0]), edges[1..]))
  }

  ghost function Run<T>(n: nat, x: Sim<T>, edges: seq<Edge<T>>): Sim<T>
    requires Shaped(n, x.regs) && LegalRun(n, x.regs, edges)
    decreases |edges|
  {
    if edges == [] then x
    else Run(n, Sim(Step(n, x.regs, edges[0]), Record(n, x.regs, x.hist, edges[0])), edges[1..])
  }

  /** Power-on: all counters zero; the memory and its output register hold anything. */
  function PowerOn<T>(n: nat, storage: seq<T>, rData: T): Sim<T>
    requires n >= 2
  {
    var zero := ToGray(n, 0);
    Sim(Regs(WriteRegs(0, zero, zero, zero, 0, 0), ReadRegs(0, zero, zero, zero, rData), storage),
        History([], [], 0, 0, 0, 0, 0))
  }

  lemma {:induction false} RunKeepsCore<T>(n: nat, x: Sim<T>, edges: seq<Edge<T>>)
    requires Core(n, x.regs, x.hist) && LegalRun(n, x.regs, edges)
    ensures var y := Run(n, x, edges); Core(n, y.regs, y.hist)
    decreases |edges|
  {
    if edges != [] {
      StepKeepsCore(n, x.regs, x.hist, edges[0]);
      RunKeepsCore(n, Sim(Step(n, x.regs, edges[0]), Record(n, x.regs, x.hist, edges[0])), edges[1..]);
    }
  }

  lemma {:induction false} RunKeepsInv<T>(n: nat, x: Sim<T>, edges: seq<Edge<T>>)
    requires Inv(n, x.regs, x.hist) && LegalRun(n, x.regs, edges) && CleanRun(n, x.regs, edges)
    ensures var y := Run(n, x, edges); Inv(n, y.regs, y.hist)
    decreases |edges|
  {
    if edges != [] {
      StepKeepsInv(n, x.regs, x.hist, edges[0]);
      RunKeepsInv(n, Sim(Step(n, x.regs, edges[0]), Record(n, x.regs, x.hist, edges[0])), edges[1..]);
    }
  }

  /** The words the reader was given, in the order it was given them. */
  function Delivered<T>(fate: seq<Option<T>>): seq<T> {
    if fate == [] then []
    else Delivered(fate[..|fate| - 1]) + (if fate[|fate| - 1].Some? then [fate[|fate| - 1].value] else [])
  }

  lemma {:induction false} DeliveredPrefix<T>(fate: seq<Option<T>>, accepted: seq<T>)
    requires |fate| <= |accepted|
    requires forall i :: 0 <= i < |fate| ==> fate[i] == Some(accepted[i])
    ensures Delivered(fate) == accepted[..|fate|]
  {
    if fate != [] {
      var k := |fate| - 1;
      DeliveredPrefix(fate[..k], accepted);
      assert accepted[..k + 1] == accepted[..k] + [accepted[k]];
    }
  }

  ghost predicate ResetFree<T>(edges: seq<Edge<T>>) {
    forall e :: e in edges && !e.WriteEdge? ==> !e.r.rst
  }

  lemma {:induction false} ResetFreeRun<T>(n: nat, x: Sim<T>, edges: seq<Edge<T>>)
    requires Shaped(n, x.regs) && LegalRun(n, x.regs, edges) && ResetFree(edges)
    requires forall o :: o in x.hist.fate ==> o.Some?
    ensures CleanRun(n, x.regs, edges)
    ensures forall o :: o in Run(n, x, edges).hist.fate ==> o.Some?
    decreases |edges|
  {
    if edges != [] {
      assert edges[0] in edges;
      assert ResetFree(edges[1..]);
      ResetFreeRun(n, Sim(Step(n, x.regs, edges[0]), Record(n, x.regs, x.hist, edges[0])), edges[1..]);
    }
  }

  lemma PowerOnInv<T>(n: nat, storage: seq<T>, rData: T)
    requires n >= 2 && |storage| == Depth(n)
    ensures var x := PowerOn(n, storage, rData); Inv(n, x.regs, x.hist)
  {
  }

  /** What the invariant tells the two sides. */
  lemma InvReading<T>(n: nat, s: Regs<T>, h: History<T>)
    requires Inv(n, s, h)
    ensures ReadReady(s, false) ==> |h.fate| < |h.accepted| && s.r.data == h.accepted[|h.fate|]
    ensures RingHolds(s.storage, h.accepted, |h.fate|)
    ensures 0 <= ReadLevel(n, s) <= Depth(n) && 0 <= s.w.level <= Depth(n)
  {
    EmptyIff(n, s, h);
    LevelBounds(n, s, h);
  }

  /**
    From power-on, in every interleaving of the two clocks without a reset: the words
    delivered are exactly the first words accepted, in order; the unread ones are intact; and
    when the reader is told a word is ready, that word is the oldest unread one.
  */
  lemma DeliversInOrder<T>(n: nat, storage: seq<T>, rData: T, edges: seq<Edge<T>>, x: Sim<T>, y: Sim<T>)
    requires n >= 2 && |storage| == Depth(n) && x == PowerOn(n, storage, rData)
    requires LegalRun(n, x.regs, edges) && ResetFree(edges) && y == Run(n, x, edges)
    ensures Chain(n, y.hist)
    ensures Delivered(y.hist.fate) == y.hist.accepted[..|y.hist.fate|]
    ensures |y.regs.storage| > 0 && RingHolds(y.regs.storage, y.hist.accepted, |y.hist.fate|)
    ensures ReadReady(y.regs, false) ==>
      |y.hist.fate| < |y.hist.accepted| && y.regs.r.data == y.hist.accepted[|y.hist.fate|]
    ensures Shaped(n, y.regs) && 0 <= ReadLevel(n, y.regs) <= Depth(n) && 0 <= y.regs.w.level <= Depth(n)
  {
    PowerOnInv(n, storage, rData);
    ResetFreeRun(n, x, edges);
    RunKeepsInv(n, x, edges);
    InvReading(n, y.regs, y.hist);
    forall i | 0 <= i < |y.hist.fate|
      ensures y.hist.fate[i] == Some(y.hist.accepted[i])
    {
      assert y.hist.fate[i] in y.hist.fate;
    }
    DeliveredPrefix(y.hist.fate, y.hist.accepted);
  }

  /**
    With clean resets anywhere in the run: each word delivered is still the accepted word of
    its own index, so deliveries stay in order and resets only skip words.
  */
  lemma DeliversAcrossResets<T>(n: nat, storage: seq<T>, rData: T, edges: seq<Edge<T>>, x: Sim<T>, y: Sim<T>)
    requires n >= 2 && |storage| == Depth(n) && x == PowerOn(n, storage, rData)
    requires LegalRun(n, x.regs, edges) && CleanRun(n, x.regs, edges) && y == Run(n, x, edges)
    ensures Chain(n, y.hist)
    ensures Faithful(y.hist)
    ensures ReadReady(y.regs, false) ==>
      |y.hist.fate| < |y.hist.accepted| && y.regs.r.data == y.hist.accepted[|y.hist.fate|]
  {
    PowerOnInv(n, storage, rData);
    RunKeepsInv(n, x, edges);
    InvReading(n, y.regs, y.hist);
  }

  /** How many words had been accepted by the end of the last reset edge of a run; `k` if there is none. */
  ghost function LastReset<T>(n: nat, x: Sim<T>, edges: seq<Edge<T>>, k: nat): nat
    requires Shaped(n, x.regs) && LegalRun(n, x.regs, edges)
    decreases |edges|
  {
    if edges == [] then k
    else
      var (e, h') := (edges[0], Record(n, x.regs, x.hist, edges[0]));
      LastReset(n, Sim(Step(n, x.regs, e), h'), edges[1..], if !e.WriteEdge? && e.r.rst then |h'.accepted| else k)
  }

  lemma {:induction false} RunKeepsOrderly<T>(n: nat, x: Sim<T>, edges: seq<Edge<T>>, k: nat)
    requires Core(n, x.regs, x.hist) && LegalRun(n, x.regs, edges) && OrderlyFrom(x.regs, x.hist, k)
    ensures var y := Run(n, x, edges);
      Core(n, y.regs, y.hist) && OrderlyFrom(y.regs, y.hist, LastReset(n, x, edges, k))
    decreases |edges|
  {
    RunKeepsCore(n, x, edges);
    if edges != [] {
      var e := edges[0];
      hide Step, Record, Core, OrderlyFrom;
      StepKeepsOrderly(n, x.regs, x.hist, e, k);
      var y := Sim(Step(n, x.regs, e), Record(n, x.regs, x.hist, e));
      RunKeepsOrderly(n, y, edges[1..], if !e.WriteEdge? && e.r.rst then |y.hist.accepted| else k);
    }
  }

  /**
    In every legal run from power-on, however unclean its resets: the words accepted since the
    last of them are delivered in order and none is skipped, and if the next one is offered it
    is right.
  */
  lemma DeliversSinceLastReset<T>(n: nat, storage: seq<T>, rData: T, edges: seq<Edge<T>>, x: Sim<T>, y: Sim<T>)
    requires n >= 2 && |storage| == Depth(n) && x == PowerOn(n, storage, rData)
    requires LegalRun(n, x.regs, edges) && y == Run(n, x, edges)
    ensures Chain(n, y.hist)
    ensures var k := LastReset(n, x, edges, 0);
      && (k <= |y.hist.fate| ==> Delivered(y.hist.fate[k..]) == y.hist.accepted[k..|y.hist.fate|])
      && (k <= |y.hist.fate| && ReadReady(y.regs, false) ==>
            |y.hist.fate| < |y.hist.accepted| && y.regs.r.data == y.hist.accepted[|y.hist.fate|])
  {
    PowerOnInv(n, storage, rData);
    assert OrderlyFrom(x.regs, x.hist, 0);
    RunKeepsOrderly(n, x, edges, 0);
    hide PowerOn, Run, LastReset, Core, OrderlyFrom;
    OrderlyMeans(n, y.regs, y.hist, LastReset(n, x, edges, 0));
  }

  lemma OrderlyMeans<T>(n: nat, s: Regs<T>, h: History<T>, k: nat)
    requires Core(n, s, h) && OrderlyFrom(s, h, k)
    ensures Chain(n, h)
    ensures k <= |h.fate| ==> Delivered(h.fate[k..]) == h.accepted[k..|h.fate|]
    ensures k <= |h.fate| && ReadReady(s, false) ==> |h.fate| < |h.accepted| && s.r.data == h.accepted[|h.fate|]
  {
    EmptyIff(n, s, h);
    hide Mirrors, Stored;
    if k <= |h.fate| {
      DeliveredPrefix(h.fate[k..], h.accepted[k..]);
      assert h.accepted[k..][..|h.fate[k..]|] == h.accepted[k..|h.fate|];
    }
  }

  /** A reset edge discards exactly the words whose pointer had already crossed to the reader. */
  lemma ResetDiscardsCrossed<T>(n: nat, s: Regs<T>, h: History<T>, e: Edge<T>)
    requires Core(n, s, h) && Legal(n, s, e) && !e.WriteEdge? && e.r.rst
    ensures var s', h' := Step(n, s, e), Record(n, s, h, e);
      && Core(n, s', h')
      && h'.fate == h.fate + seq(h.seen - |h.fate|, i => None)
      && s'.r.consume == Wrap(h.seen, Pow2(n))
      && h'.accepted[..|h.accepted|] == h.accepted
      && RingHolds(s'.storage, h'.accepted, h.seen)
  {
    hide Pow2, Wrap, ToGray, FromGray;
    StepKeepsCore(n, s, h, e);
    assert |h.fate + Discarded<T>(h.seen - |h.fate|)| == h.seen;
  }

  /** The reader sees the writer's pointer exactly when all accepted words have crossed. */
  lemma SeenAllIff<T>(n: nat, s: Regs<T>, h: History<T>)
    requires Core(n, s, h)
    ensures s.r.produceGray == s.w.produceGray <==> h.seen == |h.accepted|
  {
    hide Pow2, Wrap, ToGray, FromGray;
    GrayInjective(n, Wrap(h.seen, Pow2(n)), Wrap(|h.accepted|, Pow2(n)));
    if Wrap(h.seen, Pow2(n)) == Wrap(|h.accepted|, Pow2(n)) {
      WrapInjective(h.seen, |h.accepted|, Pow2(n));
    }
  }

  /**
    A reset edge leaves nothing of what was accepted before it if and only if the reader already
    saw the writer's pointer.
  */
  lemma ResetEmptiesIff<T>(n: nat, s: Regs<T>, h: History<T>, e: Edge<T>)
    requires Core(n, s, h) && Legal(n, s, e) && !e.WriteEdge? && e.r.rst
    ensures var h' := Record(n, s, h, e);
      |h'.fate| == |h'.accepted| <==> s.r.produceGray == s.w.produceGray && (e.ReadEdge? || !DoWrite(n, s, e.w))
  {
    ResetDiscardsCrossed(n, s, h, e);
    SeenAllIff(n, s, h);
    hide Pow2, Wrap, ToGray, FromGray;
    hide Legal, Step;
  }

  /**
    Exactly when a reset edge leaves the right word at the head: it is clean, or the word it
    wrongly shows, a discarded one, happens to equal the right one.
  */
  lemma ResetHeadExact<T>(n: nat, s: Regs<T>, h: History<T>, e: Edge<T>, s': Regs<T>, h': History<T>)
    requires Core(n, s, h) && Legal(n, s, e) && s' == Step(n, s, e) && h' == Record(n, s, h, e)
    requires !e.WriteEdge? && e.r.rst
    ensures h'.seen <= |h'.accepted|
    ensures Fresh(s', h') <==>
      CleanReset(s) || (|h.fate| < h.seen < |h.accepted| && h.accepted[|h.fate|] == h.accepted[h.seen])
  {
    hide Pow2, Wrap, ToGray, FromGray;
    StepKeepsCore(n, s, h, e);
    HeadAfterReset(n, s, h, e, s', h');
  }

  /** A concrete unclean reset: the first of two words is discarded, then shown again as the head. */
  lemma UncleanResetExample() returns (edges: seq<Edge<int>>, y: Sim<int>)
    ensures LegalRun(2, PowerOn(2, [0, 0], 0).regs, edges)
    ensures y == Run(2, PowerOn(2, [0, 0], 0), edges)
    ensures y.hist.accepted == [10, 20] && y.hist.fate == [None]
    ensures ReadReady(y.regs, false) && y.regs.r.data == 10
  {
    var zero, one, two := [false, false], [true, false], [true, true];
    TwoBitCodes();
    var s0 := Regs(WriteRegs(0, zero, zero, zero, 0, 0), ReadRegs(0, zero, zero, zero, 0), [0, 0]);
    var s1 := Regs(WriteRegs(1, one, zero, zero, 0, 0), ReadRegs(0, zero, zero, zero, 0), [10, 0]);
    var s2 := Regs(WriteRegs(1, one, zero, zero, 0, 0), ReadRegs(0, zero, one, zero, 10), [10, 0]);
    var e1 := WriteEdge(WritePins(true, 10, zero));
    var e2 := ReadEdge(ReadPins(false, false, one, 0));
    var h0 := History([], [], 0, 0, 0, 0, 0);
    var h1 := History([10], [], 0, 0, 0, 0, 0);
    var h2 := History([10], [], 1, 0, 0, 0, 0);
    var rest;
    rest, y := UncleanResetTail(s2, h2);
    assert Legal(2, s1, e2) && Step(2, s1, e2) == s2 && Record(2, s1, h1, e2) == h2;
    assert Legal(2, s0, e1) && Step(2, s0, e1) == s1 && Record(2, s0, h0, e1) == h1;
    RunOne(2, Sim(s1, h1), e2, rest);
    RunOne(2, Sim(s0, h0), e1, [e2] + rest);
    edges := [e1] + ([e2] + rest);
  }

  lemma UncleanResetTail(s2: Regs<int>, h2: History<int>) returns (edges: seq<Edge<int>>, y: Sim<int>)
    requires s2 == Regs(WriteRegs(1, [true, false], [false, false], [false, false], 0, 0),
                        ReadRegs(0, [false, false], [true, false], [false, false], 10), [10, 0])
    requires h2 == History([10], [], 1, 0, 0, 0, 0)
    ensures LegalRun(2, s2, edges) && y == Run(2, Sim(s2, h2), edges)
    ensures y.hist.accepted == [10, 20] && y.hist.fate == [None]
    ensures ReadReady(y.regs, false) && y.regs.r.data == 10
  {
    var zero, one, two := [false, false], [true, false], [true, true];
    TwoBitCodes();
    var s3 := Regs(WriteRegs(2, two, zero, zero, 0, 1), ReadRegs(0, zero, one, zero, 10), [10, 20]);
    var s4 := Regs(WriteRegs(2, two, zero, zero, 0, 1), ReadRegs(0, zero, two, one, 10), [10, 20]);
    var e3 := WriteEdge(WritePins(true, 20, zero));
    var e4 := ReadEdge(ReadPins(false, false, two, 0));
    var h3 := History([10, 20], [], 1, 0, 0, 0, 0);
    var h4 := History([10, 20], [], 2, 1, 0, 0, 0);
    assert Legal(2, s3, e4) && Step(2, s3, e4) == s4 && Record(2, s3, h3, e4) == h4;
    assert Legal(2, s2, e3) && Step(2, s2, e3) == s3 && Record(2, s2, h2, e3) == h3;
    var rest;
    rest, y := UncleanResetLast(s4, h4);
    RunOne(2, Sim(s3, h3), e4, rest);
    RunOne(2, Sim(s2, h2), e3, [e4] + rest);
    edges := [e3] + ([e4] + rest);
  }

  lemma UncleanResetLast(s4: Regs<int>, h4: History<int>) returns (edges: seq<Edge<int>>, y: Sim<int>)
    requires s4 == Regs(WriteRegs(2, [true, true], [false, false], [false, false], 0, 1),
                        ReadRegs(0, [false, false], [true, true], [true, false], 10), [10, 20])
    requires h4 == History([10, 20], [], 2, 1, 0, 0, 0)
    ensures LegalRun(2, s4, edges) && y == Run(2, Sim(s4, h4), edges)
    ensures y.hist.accepted == [10, 20] && y.hist.fate == [None]
    ensures ReadReady(y.regs, false) && y.regs.r.data == 10
  {
    TwoBitCodes();
    var e5 := ReadEdge(ReadPins(false, true, [true, true], 0));
    y := Sim(Step(2, s4, e5), Record(2, s4, h4, e5));
    edges := [e5] + [];
    RunOne(2, Sim(s4, h4), e5, []);
  }

  lemma TwoBitCodes()
    ensures Depth(2) == 2 && Pow2(2) == 4
    ensures ToGray(2, 0) == [false, false] && ToGray(2, 1) == [true, false] && ToGray(2, 2) == [true, true]
    ensures FromGray([false, false]) == 0 && FromGray([true, false]) == 1
  {
    assert ToGray(2, 0) == [false, false] && ToGray(2, 1) == [true, false] && ToGray(2, 2) == [true, true];
    FromToGray(2, 0);
    FromToGray(2, 1);
  }

  lemma RunOne<T>(n: nat, x: Sim<T>, e: Edge<T>, rest: seq<Edge<T>>)
    requires Shaped(n, x.regs) && Legal(n, x.regs, e) && LegalRun(n, Step(n, x.regs, e), rest)
    ensures LegalRun(n, x.regs, [e] + rest)
    ensures Run(n, x, [e] + rest) == Run(n, Sim(Step(n, x.regs, e), Record(n, x.regs, x.hist, e)), rest)
  {
    assert ([e] + rest)[1..] == rest;
  }

  // ---- The registers, updated in place ----

  class AsyncFifoReadReset<T> {
    const n: nat
    var produceW: nat
    var produceWGray: Code
    var consumeWGray0: Code
    var consumeWGray: Code
    var consumeW: nat
    var wLevel: nat
    var consumeR: nat
    var consumeRGray: Code
    var produceRGray0: Code
    var produceRGray: Code
    var rData: T
    const storage: array<T>

    ghost function State(): Regs<T>
      reads this, storage
    {
      Regs(WriteRegs(produceW, produceWGray, consumeWGray0, consumeWGray, consumeW, wLevel),
           ReadRegs(consumeR, consumeRGray, produceRGray0, produceRGray, rData), storage[..])
    }

    constructor (n: nat, storage: array<T>, rData: T)
      requires n >= 2 && storage.Length == Depth(n)
      ensures this.n == n && this.storage == storage
      ensures State() == PowerOn(n, storage[..], rData).regs
    {
      this.n, this.storage, this.rData := n, storage, rData;
      produceW, consumeW, wLevel, consumeR := 0, 0, 0, 0;
      produceWGray, consumeWGray0, consumeWGray := ToGray(n, 0), ToGray(n, 0), ToGray(n, 0);
      consumeRGray, produceRGray0, produceRGray := ToGray(n, 0), ToGray(n, 0), ToGray(n, 0);
    }

    /** A rising edge of the write clock. */
    method OnWriteEdge(w: WritePins<T>)
      requires Shaped(n, State()) && |w.sample| == n
      modifies this, storage
      ensures State() == Step(n, old(State()), WriteEdge(w))
    {
      hide Pow2, Wrap, ToGray, FromGray;
      var full := FullPattern(produceWGray, consumeWGray);
      wLevel := Wrap(produceW + Pow2(n) - consumeW, Pow2(n));
      consumeW := FromGray(consumeWGray);
      consumeWGray0, consumeWGray := w.sample, consumeWGray0;
      if w.en && !full {
        storage[Wrap(produceW, Depth(n))] := w.data;
        produceW := Wrap(produceW + 1, Pow2(n));
      } else {
        produceW := Wrap(produceW, Pow2(n));
      }
      produceWGray := ToGray(n, produceW);
    }

    /** A rising edge of the read clock. */
    method OnReadEdge(r: ReadPins<T>)
      requires Shaped(n, State()) && |r.sample| == n
      modifies this
      ensures State() == Step(n, old(State()), ReadEdge(r))
    {
      hide Pow2, Wrap, ToGray, FromGray;
      ClockReadSide(r, false);
    }

    /** Both clocks rise together; a word read from the slot being written is unpredictable. */
    method OnBothEdges(w: WritePins<T>, r: ReadPins<T>)
      requires Shaped(n, State()) && |w.sample| == n && |r.sample| == n
      modifies this, storage
      ensures State() == Step(n, old(State()), BothEdges(w, r))
    {
      hide Pow2, Wrap, ToGray, FromGray;
      var doWrite := w.en && !FullPattern(produceWGray, consumeWGray);
      var doRead := r.en && !r.rst && consumeRGray != produceRGray;
      var next := Wrap(consumeR + if doRead then 1 else 0, Pow2(n));
      ClockReadSide(r, doWrite && Wrap(produceW, Depth(n)) == Wrap(next, Depth(n)));
      OnWriteEdge(w);
    }

    method ClockReadSide(r: ReadPins<T>, collides: bool)
      requires Shaped(n, State()) && |r.sample| == n
      modifies this
      ensures State() == old(State()).(r := ReadSide(n, old(State()), r, collides))
    {
      hide Pow2, Wrap, ToGray, FromGray;
      var empty := r.rst || consumeRGray == produceRGray;
      var next := Wrap(consumeR + if r.en && !empty then 1 else 0, Pow2(n));
      rData := if collides then r.collision else storage[Wrap(next, Depth(n))];
      if r.rst {
        consumeR, consumeRGray := FromGray(produceRGray), produceRGray;
      } else {
        consumeR, consumeRGray := next, ToGray(n, next);
      }
      produceRGray0, produceRGray := r.sample, produceRGray0;
    }
  }
}
