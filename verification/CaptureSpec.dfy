/**
  What a capture session should deliver, said without any buffer: the packets and rollover
  events seen on the PHY pins, their place in time, and the words that stand for them.
*/
module CaptureSpec {
  import opened Options
  import opened Words

  /** The UTMI pins and the enable bit during one usb cycle. */
  datatype Pins = Pins(enable: bool, rxActive: bool, rxValid: bool, rxData: Byte)

  datatype Item = Packet(bytes: seq<Byte>, time: nat) | Event(code: Byte, time: nat)

  /** The event written when the timestamp counter is about to wrap between packets. */
  const ROLLOVER: Item := Event(0, 0xFFFF)

  const WRAP: nat := 0x1_0000

  datatype Phase = Stopped | Waiting | Capturing(bytes: seq<Byte>, time: nat, start: Mark) | Lost

  /** When something began, in usb cycles of the session, and how many counter wraps had gone unreported. */
  datatype Mark = Mark(cycle: nat, missed: nat)

  /** `since`: cycles since the last packet start, or since the session start. `marks` runs beside `items`. */
  datatype Session = Session(phase: Phase, items: seq<Item>, marks: seq<Mark>, since: nat, now: Mark)

  const NEW_SESSION: Session := Session(Stopped, [], [], 0, Mark(0, 0))

  function Tick(x: Session): Session {
    x.(since := x.since + 1, now := Mark(x.now.cycle + 1, x.now.missed))
  }

  function Add(x: Session, item: Item, mark: Mark): Session {
    x.(items := x.items + [item], marks := x.marks + [mark])
  }

  /** One usb cycle of an ideal capture; `lost` says that a byte of this cycle found no room. */
  function SessionStep(x: Session, p: Pins, lost: bool): Session {
    match x.phase
    case Stopped =>
      if !p.enable then x else NEW_SESSION.(phase := if p.rxActive then Stopped else Waiting)
    case Waiting =>
      if !p.enable then x.(phase := Stopped)
      else if p.rxActive then Tick(x).(phase := Capturing([], x.since % WRAP, x.now), since := 0)
      else if x.since % WRAP == 0xFFFF then Add(Tick(x), ROLLOVER, x.now)
      else Tick(x)
    case Capturing(bytes, time, start) =>
      var y := if x.since % WRAP == 0xFFFF then Tick(x).(now := Mark(x.now.cycle + 1, x.now.missed + 1)) else Tick(x);
      if !p.rxActive then Add(y, Packet(bytes, time), start).(phase := Waiting)
      else if !p.rxValid then y
      else if lost then y.(phase := Lost)
      else y.(phase := Capturing(bytes + [p.rxData], time, start))
    case Lost =>
      if p.enable then x else x.(phase := Stopped)
  }

  // ---- Items as words ----

  /** Words taken by n bytes, two to a word. */
  function WordsFor(n: nat): nat {
    (n + 1) / 2
  }

  /** The words that stand for an item; the second byte of an odd packet's last word may be anything. */
  ghost predicate Matches(chunk: seq<Word>, item: Item) {
    match item
    case Packet(bytes, time) =>
      && |chunk| == 2 + WordsFor(|bytes|)
      && chunk[0] == ToWord(|bytes|) && chunk[1] == ToWord(time)
      && forall j :: 0 <= j < |bytes| ==> Lane(chunk[2 + j / 2], j) == bytes[j]
    case Event(code, time) => chunk == [Word(0xFF, code), ToWord(time)]
  }

  function Unpack(words: seq<Word>, count: nat): (bytes: seq<Byte>)
    requires WordsFor(count) <= |words|
    ensures |bytes| == count
  {
    seq(count, j requires 0 <= j < count => Lane(words[j / 2], j))
  }

  /** The first item of a word stream and its size in words; a marker byte tells events from packet headers. */
  function Head(words: seq<Word>): (r: Option<(Item, nat)>)
    ensures r.Some? ==> 0 < r.value.1 <= |words|
  {
    if |words| < 2 then None
    else
      var time := FromWord(words[1]);
      if words[0].hi == 0xFF then Some((Event(words[0].lo, time), 2))
      else
        var count := FromWord(words[0]);
        var size := 2 + WordsFor(count);
        if |words| < size then None else Some((Packet(Unpack(words[2..], count), time), size))
  }

  /** A host's reading of the whole stream. */
  function Parse(words: seq<Word>): Option<seq<Item>>
    decreases |words|
  {
    if words == [] then Some([])
    else
      var head := Head(words);
      if head.None? then None
      else
        var rest := Parse(words[head.value.1..]);
        if rest.None? then None else Some([head.value.0] + rest.value)
  }

  /** The items that are there whole; what follows the last of them is not enough for another. */
  function Whole(words: seq<Word>): seq<Item>
    decreases |words|
  {
    var head := Head(words);
    if head.None? then [] else [head.value.0] + Whole(words[head.value.1..])
  }

  lemma {:induction false} WholeIsParse(words: seq<Word>)
    requires Parse(words).Some?
    ensures Whole(words) == Parse(words).value
    decreases |words|
  {
    hide Head;
    if words != [] {
      WholeIsParse(words[Head(words).value.1..]);
    } else {
      NoHead();
    }
  }

  lemma NoHead()
    ensures Head([]) == None
  {
  }

  /** Reading more of a stream only adds items. */
  lemma {:induction false} WholeGrows(words: seq<Word>, more: seq<Word>)
    ensures Whole(words) <= Whole(words + more)
    decreases |words|
  {
    hide Head;
    if Head(words).Some? {
      HeadStable(words, more);
      var size := Head(words).value.1;
      assert (words + more)[size..] == words[size..] + more;
      WholeGrows(words[size..], more);
    }
  }

  /** Items the 16-bit header can describe: no length that looks like an event marker. */
  predicate Encodable(item: Item) {
    item.time < WRAP && (item.Packet? ==> |item.bytes| < 0xFF00)
  }

  lemma HeadOfChunk(chunk: seq<Word>, item: Item)
    requires Matches(chunk, item) && Encodable(item)
    ensures Head(chunk) == Some((item, |chunk|))
  {
    WordRoundTrip(item.time);
    if item.Packet? {
      WordRoundTrip(|item.bytes|);
      assert chunk[0].hi != 0xFF;
      assert Unpack(chunk[2..], |item.bytes|) == item.bytes;
    }
  }

  lemma HeadStable(words: seq<Word>, more: seq<Word>)
    requires Head(words).Some?
    ensures Head(words + more) == Head(words)
  {
    var all := words + more;
    assert all[0] == words[0] && all[1] == words[1];
    if words[0].hi != 0xFF {
      var count := FromWord(words[0]);
      assert Unpack(all[2..], count) == Unpack(words[2..], count);
    }
  }

  /** Parsing is compositional: what follows a whole parse is parsed on its own. */
  lemma {:induction false} ParseConcat(words: seq<Word>, more: seq<Word>)
    requires Parse(words).Some? && Parse(more).Some?
    ensures Parse(words + more) == Some(Parse(words).value + Parse(more).value)
    decreases |words|
  {
    hide Head;
    if words == [] {
      assert words + more == more && Parse(words).value + Parse(more).value == Parse(more).value;
    } else {
      HeadStable(words, more);
      var (item, size) := Head(words).value;
      assert (words + more)[size..] == words[size..] + more;
      ParseConcat(words[size..], more);
      var rest := Parse(words[size..]).value;
      assert [item] + (rest + Parse(more).value) == ([item] + rest) + Parse(more).value;
    }
  }

  /** Committing one more item's words extends the parse by that item. */
  lemma ParseAppend(words: seq<Word>, items: seq<Item>, chunk: seq<Word>, item: Item)
    requires Parse(words) == Some(items) && Matches(chunk, item) && Encodable(item)
    ensures Parse(words + chunk) == Some(items + [item])
  {
    HeadOfChunk(chunk, item);
    assert chunk[|chunk|..] == [] && [item] + [] == [item];
    assert Parse(chunk) == Some([item]);
    ParseConcat(words, chunk);
  }

  // ---- Time ----

  /** How many usb cycles the items account for, counted the way a host must. */
  function Elapsed(items: seq<Item>): nat {
    if items == [] then 0
    else Elapsed(items[..|items| - 1]) + Span(items[|items| - 1])
  }

  function Span(item: Item): nat {
    if item.Packet? then item.time + 1 else WRAP
  }

  /** An item's timestamp places it in the session, up to the wraps that went unreported. */
  predicate Placed(before: seq<Item>, item: Item, mark: Mark) {
    mark.cycle == Elapsed(before) + item.time + WRAP * mark.missed
  }

  ghost predicate ClockInv(x: Session) {
    && |x.marks| == |x.items|
    && (forall k :: 0 <= k < |x.items| ==> Placed(x.items[..k], x.items[k], x.marks[k]))
    && (x.phase.Waiting? ==> x.now.cycle == Elapsed(x.items) + x.since % WRAP + WRAP * x.now.missed)
    && (x.phase.Capturing? ==>
          && x.now.cycle == Elapsed(x.items) + x.phase.time + 1 + x.since % WRAP + WRAP * x.now.missed
          && Placed(x.items, Packet(x.phase.bytes, x.phase.time), x.phase.start))
  }

  lemma AddKeepsPlaced(x: Session, item: Item, mark: Mark)
    requires |x.marks| == |x.items| && Placed(x.items, item, mark)
    requires forall k :: 0 <= k < |x.items| ==> Placed(x.items[..k], x.items[k], x.marks[k])
    ensures var y := Add(x, item, mark);
      && Elapsed(y.items) == Elapsed(x.items) + Span(item)
      && forall k :: 0 <= k < |y.items| ==> Placed(y.items[..k], y.items[k], y.marks[k])
  {
    var y := Add(x, item, mark);
    assert y.items[..|x.items|] == x.items;
    assert forall k :: 0 <= k < |x.items| ==> y.items[..k] == x.items[..k];
  }

  lemma StepKeepsClock(x: Session, p: Pins, lost: bool)
    requires ClockInv(x)
    ensures ClockInv(SessionStep(x, p, lost))
  {
    hide Elapsed;
    match x.phase
    case Stopped =>
      assert Elapsed([]) == 0 by { ElapsedNone(); }
    case Waiting =>
      if p.enable && !p.rxActive && x.since % WRAP == 0xFFFF {
        AddKeepsPlaced(x, ROLLOVER, x.now);
      }
    case Capturing(bytes, time, start) =>
      if !p.rxActive {
        AddKeepsPlaced(x, Packet(bytes, time), start);
      }
    case Lost =>
  }

  lemma ElapsedNone()
    ensures Elapsed([]) == 0
  {
  }

  lemma {:induction false} ElapsedBetween(items: seq<Item>, a: nat, b: nat)
    requires a < b <= |items| && items[a].Packet?
    requires forall k :: a < k < b ==> items[k].Event?
    ensures Elapsed(items[..b]) == Elapsed(items[..a]) + items[a].time + 1 + WRAP * (b - a - 1)
    decreases b
  {
    assert items[..b][..b - 1] == items[..b - 1] && items[..b][b - 1] == items[b - 1];
    if b > a + 1 {
      ElapsedBetween(items, a, b - 1);
    }
  }

  /**
    Time conservation between consecutive packets: the gap between their starts is what the
    rollover events between them and the second timestamp say, if and only if the counter
    did not wrap unreported in between, that is, inside a packet.
  */
  lemma GapBetweenPackets(x: Session, a: nat, b: nat)
    requires ClockInv(x) && a < b < |x.items| && x.items[a].Packet? && x.items[b].Packet?
    requires forall k :: a < k < b ==> x.items[k].Event?
    ensures x.marks[b].cycle - x.marks[a].cycle - 1 == WRAP * (b - a - 1) + x.items[b].time <==>
      x.marks[b].missed == x.marks[a].missed
  {
    ElapsedBetween(x.items, a, b);
    assert Placed(x.items[..a], x.items[a], x.marks[a]);
    assert Placed(x.items[..b], x.items[b], x.marks[b]);
  }

  lemma {:induction false} ElapsedEvents(items: seq<Item>)
    requires forall k :: 0 <= k < |items| ==> items[k].Event?
    ensures Elapsed(items) == WRAP * |items|
  {
    if items != [] {
      ElapsedEvents(items[..|items| - 1]);
    }
  }

  /** The same from the session's start to its first packet. */
  lemma GapBeforeFirstPacket(x: Session, b: nat)
    requires ClockInv(x) && b < |x.items| && x.items[b].Packet?
    requires forall k :: 0 <= k < b ==> x.items[k].Event?
    ensures x.marks[b].cycle == WRAP * b + x.items[b].time <==> x.marks[b].missed == 0
  {
    ElapsedEvents(x.items[..b]);
    assert Placed(x.items[..b], x.items[b], x.marks[b]);
  }
}
