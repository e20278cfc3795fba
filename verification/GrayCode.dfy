/**
  Gray codes of every width, least significant bit first, as the FIFO's pointers cross
  between clock domains.
*/
module GrayCode {

  type Code = seq<bool>

  function Pow2(n: nat): (r: nat)
    ensures r >= 1
  {
    if n == 0 then 1 else 2 * Pow2(n - 1)
  }

  /** The n-bit register holding x. */
  function Bits(n: nat, x: nat): (b: Code)
    ensures |b| == n
  {
    if n == 0 then [] else [x % 2 == 1] + Bits(n - 1, x / 2)
  }

  /** The number an unsigned register stands for. */
  function Value(b: Code): (v: nat)
    ensures v < Pow2(|b|)
  {
    if b == [] then 0 else (if b[0] then 1 else 0) + 2 * Value(b[1..])
  }

  /** Bit k of the code is bit k of the number xor bit k + 1. */
  function Encode(b: Code): (g: Code)
    ensures |g| == |b|
  {
    seq(|b|, k requires 0 <= k < |b| => b[k] != (k + 1 < |b| && b[k + 1]))
  }

  /** Bit k of the number is the xor of all code bits from k upward. */
  function Decode(g: Code): (b: Code)
    ensures |b| == |g|
  {
    if g == [] then [] else
    var above := Decode(g[1..]);
    [g[0] != (above != [] && above[0])] + above
  }

  function ToGray(n: nat, x: nat): (g: Code)
    ensures |g| == n
  {
    Encode(Bits(n, x))
  }

  function FromGray(g: Code): (v: nat)
    ensures v < Pow2(|g|)
  {
    Value(Decode(g))
  }

  /** The comparison that raises the FIFO's full flag: top two bits differ, the others agree. */
  predicate FullPattern(p: Code, c: Code)
    requires |p| == |c| >= 2
  {
    var n := |p|;
    p[n - 1] != c[n - 1] && p[n - 2] != c[n - 2] && p[..n - 2] == c[..n - 2]
  }

  // ---- Encode and decode undo each other ----

  lemma {:induction false} ValueOfBits(n: nat, x: nat)
    requires x < Pow2(n)
    ensures Value(Bits(n, x)) == x
  {
    if n > 0 {
      ValueOfBits(n - 1, x / 2);
      assert Bits(n, x)[1..] == Bits(n - 1, x / 2);
    }
  }

  lemma EncodeTail(b: Code)
    requires b != []
    ensures Encode(b)[1..] == Encode(b[1..])
    ensures Encode(b)[0] == (b[0] != (|b| > 1 && b[1]))
  {
  }

  lemma {:induction false} DecodeEncode(b: Code)
    ensures Decode(Encode(b)) == b
  {
    if b != [] {
      EncodeTail(b);
      DecodeEncode(b[1..]);
      assert b == [b[0]] + b[1..];
    }
  }

  lemma {:induction false} EncodeDecode(g: Code)
    ensures Encode(Decode(g)) == g
  {
    if g != [] {
      EncodeDecode(g[1..]);
      var b := Decode(g);
      assert b[1..] == Decode(g[1..]);
      EncodeTail(b);
      assert Encode(b) == [Encode(b)[0]] + Encode(b)[1..];
    }
  }

  /** Decoding undoes encoding at every width. */
  lemma FromToGray(n: nat, x: nat)
    requires x < Pow2(n)
    ensures FromGray(ToGray(n, x)) == x
  {
    DecodeEncode(Bits(n, x));
    ValueOfBits(n, x);
  }

  /** The empty comparison is exact: two codes agree only when the counters do. */
  lemma GrayInjective(n: nat, x: nat, y: nat)
    requires x < Pow2(n) && y < Pow2(n)
    ensures ToGray(n, x) == ToGray(n, y) <==> x == y
  {
    FromToGray(n, x);
    FromToGray(n, y);
  }

  // ---- Successive codes differ in one bit ----

  /** The one bit that changes when an n-bit counter steps from x, the step that wraps to 0 included. */
  function FlipIndex(n: nat, x: nat): (k: nat)
    requires n > 0
    ensures k < n
  {
    if x % 2 == 0 || n == 1 then 0 else 1 + FlipIndex(n - 1, x / 2)
  }

  function Successor(n: nat, x: nat): (y: nat)
    requires x < Pow2(n)
    ensures y < Pow2(n)
  {
    if x + 1 == Pow2(n) then 0 else x + 1
  }

  /** Peeling the lowest bit of a Gray code. */
  lemma GrayHead(n: nat, x: nat)
    requires n > 0
    ensures ToGray(n, x)[0] == ((x % 2 == 1) != (n > 1 && (x / 2) % 2 == 1))
    ensures ToGray(n, x)[1..] == ToGray(n - 1, x / 2)
  {
    assert Bits(n, x)[1..] == Bits(n - 1, x / 2);
    EncodeTail(Bits(n, x));
    if n > 1 {
      assert Bits(n, x)[1] == Bits(n - 1, x / 2)[0];
    }
  }

  /** Stepping an odd counter carries into the upper bits; stepping an even one does not. */
  lemma SuccessorHalves(n: nat, x: nat)
    requires n > 0 && x < Pow2(n)
    ensures Successor(n, x) % 2 == (x + 1) % 2
    ensures x / 2 < Pow2(n - 1)
    ensures Successor(n, x) / 2 == if x % 2 == 0 then x / 2 else Successor(n - 1, x / 2)
  {
    assert Pow2(n) == 2 * Pow2(n - 1);
  }

  lemma {:induction false} OneBitFlips(n: nat, x: nat)
    requires n > 0 && x < Pow2(n)
    ensures forall k :: 0 <= k < n ==>
      ((ToGray(n, x)[k] != ToGray(n, Successor(n, x))[k]) <==> k == FlipIndex(n, x))
  {
    var y := Successor(n, x);
    SuccessorHalves(n, x);
    GrayHead(n, x);
    GrayHead(n, y);
    if n > 1 && x % 2 == 1 {
      SuccessorHalves(n - 1, x / 2);
      OneBitFlips(n - 1, x / 2);
    }
    forall k | 0 < k < n
      ensures (ToGray(n, x)[k] != ToGray(n, y)[k]) <==> k == FlipIndex(n, x)
    {
      assert ToGray(n, x)[k] == ToGray(n - 1, x / 2)[k - 1];
      assert ToGray(n, y)[k] == ToGray(n - 1, y / 2)[k - 1];
    }
  }

  /** m takes each of its bits from a or from b, as a register sampled while it changes may. */
  predicate MixOf(m: Code, a: Code, b: Code) {
    |m| == |a| == |b| && forall k :: 0 <= k < |m| ==> m[k] == a[k] || m[k] == b[k]
  }

  /** Sampling a Gray counter while it steps yields the old code or the new one, never a third. */
  lemma SampledCodeIsOldOrNew(n: nat, x: nat, m: Code)
    requires n > 0 && x < Pow2(n)
    requires MixOf(m, ToGray(n, x), ToGray(n, Successor(n, x)))
    ensures m == ToGray(n, x) || m == ToGray(n, Successor(n, x))
  {
    OneBitFlips(n, x);
    var k := FlipIndex(n, x);
    var old_, new_ := ToGray(n, x), ToGray(n, Successor(n, x));
    assert forall j :: 0 <= j < n && j != k ==> m[j] == old_[j] == new_[j];
    if m[k] == old_[k] {
      assert m == old_;
    } else {
      assert m == new_;
    }
  }

  // ---- The full flag ----

  lemma FullPatternTail(p: Code, c: Code)
    requires |p| == |c| > 2
    ensures FullPattern(p, c) <==> p[0] == c[0] && FullPattern(p[1..], c[1..])
  {
    var n := |p|;
    assert p[1..][..n - 3] == p[1..n - 2] && c[1..][..n - 3] == c[1..n - 2];
    assert p[..n - 2] == [p[0]] + p[1..n - 2] && c[..n - 2] == [c[0]] + c[1..n - 2];
  }

  predicate HalfRangeApart(n: nat, p: nat, c: nat)
    requires n >= 1
  {
    p == c + Pow2(n - 1) || c == p + Pow2(n - 1)
  }

  lemma HalveOffset(p: nat, c: nat, d: nat)
    ensures p == c + 2 * d <==> p % 2 == c % 2 && p / 2 == c / 2 + d
  {
  }

  lemma HalfRangeTail(n: nat, p: nat, c: nat)
    requires n > 2
    ensures HalfRangeApart(n, p, c) <==>
      (p % 2 == 1) == (c % 2 == 1) && HalfRangeApart(n - 1, p / 2, c / 2)
    ensures HalfRangeApart(n - 1, p / 2, c / 2) ==> ((p / 2) % 2 == 1) == ((c / 2) % 2 == 1)
  {
    var (d, e) := (Pow2(n - 2), Pow2(n - 3));
    assert Pow2(n - 1) == 2 * d && d == 2 * e;
    hide Pow2;
    HalveOffset(p, c, d);
    HalveOffset(c, p, d);
    HalveOffset(p / 2, c / 2, e);
    HalveOffset(c / 2, p / 2, e);
  }

  lemma FullExactTwoBits(p: nat, c: nat)
    requires p < 4 && c < 4
    ensures FullPattern(ToGray(2, p), ToGray(2, c)) <==> HalfRangeApart(2, p, c)
  {
    GrayHead(2, p);
    GrayHead(2, c);
    GrayHead(1, p / 2);
    GrayHead(1, c / 2);
    assert ToGray(2, p)[1] == ToGray(1, p / 2)[0] && ToGray(2, c)[1] == ToGray(1, c / 2)[0];
    assert ToGray(2, p)[..0] == ToGray(2, c)[..0];
    assert Pow2(1) == 2;
  }

  /** The full comparison is exact: it holds just when the counters are half the range apart. */
  lemma {:induction false} FullExact(n: nat, p: nat, c: nat)
    requires n >= 2 && p < Pow2(n) && c < Pow2(n)
    ensures FullPattern(ToGray(n, p), ToGray(n, c)) <==> HalfRangeApart(n, p, c)
  {
    if n == 2 {
      FullExactTwoBits(p, c);
    } else {
      GrayHead(n, p);
      GrayHead(n, c);
      FullPatternTail(ToGray(n, p), ToGray(n, c));
      HalfRangeTail(n, p, c);
      FullExact(n - 1, p / 2, c / 2);
    }
  }
}
