/** Registers that wrap around, beside the unbounded counters they truncate. */
module Modular {

  /** The value a register of m states holds after counting to x. */
  function Wrap(x: nat, m: nat): (r: nat)
    requires m > 0
    ensures r < m && (x < m ==> r == x)
    decreases x
  {
    if x < m then x else Wrap(x - m, m)
  }

  lemma {:induction false} WrapPeriod(q: nat, r: nat, m: nat)
    requires m > 0 && r < m
    ensures Wrap(q * m + r, m) == r
    decreases q
  {
    if q > 0 {
      assert q * m + r - m == (q - 1) * m + r;
      assert q * m >= m;
      WrapPeriod(q - 1, r, m);
    }
  }

  /** A whole turn changes nothing. */
  lemma WrapSame(a: nat, m: nat)
    requires m > 0
    ensures Wrap(a + m, m) == Wrap(a, m)
  {
  }

  lemma {:induction false} WrapQuotient(x: nat, m: nat) returns (q: nat)
    requires m > 0
    ensures x == q * m + Wrap(x, m)
    decreases x
  {
    if x < m {
      q := 0;
    } else {
      var k := WrapQuotient(x - m, m);
      q := k + 1;
    }
  }

  /** Two counters less than one wrap apart are equal when their registers are. */
  lemma {:induction false} WrapInjective(a: nat, b: nat, m: nat)
    requires m > 0 && a < b + m && b < a + m && Wrap(a, m) == Wrap(b, m)
    ensures a == b
    decreases a
  {
    if a >= m && b >= m {
      WrapInjective(a - m, b - m, m);
    }
  }

  /** Adding to the register and truncating again counts on. */
  lemma {:induction false} WrapAdd(a: nat, b: nat, m: nat)
    requires m > 0
    ensures Wrap(Wrap(a, m) + b, m) == Wrap(a + b, m)
    decreases a
  {
    if a >= m {
      WrapAdd(a - m, b, m);
    }
  }

  /** Subtracting two registers, with wrap-around, gives the true distance. */
  lemma WrapDistance(a: nat, b: nat, m: nat)
    requires 0 <= a - b < m
    ensures Wrap(Wrap(a, m) + m - Wrap(b, m), m) == a - b
  {
    WrapAdd(b, a - b, m);
    var r := Wrap(b, m);
    var d := a - b;
    assert Wrap(a, m) == if r + d < m then r + d else r + d - m;
  }

  /** Dropping the top bit of a counter that has one bit more than an address. */
  lemma WrapHalf(x: nat, d: nat)
    requires d > 0
    ensures Wrap(Wrap(x, 2 * d), d) == Wrap(x, d)
  {
    var p := WrapQuotient(x, 2 * d);
    var y := Wrap(x, 2 * d);
    var q := WrapQuotient(y, d);
    assert x == (2 * p + q) * d + Wrap(y, d);
    WrapPeriod(2 * p + q, Wrap(y, d), d);
  }

  /** Two counters at most half the range apart: their registers are half the range apart only if they are. */
  lemma WrapOpposite(a: nat, b: nat, d: nat)
    requires d > 0 && 0 <= a - b <= d
    ensures Wrap(a, 2 * d) == Wrap(b, 2 * d) + d || Wrap(b, 2 * d) == Wrap(a, 2 * d) + d <==> a - b == d
  {
    WrapAdd(b, a - b, 2 * d);
  }
}

/** Words kept in a ring: word i sits in slot i modulo the ring's size. */
module Rings {
  import opened Modular

  /** The words from index `from` on are all in the ring. */
  ghost predicate RingHolds<T>(ring: seq<T>, words: seq<T>, from: nat)
    requires |ring| > 0
  {
    forall i :: from <= i < |words| ==> ring[Wrap(i, |ring|)] == words[i]
  }

  /** The n words of the ring from index `from` on. */
  function RingSlice<T>(ring: seq<T>, from: nat, n: nat): (words: seq<T>)
    requires |ring| > 0
    ensures |words| == n
    ensures forall i :: 0 <= i < n ==> words[i] == ring[Wrap(from + i, |ring|)]
  {
    seq(n, i requires 0 <= i < n => ring[Wrap(from + i, |ring|)])
  }

  /** Slots of different words in one ring's worth of words are different. */
  lemma SlotsDiffer(i: nat, j: nat, size: nat)
    requires size > 0 && i < j < i + size
    ensures Wrap(i, size) != Wrap(j, size)
  {
    if Wrap(i, size) == Wrap(j, size) {
      WrapInjective(i, j, size);
    }
  }

  /** Writing one more word into a ring that has room leaves the unread words alone. */
  lemma RingAppend<T>(ring: seq<T>, words: seq<T>, from: nat, data: T)
    requires |ring| > 0 && |words| < from + |ring| && RingHolds(ring, words, from)
    ensures RingHolds(ring[Wrap(|words|, |ring|) := data], words + [data], from)
  {
    hide Wrap;
    forall i | from <= i < |words|
      ensures Wrap(i, |ring|) != Wrap(|words|, |ring|)
    {
      SlotsDiffer(i, |words|, |ring|);
    }
  }
}

module Seqs {
  function Repeat<T>(x: T, n: nat): (r: seq<T>)
    ensures |r| == n
  {
    if n == 0 then [] else [x] + Repeat(x, n - 1)
  }

  lemma Regroup<T>(a: seq<T>, b: seq<T>, c: seq<T>)
    ensures a + (b + c) == (a + b) + c
  {
  }
}
