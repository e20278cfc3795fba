/** 16-bit words as the pair of byte lanes they are stored in. */
module Words {
  type Byte = b: nat | b < 0x100

  datatype Word = Word(hi: Byte, lo: Byte)

  function ToWord(n: nat): Word {
    Word(n / 0x100 % 0x100, n % 0x100)
  }

  function FromWord(w: Word): (n: nat)
    ensures n < 0x1_0000
  {
    w.hi * 0x100 + w.lo
  }

  lemma WordRoundTrip(n: nat)
    requires n < 0x1_0000
    ensures FromWord(ToWord(n)) == n
  {
  }

  /** The byte in lane j: the high byte comes first. */
  function Lane(w: Word, j: nat): Byte {
    if j % 2 == 0 then w.hi else w.lo
  }

  function SetLane(w: Word, j: nat, b: Byte): Word {
    if j % 2 == 0 then w.(hi := b) else w.(lo := b)
  }
}
