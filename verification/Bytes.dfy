/** Bytes and 16-bit words as the C sources use them. */
module Bytes {

  type byte = n: int | 0 <= n < 0x100
  type word = n: int | 0 <= n < 0x1_0000

  function Lo(n: int): byte {
    n % 0x100
  }

  function Hi(n: int): byte {
    (n / 0x100) % 0x100
  }

  /** Truncation to an `unsigned short`. */
  function ToWord(n: int): word {
    n % 0x1_0000
  }

  function Word(lo: byte, hi: byte): word {
    hi * 0x100 + lo
  }

  lemma SplitWord(x: word)
    ensures Word(Lo(x), Hi(x)) == x && Hi(x) == x / 0x100
  {
  }

  /** Truncating to 16 bits changes neither of the two low bytes. */
  lemma HalvesOfWord(n: int)
    ensures Lo(ToWord(n)) == Lo(n) && Hi(ToWord(n)) == Hi(n)
  {
    var q, r := n / 0x1_0000, n % 0x1_0000;
    assert n == 0x100 * (0x100 * q) + r;
    assert n / 0x100 == 0x100 * q + r / 0x100;
  }
}
