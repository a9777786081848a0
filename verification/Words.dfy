/** 32-bit words as JavaScript's bit operators see them, written as their bits. */
module Words {

  /** Bits are written most significant first; a byte is eight of them. */
  type Bits = seq<bool>

  type Word = w: Bits | |w| == 32 witness seq(32, _ => false)

  function Zeros(n: nat): (r: Bits)
    ensures |r| == n
  {
    seq(n, _ => false)
  }

  function Ones(n: nat): (r: Bits)
    ensures |r| == n
  {
    seq(n, _ => true)
  }

  /** A short bit string as a word. */
  function Widen(b: Bits): Word
    requires |b| <= 32
  {
    Zeros(32 - |b|) + b
  }

  /** w << n: what leaves the word at the top is lost. */
  function Shl(w: Word, n: nat): Word
    requires n <= 32
  {
    w[n..] + Zeros(n)
  }

  /** w >>> n */
  function Shr(w: Word, n: nat): Word
    requires n <= 32
  {
    Zeros(n) + w[..32 - n]
  }

  function Or(a: Word, b: Word): Word {
    seq(32, i requires 0 <= i < 32 => a[i] || b[i])
  }

  function And(a: Word, b: Word): Word {
    seq(32, i requires 0 <= i < 32 => a[i] && b[i])
  }

  /** The n low bits of a word. */
  function Low(w: Word, n: nat): (r: Bits)
    requires n <= 32
    ensures |r| == n
  {
    w[32 - n..]
  }

  // Bytes as numbers --------------------------------------------------------

  function Weight(b: bool, w: int): int {
    if b then w else 0
  }

  function Half(q: Bits): (x: int)
    requires |q| == 4
    ensures 0 <= x < 16
  {
    Weight(q[0], 8) + Weight(q[1], 4) + Weight(q[2], 2) + Weight(q[3], 1)
  }

  function HalfBits(x: int): (q: Bits)
    requires 0 <= x < 16
    ensures |q| == 4 && Half(q) == x
  {
    [x >= 8, x % 8 >= 4, x % 4 >= 2, x % 2 >= 1]
  }

  /** Eight bits as a number. */
  function ByteValue(b: Bits): (x: int)
    requires |b| == 8
    ensures 0 <= x < 256
  {
    16 * Half(b[..4]) + Half(b[4..])
  }

  /** The eight bits of a number. */
  function ByteOf(x: int): (b: Bits)
    requires 0 <= x < 256
    ensures |b| == 8
  {
    HalfBits(x / 16) + HalfBits(x % 16)
  }

  lemma HalfIsInjective(q: Bits)
    requires |q| == 4
    ensures HalfBits(Half(q)) == q
  {
  }

  lemma ByteOfValue(b: Bits)
    requires |b| == 8
    ensures ByteOf(ByteValue(b)) == b
  {
    hide Half, HalfBits;
    var high, low := b[..4], b[4..];
    HalfIsInjective(high);
    HalfIsInjective(low);
    var x := ByteValue(b);
    assert x / 16 == Half(high) && x % 16 == Half(low);
    assert b == high + low;
  }
}
