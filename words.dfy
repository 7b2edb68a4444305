/**
 * 64-bit machine words as sequences of 64 bits, bit 0 first.
 *
 * The containers of the simulator use `unsigned long` words as bit sets
 * (the free-slot map of a hash chunk, the words of a bit vector).  Each word
 * operator they use is defined here by its meaning on every bit: shifts
 * move bits and fill with zeros, `&`, `|`, `^` and `~` work bit by bit,
 * `bitmask(n)` has the low n bits set and `lsbindex` is the position of the
 * lowest set bit.  A shift by 64 or more is undefined in C, so the shifts
 * require an amount below 64.
 */
module Words {

  const WORD_BITS: nat := 64

  type Word = w: seq<bool> | |w| == 64 witness Zero()

  function Zero(): (z: seq<bool>)
    ensures |z| == 64 && forall i :: 0 <= i < 64 ==> !z[i]
  {
    seq(64, i => false)
  }

  /** `~0`. */
  function AllOnes(): Word
  {
    seq(64, i => true)
  }

  function And(a: Word, b: Word): Word
  {
    seq(64, i requires 0 <= i < 64 => a[i] && b[i])
  }

  function Or(a: Word, b: Word): Word
  {
    seq(64, i requires 0 <= i < 64 => a[i] || b[i])
  }

  function Xor(a: Word, b: Word): Word
  {
    seq(64, i requires 0 <= i < 64 => a[i] != b[i])
  }

  function Not(a: Word): Word
  {
    seq(64, i requires 0 <= i < 64 => !a[i])
  }

  /** `a << k`: bit i comes from bit i - k, the low k bits are zero. */
  function Shl(a: Word, k: nat): Word
    requires k < 64
  {
    seq(64, i requires 0 <= i < 64 => i >= k && a[i - k])
  }

  /** `a >> k` (logical): bit i comes from bit i + k, the high k bits are zero. */
  function Shr(a: Word, k: nat): Word
    requires k < 64
  {
    seq(64, i requires 0 <= i < 64 => i + k < 64 && a[i + k])
  }

  /** `1 << b`, the mask of bit b (`maskof`). */
  function Single(b: nat): Word
    requires b < 64
  {
    seq(64, i => i == b)
  }

  /** `bitmask(n)`: the low n bits set. */
  function LowMask(n: nat): Word
    requires n <= 64
  {
    seq(64, i => i < n)
  }

  predicate IsZero(a: Word)
  {
    forall i :: 0 <= i < 64 ==> !a[i]
  }

  /** `lsbindex64(a)` for a nonzero word: the lowest set bit. */
  function Lsb(a: Word): (r: nat)
    requires !IsZero(a)
    ensures r < 64 && a[r] && forall i :: 0 <= i < r ==> !a[i]
  {
    LsbFrom(a, 0)
  }

  /** The lowest set bit at or above `from`, given that one exists. */
  function LsbFrom(a: Word, from: nat): (r: nat)
    requires from <= 64
    requires exists i :: from <= i < 64 && a[i]
    ensures from <= r < 64 && a[r] && forall i :: from <= i < r ==> !a[i]
    decreases 64 - from
  {
    if a[from] then from else LsbFrom(a, from + 1)
  }

  /** Two words are equal exactly when they agree on every bit. */
  lemma WordsEqual(a: Word, b: Word)
    requires forall i :: 0 <= i < 64 ==> a[i] == b[i]
    ensures a == b
  {
  }
}
