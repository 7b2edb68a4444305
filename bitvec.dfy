/**
 * `bitvec<N>`: a bit vector of N bits kept in the low bits of an array of
 * 64-bit words, bit j in bit j % 64 of word j / 64.  The unused high bits
 * of the last word (the padding) are kept zero by `sanitize`.
 *
 * The const operators (`<<`, `>>`, `mask`, `extract`, `remove`, `insert`)
 * are functions on the N-bit value; the word operators of `bitvecbase`
 * that loop over the words are methods of the class Bitvec, proved to
 * compute word-level functions whose bit-level meaning is proved by lemmas.
 */
module Bitvecs {
  import opened Words

  /** `BITVEC_WORDS(n)`: the number of words that hold n bits. */
  function WordCount(n: nat): nat
  {
    if n < 1 then 0 else (n + 63) / 64
  }

  /** Bit j of a word array. */
  function Bit(ws: seq<Word>, j: nat): bool
    requires j < 64 * |ws|
  {
    ws[j / 64][j % 64]
  }

  /** The value held in the low n bits of a word array. */
  function ValueOf(ws: seq<Word>, n: nat): (v: seq<bool>)
    requires n <= 64 * |ws|
    ensures |v| == n && forall j :: 0 <= j < n ==> v[j] == Bit(ws, j)
  {
    seq(n, j requires 0 <= j < n => Bit(ws, j))
  }

  /** Every bit at or above n is zero. */
  predicate Sanitized(ws: seq<Word>, n: nat)
  {
    forall j :: n <= j < 64 * |ws| ==> !Bit(ws, j)
  }

  // ---------------------------------------------------------------------
  // The const operators on an N-bit value.
  // ---------------------------------------------------------------------

  /** `v << k`: bit j comes from bit j - k; shifts of the width or more give zero. */
  function ShiftedLeft(v: seq<bool>, k: nat): (r: seq<bool>)
    ensures |r| == |v|
  {
    seq(|v|, j requires 0 <= j < |v| => j >= k && v[j - k])
  }

  /** `v >> k`: bit j comes from bit j + k; shifts of the width or more give zero. */
  function ShiftedRight(v: seq<bool>, k: nat): (r: seq<bool>)
    ensures |r| == |v|
  {
    seq(|v|, j requires 0 <= j < |v| => j + k < |v| && v[j + k])
  }

  /** `v.mask(count)` (`v % count`): the low count bits. */
  function Masked(v: seq<bool>, count: nat): (r: seq<bool>)
    ensures |r| == |v|
  {
    seq(|v|, j requires 0 <= j < |v| => j < count && v[j])
  }

  /** Every bit complemented. */
  function NotBits(v: seq<bool>): (r: seq<bool>)
    ensures |r| == |v|
  {
    seq(|v|, j requires 0 <= j < |v| => !v[j])
  }

  function AndBits(a: seq<bool>, b: seq<bool>): (r: seq<bool>)
    requires |a| == |b|
    ensures |r| == |a|
  {
    seq(|a|, j requires 0 <= j < |a| => a[j] && b[j])
  }

  function XorBits(a: seq<bool>, b: seq<bool>): (r: seq<bool>)
    requires |a| == |b|
    ensures |r| == |a|
  {
    seq(|a|, j requires 0 <= j < |a| => a[j] != b[j])
  }

  function OrBits(a: seq<bool>, b: seq<bool>): (r: seq<bool>)
    requires |a| == |b|
    ensures |r| == |a|
  {
    seq(|a|, j requires 0 <= j < |a| => a[j] || b[j])
  }

  /** A shift by the width or more clears every bit. */
  lemma ShiftPastWidthClears(v: seq<bool>, k: nat)
    requires k >= |v|
    ensures forall j :: 0 <= j < |v| ==> !ShiftedLeft(v, k)[j] && !ShiftedRight(v, k)[j]
  {
  }

  /** Two shifts in the same direction add up. */
  lemma ShiftsCompose(v: seq<bool>, a: nat, b: nat)
    ensures ShiftedLeft(ShiftedLeft(v, a), b) == ShiftedLeft(v, a + b)
    ensures ShiftedRight(ShiftedRight(v, a), b) == ShiftedRight(v, a + b)
  {
    var l1, l2 := ShiftedLeft(ShiftedLeft(v, a), b), ShiftedLeft(v, a + b);
    assert forall j :: 0 <= j < |v| ==> l1[j] == l2[j];
    var r1, r2 := ShiftedRight(ShiftedRight(v, a), b), ShiftedRight(v, a + b);
    assert forall j :: 0 <= j < |v| ==> r1[j] == r2[j];
  }

  /** Masking twice keeps the bits below the smaller count. */
  lemma MaskedTwice(v: seq<bool>, a: nat, b: nat)
    ensures Masked(Masked(v, a), b) == Masked(v, if a < b then a else b)
  {
  }

  /**
   * `extract(index, count)` = `(v >> index) % count`: bit j is bit
   * index + j of v, for the count bits from index that lie inside v.
   */
  function Extracted(v: seq<bool>, index: nat, count: nat): (r: seq<bool>)
    ensures |r| == |v|
    ensures forall j :: 0 <= j < |v| ==> r[j] == (j < count && index + j < |v| && v[index + j])
  {
    Masked(ShiftedRight(v, index), count)
  }

  /**
   * `remove(index, count)` = `((v >> (index + count)) << index) | (v % index)`:
   * the count bits from index are cut out and the bits above them move down,
   * zero-filling the top.
   */
  function Removed(v: seq<bool>, index: nat, count: nat): (r: seq<bool>)
    ensures |r| == |v|
    ensures forall j :: 0 <= j < |v| ==>
      r[j] == if j < index then v[j] else j + count < |v| && v[j + count]
  {
    OrBits(ShiftedLeft(ShiftedRight(v, index + count), index), Masked(v, index))
  }

  /**
   * `insert(i, len, x)`: the len bits from i take the low bits of x, every
   * other bit is kept; field bits at or above the width are dropped.
   */
  function Inserted(v: seq<bool>, i: nat, len: nat, x: Word): (r: seq<bool>)
    requires len <= 64
    ensures |r| == |v|
  {
    seq(|v|, j requires 0 <= j < |v| => if i <= j < i + len then x[j - i] else v[j])
  }

  /** Extracting the field just inserted gives back the low bits of x that fit. */
  lemma InsertThenExtract(v: seq<bool>, i: nat, len: nat, x: Word)
    requires len <= 64
    ensures forall j :: 0 <= j < |v| ==>
      Extracted(Inserted(v, i, len, x), i, len)[j] == (j < len && i + j < |v| && x[j])
  {
  }

  /** Inserting leaves every bit outside the field as it was. */
  lemma InsertKeepsOutside(v: seq<bool>, i: nat, len: nat, x: Word)
    requires len <= 64
    ensures Masked(Inserted(v, i, len, x), i) == Masked(v, i)
    ensures ShiftedRight(Inserted(v, i, len, x), i + len) == ShiftedRight(v, i + len)
  {
  }

  // ---------------------------------------------------------------------
  // The word operators of bitvecbase, as functions of the old words.
  // ---------------------------------------------------------------------

  /**
   * Word i after `shiftleftop(s)`: words below s / 64 are zero; with a
   * whole-word shift word i is old word i - s / 64; otherwise it joins the
   * shifted-up word i - s / 64 with the top bits of the word below it.
   */
  function ShlWord(ws: seq<Word>, s: nat, i: nat): Word
    requires i < |ws| && s < 64 * |ws|
  {
    var wshift, offset := s / 64, s % 64;
    if i < wshift then Zero()
    else if offset == 0 then ws[i - wshift]
    else if i == wshift then Shl(ws[0], offset)
    else Or(Shl(ws[i - wshift], offset), Shr(ws[i - wshift - 1], 64 - offset))
  }

  function ShlWords(ws: seq<Word>, s: nat): (r: seq<Word>)
    requires s < 64 * |ws|
    ensures |r| == |ws|
  {
    seq(|ws|, i requires 0 <= i < |ws| => ShlWord(ws, s, i))
  }

  /**
   * Word i after `shiftrightop(s)`, with limit = |ws| - s / 64 - 1: words
   * above limit are zero; with a whole-word shift word i is old word
   * i + s / 64; otherwise it joins the shifted-down word i + s / 64 with
   * the low bits of the word above it, and word limit takes the shifted-down
   * top word alone.
   */
  function ShrWord(ws: seq<Word>, s: nat, i: nat): Word
    requires i < |ws| && s < 64 * |ws|
  {
    var wshift, offset := s / 64, s % 64;
    var limit := |ws| - wshift - 1;
    if i > limit then Zero()
    else if offset == 0 then ws[i + wshift]
    else if i == limit then Shr(ws[|ws| - 1], offset)
    else Or(Shr(ws[i + wshift], offset), Shl(ws[i + wshift + 1], 64 - offset))
  }

  function ShrWords(ws: seq<Word>, s: nat): (r: seq<Word>)
    requires s < 64 * |ws|
    ensures |r| == |ws|
  {
    seq(|ws|, i requires 0 <= i < |ws| => ShrWord(ws, s, i))
  }

  /** The word and the bit of bit number 64 * q + r. */
  lemma WordAndBit(x: nat, q: nat, r: nat)
    requires r < 64 && x == 64 * q + r
    ensures x / 64 == q && x % 64 == r
  {
  }

  lemma ShlWordBit(ws: seq<Word>, s: nat, j: nat)
    requires s < 64 * |ws| && j < 64 * |ws|
    ensures Bit(ShlWords(ws, s), j) == (j >= s && Bit(ws, j - s))
  {
    var i, b := j / 64, j % 64;
    var wshift, offset := s / 64, s % 64;
    assert j == 64 * i + b && s == 64 * wshift + offset;
    var w := ShlWords(ws, s)[i];
    assert Bit(ShlWords(ws, s), j) == w[b];
    if j < s {
      assert i < wshift || (i == wshift && b < offset);
      assert !w[b];
    } else {
      var d: nat := j - s;
      assert d == 64 * (i - wshift) + b - offset;
      if offset == 0 {
        WordAndBit(d, i - wshift, b);
        assert w[b] == ws[i - wshift][b];
      } else if b >= offset {
        WordAndBit(d, i - wshift, b - offset);
        assert w[b] == ws[i - wshift][b - offset];
      } else {
        WordAndBit(d, i - wshift - 1, b + 64 - offset);
        assert w[b] == ws[i - wshift - 1][b + 64 - offset];
      }
    }
  }

  lemma ShrWordBit(ws: seq<Word>, s: nat, j: nat)
    requires s < 64 * |ws| && j < 64 * |ws|
    ensures Bit(ShrWords(ws, s), j) == (j + s < 64 * |ws| && Bit(ws, j + s))
  {
    var i, b := j / 64, j % 64;
    var wshift, offset := s / 64, s % 64;
    var limit := |ws| - wshift - 1;
    assert j == 64 * i + b && s == 64 * wshift + offset;
    var w := ShrWords(ws, s)[i];
    assert Bit(ShrWords(ws, s), j) == w[b];
    if i > limit {
      assert !w[b] && j + s >= 64 * |ws|;
    } else if offset == 0 {
      WordAndBit(j + s, i + wshift, b);
      assert w[b] == ws[i + wshift][b];
    } else if i == limit {
      if b + offset < 64 {
        WordAndBit(j + s, |ws| - 1, b + offset);
        assert w[b] == ws[|ws| - 1][b + offset];
      } else {
        assert !w[b] && j + s >= 64 * |ws|;
      }
    } else if b + offset < 64 {
      WordAndBit(j + s, i + wshift, b + offset);
      assert w[b] == ws[i + wshift][b + offset];
    } else {
      WordAndBit(j + s, i + wshift + 1, b + offset - 64);
      assert w[b] == ws[i + wshift + 1][b + offset - 64];
    }
  }

  /** `shiftleftop(s)` moves every bit of the word array up by s. */
  lemma ShlWordsBits(ws: seq<Word>, s: nat)
    requires s < 64 * |ws|
    ensures forall j :: 0 <= j < 64 * |ws| ==> Bit(ShlWords(ws, s), j) == (j >= s && Bit(ws, j - s))
  {
    forall j | 0 <= j < 64 * |ws|
      ensures Bit(ShlWords(ws, s), j) == (j >= s && Bit(ws, j - s))
    {
      ShlWordBit(ws, s, j);
    }
  }

  /** `shiftrightop(s)` moves every bit of the word array down by s. */
  lemma ShrWordsBits(ws: seq<Word>, s: nat)
    requires s < 64 * |ws|
    ensures forall j :: 0 <= j < 64 * |ws| ==>
      Bit(ShrWords(ws, s), j) == (j + s < 64 * |ws| && Bit(ws, j + s))
  {
    forall j | 0 <= j < 64 * |ws|
      ensures Bit(ShrWords(ws, s), j) == (j + s < 64 * |ws| && Bit(ws, j + s))
    {
      ShrWordBit(ws, s, j);
    }
  }

  /**
   * `maskop(count)` with the mask applied whenever word count / 64 exists:
   * the words below it are kept, that word keeps its low count % 64 bits
   * (none when count is a multiple of 64), and the words above it are
   * cleared.
   */
  function MaskWords(ws: seq<Word>, count: nat): (r: seq<Word>)
    ensures |r| == |ws|
  {
    seq(|ws|, i requires 0 <= i < |ws| =>
      if i < count / 64 then ws[i]
      else if i == count / 64 then And(ws[i], LowMask(count % 64))
      else Zero())
  }

  /**
   * `maskop(count)` as written.  The general version masks word count / 64
   * only when `bitof(count)` is nonzero, so for a count that is a multiple
   * of 64 that word is kept whole; the one-word version masks with
   * `bitmask(bitof(count))`, so a count of 64 keeps no bits.
   */
  function MaskWordsAsWritten(ws: seq<Word>, count: nat): (r: seq<Word>)
    ensures |r| == |ws|
  {
    if |ws| == 1 then
      [And(ws[0], LowMask(count % 64))]
    else
      seq(|ws|, i requires 0 <= i < |ws| =>
        if i < count / 64 then ws[i]
        else if i == count / 64 then (if count % 64 != 0 then And(ws[i], LowMask(count % 64)) else ws[i])
        else Zero())
  }

  /** The corrected maskop keeps exactly the bits below count. */
  lemma MaskWordsBits(ws: seq<Word>, count: nat)
    ensures forall j :: 0 <= j < 64 * |ws| ==> Bit(MaskWords(ws, count), j) == (j < count && Bit(ws, j))
  {
    forall j | 0 <= j < 64 * |ws|
      ensures Bit(MaskWords(ws, count), j) == (j < count && Bit(ws, j))
    {
      assert j == 64 * (j / 64) + j % 64 && count == 64 * (count / 64) + count % 64;
    }
  }

  /** As written, masking two words to 64 bits keeps the whole second word. */
  lemma MaskAsWrittenKeepsWholeWord()
    ensures var ws := [AllOnes(), AllOnes()];
      Bit(MaskWordsAsWritten(ws, 64), 64) && !Bit(MaskWords(ws, 64), 64)
  {
    var ws := [AllOnes(), AllOnes()];
    assert MaskWordsAsWritten(ws, 64)[1] == ws[1];
    assert !MaskWords(ws, 64)[1][0];
  }

  /** As written, masking a one-word vector to 64 bits clears every bit. */
  lemma MaskAsWrittenOneWordClears()
    ensures var ws := [AllOnes()];
      !Bit(MaskWordsAsWritten(ws, 64), 0) && Bit(MaskWords(ws, 64), 0)
  {
    var ws := [AllOnes()];
    assert !MaskWordsAsWritten(ws, 64)[0][0];
    assert MaskWords(ws, 64)[0] == ws[0];
  }

  /** Word i/64 after `insertop(i, len, x)`: the field bits from i % 64 take x's low bits. */
  function InsertLow(w: Word, b: nat, len: nat, x: Word): Word
    requires b < 64 && len <= 64
  {
    var lm := Shl(LowMask(len), b);
    Or(And(w, Not(lm)), And(Shl(x, b), lm))
  }

  /** The next word, when the field runs past the end of word i/64: its low bits take the rest of x. */
  function InsertHigh(w: Word, b: nat, len: nat, x: Word): Word
    requires 0 < b < 64 && len <= 64
  {
    var hm := Shr(LowMask(len), 64 - b);
    Or(And(w, Not(hm)), And(Shr(x, 64 - b), hm))
  }

  /**
   * `insertop(i, len, x)` with the high part written to the word after
   * word i / 64.  `x << i` is taken as `x << (i % 64)`, which is what the
   * x86-64 shift instruction computes.
   */
  function InsertWords(ws: seq<Word>, i: nat, len: nat, x: Word): (r: seq<Word>)
    requires len <= 64 && i < 64 * |ws| && i + len <= 64 * |ws|
    ensures |r| == |ws|
  {
    var lo, b := i / 64, i % 64;
    var ws' := ws[lo := InsertLow(ws[lo], b, len, x)];
    if b + len > 64 then ws'[lo + 1 := InsertHigh(ws'[lo + 1], b, len, x)] else ws'
  }

  /** `insertop` as written: the high part goes to word `wordof(i + 1)`, which is word i / 64 itself unless i % 64 == 63. */
  function InsertWordsAsWritten(ws: seq<Word>, i: nat, len: nat, x: Word): (r: seq<Word>)
    requires len <= 64 && i < 64 * |ws| && i + len <= 64 * |ws|
    ensures |r| == |ws|
  {
    var lo, b := i / 64, i % 64;
    var ws' := ws[lo := InsertLow(ws[lo], b, len, x)];
    var hi := (i + 1) / 64;
    if b + len > 64 then ws'[hi := InsertHigh(ws'[hi], b, len, x)] else ws'
  }

  lemma InsertWordBit(ws: seq<Word>, i: nat, len: nat, x: Word, j: nat)
    requires len <= 64 && i < 64 * |ws| && i + len <= 64 * |ws| && j < 64 * |ws|
    ensures Bit(InsertWords(ws, i, len, x), j) == if i <= j < i + len then x[j - i] else Bit(ws, j)
  {
    var lo, b := i / 64, i % 64;
    assert i == 64 * lo + b && j == 64 * (j / 64) + j % 64;
    if b + len > 64 {
      assert lo + 1 < |ws|;
    }
  }

  /** The corrected insertop writes exactly the field bits i .. i + len - 1. */
  lemma InsertWordsBits(ws: seq<Word>, i: nat, len: nat, x: Word)
    requires len <= 64 && i < 64 * |ws| && i + len <= 64 * |ws|
    ensures forall j :: 0 <= j < 64 * |ws| ==>
      Bit(InsertWords(ws, i, len, x), j) == if i <= j < i + len then x[j - i] else Bit(ws, j)
  {
    forall j | 0 <= j < 64 * |ws|
      ensures Bit(InsertWords(ws, i, len, x), j) == if i <= j < i + len then x[j - i] else Bit(ws, j)
    {
      InsertWordBit(ws, i, len, x, j);
    }
  }

  /**
   * As written, an 8-bit field at bit 60 of a two-word vector sets bits 0..3
   * instead of bits 64..67.
   */
  lemma InsertAsWrittenMisplacesHighPart()
    ensures var ws := [Zero(), Zero()];
      var r := InsertWordsAsWritten(ws, 60, 8, AllOnes());
      Bit(r, 0) && !Bit(r, 64)
    ensures var ws := [Zero(), Zero()];
      var r := InsertWords(ws, 60, 8, AllOnes());
      !Bit(r, 0) && Bit(r, 64)
  {
    var ws := [Zero(), Zero()];
    var r := InsertWordsAsWritten(ws, 60, 8, AllOnes());
    assert r[0][0];
    assert r[1] == Zero();
    InsertWordBit(ws, 60, 8, AllOnes(), 0);
    InsertWordBit(ws, 60, 8, AllOnes(), 64);
  }

  // ---------------------------------------------------------------------
  // Sanitizing and single-bit updates, on word arrays.
  // ---------------------------------------------------------------------

  /** n bits fill every word but the last, and leave the last one not empty. */
  lemma WordCountFits(n: nat)
    requires n >= 1
    ensures n <= 64 * WordCount(n) < n + 64
    ensures n % 64 != 0 ==> WordCount(n) == n / 64 + 1
    ensures n % 64 == 0 ==> 64 * WordCount(n) == n
  {
    assert n == 64 * (n / 64) + n % 64;
  }

  /**
   * `sanitize()`: `val &= ~(~0 << (n % 64))` on the top word keeps its low
   * n % 64 bits; when n is a multiple of 64 there is no padding and nothing
   * changes.
   */
  function SanitizedWords(ws: seq<Word>, n: nat): (r: seq<Word>)
    requires n >= 1 && |ws| == WordCount(n)
    ensures |r| == |ws|
  {
    WordCountFits(n);
    if n % 64 != 0 then ws[|ws| - 1 := And(ws[|ws| - 1], Not(Shl(AllOnes(), n % 64)))] else ws
  }

  /** Sanitizing clears the padding and keeps the value. */
  lemma SanitizeKeepsValue(ws: seq<Word>, n: nat)
    requires n >= 1 && |ws| == WordCount(n)
    ensures Sanitized(SanitizedWords(ws, n), n)
    ensures ValueOf(SanitizedWords(ws, n), n) == ValueOf(ws, n)
  {
    WordCountFits(n);
    var r := SanitizedWords(ws, n);
    forall j | 0 <= j < 64 * |ws|
      ensures Bit(r, j) == (j < n && Bit(ws, j))
    {
      assert j == 64 * (j / 64) + j % 64 && n == 64 * (n / 64) + n % 64;
    }
  }

  /** Changing one bit below n changes that bit of the value and keeps the padding. */
  lemma UpdateBit(ws: seq<Word>, n: nat, index: nat, b: bool)
    requires Sanitized(ws, n) && index < n <= 64 * |ws|
    ensures var ws' := ws[index / 64 := ws[index / 64][index % 64 := b]];
      Sanitized(ws', n) && ValueOf(ws', n) == ValueOf(ws, n)[index := b]
  {
    var ws' := ws[index / 64 := ws[index / 64][index % 64 := b]];
    forall j | 0 <= j < 64 * |ws|
      ensures Bit(ws', j) == if j == index then b else Bit(ws, j)
    {
      assert j == 64 * (j / 64) + j % 64 && index == 64 * (index / 64) + index % 64;
    }
    assert Sanitized(ws', n);
  }

  /** On sanitized words the value determines the words. */
  lemma SanitizedValueDeterminesWords(ws: seq<Word>, xs: seq<Word>, n: nat)
    requires |ws| == |xs| && n <= 64 * |ws| && Sanitized(ws, n) && Sanitized(xs, n)
    ensures ValueOf(ws, n) == ValueOf(xs, n) <==> ws == xs
  {
    if ValueOf(ws, n) == ValueOf(xs, n) {
      forall i | 0 <= i < |ws|
        ensures ws[i] == xs[i]
      {
        forall b | 0 <= b < 64
          ensures ws[i][b] == xs[i][b]
        {
          var j := 64 * i + b;
          assert j / 64 == i && j % 64 == b;
          assert Bit(ws, j) == Bit(xs, j);
        }
        WordsEqual(ws[i], xs[i]);
      }
    }
  }

  /** On the value, shiftleftop is ShiftedLeft (bits pushed past n land in the padding). */
  lemma ShlValue(ws: seq<Word>, n: nat, s: nat)
    requires n <= 64 * |ws| && s < 64 * |ws|
    ensures ValueOf(ShlWords(ws, s), n) == ShiftedLeft(ValueOf(ws, n), s)
  {
    ShlWordsBits(ws, s);
  }

  /** On sanitized words, shiftrightop is ShiftedRight and keeps the padding zero. */
  lemma ShrValue(ws: seq<Word>, n: nat, s: nat)
    requires n <= 64 * |ws| && s < 64 * |ws| && Sanitized(ws, n)
    ensures ValueOf(ShrWords(ws, s), n) == ShiftedRight(ValueOf(ws, n), s)
    ensures Sanitized(ShrWords(ws, s), n)
  {
    ShrWordsBits(ws, s);
    assert Sanitized(ShrWords(ws, s), n);
  }

  /** On the value, the corrected maskop is Masked, and it keeps the padding zero. */
  lemma MaskValue(ws: seq<Word>, n: nat, count: nat)
    requires n <= 64 * |ws| && Sanitized(ws, n)
    ensures ValueOf(MaskWords(ws, count), n) == Masked(ValueOf(ws, n), count)
    ensures Sanitized(MaskWords(ws, count), n)
  {
    MaskWordsBits(ws, count);
    assert Sanitized(MaskWords(ws, count), n);
  }

  /** On the value, the corrected insertop is Inserted. */
  lemma InsertValue(ws: seq<Word>, n: nat, i: nat, len: nat, x: Word)
    requires len <= 64 && i < 64 * |ws| && i + len <= 64 * |ws| && n <= 64 * |ws|
    ensures ValueOf(InsertWords(ws, i, len, x), n) == Inserted(ValueOf(ws, n), i, len, x)
  {
    InsertWordsBits(ws, i, len, x);
  }

  /** Accumulating `t |= a ^ b` stays zero exactly while the words compared are equal. */
  lemma ZeroAfterXor(t: Word, a: Word, b: Word)
    ensures IsZero(Or(t, Xor(a, b))) <==> IsZero(t) && a == b
  {
    if IsZero(t) && forall i :: 0 <= i < 64 ==> a[i] == b[i] {
      WordsEqual(a, b);
    }
    if !IsZero(t) {
      var i :| 0 <= i < 64 && t[i];
      assert Or(t, Xor(a, b))[i];
    } else if a != b {
      var i :| 0 <= i < 64 && a[i] != b[i];
      assert Or(t, Xor(a, b))[i];
    }
  }

  /** Accumulating `t |= a` stays zero exactly while the words seen are zero. */
  lemma ZeroAfterOr(t: Word, a: Word)
    ensures IsZero(Or(t, a)) <==> IsZero(t) && IsZero(a)
  {
    if !IsZero(t) {
      var i :| 0 <= i < 64 && t[i];
      assert Or(t, a)[i];
    } else if !IsZero(a) {
      var i :| 0 <= i < 64 && a[i];
      assert Or(t, a)[i];
    }
  }

  /** On sanitized words, some word is nonzero exactly when some bit of the value is set. */
  lemma NonzeroWord(ws: seq<Word>, n: nat)
    requires n <= 64 * |ws| && Sanitized(ws, n)
    ensures (exists k :: 0 <= k < |ws| && !IsZero(ws[k])) <==> (exists j :: 0 <= j < n && Bit(ws, j))
  {
    if k :| 0 <= k < |ws| && !IsZero(ws[k]) {
      var b :| 0 <= b < 64 && ws[k][b];
      var j := 64 * k + b;
      assert j / 64 == k && j % 64 == b;
      assert Bit(ws, j);
    }
    if j :| 0 <= j < n && Bit(ws, j) {
      assert ws[j / 64][j % 64];
      assert !IsZero(ws[j / 64]);
    }
  }

  /** `word & maskof(b)` is nonzero exactly when bit b of word is set. */
  lemma MaskOfBit(word: Word, b: nat)
    requires b < 64
    ensures !IsZero(And(word, Single(b))) <==> word[b]
  {
    assert And(word, Single(b))[b] == word[b];
  }

  /**
   * A `bitvec<N>` for N >= 1 (`bitvecbase<BITVEC_WORDS(N)>`): n bits in
   * the array w of WordCount(n) words.  The one-word base (`bitvecbase<1>`)
   * computes the same words as the general one for every operation but
   * maskop, whose two versions are MaskWordsAsWritten.
   */
  class Bitvec {
    const n: nat
    const w: array<Word>

    ghost predicate Valid()
      reads this, w
    {
      n >= 1 && w.Length == WordCount(n) && Sanitized(w[..], n)
    }

    /** The N-bit value. */
    ghost function Value(): (v: seq<bool>)
      reads this, w
      requires Valid()
      ensures |v| == n
    {
      WordCountFits(n);
      ValueOf(w[..], n)
    }

    /** `bitvec()`: all bits clear. */
    constructor(n: nat)
      requires n >= 1
      ensures Valid() && this.n == n && Value() == seq(n, _ => false) && fresh(w)
    {
      this.n := n;
      w := new Word[WordCount(n)](_ => Zero());
      new;
      WordCountFits(n);
      assert forall j :: 0 <= j < 64 * w.Length ==> !Bit(w[..], j);
    }

    /** `bitvec(val)`: word 0 takes val, then sanitize drops the bits at or above n. */
    constructor FromWord(n: nat, val: Word)
      requires n >= 1
      ensures Valid() && this.n == n && fresh(w)
      ensures forall j :: 0 <= j < n ==> Value()[j] == (j < 64 && val[j])
    {
      this.n := n;
      w := new Word[WordCount(n)](_ => Zero());
      new;
      WordCountFits(n);
      w[0] := val;
      assert forall j :: 0 <= j < 64 * w.Length ==> Bit(w[..], j) == (j < 64 && val[j]) by {
        forall j | 0 <= j < 64 * w.Length
          ensures Bit(w[..], j) == (j < 64 && val[j])
        {
          assert j < 64 <==> j / 64 == 0;
        }
      }
      Sanitize();
    }

    /** `sanitize()`: the padding becomes zero and the value stays. */
    method Sanitize()
      requires n >= 1 && w.Length == WordCount(n)
      modifies w
      ensures w[..] == SanitizedWords(old(w[..]), n)
      ensures Sanitized(w[..], n) && ValueOf(w[..], n) == ValueOf(old(w[..]), n)
    {
      SanitizeKeepsValue(w[..], n);
      WordCountFits(n);
      if n % 64 != 0 {
        var last := w.Length - 1;
        w[last] := And(w[last], Not(Shl(AllOnes(), n % 64)));
      }
    }

    /** `test(index)`: the word holding index has the bit `maskof(index)` set. */
    predicate Test(index: nat)
      reads this, w
      requires Valid() && index < n
      ensures Test(index) <==> Value()[index]
    {
      WordCountFits(n);
      MaskOfBit(w[index / 64], index % 64);
      !IsZero(And(w[index / 64], Single(index % 64)))
    }

    /** `set(index)`: only bit index changes, to 1. */
    method Set(index: nat)
      requires Valid() && index < n
      modifies w
      ensures Valid() && Value() == old(Value())[index := true]
    {
      WordCountFits(n);
      UpdateBit(w[..], n, index, true);
      var k := index / 64;
      var word := Or(w[k], Single(index % 64));
      assert word == w[k][index % 64 := true];
      w[k] := word;
      assert w[..] == old(w[..])[k := old(w[..])[k][index % 64 := true]];
    }

    /** `reset(index)`: only bit index changes, to 0. */
    method Reset(index: nat)
      requires Valid() && index < n
      modifies w
      ensures Valid() && Value() == old(Value())[index := false]
    {
      WordCountFits(n);
      UpdateBit(w[..], n, index, false);
      var k := index / 64;
      var word := And(w[k], Not(Single(index % 64)));
      assert word == w[k][index % 64 := false];
      w[k] := word;
      assert w[..] == old(w[..])[k := old(w[..])[k][index % 64 := false]];
    }

    /** `assign(index, val)`: bit index becomes 1 when val is nonzero, 0 otherwise. */
    method Assign(index: nat, val: int)
      requires Valid() && index < n
      modifies w
      ensures Valid() && Value() == old(Value())[index := val != 0]
    {
      if val != 0 {
        Set(index);
      } else {
        Reset(index);
      }
    }

    /** `invert(index)`: only bit index changes, to its complement. */
    method Invert(index: nat)
      requires Valid() && index < n
      modifies w
      ensures Valid() && Value() == old(Value())[index := !old(Value())[index]]
    {
      WordCountFits(n);
      var old_bit := w[index / 64][index % 64];
      UpdateBit(w[..], n, index, !old_bit);
      var k := index / 64;
      var word := Xor(w[k], Single(index % 64));
      assert word == w[k][index % 64 := !old_bit];
      w[k] := word;
      assert w[..] == old(w[..])[k := old(w[..])[k][index % 64 := !old_bit]];
    }
  
    /** `setall()`: every word becomes `~0`, then sanitize; all N bits are set. */
    method SetAll()
      requires Valid()
      modifies w
      ensures Valid() && Value() == seq(n, _ => true)
    {
      var i := 0;
      while i < w.Length
        invariant 0 <= i <= w.Length
        invariant forall k :: 0 <= k < i ==> w[k] == AllOnes()
      {
        w[i] := AllOnes();
        i := i + 1;
      }
      WordCountFits(n);
      assert forall j :: 0 <= j < n ==> Bit(w[..], j);
      Sanitize();
    }

    /** `reset()`: every word becomes zero. */
    method ResetAll()
      requires Valid()
      modifies w
      ensures Valid() && Value() == seq(n, _ => false)
    {
      var i := 0;
      while i < w.Length
        invariant 0 <= i <= w.Length
        invariant forall k :: 0 <= k < i ==> w[k] == Zero()
      {
        w[i] := Zero();
        i := i + 1;
      }
      assert forall j :: 0 <= j < 64 * w.Length ==> !Bit(w[..], j);
      WordCountFits(n);
    }

    /** `invert()`: every word is complemented, then sanitize; every one of the N bits flips. */
    method InvertAll()
      requires Valid()
      modifies w
      ensures Valid() && Value() == NotBits(old(Value()))
    {
      ghost var ws := w[..];
      var i := 0;
      while i < w.Length
        invariant 0 <= i <= w.Length
        invariant forall k :: 0 <= k < i ==> w[k] == Not(ws[k])
        invariant forall k :: i <= k < w.Length ==> w[k] == ws[k]
      {
        w[i] := Not(w[i]);
        i := i + 1;
      }
      WordCountFits(n);
      assert forall j :: 0 <= j < 64 * w.Length ==> Bit(w[..], j) == !Bit(ws, j);
      Sanitize();
    }

    /**
     * `shiftleftop(shift)`: the words move up by shift / 64 and, when shift
     * is not a whole number of words, each word joins its shifted-up bits
     * with the top bits of the word below; the words below shift / 64 are
     * cleared.
     */
    method ShiftLeftOp(shift: nat)
      requires w.Length >= 1 && shift < 64 * w.Length
      modifies w
      ensures w[..] == ShlWords(old(w[..]), shift)
    {
      if shift == 0 {
        assert w[..] == ShlWords(w[..], 0);
        return;
      }
      var wshift, offset := shift / 64, shift % 64;
      ghost var ws := w[..];
      if offset == 0 {
        MoveWordsUp(shift);
      } else {
        JoinWordsUp(shift);
      }
      ClearWordsBelow(wshift);
      assert w[..] == ShlWords(ws, shift);
    }

    /** The whole-word case of shiftleftop: `w[i] = w[i - wshift]` from the top down to wshift. */
    method MoveWordsUp(shift: nat)
      requires shift < 64 * w.Length && shift % 64 == 0 && shift > 0
      modifies w
      ensures forall k :: shift / 64 <= k < w.Length ==> w[k] == ShlWord(old(w[..]), shift, k)
    {
      var wshift := shift / 64;
      ghost var ws := w[..];
      var i := w.Length;
      while i > wshift
        invariant wshift <= i <= w.Length
        invariant forall k :: 0 <= k < i ==> w[k] == ws[k]
        invariant forall k :: i <= k < w.Length ==> w[k] == ws[k - wshift]
      {
        i := i - 1;
        w[i] := w[i - wshift];
      }
    }

    /**
     * The case of shiftleftop with a bit offset: from the top down to
     * wshift + 1, `w[i] = (w[i - wshift] << offset) | (w[i - wshift - 1] >> (64 - offset))`,
     * then `w[wshift] = w[0] << offset`.
     */
    method JoinWordsUp(shift: nat)
      requires shift < 64 * w.Length && shift % 64 != 0
      modifies w
      ensures forall k :: shift / 64 <= k < w.Length ==> w[k] == ShlWord(old(w[..]), shift, k)
    {
      var wshift, offset := shift / 64, shift % 64;
      var suboffset := 64 - offset;
      ghost var ws := w[..];
      var i := w.Length - 1;
      while i > wshift
        invariant wshift <= i <= w.Length - 1
        invariant forall k :: 0 <= k <= i ==> w[k] == ws[k]
        invariant forall k :: i < k < w.Length ==> w[k] == ShlWord(ws, shift, k)
      {
        var joined := Or(Shl(w[i - wshift], offset), Shr(w[i - wshift - 1], suboffset));
        assert joined == ShlWord(ws, shift, i);
        w[i] := joined;
        i := i - 1;
      }
      assert Shl(w[0], offset) == ShlWord(ws, shift, wshift);
      w[wshift] := Shl(w[0], offset);
    }

    /** `foreach (i, wshift) w[i] = 0`. */
    method ClearWordsBelow(m: nat)
      requires m <= w.Length
      modifies w
      ensures forall k :: 0 <= k < m ==> w[k] == Zero()
      ensures forall k :: m <= k < w.Length ==> w[k] == old(w[k])
    {
      var i := 0;
      while i < m
        invariant 0 <= i <= m
        invariant forall k :: 0 <= k < i ==> w[k] == Zero()
        invariant forall k :: m <= k < w.Length ==> w[k] == old(w[k])
      {
        w[i] := Zero();
        i := i + 1;
      }
    }

    /**
     * `shiftrightop(shift)`: the words move down by shift / 64 and, when
     * shift is not a whole number of words, each word joins its shifted-down
     * bits with the low bits of the word above; the words above
     * limit = words - shift / 64 - 1 are cleared.
     */
    method ShiftRightOp(shift: nat)
      requires w.Length >= 1 && shift < 64 * w.Length
      modifies w
      ensures w[..] == ShrWords(old(w[..]), shift)
    {
      if shift == 0 {
        assert w[..] == ShrWords(w[..], 0);
        return;
      }
      var wshift, offset := shift / 64, shift % 64;
      var limit := w.Length - wshift - 1;
      ghost var ws := w[..];
      if offset == 0 {
        MoveWordsDown(shift);
      } else {
        JoinWordsDown(shift);
      }
      ClearWordsAbove(limit);
      assert w[..] == ShrWords(ws, shift);
    }

    /** The whole-word case of shiftrightop: `w[i] = w[i + wshift]` for i from 0 to limit. */
    method MoveWordsDown(shift: nat)
      requires shift < 64 * w.Length && shift % 64 == 0
      modifies w
      ensures forall k :: 0 <= k < w.Length - shift / 64 ==> w[k] == ShrWord(old(w[..]), shift, k)
    {
      var wshift := shift / 64;
      var limit := w.Length - wshift - 1;
      ghost var ws := w[..];
      var i := 0;
      while i <= limit
        invariant 0 <= i <= limit + 1
        invariant forall k :: 0 <= k < i ==> w[k] == ws[k + wshift]
        invariant forall k :: i <= k < w.Length ==> w[k] == ws[k]
      {
        w[i] := w[i + wshift];
        i := i + 1;
      }
    }

    /**
     * The case of shiftrightop with a bit offset: for i below limit,
     * `w[i] = (w[i + wshift] >> offset) | (w[i + wshift + 1] << (64 - offset))`,
     * then `w[limit] = w[words - 1] >> offset`.
     */
    method JoinWordsDown(shift: nat)
      requires shift < 64 * w.Length && shift % 64 != 0
      modifies w
      ensures forall k :: 0 <= k < w.Length - shift / 64 ==> w[k] == ShrWord(old(w[..]), shift, k)
    {
      var wshift, offset := shift / 64, shift % 64;
      var limit := w.Length - wshift - 1;
      var suboffset := 64 - offset;
      ghost var ws := w[..];
      var i := 0;
      while i < limit
        invariant 0 <= i <= limit
        invariant forall k :: 0 <= k < i ==> w[k] == ShrWord(ws, shift, k)
        invariant forall k :: i <= k < w.Length ==> w[k] == ws[k]
      {
        var joined := Or(Shr(w[i + wshift], offset), Shl(w[i + wshift + 1], suboffset));
        assert joined == ShrWord(ws, shift, i);
        w[i] := joined;
        i := i + 1;
      }
      assert Shr(w[w.Length - 1], offset) == ShrWord(ws, shift, limit);
      w[limit] := Shr(w[w.Length - 1], offset);
    }

    /** `foreach (i, words - (limit + 1)) w[limit + 1 + i] = 0`. */
    method ClearWordsAbove(limit: nat)
      requires limit < w.Length
      modifies w
      ensures forall k :: 0 <= k <= limit ==> w[k] == old(w[k])
      ensures forall k :: limit < k < w.Length ==> w[k] == Zero()
    {
      var i := 0;
      while i < w.Length - (limit + 1)
        invariant 0 <= i <= w.Length - (limit + 1)
        invariant forall k :: 0 <= k <= limit ==> w[k] == old(w[k])
        invariant forall k :: limit + 1 <= k < limit + 1 + i ==> w[k] == Zero()
      {
        w[limit + 1 + i] := Zero();
        i := i + 1;
      }
    }
  
    /**
     * `operator <<=(index)`: an index from 0 to n - 1 shifts and sanitizes;
     * any other index, a negative one included since the comparison is
     * unsigned, clears the vector.
     */
    method ShiftLeft(index: int)
      requires Valid()
      modifies w
      ensures Valid()
      ensures 0 <= index < n ==> Value() == ShiftedLeft(old(Value()), index)
      ensures !(0 <= index < n) ==> Value() == seq(n, _ => false)
    {
      WordCountFits(n);
      if 0 <= index < n {
        ShlValue(w[..], n, index);
        ShiftLeftOp(index);
        Sanitize();
      } else {
        ResetAll();
      }
    }

    /** `operator >>=(index)`: as ShiftLeft, towards bit 0. */
    method ShiftRight(index: int)
      requires Valid()
      modifies w
      ensures Valid()
      ensures 0 <= index < n ==> Value() == ShiftedRight(old(Value()), index)
      ensures !(0 <= index < n) ==> Value() == seq(n, _ => false)
    {
      WordCountFits(n);
      if 0 <= index < n {
        ShrValue(w[..], n, index);
        ShiftRightOp(index);
        Sanitize();
      } else {
        ResetAll();
      }
    }

    /**
     * `maskop(count)` with the mask applied whenever word count / 64
     * exists (see MaskWordsAsWritten for the code as written): the low
     * count bits are kept and the rest cleared.
     */
    method MaskOp(count: nat)
      requires Valid()
      modifies w
      ensures w[..] == MaskWords(old(w[..]), count)
      ensures Valid() && Value() == Masked(old(Value()), count)
    {
      WordCountFits(n);
      MaskValue(w[..], n, count);
      ghost var ws := w[..];
      var k := count / 64;
      if k < w.Length {
        w[k] := And(w[k], LowMask(count % 64));
      }
      var i := k + 1;
      while i < w.Length
        invariant k + 1 <= i
        invariant forall j :: 0 <= j < w.Length && j < i ==> w[j] == MaskWords(ws, count)[j]
        invariant forall j :: i <= j < w.Length ==> w[j] == ws[j]
      {
        w[i] := Zero();
        i := i + 1;
      }
      assert w[..] == MaskWords(ws, count);
    }

    /**
     * `insert(i, len, x)` on a copy: insertop with the high part written to
     * the word after word i / 64 (see InsertWordsAsWritten for the code as
     * written), then sanitize.  The len bits from i take the low bits of x.
     */
    method Insert(i: nat, len: nat, x: Word)
      requires Valid() && len <= 64 && i < 64 * w.Length && i + len <= 64 * w.Length
      modifies w
      ensures Valid() && Value() == Inserted(old(Value()), i, len, x)
    {
      WordCountFits(n);
      InsertValue(w[..], n, i, len, x);
      ghost var ws := w[..];
      var lo, b := i / 64, i % 64;
      w[lo] := InsertLow(w[lo], b, len, x);
      if b + len > 64 {
        w[lo + 1] := InsertHigh(w[lo + 1], b, len, x);
      }
      assert w[..] == InsertWords(ws, i, len, x);
      Sanitize();
    }
  
    /** `operator &=(x)`: `w[i] &= x.w[i]` for every word. */
    method AndOp(x: Bitvec)
      requires Valid() && x.Valid() && x.n == n
      modifies w
      ensures Valid() && Value() == AndBits(old(Value()), old(x.Value()))
    {
      ghost var ws, xs := w[..], x.w[..];
      var i := 0;
      while i < w.Length
        invariant 0 <= i <= w.Length
        invariant forall k :: 0 <= k < i ==> w[k] == And(ws[k], xs[k])
        invariant forall k :: i <= k < w.Length ==> w[k] == ws[k] && x.w[k] == xs[k]
      {
        w[i] := And(w[i], x.w[i]);
        i := i + 1;
      }
      assert forall j :: 0 <= j < 64 * w.Length ==> Bit(w[..], j) == (Bit(ws, j) && Bit(xs, j));
      WordCountFits(n);
    }

    /** `operator |=(x)`: `w[i] |= x.w[i]` for every word. */
    method OrOp(x: Bitvec)
      requires Valid() && x.Valid() && x.n == n
      modifies w
      ensures Valid() && Value() == OrBits(old(Value()), old(x.Value()))
    {
      ghost var ws, xs := w[..], x.w[..];
      var i := 0;
      while i < w.Length
        invariant 0 <= i <= w.Length
        invariant forall k :: 0 <= k < i ==> w[k] == Or(ws[k], xs[k])
        invariant forall k :: i <= k < w.Length ==> w[k] == ws[k] && x.w[k] == xs[k]
      {
        w[i] := Or(w[i], x.w[i]);
        i := i + 1;
      }
      assert forall j :: 0 <= j < 64 * w.Length ==> Bit(w[..], j) == (Bit(ws, j) || Bit(xs, j));
      WordCountFits(n);
    }

    /** `operator ^=(x)`: `w[i] ^= x.w[i]` for every word. */
    method XorOp(x: Bitvec)
      requires Valid() && x.Valid() && x.n == n
      modifies w
      ensures Valid() && Value() == XorBits(old(Value()), old(x.Value()))
    {
      ghost var ws, xs := w[..], x.w[..];
      var i := 0;
      while i < w.Length
        invariant 0 <= i <= w.Length
        invariant forall k :: 0 <= k < i ==> w[k] == Xor(ws[k], xs[k])
        invariant forall k :: i <= k < w.Length ==> w[k] == ws[k] && x.w[k] == xs[k]
      {
        w[i] := Xor(w[i], x.w[i]);
        i := i + 1;
      }
      assert forall j :: 0 <= j < 64 * w.Length ==> Bit(w[..], j) == (Bit(ws, j) != Bit(xs, j));
      WordCountFits(n);
    }

    /** `operator ==(x)`: the words differ nowhere, which for sanitized vectors is equality of the values. */
    method EqualOp(x: Bitvec) returns (r: bool)
      requires Valid() && x.Valid() && x.n == n
      ensures r <==> Value() == x.Value()
    {
      var t: Word := Zero();
      var i := 0;
      while i < w.Length
        invariant 0 <= i <= w.Length
        invariant IsZero(t) <==> forall k :: 0 <= k < i ==> w[k] == x.w[k]
      {
        ZeroAfterXor(t, w[i], x.w[i]);
        t := Or(t, Xor(w[i], x.w[i]));
        i := i + 1;
      }
      r := IsZero(t);
      assert r <==> w[..] == x.w[..];
      WordCountFits(n);
      SanitizedValueDeterminesWords(w[..], x.w[..], n);
    }

    /** `nonzero()`: some bit of the value is set. */
    method NonzeroOp() returns (r: bool)
      requires Valid()
      ensures r <==> exists j :: 0 <= j < n && Value()[j]
    {
      var t: Word := Zero();
      var i := 0;
      while i < w.Length
        invariant 0 <= i <= w.Length
        invariant IsZero(t) <==> forall k :: 0 <= k < i ==> IsZero(w[k])
      {
        ZeroAfterOr(t, w[i]);
        t := Or(t, w[i]);
        i := i + 1;
      }
      r := !IsZero(t);
      WordCountFits(n);
      NonzeroWord(w[..], n);
      assert r <==> exists k :: 0 <= k < w.Length && !IsZero(w[..][k]);
      assert r <==> exists j :: 0 <= j < n && Bit(w[..], j);
      assert forall j :: 0 <= j < n ==> Value()[j] == Bit(w[..], j);
    }

    /** `lsb(notfound)`: the lowest set bit, or notfound when no bit is set. */
    method LsbOp(notfound: int) returns (r: int)
      requires Valid()
      ensures (exists j :: 0 <= j < n && Value()[j]) ==>
        0 <= r < n && Value()[r] && forall j :: 0 <= j < r ==> !Value()[j]
      ensures (forall j :: 0 <= j < n ==> !Value()[j]) ==> r == notfound
    {
      WordCountFits(n);
      var i := 0;
      while i < w.Length
        invariant 0 <= i <= w.Length
        invariant forall j :: 0 <= j < 64 * i ==> !Bit(w[..], j)
      {
        var t := w[i];
        if !IsZero(t) {
          var b := Lsb(t);
          r := i * 64 + b;
          assert r / 64 == i && r % 64 == b;
          assert Bit(w[..], r);
          assert forall j :: 64 * i <= j < r ==> j / 64 == i && j % 64 < b;
          return;
        }
        assert forall j :: 64 * i <= j < 64 * (i + 1) ==> j / 64 == i;
        i := i + 1;
      }
      r := notfound;
    }
  }
}
