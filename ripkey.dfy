/**
 * `RIPVirtPhys`, the key of the translation cache: the virtual address of
 * a basic block together with the physical frames it covers and the mode
 * bits that change how it decodes.
 *
 * The key is two 64-bit words: `rip`, then a word holding mfnlo (bits
 * 0..27), use64 (28), kernel (29), padlo (30..31), mfnhi (32..59), df (60)
 * and padhi (61..63).  mfnlo and mfnhi are the frames of the first and
 * last byte of the block.
 */
module TranslationKeys {
  import opened Machine

  /** `INVALID`, the frame number of an untranslatable page. */
  const INVALID_MFN: U28 := 0xFFF_FFFF

  datatype RIPVirtPhys = RIPVirtPhys(
    rip: W64,
    mfnlo: U28, use64: bool, kernel: bool, padlo: U2,
    mfnhi: U28, df: bool, padhi: U3)

  function BitValue(b: bool): nat
  {
    if b then 1 else 0
  }

  /** The second word of the key, as the bitfields pack it. */
  function Word1(k: RIPVirtPhys): W64
  {
    k.mfnlo + BitValue(k.use64) * 0x1000_0000 + BitValue(k.kernel) * 0x2000_0000
      + k.padlo * 0x4000_0000 + k.mfnhi * 0x1_0000_0000
      + BitValue(k.df) * 0x1000_0000_0000_0000 + k.padhi * 0x2000_0000_0000_0000
  }

  /** `operator ==` in the full-system build: both raw words are compared. */
  predicate EqualFullSystem(a: RIPVirtPhys, b: RIPVirtPhys)
  {
    a.rip == b.rip && Word1(a) == Word1(b)
  }

  /** `operator ==` in the user-mode build: only `rip` is compared. */
  predicate EqualUserMode(a: RIPVirtPhys, b: RIPVirtPhys)
  {
    a.rip == b.rip
  }

  /** The low 32 bits of the second word are mfnlo, use64, kernel and padlo. */
  lemma Word1Low(k: RIPVirtPhys)
    ensures Word1(k) % 0x1_0000_0000 ==
      k.mfnlo + BitValue(k.use64) * 0x1000_0000 + BitValue(k.kernel) * 0x2000_0000 + k.padlo * 0x4000_0000
    ensures Word1(k) / 0x1_0000_0000 ==
      k.mfnhi + BitValue(k.df) * 0x1000_0000 + k.padhi * 0x2000_0000
  {
  }

  /** Unpacking four fields of a 32-bit half: bits 0..27, 28, 29 and 30..31. */
  lemma UnpackHalf(lo: U28, b28: bool, b29: bool, top: U2, lo': U28, b28': bool, b29': bool, top': U2)
    requires lo + BitValue(b28) * 0x1000_0000 + BitValue(b29) * 0x2000_0000 + top * 0x4000_0000
      == lo' + BitValue(b28') * 0x1000_0000 + BitValue(b29') * 0x2000_0000 + top' * 0x4000_0000
    ensures lo == lo' && b28 == b28' && b29 == b29' && top == top'
  {
    var x := lo + BitValue(b28) * 0x1000_0000 + BitValue(b29) * 0x2000_0000 + top * 0x4000_0000;
    assert x % 0x1000_0000 == lo && x % 0x1000_0000 == lo';
    assert x / 0x4000_0000 == top && x / 0x4000_0000 == top';
  }

  /** Unpacking the high half: bits 32..59, 60 and 61..63. */
  lemma UnpackHighHalf(hi: U28, b60: bool, top: U3, hi': U28, b60': bool, top': U3)
    requires hi + BitValue(b60) * 0x1000_0000 + top * 0x2000_0000
      == hi' + BitValue(b60') * 0x1000_0000 + top' * 0x2000_0000
    ensures hi == hi' && b60 == b60' && top == top'
  {
    var x := hi + BitValue(b60) * 0x1000_0000 + top * 0x2000_0000;
    assert x % 0x1000_0000 == hi && x % 0x1000_0000 == hi';
    assert x / 0x2000_0000 == top && x / 0x2000_0000 == top';
  }

  /**
   * In the full-system build two keys are equal exactly when every field
   * agrees, the padding included.
   */
  lemma EqualFullSystemIsFieldwise(a: RIPVirtPhys, b: RIPVirtPhys)
    ensures EqualFullSystem(a, b) <==> a == b
  {
    if EqualFullSystem(a, b) {
      Word1Low(a);
      Word1Low(b);
      UnpackHalf(a.mfnlo, a.use64, a.kernel, a.padlo, b.mfnlo, b.use64, b.kernel, b.padlo);
      UnpackHighHalf(a.mfnhi, a.df, a.padhi, b.mfnhi, b.df, b.padhi);
    }
  }

  lemma EqualFullSystemIsEquivalence(a: RIPVirtPhys, b: RIPVirtPhys, c: RIPVirtPhys)
    ensures EqualFullSystem(a, a)
    ensures EqualFullSystem(a, b) ==> EqualFullSystem(b, a)
    ensures EqualFullSystem(a, b) && EqualFullSystem(b, c) ==> EqualFullSystem(a, c)
  {
  }

  lemma EqualUserModeIsEquivalence(a: RIPVirtPhys, b: RIPVirtPhys, c: RIPVirtPhys)
    ensures EqualUserMode(a, a)
    ensures EqualUserMode(a, b) ==> EqualUserMode(b, a)
    ensures EqualUserMode(a, b) && EqualUserMode(b, c) ==> EqualUserMode(a, c)
  {
  }

  /**
   * Keys equal in the full-system build are equal in the user-mode build,
   * but not the other way round: the user-mode build identifies two blocks
   * at one address that differ only in their mode bits.
   */
  lemma FullSystemRefinesUserMode(a: RIPVirtPhys, b: RIPVirtPhys)
    ensures EqualFullSystem(a, b) ==> EqualUserMode(a, b)
    ensures var c := a.(use64 := !a.use64);
      EqualUserMode(a, c) && !EqualFullSystem(a, c)
  {
    EqualFullSystemIsFieldwise(a, a.(use64 := !a.use64));
  }
}
