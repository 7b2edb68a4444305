/**
 * Encodings shared by the micro-operations (uops) of the simulator: the
 * flag masks, the x86 condition codes, the operation-class masks and the
 * control word of the mask uop.
 */
module Uops {
  import opened Machine

  // Flag bits as the uops keep them: CF, INV, PF, WAIT, AF, ZF, SF and OF.
  const FLAG_CF: bv16 := 0x001
  const FLAG_INV: bv16 := 0x002
  const FLAG_PF: bv16 := 0x004
  const FLAG_WAIT: bv16 := 0x008
  const FLAG_AF: bv16 := 0x010
  const FLAG_ZF: bv16 := 0x040
  const FLAG_SF: bv16 := 0x080
  const FLAG_OF: bv16 := 0x800
  const FLAG_SF_ZF: bv16 := 0x0c0
  const FLAG_ZAPS: bv16 := 0x0d4
  const FLAG_NOT_WAIT_INV: bv16 := 0x08f5

  /** Each single-flag mask is one bit, at the position the flags format gives. */
  lemma FlagBitPositions()
    ensures FLAG_CF == 1 << 0 && FLAG_INV == 1 << 1 && FLAG_PF == 1 << 2 && FLAG_WAIT == 1 << 3
    ensures FLAG_AF == 1 << 4 && FLAG_ZF == 1 << 6 && FLAG_SF == 1 << 7 && FLAG_OF == 1 << 11
  {
  }

  /** The composite masks are the unions of the flags they name. */
  lemma CompositeFlagMasks()
    ensures FLAG_SF_ZF == FLAG_SF | FLAG_ZF
    ensures FLAG_ZAPS == FLAG_ZF | FLAG_AF | FLAG_PF | FLAG_SF
  {
  }

  /**
   * FLAG_NOT_WAIT_INV keeps ZAPS, CF and OF and clears WAIT and INV; the
   * one other bit it keeps (bit 5) is not a flag.
   */
  lemma NotWaitInvMask()
    ensures FLAG_NOT_WAIT_INV & (FLAG_WAIT | FLAG_INV) == 0
    ensures FLAG_NOT_WAIT_INV & (FLAG_ZAPS | FLAG_CF | FLAG_OF) == FLAG_ZAPS | FLAG_CF | FLAG_OF
    ensures FLAG_NOT_WAIT_INV == FLAG_ZAPS | FLAG_CF | FLAG_OF | (1 << 5)
  {
  }

  // Operation-class masks.
  const OPCLASS_USESFLAGS: bv32 := 0
  const OPCLASS_USESRC: bv32 := 0
  const OPCLASS_LOGIC: bv32 := 1 << 0
  const OPCLASS_ADDSUB: bv32 := 1 << 1
  const OPCLASS_ADDSUBC: bv32 := (1 << 2) | OPCLASS_USESFLAGS | OPCLASS_USESRC
  const OPCLASS_ADDSHIFT: bv32 := (1 << 3) | OPCLASS_USESRC
  const OPCLASS_ADD: bv32 := OPCLASS_ADDSUB | OPCLASS_ADDSUBC | OPCLASS_ADDSHIFT
  const OPCLASS_SELECT: bv32 := (1 << 4) | OPCLASS_USESFLAGS | OPCLASS_USESRC
  const OPCLASS_COMPARE: bv32 := 1 << 5
  const OPCLASS_COND_BRANCH: bv32 := (1 << 6) | OPCLASS_USESFLAGS
  const OPCLASS_INDIR_BRANCH: bv32 := 1 << 7
  const OPCLASS_UNCOND_BRANCH: bv32 := 1 << 8
  const OPCLASS_ASSIST: bv32 := 1 << 9
  const OPCLASS_BARRIER: bv32 := OPCLASS_ASSIST
  const OPCLASS_BRANCH: bv32 := OPCLASS_COND_BRANCH | OPCLASS_INDIR_BRANCH | OPCLASS_UNCOND_BRANCH | OPCLASS_ASSIST
  const OPCLASS_LOAD: bv32 := (1 << 10) | OPCLASS_USESRC
  const OPCLASS_STORE: bv32 := (1 << 11) | OPCLASS_USESRC
  const OPCLASS_PREFETCH: bv32 := 1 << 12
  const OPCLASS_MEM: bv32 := OPCLASS_LOAD | OPCLASS_STORE | OPCLASS_PREFETCH
  const OPCLASS_SIMPLE_SHIFT: bv32 := 1 << 13
  const OPCLASS_SHIFTROT: bv32 := (1 << 14) | OPCLASS_USESFLAGS | OPCLASS_USESRC
  const OPCLASS_MULTIPLY: bv32 := 1 << 15
  const OPCLASS_BITSCAN: bv32 := 1 << 16
  const OPCLASS_FLAGS: bv32 := 1 << 17
  const OPCLASS_CHECK: bv32 := 1 << 18
  const OPCLASS_CONDITIONAL: bv32 := OPCLASS_SELECT | OPCLASS_COND_BRANCH | OPCLASS_CHECK
  const OPCLASS_FP_ALU: bv32 := 1 << 19
  const OPCLASS_FP_DIVSQRT: bv32 := 1 << 20
  const OPCLASS_FP_COMPARE: bv32 := 1 << 21
  const OPCLASS_FP_PERMUTE: bv32 := 1 << 22
  const OPCLASS_FP_CONVERTI2F: bv32 := 1 << 23
  const OPCLASS_FP_CONVERTF2I: bv32 := 1 << 24
  const OPCLASS_FP_CONVERTFP: bv32 := 1 << 25
  const OPCLASS_COUNT: nat := 26
  const OPCLASS_USECOND: bv32 := OPCLASS_COND_BRANCH | OPCLASS_SELECT | OPCLASS_CHECK

  /**
   * `OPCLASS_FP` as written: the list of classes is joined by a comma
   * before the last one, so the comma operator makes the whole mask
   * `OPCLASS_FP_CONVERTFP` alone.
   */
  const OPCLASS_FP_AS_WRITTEN: bv32 := OPCLASS_FP_CONVERTFP

  /** `OPCLASS_FP` as evidently intended: the union of the seven FP classes. */
  const OPCLASS_FP: bv32 := OPCLASS_FP_ALU | OPCLASS_FP_DIVSQRT | OPCLASS_FP_COMPARE | OPCLASS_FP_PERMUTE
    | OPCLASS_FP_CONVERTI2F | OPCLASS_FP_CONVERTF2I | OPCLASS_FP_CONVERTFP

  /**
   * `isclass(opcode, mask)`, with the `opclass` field of the opcode's entry
   * in the opcode table passed in (the table itself is not part of this
   * model).
   */
  predicate IsClass(opclass: bv32, mask: bv32)
  {
    opclass & mask != 0
  }

  predicate IsLoad(opclass: bv32) { IsClass(opclass, OPCLASS_LOAD) }
  predicate IsStore(opclass: bv32) { IsClass(opclass, OPCLASS_STORE) }
  predicate IsCondBranch(opclass: bv32) { IsClass(opclass, OPCLASS_COND_BRANCH | OPCLASS_INDIR_BRANCH) }
  predicate IsBranch(opclass: bv32) { IsClass(opclass, OPCLASS_BRANCH) }
  predicate IsBarrier(opclass: bv32) { IsClass(opclass, OPCLASS_BARRIER) }

  /** A class test against a mask implies the test against every mask containing it. */
  lemma IsClassMonotone(opclass: bv32, small: bv32, large: bv32)
    requires small & large == small
    ensures IsClass(opclass, small) ==> IsClass(opclass, large)
  {
    assert opclass & small == (opclass & small) & large;
  }

  /** Barriers and conditional or indirect branches are all branches. */
  lemma BranchClassesNest(opclass: bv32)
    ensures IsBarrier(opclass) ==> IsBranch(opclass)
    ensures IsCondBranch(opclass) ==> IsBranch(opclass)
  {
    IsClassMonotone(opclass, OPCLASS_BARRIER, OPCLASS_BRANCH);
    IsClassMonotone(opclass, OPCLASS_COND_BRANCH | OPCLASS_INDIR_BRANCH, OPCLASS_BRANCH);
  }

  /** No class is both a load and a store or a branch. */
  lemma LoadStoreBranchDisjoint()
    ensures OPCLASS_LOAD & OPCLASS_STORE == 0
    ensures OPCLASS_MEM & OPCLASS_BRANCH == 0
  {
  }

  /** Against the mask as written, an FP ALU operation is not an FP operation. */
  lemma FpClassAsWrittenMissesAlu()
    ensures !IsClass(OPCLASS_FP_ALU, OPCLASS_FP_AS_WRITTEN)
  {
  }

  /** Against the intended mask, every FP class is an FP operation and no other class is. */
  lemma FpClassCoversFpClasses(k: nat)
    requires k < OPCLASS_COUNT
    ensures IsClass(1 << k, OPCLASS_FP) <==> 19 <= k <= 25
  {
  }

  // Condition codes: the tttn field of Jcc, SETcc and CMOVcc.
  const COND_o: nat := 0
  const COND_no: nat := 1
  const COND_c: nat := 2
  const COND_nc: nat := 3
  const COND_e: nat := 4
  const COND_ne: nat := 5
  const COND_be: nat := 6
  const COND_nbe: nat := 7
  const COND_s: nat := 8
  const COND_ns: nat := 9
  const COND_p: nat := 10
  const COND_np: nat := 11
  const COND_l: nat := 12
  const COND_nl: nat := 13
  const COND_le: nat := 14
  const COND_nle: nat := 15

  /** The arithmetic flags a condition code reads. */
  datatype Flags = Flags(cf: bool, pf: bool, zf: bool, sf: bool, of: bool)

  /**
   * Whether condition `cond` holds, per the tttn table of section B.1.4.7
   * of Intel SDM Vol. 2: one row per code.
   */
  predicate CondHolds(cond: U4, f: Flags)
  {
    match cond
    case 0 => f.of
    case 1 => !f.of
    case 2 => f.cf
    case 3 => !f.cf
    case 4 => f.zf
    case 5 => !f.zf
    case 6 => f.cf || f.zf
    case 7 => !f.cf && !f.zf
    case 8 => f.sf
    case 9 => !f.sf
    case 10 => f.pf
    case 11 => !f.pf
    case 12 => f.sf != f.of
    case 13 => f.sf == f.of
    case 14 => f.zf || f.sf != f.of
    case _ => !f.zf && f.sf == f.of
  }

  /**
   * `invert_cond(cond)`, `cond ^ 1`: flipping bit 0 adds one to an even
   * number and subtracts one from an odd one, on every two's-complement int.
   */
  function InvertCond(cond: I32): I32
  {
    if cond % 2 == 0 then cond + 1 else cond - 1
  }

  /** Inverting twice gives back the condition, for every int. */
  lemma InvertCondInvolution(cond: I32)
    ensures InvertCond(InvertCond(cond)) == cond
  {
  }

  /** The inverse of a condition code is a condition code, and holds exactly when the code does not. */
  lemma InvertCondNegates(cond: U4, f: Flags)
    ensures 0 <= InvertCond(cond) < 16
    ensures CondHolds(InvertCond(cond), f) <==> !CondHolds(cond, f)
  {
    if cond < 8 {
      assert cond in {0, 1, 2, 3, 4, 5, 6, 7};
    } else {
      assert cond in {8, 9, 10, 11, 12, 13, 14, 15};
    }
  }

  /** Bits 18..31 of the mask uop's control word, which no field covers. */
  type U14 = x: int | 0 <= x < 0x4000

  /**
   * The control word of the mask uop (the `MaskControlInfo` union): ms in
   * bits 0..5, mc in bits 6..11, ds in bits 12..17, and `rest`, the bits
   * above, which only the raw word reaches.
   */
  datatype MaskControlInfo = MaskControlInfo(ms: U6, mc: U6, ds: U6, rest: U14)
  {
    /** `operator W32()`: the raw word. */
    function Data(): W32
    {
      ms + 64 * (mc + 64 * (ds + 64 * rest))
    }
  }

  /**
   * `MaskControlInfo(ms, mc, ds)`: each argument truncated to its 6-bit
   * field; the constructor never writes bits 18..31, so they keep the
   * `rest` the storage held.
   */
  function MaskControlFromFields(ms: I32, mc: I32, ds: I32, rest: U14): (r: MaskControlInfo)
    ensures 0 <= ms < 64 ==> r.ms == ms
    ensures 0 <= mc < 64 ==> r.mc == mc
    ensures 0 <= ds < 64 ==> r.ds == ds
    ensures r.rest == rest
  {
    MaskControlInfo(ms % 64, mc % 64, ds % 64, rest)
  }

  /** `MaskControlInfo(data)`: the fields of a raw word. */
  function MaskControlFromData(data: W32): MaskControlInfo
  {
    MaskControlInfo(data % 64, (data / 64) % 64, (data / 4096) % 64, data / 0x4_0000)
  }

  /**
   * `make_mask_control_info(ms, mc, ds)`, `ms | (mc << 6) | (ds << 12)`,
   * for arguments that fit their fields: the bits do not overlap, so the
   * or is a sum.
   */
  function MakeMaskControlInfo(ms: U6, mc: U6, ds: U6): (r: W32)
    ensures r < 0x4_0000
  {
    ms + mc * 64 + ds * 4096
  }

  /** Reading the raw word of a control word gives the same fields back. */
  lemma MaskControlDataRoundTrip(m: MaskControlInfo)
    ensures MaskControlFromData(m.Data()) == m
  {
    var d := m.Data();
    SplitField(m.ds, m.rest);
    SplitField(m.mc, m.ds + 64 * m.rest);
    SplitField(m.ms, m.mc + 64 * (m.ds + 64 * m.rest));
    assert d / 4096 == (d / 64) / 64;
    assert d / 0x4_0000 == (d / 4096) / 64;
  }

  /** Building a control word from the fields of a raw word gives the raw word back. */
  lemma DataMaskControlRoundTrip(data: W32)
    ensures MaskControlFromData(data).Data() == data
  {
    var q1 := data / 64;
    var q2 := q1 / 64;
    var q3 := q2 / 64;
    assert data / 4096 == q2;
    assert data / 0x4_0000 == q3;
    assert data == data % 64 + 64 * (q1 % 64 + 64 * (q2 % 64 + 64 * q3));
  }

  /** A 6-bit field below a value `high`: the low six bits and the rest come apart again. */
  lemma SplitField(low: U6, high: nat)
    ensures (low + 64 * high) % 64 == low && (low + 64 * high) / 64 == high
  {
  }

  /**
   * make_mask_control_info builds the word of the union's field constructor
   * exactly when bits 18..31 of the union were zero: it leaves them clear,
   * the constructor leaves them as they were.
   */
  lemma MakeMaskControlInfoMatchesUnion(ms: U6, mc: U6, ds: U6, rest: U14)
    ensures MaskControlFromFields(ms, mc, ds, rest).Data() == MakeMaskControlInfo(ms, mc, ds) + 0x4_0000 * rest
    ensures MakeMaskControlInfo(ms, mc, ds) == MaskControlFromFields(ms, mc, ds, rest).Data() <==> rest == 0
  {
  }

  /** The fields are recovered from the word make_mask_control_info builds, with bits 18..31 clear. */
  lemma MakeMaskControlInfoRoundTrip(ms: U6, mc: U6, ds: U6)
    ensures MaskControlFromData(MakeMaskControlInfo(ms, mc, ds)) == MaskControlInfo(ms, mc, ds, 0)
  {
    var m := MaskControlInfo(ms, mc, ds, 0);
    assert m.Data() == MakeMaskControlInfo(ms, mc, ds);
    MaskControlDataRoundTrip(m);
  }
}
