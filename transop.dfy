/**
 * `TransOp`, one translated micro-operation, and the reference count of the
 * basic blocks that hold them.
 */
module TransOps {
  import opened Machine

  /**
   * `TransOpBase`: the two bitfield words of a uop, the first holding the
   * opcode, operand size, condition, start/end-of-macro-op marks, flag
   * set, memory id and registers, the second the instruction length and
   * bookkeeping counts.
   */
  datatype TransOpBase = TransOpBase(
    opcode: U7, size: U2, cond: U4, som: bool, eom: bool, setflags: U3,
    internal: bool, memid: U8, rd: U7, ra: U7, rb: U7, rc: U7, isSse: bool, isX87: bool,
    bytes: U4, tagcount: U4, loadcount: U3, storecount: U3, branchcount: bool,
    nouserflags: bool, extshift: U2, cachelevel: U2, dataType: U4, unaligned: bool, index: U8)

  /** The bitfields `init` does not take from an argument are all zero. */
  predicate BaseCleared(b: TransOpBase)
  {
    b.cond == 0 && !b.som && !b.eom && !b.internal && !b.isSse && !b.isX87
    && b.bytes == 0 && b.tagcount == 0 && b.loadcount == 0 && b.storecount == 0
    && !b.branchcount && !b.nouserflags && b.extshift == 0 && b.cachelevel == 0
    && b.dataType == 0 && !b.unaligned && b.index == 0
  }

  /** A uop: its bitfield words followed by the two immediates and the two target addresses. */
  class TransOp {
    var base: TransOpBase
    var rbimm: I64
    var rcimm: I64
    var riptaken: W64
    var ripseq: W64

    /** `TransOp(opcode, rd, ra, rb, rc, size, rbimm, rcimm, setflags, memid)`. */
    constructor(opcode: I32, rd: I32, ra: I32, rb: I32, rc: I32, size: I32,
                rbimm: I64, rcimm: I64, setflags: W32, memid: I32)
      ensures Initialized(opcode, rd, ra, rb, rc, size, rbimm, rcimm, setflags, memid)
    {
      new;
      Init(opcode, rd, ra, rb, rc, size, rbimm, rcimm, setflags, memid);
    }

    /** Every field that `init` assigns from an argument holds that argument. */
    predicate Operands(opcode: I32, rd: I32, ra: I32, rb: I32, rc: I32, size: I32,
                       rbimm: I64, rcimm: I64, setflags: W32, memid: I32)
      reads this
    {
      base.opcode == opcode % 128 && base.rd == rd % 128 && base.ra == ra % 128
      && base.rb == rb % 128 && base.rc == rc % 128 && base.size == size % 4
      && this.rbimm == rbimm && this.rcimm == rcimm
      && base.setflags == setflags % 8 && base.memid == memid % 256
    }

    /** Every field that `init` does not take from an argument is zero. */
    predicate Cleared()
      reads this
    {
      BaseCleared(base) && riptaken == 0 && ripseq == 0
    }

    predicate Initialized(opcode: I32, rd: I32, ra: I32, rb: I32, rc: I32, size: I32,
                          rbimm: I64, rcimm: I64, setflags: W32, memid: I32)
      reads this
    {
      Operands(opcode, rd, ra, rb, rc, size, rbimm, rcimm, setflags, memid) && Cleared()
    }

    /**
     * `init(...)`: the operand fields take the arguments, truncated to the
     * width of their bitfields (an unsigned bitfield keeps the argument
     * modulo 2^width, negative arguments included); every other field
     * becomes zero.  The bitfield words are written in one assignment, since
     * init writes every one of their fields.
     */
    method Init(opcode: I32, rd: I32, ra: I32, rb: I32, rc: I32, size: I32,
                rbimm: I64, rcimm: I64, setflags: W32, memid: I32)
      modifies this
      ensures Initialized(opcode, rd, ra, rb, rc, size, rbimm, rcimm, setflags, memid)
    {
      base := TransOpBase(
        opcode := opcode % 128, size := size % 4, cond := 0, som := false, eom := false,
        setflags := setflags % 8, internal := false, memid := memid % 256,
        rd := rd % 128, ra := ra % 128, rb := rb % 128, rc := rc % 128,
        isSse := false, isX87 := false,
        bytes := 0, tagcount := 0, loadcount := 0, storecount := 0, branchcount := false,
        nouserflags := false, extshift := 0, cachelevel := 0, dataType := 0,
        unaligned := false, index := 0);
      this.rbimm := rbimm;
      this.rcimm := rcimm;
      riptaken := 0;
      ripseq := 0;
    }
  }

  /**
   * Operands that fit their bitfields are stored exactly: after init the
   * uop reads back the opcode, registers, size, immediates, flags and
   * memory id it was given.
   */
  lemma InitKeepsFittingOperands(op: TransOp, opcode: U7, rd: U7, ra: U7, rb: U7, rc: U7, size: U2,
                                 rbimm: I64, rcimm: I64, setflags: U3, memid: U8)
    requires op.Operands(opcode, rd, ra, rb, rc, size, rbimm, rcimm, setflags, memid)
    ensures op.base.opcode == opcode && op.base.rd == rd && op.base.ra == ra
    ensures op.base.rb == rb && op.base.rc == rc && op.base.size == size
    ensures op.rbimm == rbimm && op.rcimm == rcimm
    ensures op.base.setflags == setflags && op.base.memid == memid
  {
  }

  /**
   * An operand wider than its field loses its high bits: opcode 128 is
   * stored as 0, and the register -1 as 127.
   */
  lemma InitTruncatesWideOperands(op: TransOp)
    requires op.Operands(128, -1, 0, 0, 0, 0, 0, 0, 0, 0)
    ensures op.base.opcode == 0 && op.base.rd == 127
  {
  }

  /** The reference-counted part of `BasicBlockBase`. */
  class BasicBlock {
    var refcount: int

    /**
     * A block as `BasicBlock::reset` prepares it for use: no references.
     * `BasicBlockBase` has no constructor of its own.
     */
    constructor()
      ensures refcount == 0
    {
      refcount := 0;
    }

    /** `acquire()`: one more reference. */
    method Acquire()
      modifies this
      ensures refcount == old(refcount) + 1
    {
      refcount := refcount + 1;
    }

    /**
     * `release()`: one reference fewer; the result says whether none is
     * left.  The source asserts that the count does not go negative, so
     * releasing a block nobody holds is an error its callers must avoid.
     */
    method Release() returns (unused: bool)
      requires refcount >= 1
      modifies this
      ensures refcount == old(refcount) - 1
      ensures unused <==> refcount == 0
    {
      refcount := refcount - 1;
      unused := refcount == 0;
    }
  }

  /**
   * Release undoes acquire: acquiring and then releasing a block leaves its
   * count as it was, and reports the block unused exactly when nobody held
   * it before.
   */
  method AcquireThenRelease(bb: BasicBlock) returns (unused: bool)
    requires bb.refcount >= 0
    modifies bb
    ensures bb.refcount == old(bb.refcount)
    ensures unused <==> old(bb.refcount) == 0
  {
    bb.Acquire();
    unused := bb.Release();
  }

  /**
   * A block acquired n times reports itself unused on the n-th release and
   * on no earlier one: `reports[i]` is what release number i + 1 returned.
   */
  method ReleaseAll(bb: BasicBlock, n: nat) returns (reports: seq<bool>)
    requires bb.refcount == n
    modifies bb
    ensures bb.refcount == 0
    ensures |reports| == n && forall i :: 0 <= i < n ==> (reports[i] <==> i == n - 1)
  {
    reports := [];
    var k := n;
    while k > 0
      invariant 0 <= k <= n && bb.refcount == k && |reports| == n - k
      invariant forall i :: 0 <= i < n - k ==> (reports[i] <==> i == n - 1)
      decreases k
    {
      var unused := bb.Release();
      reports := reports + [unused];
      k := k - 1;
    }
  }
}
