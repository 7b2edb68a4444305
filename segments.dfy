/**
 * Segment descriptors and the descriptor cache (section 3.4.5 of Intel SDM
 * Vol. 3A).
 *
 * A descriptor is 64 bits: limit0 (bits 0..15), base0 (16..31), base1
 * (32..39), type, s, dpl, p, limit (48..51), avl, l, d, g and base2
 * (56..63).  The 32-bit base is split over base0, base1 and base2 and the
 * 20-bit limit over limit0 and limit; when g is set the limit counts 4 KiB
 * pages instead of bytes.
 */
module Segments {
  import opened Machine

  /** `ceil(x, 4096)` on a 64-bit word: round up to a page boundary, wrapping at 2^64. */
  function CeilPage(x: W64): W64
  {
    ((x + 4095) % TWO_64) / 4096 * 4096
  }

  /** The base held by the three base fields, zero-extended to 64 bits. */
  function Base(base0: W16, base1: U8, base2: U8): W64
  {
    base0 + base1 * TWO_16 + base2 * 0x100_0000
  }

  /**
   * `getbase` as written: `base0 + (base1 << 16) + (base2 << 24)` is
   * evaluated in 32-bit signed `int` arithmetic, so a sum of 2^31 or more
   * wraps to a negative int, and converting that int to W64 sign-extends
   * it.
   */
  function BaseAsWritten(base0: W16, base1: U8, base2: U8): W64
  {
    var sum := base0 + base1 * TWO_16 + base2 * 0x100_0000;
    if sum < TWO_31 then sum else sum - TWO_32 + TWO_64
  }

  /** The limit held by the limit fields, in bytes when g is set scaled by 4096. */
  function Limit(limit0: W16, limit: U4, g: bool): W64
  {
    var size := limit0 + limit * TWO_16;
    if g then size * 4096 else size
  }

  /** `setbase(addr)` then `getbase()` gives back every 32-bit address. */
  lemma BaseRoundTrip(addr: W64)
    requires addr < TWO_32
    ensures Base(addr % TWO_16, (addr / TWO_16) % 256, (addr / 0x100_0000) % 256) == addr
  {
  }

  /** The as-written `getbase` also gives back every address below 2^31 ... */
  lemma BaseAsWrittenRoundTrip(addr: W64)
    requires addr < TWO_31
    ensures BaseAsWritten(addr % TWO_16, (addr / TWO_16) % 256, (addr / 0x100_0000) % 256) == addr
  {
  }

  /** ... but sign-extends the base 0x8000_0000 to 0xFFFF_FFFF_8000_0000. */
  lemma BaseAsWrittenSignExtends()
    ensures Base(0, 0, 0x80) == 0x8000_0000
    ensures BaseAsWritten(0, 0, 0x80) == 0xFFFF_FFFF_8000_0000
  {
  }

  class SegmentDescriptor {
    var limit0: W16
    var base0: W16
    var base1: U8
    var typ: U4
    var s: bool
    var dpl: U2
    var p: bool
    var limit: U4
    var avl: bool
    var l: bool
    var d: bool
    var g: bool
    var base2: U8

    constructor()
    {
    }

    /** `getbase()`, with the base zero-extended (see BaseAsWritten). */
    function GetBase(): W64
      reads this
    {
      Base(base0, base1, base2)
    }

    /** `getlimit()`: the segment size in bytes. */
    function GetLimit(): W64
      reads this
    {
      Limit(limit0, limit, g)
    }

    /**
     * `setbase(addr)` for a 32-bit address (the source asserts this; 64-bit
     * bases go through the FS/GS base MSRs): only the base fields change,
     * and getbase returns addr afterwards.
     */
    method SetBase(addr: W64)
      requires addr < TWO_32
      modifies this
      ensures base0 == addr % TWO_16 && base1 == (addr / TWO_16) % 256
      ensures base2 == (addr / 0x100_0000) % 256
      ensures limit0 == old(limit0) && typ == old(typ) && s == old(s) && dpl == old(dpl)
      ensures p == old(p) && limit == old(limit) && avl == old(avl) && l == old(l)
      ensures d == old(d) && g == old(g)
      ensures GetBase() == addr
    {
      base0 := addr % TWO_16;
      base1 := (addr / TWO_16) % 256;
      base2 := (addr / 0x100_0000) % 256;
      BaseRoundTrip(addr);
    }

    /**
     * `setlimit(size)`: sizes of 2^20 or more set g and are stored in pages,
     * rounded up; the low 20 bits of the stored value fill limit0 and limit.
     * Only g and the limit fields change.
     */
    method SetLimit(size: W64)
      modifies this
      ensures g == (size >= TWO_20)
      ensures var stored := if g then CeilPage(size) / 4096 else size;
        limit0 == stored % TWO_16 && limit == (stored / TWO_16) % 16
      ensures base0 == old(base0) && base1 == old(base1) && base2 == old(base2)
      ensures typ == old(typ) && s == old(s) && dpl == old(dpl) && p == old(p)
      ensures avl == old(avl) && l == old(l) && d == old(d)
      ensures size < TWO_20 ==> GetLimit() == size
      ensures TWO_20 <= size <= TWO_32 - 4096 ==> GetLimit() == CeilPage(size)
    {
      g := size >= TWO_20;
      var stored := size;
      if g {
        stored := CeilPage(size) / 4096;
      }
      limit0 := stored % TWO_16;
      limit := (stored / TWO_16) % 16;
      if size < TWO_20 {
        LimitRoundTripBytes(size);
      } else if size <= TWO_32 - 4096 {
        LimitRoundTripPages(size);
      }
    }
  }

  /** A byte-granular size below 2^20 survives setlimit and getlimit unchanged. */
  lemma LimitRoundTripBytes(size: W64)
    requires size < TWO_20
    ensures Limit(size % TWO_16, (size / TWO_16) % 16, false) == size
  {
  }

  /**
   * A size from 2^20 up to 2^32 - 4096 is stored in pages with g set, and
   * getlimit gives back the size rounded up to the next page boundary.
   */
  lemma LimitRoundTripPages(size: W64)
    requires TWO_20 <= size <= TWO_32 - 4096
    ensures var stored := CeilPage(size) / 4096;
      var r := Limit(stored % TWO_16, (stored / TWO_16) % 16, true);
      r == CeilPage(size) && r % 4096 == 0 && size <= r < size + 4096
  {
    var c := CeilPage(size);
    assert c == (size + 4095) / 4096 * 4096;
    assert c / 4096 < TWO_20;
  }

  /**
   * Past 2^32 - 4096 the page count no longer fits the 20 limit bits: a size
   * of exactly 4 GiB is stored as limit 0.
   */
  lemma LimitOfFourGiBWraps()
    ensures var stored := CeilPage(TWO_32) / 4096;
      Limit(stored % TWO_16, (stored / TWO_16) % 16, true) == 0
  {
  }

  /**
   * The descriptor cache: the fields of the current descriptor of a segment
   * register that the simulator consults on every access.
   */
  class SegmentDescriptorCache {
    var selector: W32
    var present: bool
    var use64: bool
    var use32: bool
    var supervisor: bool
    var dpl: U2
    var base: W64
    var limit: W64

    constructor()
    {
    }

    /**
     * `operator =(desc)`: loads presence, code size, privilege, base and
     * limit from a descriptor.  The selector is not updated.
     */
    method Load(desc: SegmentDescriptor)
      modifies this
      ensures present == desc.p && use64 == desc.l && use32 == desc.d
      ensures supervisor == desc.s && dpl == desc.dpl
      ensures base == desc.GetBase() && limit == desc.GetLimit()
      ensures selector == old(selector)
    {
      present := desc.p;
      use64 := desc.l;
      use32 := desc.d;
      supervisor := desc.s;
      dpl := desc.dpl;
      base := desc.GetBase();
      limit := desc.GetLimit();
    }

    /** `flatten()`: a present 64-bit user segment covering all of memory from 0. */
    method Flatten()
      modifies this
      ensures present && use64 && !use32 && !supervisor && dpl == 3
      ensures base == 0 && limit == TWO_64 - 1
      ensures selector == old(selector)
    {
      present := true;
      use64 := true;
      use32 := false;
      supervisor := false;
      dpl := 3;
      base := 0;
      limit := 0xFFFF_FFFF_FFFF_FFFF;
    }
  }
}
