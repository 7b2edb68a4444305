/**
 * Page-table entries of x86-64 four-level paging (sections 4.5 and 4.6 of
 * Intel SDM Vol. 3A).
 *
 * Each level is a 64-bit struct of bitfields, laid out from bit 0 upwards
 * in declaration order.  The model keeps the fields: a 1-bit field is a
 * bool, a wider one a natural number below 2^width.  Assigning a 64-bit
 * value to a bitfield keeps its low `width` bits, so each setter truncates
 * its argument.  A setter (generated by `DefinePTESetField`) returns a copy
 * of the entry with one field replaced.
 */
module PageTables {
  import opened Machine

  /** The four bits a walk accumulates from each level it passes. */
  datatype AccessRights = AccessRights(p: bool, rw: bool, us: bool, nx: bool)


  /** An entry of level 4: p:1, rw:1, us:1, pwt:1, pcd:1, a:1, ign:1, mbz:2, avl:3, mfn:51, nx:1. */
  datatype Level4PTE = Level4PTE(p: bool, rw: bool, us: bool, pwt: bool, pcd: bool, a: bool, ign: bool, mbz: U2, avl: U3, mfn: U51, nx: bool)
  {
    /** The bits this entry contributes to a walk. */
    function Rights(): AccessRights { AccessRights(p, rw, us, nx) }

    /** `P(val)`: a copy whose `p` is val truncated to 1 bit. */
    function P(val: W64): (r: Level4PTE)
      ensures r.p == (val % 2 == 1)
      ensures r.rw == rw && r.us == us && r.pwt == pwt && r.pcd == pcd && r.a == a && r.ign == ign
      ensures r.mbz == mbz && r.avl == avl && r.mfn == mfn && r.nx == nx
    {
      this.(p := val % 2 == 1)
    }

    /** `W(val)`: a copy whose `rw` is val truncated to 1 bit. */
    function W(val: W64): (r: Level4PTE)
      ensures r.rw == (val % 2 == 1)
      ensures r.p == p && r.us == us && r.pwt == pwt && r.pcd == pcd && r.a == a && r.ign == ign
      ensures r.mbz == mbz && r.avl == avl && r.mfn == mfn && r.nx == nx
    {
      this.(rw := val % 2 == 1)
    }

    /** `U(val)`: a copy whose `us` is val truncated to 1 bit. */
    function U(val: W64): (r: Level4PTE)
      ensures r.us == (val % 2 == 1)
      ensures r.p == p && r.rw == rw && r.pwt == pwt && r.pcd == pcd && r.a == a && r.ign == ign
      ensures r.mbz == mbz && r.avl == avl && r.mfn == mfn && r.nx == nx
    {
      this.(us := val % 2 == 1)
    }

    /** `WT(val)`: a copy whose `pwt` is val truncated to 1 bit. */
    function WT(val: W64): (r: Level4PTE)
      ensures r.pwt == (val % 2 == 1)
      ensures r.p == p && r.rw == rw && r.us == us && r.pcd == pcd && r.a == a && r.ign == ign
      ensures r.mbz == mbz && r.avl == avl && r.mfn == mfn && r.nx == nx
    {
      this.(pwt := val % 2 == 1)
    }

    /** `CD(val)`: a copy whose `pcd` is val truncated to 1 bit. */
    function CD(val: W64): (r: Level4PTE)
      ensures r.pcd == (val % 2 == 1)
      ensures r.p == p && r.rw == rw && r.us == us && r.pwt == pwt && r.a == a && r.ign == ign
      ensures r.mbz == mbz && r.avl == avl && r.mfn == mfn && r.nx == nx
    {
      this.(pcd := val % 2 == 1)
    }

    /** `A(val)`: a copy whose `a` is val truncated to 1 bit. */
    function A(val: W64): (r: Level4PTE)
      ensures r.a == (val % 2 == 1)
      ensures r.p == p && r.rw == rw && r.us == us && r.pwt == pwt && r.pcd == pcd && r.ign == ign
      ensures r.mbz == mbz && r.avl == avl && r.mfn == mfn && r.nx == nx
    {
      this.(a := val % 2 == 1)
    }

    /** `NX(val)`: a copy whose `nx` is val truncated to 1 bit. */
    function NX(val: W64): (r: Level4PTE)
      ensures r.nx == (val % 2 == 1)
      ensures r.p == p && r.rw == rw && r.us == us && r.pwt == pwt && r.pcd == pcd && r.a == a
      ensures r.ign == ign && r.mbz == mbz && r.avl == avl && r.mfn == mfn
    {
      this.(nx := val % 2 == 1)
    }

    /** `AVL(val)`: a copy whose `avl` is val truncated to 3 bits. */
    function AVL(val: W64): (r: Level4PTE)
      ensures r.avl == (val % 8)
      ensures r.p == p && r.rw == rw && r.us == us && r.pwt == pwt && r.pcd == pcd && r.a == a
      ensures r.ign == ign && r.mbz == mbz && r.mfn == mfn && r.nx == nx
    {
      this.(avl := val % 8)
    }

    /** `MFN(val)`: a copy whose `mfn` is val truncated to 51 bits. */
    function MFN(val: W64): (r: Level4PTE)
      ensures r.mfn == (val % 0x8_0000_0000_0000)
      ensures r.p == p && r.rw == rw && r.us == us && r.pwt == pwt && r.pcd == pcd && r.a == a
      ensures r.ign == ign && r.mbz == mbz && r.avl == avl && r.nx == nx
    {
      this.(mfn := val % 0x8_0000_0000_0000)
    }
  }

  /** An entry of level 3: p:1, rw:1, us:1, pwt:1, pcd:1, a:1, ign:1, mbz:2, avl:3, mfn:51, nx:1. */
  datatype Level3PTE = Level3PTE(p: bool, rw: bool, us: bool, pwt: bool, pcd: bool, a: bool, ign: bool, mbz: U2, avl: U3, mfn: U51, nx: bool)
  {
    /** The bits this entry contributes to a walk. */
    function Rights(): AccessRights { AccessRights(p, rw, us, nx) }

    /** `P(val)`: a copy whose `p` is val truncated to 1 bit. */
    function P(val: W64): (r: Level3PTE)
      ensures r.p == (val % 2 == 1)
      ensures r.rw == rw && r.us == us && r.pwt == pwt && r.pcd == pcd && r.a == a && r.ign == ign
      ensures r.mbz == mbz && r.avl == avl && r.mfn == mfn && r.nx == nx
    {
      this.(p := val % 2 == 1)
    }

    /** `W(val)`: a copy whose `rw` is val truncated to 1 bit. */
    function W(val: W64): (r: Level3PTE)
      ensures r.rw == (val % 2 == 1)
      ensures r.p == p && r.us == us && r.pwt == pwt && r.pcd == pcd && r.a == a && r.ign == ign
      ensures r.mbz == mbz && r.avl == avl && r.mfn == mfn && r.nx == nx
    {
      this.(rw := val % 2 == 1)
    }

    /** `U(val)`: a copy whose `us` is val truncated to 1 bit. */
    function U(val: W64): (r: Level3PTE)
      ensures r.us == (val % 2 == 1)
      ensures r.p == p && r.rw == rw && r.pwt == pwt && r.pcd == pcd && r.a == a && r.ign == ign
      ensures r.mbz == mbz && r.avl == avl && r.mfn == mfn && r.nx == nx
    {
      this.(us := val % 2 == 1)
    }

    /** `WT(val)`: a copy whose `pwt` is val truncated to 1 bit. */
    function WT(val: W64): (r: Level3PTE)
      ensures r.pwt == (val % 2 == 1)
      ensures r.p == p && r.rw == rw && r.us == us && r.pcd == pcd && r.a == a && r.ign == ign
      ensures r.mbz == mbz && r.avl == avl && r.mfn == mfn && r.nx == nx
    {
      this.(pwt := val % 2 == 1)
    }

    /** `CD(val)`: a copy whose `pcd` is val truncated to 1 bit. */
    function CD(val: W64): (r: Level3PTE)
      ensures r.pcd == (val % 2 == 1)
      ensures r.p == p && r.rw == rw && r.us == us && r.pwt == pwt && r.a == a && r.ign == ign
      ensures r.mbz == mbz && r.avl == avl && r.mfn == mfn && r.nx == nx
    {
      this.(pcd := val % 2 == 1)
    }

    /** `A(val)`: a copy whose `a` is val truncated to 1 bit. */
    function A(val: W64): (r: Level3PTE)
      ensures r.a == (val % 2 == 1)
      ensures r.p == p && r.rw == rw && r.us == us && r.pwt == pwt && r.pcd == pcd && r.ign == ign
      ensures r.mbz == mbz && r.avl == avl && r.mfn == mfn && r.nx == nx
    {
      this.(a := val % 2 == 1)
    }

    /** `NX(val)`: a copy whose `nx` is val truncated to 1 bit. */
    function NX(val: W64): (r: Level3PTE)
      ensures r.nx == (val % 2 == 1)
      ensures r.p == p && r.rw == rw && r.us == us && r.pwt == pwt && r.pcd == pcd && r.a == a
      ensures r.ign == ign && r.mbz == mbz && r.avl == avl && r.mfn == mfn
    {
      this.(nx := val % 2 == 1)
    }

    /** `AVL(val)`: a copy whose `avl` is val truncated to 3 bits. */
    function AVL(val: W64): (r: Level3PTE)
      ensures r.avl == (val % 8)
      ensures r.p == p && r.rw == rw && r.us == us && r.pwt == pwt && r.pcd == pcd && r.a == a
      ensures r.ign == ign && r.mbz == mbz && r.mfn == mfn && r.nx == nx
    {
      this.(avl := val % 8)
    }

    /** `MFN(val)`: a copy whose `mfn` is val truncated to 51 bits. */
    function MFN(val: W64): (r: Level3PTE)
      ensures r.mfn == (val % 0x8_0000_0000_0000)
      ensures r.p == p && r.rw == rw && r.us == us && r.pwt == pwt && r.pcd == pcd && r.a == a
      ensures r.ign == ign && r.mbz == mbz && r.avl == avl && r.nx == nx
    {
      this.(mfn := val % 0x8_0000_0000_0000)
    }
  }

  /** An entry of level 2: p:1, rw:1, us:1, pwt:1, pcd:1, a:1, d:1, psz:1, mbz:1, avl:3, mfn:51, nx:1. */
  datatype Level2PTE = Level2PTE(p: bool, rw: bool, us: bool, pwt: bool, pcd: bool, a: bool, d: bool, psz: bool, mbz: bool, avl: U3, mfn: U51, nx: bool)
  {
    /** The bits this entry contributes to a walk. */
    function Rights(): AccessRights { AccessRights(p, rw, us, nx) }

    /** `P(val)`: a copy whose `p` is val truncated to 1 bit. */
    function P(val: W64): (r: Level2PTE)
      ensures r.p == (val % 2 == 1)
      ensures r.rw == rw && r.us == us && r.pwt == pwt && r.pcd == pcd && r.a == a && r.d == d
      ensures r.psz == psz && r.mbz == mbz && r.avl == avl && r.mfn == mfn && r.nx == nx
    {
      this.(p := val % 2 == 1)
    }

    /** `W(val)`: a copy whose `rw` is val truncated to 1 bit. */
    function W(val: W64): (r: Level2PTE)
      ensures r.rw == (val % 2 == 1)
      ensures r.p == p && r.us == us && r.pwt == pwt && r.pcd == pcd && r.a == a && r.d == d
      ensures r.psz == psz && r.mbz == mbz && r.avl == avl && r.mfn == mfn && r.nx == nx
    {
      this.(rw := val % 2 == 1)
    }

    /** `U(val)`: a copy whose `us` is val truncated to 1 bit. */
    function U(val: W64): (r: Level2PTE)
      ensures r.us == (val % 2 == 1)
      ensures r.p == p && r.rw == rw && r.pwt == pwt && r.pcd == pcd && r.a == a && r.d == d
      ensures r.psz == psz && r.mbz == mbz && r.avl == avl && r.mfn == mfn && r.nx == nx
    {
      this.(us := val % 2 == 1)
    }

    /** `WT(val)`: a copy whose `pwt` is val truncated to 1 bit. */
    function WT(val: W64): (r: Level2PTE)
      ensures r.pwt == (val % 2 == 1)
      ensures r.p == p && r.rw == rw && r.us == us && r.pcd == pcd && r.a == a && r.d == d
      ensures r.psz == psz && r.mbz == mbz && r.avl == avl && r.mfn == mfn && r.nx == nx
    {
      this.(pwt := val % 2 == 1)
    }

    /** `CD(val)`: a copy whose `pcd` is val truncated to 1 bit. */
    function CD(val: W64): (r: Level2PTE)
      ensures r.pcd == (val % 2 == 1)
      ensures r.p == p && r.rw == rw && r.us == us && r.pwt == pwt && r.a == a && r.d == d
      ensures r.psz == psz && r.mbz == mbz && r.avl == avl && r.mfn == mfn && r.nx == nx
    {
      this.(pcd := val % 2 == 1)
    }

    /** `A(val)`: a copy whose `a` is val truncated to 1 bit. */
    function A(val: W64): (r: Level2PTE)
      ensures r.a == (val % 2 == 1)
      ensures r.p == p && r.rw == rw && r.us == us && r.pwt == pwt && r.pcd == pcd && r.d == d
      ensures r.psz == psz && r.mbz == mbz && r.avl == avl && r.mfn == mfn && r.nx == nx
    {
      this.(a := val % 2 == 1)
    }

    /** `D(val)`: a copy whose `d` is val truncated to 1 bit. */
    function D(val: W64): (r: Level2PTE)
      ensures r.d == (val % 2 == 1)
      ensures r.p == p && r.rw == rw && r.us == us && r.pwt == pwt && r.pcd == pcd && r.a == a
      ensures r.psz == psz && r.mbz == mbz && r.avl == avl && r.mfn == mfn && r.nx == nx
    {
      this.(d := val % 2 == 1)
    }

    /** `PSZ(val)`: a copy whose `psz` is val truncated to 1 bit. */
    function PSZ(val: W64): (r: Level2PTE)
      ensures r.psz == (val % 2 == 1)
      ensures r.p == p && r.rw == rw && r.us == us && r.pwt == pwt && r.pcd == pcd && r.a == a
      ensures r.d == d && r.mbz == mbz && r.avl == avl && r.mfn == mfn && r.nx == nx
    {
      this.(psz := val % 2 == 1)
    }

    /** `NX(val)`: a copy whose `nx` is val truncated to 1 bit. */
    function NX(val: W64): (r: Level2PTE)
      ensures r.nx == (val % 2 == 1)
      ensures r.p == p && r.rw == rw && r.us == us && r.pwt == pwt && r.pcd == pcd && r.a == a
      ensures r.d == d && r.psz == psz && r.mbz == mbz && r.avl == avl && r.mfn == mfn
    {
      this.(nx := val % 2 == 1)
    }

    /** `AVL(val)`: a copy whose `avl` is val truncated to 3 bits. */
    function AVL(val: W64): (r: Level2PTE)
      ensures r.avl == (val % 8)
      ensures r.p == p && r.rw == rw && r.us == us && r.pwt == pwt && r.pcd == pcd && r.a == a
      ensures r.d == d && r.psz == psz && r.mbz == mbz && r.mfn == mfn && r.nx == nx
    {
      this.(avl := val % 8)
    }

    /** `MFN(val)`: a copy whose `mfn` is val truncated to 51 bits. */
    function MFN(val: W64): (r: Level2PTE)
      ensures r.mfn == (val % 0x8_0000_0000_0000)
      ensures r.p == p && r.rw == rw && r.us == us && r.pwt == pwt && r.pcd == pcd && r.a == a
      ensures r.d == d && r.psz == psz && r.mbz == mbz && r.avl == avl && r.nx == nx
    {
      this.(mfn := val % 0x8_0000_0000_0000)
    }
  }

  /** An entry of level 1: p:1, rw:1, us:1, pwt:1, pcd:1, a:1, d:1, pat:1, g:1, avl:3, mfn:51, nx:1. */
  datatype Level1PTE = Level1PTE(p: bool, rw: bool, us: bool, pwt: bool, pcd: bool, a: bool, d: bool, pat: bool, g: bool, avl: U3, mfn: U51, nx: bool)
  {
    /** The bits this entry contributes to a walk. */
    function Rights(): AccessRights { AccessRights(p, rw, us, nx) }

    /** `P(val)`: a copy whose `p` is val truncated to 1 bit. */
    function P(val: W64): (r: Level1PTE)
      ensures r.p == (val % 2 == 1)
      ensures r.rw == rw && r.us == us && r.pwt == pwt && r.pcd == pcd && r.a == a && r.d == d
      ensures r.pat == pat && r.g == g && r.avl == avl && r.mfn == mfn && r.nx == nx
    {
      this.(p := val % 2 == 1)
    }

    /** `W(val)`: a copy whose `rw` is val truncated to 1 bit. */
    function W(val: W64): (r: Level1PTE)
      ensures r.rw == (val % 2 == 1)
      ensures r.p == p && r.us == us && r.pwt == pwt && r.pcd == pcd && r.a == a && r.d == d
      ensures r.pat == pat && r.g == g && r.avl == avl && r.mfn == mfn && r.nx == nx
    {
      this.(rw := val % 2 == 1)
    }

    /** `U(val)`: a copy whose `us` is val truncated to 1 bit. */
    function U(val: W64): (r: Level1PTE)
      ensures r.us == (val % 2 == 1)
      ensures r.p == p && r.rw == rw && r.pwt == pwt && r.pcd == pcd && r.a == a && r.d == d
      ensures r.pat == pat && r.g == g && r.avl == avl && r.mfn == mfn && r.nx == nx
    {
      this.(us := val % 2 == 1)
    }

    /** `WT(val)`: a copy whose `pwt` is val truncated to 1 bit. */
    function WT(val: W64): (r: Level1PTE)
      ensures r.pwt == (val % 2 == 1)
      ensures r.p == p && r.rw == rw && r.us == us && r.pcd == pcd && r.a == a && r.d == d
      ensures r.pat == pat && r.g == g && r.avl == avl && r.mfn == mfn && r.nx == nx
    {
      this.(pwt := val % 2 == 1)
    }

    /** `CD(val)`: a copy whose `pcd` is val truncated to 1 bit. */
    function CD(val: W64): (r: Level1PTE)
      ensures r.pcd == (val % 2 == 1)
      ensures r.p == p && r.rw == rw && r.us == us && r.pwt == pwt && r.a == a && r.d == d
      ensures r.pat == pat && r.g == g && r.avl == avl && r.mfn == mfn && r.nx == nx
    {
      this.(pcd := val % 2 == 1)
    }

    /** `A(val)`: a copy whose `a` is val truncated to 1 bit. */
    function A(val: W64): (r: Level1PTE)
      ensures r.a == (val % 2 == 1)
      ensures r.p == p && r.rw == rw && r.us == us && r.pwt == pwt && r.pcd == pcd && r.d == d
      ensures r.pat == pat && r.g == g && r.avl == avl && r.mfn == mfn && r.nx == nx
    {
      this.(a := val % 2 == 1)
    }

    /** `D(val)`: a copy whose `d` is val truncated to 1 bit. */
    function D(val: W64): (r: Level1PTE)
      ensures r.d == (val % 2 == 1)
      ensures r.p == p && r.rw == rw && r.us == us && r.pwt == pwt && r.pcd == pcd && r.a == a
      ensures r.pat == pat && r.g == g && r.avl == avl && r.mfn == mfn && r.nx == nx
    {
      this.(d := val % 2 == 1)
    }

    /** `G(val)`: a copy whose `g` is val truncated to 1 bit. */
    function G(val: W64): (r: Level1PTE)
      ensures r.g == (val % 2 == 1)
      ensures r.p == p && r.rw == rw && r.us == us && r.pwt == pwt && r.pcd == pcd && r.a == a
      ensures r.d == d && r.pat == pat && r.avl == avl && r.mfn == mfn && r.nx == nx
    {
      this.(g := val % 2 == 1)
    }

    /** `NX(val)`: a copy whose `nx` is val truncated to 1 bit. */
    function NX(val: W64): (r: Level1PTE)
      ensures r.nx == (val % 2 == 1)
      ensures r.p == p && r.rw == rw && r.us == us && r.pwt == pwt && r.pcd == pcd && r.a == a
      ensures r.d == d && r.pat == pat && r.g == g && r.avl == avl && r.mfn == mfn
    {
      this.(nx := val % 2 == 1)
    }

    /** `AVL(val)`: a copy whose `avl` is val truncated to 3 bits. */
    function AVL(val: W64): (r: Level1PTE)
      ensures r.avl == (val % 8)
      ensures r.p == p && r.rw == rw && r.us == us && r.pwt == pwt && r.pcd == pcd && r.a == a
      ensures r.d == d && r.pat == pat && r.g == g && r.mfn == mfn && r.nx == nx
    {
      this.(avl := val % 8)
    }

    /** `MFN(val)`: a copy whose `mfn` is val truncated to 51 bits. */
    function MFN(val: W64): (r: Level1PTE)
      ensures r.mfn == (val % 0x8_0000_0000_0000)
      ensures r.p == p && r.rw == rw && r.us == us && r.pwt == pwt && r.pcd == pcd && r.a == a
      ensures r.d == d && r.pat == pat && r.g == g && r.avl == avl && r.nx == nx
    {
      this.(mfn := val % 0x8_0000_0000_0000)
    }

    /**
     * `accum(l)` for an entry l of any level (`l.Rights()`): p, rw and us
     * are ANDed with l's and nx is ORed with l's; nothing else changes.
     */
    function Accum(l: AccessRights): (r: Level1PTE)
      ensures r.p == (p && l.p) && r.rw == (rw && l.rw) && r.us == (us && l.us)
      ensures r.nx == (nx || l.nx)
      ensures r.pwt == pwt && r.pcd == pcd && r.a == a && r.d == d && r.pat == pat
      ensures r.g == g && r.avl == avl && r.mfn == mfn
    {
      Level1PTE(p && l.p, rw && l.rw, us && l.us, pwt, pcd, a, d, pat, g, avl, mfn, nx || l.nx)
    }
  }

  /** Accumulating the same level twice is the same as once. */
  lemma AccumIdempotent(e: Level1PTE, l: AccessRights)
    ensures e.Accum(l).Accum(l) == e.Accum(l)
  {
  }

  /** Accumulating two levels in either order gives the same entry. */
  lemma AccumCommutes(e: Level1PTE, l: AccessRights, m: AccessRights)
    ensures e.Accum(l).Accum(m) == e.Accum(m).Accum(l)
  {
  }

  /** The entry after accumulating each level of `levels`, first to last. */
  function AccumulateAll(e: Level1PTE, levels: seq<AccessRights>): Level1PTE
    decreases |levels|
  {
    if levels == [] then e else AccumulateAll(e.Accum(levels[0]), levels[1..])
  }

  /**
   * Over a whole walk the page is present (writable, user-accessible) exactly
   * when the entry and every level say so, and non-executable when the entry
   * or any level forbids execution.  The other fields are the entry's.
   */
  lemma {:induction false} AccumulateAllRights(e: Level1PTE, levels: seq<AccessRights>)
    ensures AccumulateAll(e, levels).p <==> e.p && forall l :: l in levels ==> l.p
    ensures AccumulateAll(e, levels).rw <==> e.rw && forall l :: l in levels ==> l.rw
    ensures AccumulateAll(e, levels).us <==> e.us && forall l :: l in levels ==> l.us
    ensures AccumulateAll(e, levels).nx <==> e.nx || exists l :: l in levels && l.nx
    ensures var r := AccumulateAll(e, levels);
      r.pwt == e.pwt && r.pcd == e.pcd && r.a == e.a && r.d == e.d && r.pat == e.pat && r.g == e.g
    ensures var r := AccumulateAll(e, levels); r.avl == e.avl && r.mfn == e.mfn
    decreases |levels|
  {
    if levels != [] {
      var rest := levels[1..];
      AccumulateAllRights(e.Accum(levels[0]), rest);
      assert forall l :: l in levels <==> l == levels[0] || l in rest;
    }
  }

  /**
   * The order in which the levels are accumulated does not matter: any
   * rearrangement of the same levels gives the same entry.
   */
  lemma AccumulateAllOrderFree(e: Level1PTE, levels: seq<AccessRights>, other: seq<AccessRights>)
    requires multiset(levels) == multiset(other)
    ensures AccumulateAll(e, levels) == AccumulateAll(e, other)
  {
    AccumulateAllRights(e, levels);
    AccumulateAllRights(e, other);
    forall x | x in levels ensures x in other {
      assert x in multiset(levels);
    }
    forall x | x in other ensures x in levels {
      assert x in multiset(other);
    }
    var r1, r2 := AccumulateAll(e, levels), AccumulateAll(e, other);
    assert r1.p == r2.p && r1.rw == r2.rw && r1.us == r2.us;
    assert r1.nx == r2.nx;
  }
}
