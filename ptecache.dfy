/**
 * The page-table-entry cache of a virtual CPU context (`Context` in the
 * full-system build): 16 direct-mapped slots, each holding the page base
 * of a virtual address and the level-1 entry a page-table walk returned
 * for it.
 */
module PteCache {
  import opened Machine
  import opened PageTables

  const PTE_CACHE_SIZE: nat := 16
  const PAGE_SIZE: nat := 4096

  /** `floor(x, PAGE_SIZE)`: the base of the page holding x. */
  function PageBase(x: W64): (r: W64)
    ensures r % PAGE_SIZE == 0 && r <= x < r + PAGE_SIZE
  {
    x - x % PAGE_SIZE
  }

  /** `lowbits(x >> 12, log2(PTE_CACHE_SIZE))`: bits 12..15 of the address. */
  function Slot(x: W64): (r: nat)
    ensures r < PTE_CACHE_SIZE
  {
    (x / PAGE_SIZE) % PTE_CACHE_SIZE
  }

  /** Two addresses on one page share a slot and a page base. */
  lemma SamePageSameSlot(x: W64, y: W64)
    requires x / PAGE_SIZE == y / PAGE_SIZE
    ensures Slot(x) == Slot(y) && PageBase(x) == PageBase(y)
  {
  }

  /**
   * A tag that never equals a page base: the model starts with every slot
   * holding it, so the first lookup of any page walks.
   */
  const NO_PAGE: W64 := 0xFFFF_FFFF_FFFF_FFFF

  /** A page-table walk `page_table_walk(virt, root)`, its result depending only on the page. */
  ghost predicate PageGranular(walk: (W64, W64) -> Level1PTE)
  {
    forall v: W64, root: W64 :: walk(v, root) == walk(PageBase(v), root)
  }

  /** The entry of a page with no permissions and frame 0. */
  function EmptyPte(): Level1PTE
  {
    Level1PTE(false, false, false, false, false, false, false, false, false, 0, 0, false)
  }

  class Context {
    var cr3: W64
    const cachedPteVirt: array<W64>
    const cachedPte: array<Level1PTE>
    /** How many page-table walks the cache has made. */
    ghost var walks: nat

    ghost predicate Valid()
      reads this
    {
      cachedPteVirt.Length == PTE_CACHE_SIZE && cachedPte.Length == PTE_CACHE_SIZE
    }

    /**
     * Every slot that holds a page base holds the entry the walker gives for
     * that page under the current root.
     */
    ghost predicate Coherent(walk: (W64, W64) -> Level1PTE)
      requires Valid()
      reads this, cachedPteVirt, cachedPte
    {
      forall i :: 0 <= i < PTE_CACHE_SIZE && cachedPteVirt[i] % PAGE_SIZE == 0 ==>
        cachedPte[i] == walk(cachedPteVirt[i], cr3 / PAGE_SIZE)
    }

    /**
     * A context whose cache holds no page, as `flush_tlb` leaves it;
     * `Context()` itself leaves the tags unset.
     */
    constructor(cr3: W64)
      ensures Valid() && fresh(cachedPteVirt) && fresh(cachedPte)
      ensures this.cr3 == cr3 && walks == 0
      ensures forall i :: 0 <= i < PTE_CACHE_SIZE ==> cachedPteVirt[i] == NO_PAGE
      ensures forall walk :: Coherent(walk)
    {
      this.cr3 := cr3;
      cachedPteVirt := new W64[PTE_CACHE_SIZE](_ => NO_PAGE);
      cachedPte := new Level1PTE[PTE_CACHE_SIZE](_ => EmptyPte());
      walks := 0;
    }

    /**
     * `flush_tlb()`, as far as the cache goes: every slot drops its page, so
     * the cache agrees with any walker, whatever the root or the tables
     * hold afterwards.
     */
    method FlushTlb()
      requires Valid()
      modifies cachedPteVirt
      ensures Valid()
      ensures forall i :: 0 <= i < PTE_CACHE_SIZE ==> cachedPteVirt[i] == NO_PAGE
      ensures forall walk :: Coherent(walk)
    {
      var i := 0;
      while i < PTE_CACHE_SIZE
        invariant 0 <= i <= PTE_CACHE_SIZE
        invariant forall j :: 0 <= j < i ==> cachedPteVirt[j] == NO_PAGE
      {
        cachedPteVirt[i] := NO_PAGE;
        i := i + 1;
      }
    }

    /**
     * `virt_to_pte(rawvirt)`: the slot of the address is consulted; when its
     * tag is not the page base of the address, the walker is called and the
     * slot refilled.  Only that slot changes, and the result is its entry.
     */
    method VirtToPte(rawvirt: W64, walk: (W64, W64) -> Level1PTE) returns (pte: Level1PTE)
      requires Valid()
      modifies this, cachedPteVirt, cachedPte
      ensures Valid() && cr3 == old(cr3)
      ensures cachedPteVirt[Slot(rawvirt)] == PageBase(rawvirt)
      ensures pte == cachedPte[Slot(rawvirt)]
      ensures forall i :: 0 <= i < PTE_CACHE_SIZE && i != Slot(rawvirt) ==>
        cachedPteVirt[i] == old(cachedPteVirt[i]) && cachedPte[i] == old(cachedPte[i])
      ensures old(cachedPteVirt[Slot(rawvirt)]) == PageBase(rawvirt) ==>
        walks == old(walks) && pte == old(cachedPte[Slot(rawvirt)])
      ensures old(cachedPteVirt[Slot(rawvirt)]) != PageBase(rawvirt) ==>
        walks == old(walks) + 1 && pte == walk(rawvirt, cr3 / PAGE_SIZE)
      ensures PageGranular(walk) && old(Coherent(walk)) ==>
        Coherent(walk) && pte == walk(rawvirt, cr3 / PAGE_SIZE)
    {
      var slot := (rawvirt / PAGE_SIZE) % PTE_CACHE_SIZE;
      var tag := rawvirt - rawvirt % PAGE_SIZE;
      if cachedPteVirt[slot] != tag {
        cachedPteVirt[slot] := tag;
        cachedPte[slot] := walk(rawvirt, cr3 / PAGE_SIZE);
        walks := walks + 1;
      }
      pte := cachedPte[slot];
    }
  }

  /**
   * Two lookups on one page with nothing in between walk the page tables at
   * most once, and the second one returns what the first did.
   */
  method LookupTwice(ctx: Context, x: W64, y: W64, walk: (W64, W64) -> Level1PTE)
    returns (first: Level1PTE, second: Level1PTE)
    requires ctx.Valid() && x / PAGE_SIZE == y / PAGE_SIZE
    modifies ctx, ctx.cachedPteVirt, ctx.cachedPte
    ensures ctx.walks <= old(ctx.walks) + 1
    ensures first == second
  {
    first := ctx.VirtToPte(x, walk);
    SamePageSameSlot(x, y);
    second := ctx.VirtToPte(y, walk);
  }
}
