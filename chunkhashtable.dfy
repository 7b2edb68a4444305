/**
 * `ChunkHashtableBlock` and `ChunkHashtable`: a multiset of entries spread
 * over `setcount` sets, each set a chain of fixed-size chunks.  A chunk has
 * `entries_per_chunk` slots and a 64-bit free map whose bit i is set when
 * slot i is free.
 *
 * A chunk is modelled as a value (its free map and its slots); the chains
 * of a table are sequences of chunks, head first, that the table's methods
 * replace.
 */
module ChunkHashtables {
  import opened Machine
  import opened Words

  datatype Option<T> = None | Some(value: T)

  datatype ChunkBlock = ChunkBlock(freemap: Word, data: seq<W64>)

  /** The chunk size the model admits: `1LL << n` needs n below 64. */
  predicate ChunkSize(n: nat)
  {
    1 <= n < 64
  }

  /** `ALL_FREE`, `(1 << n) - 1`: every slot free. */
  function AllFree(n: nat): Word
    requires ChunkSize(n)
  {
    LowMask(n)
  }

  /** A chunk of n slots whose free map has no bit at or above n. */
  predicate WellFormed(c: ChunkBlock, n: nat)
  {
    ChunkSize(n) && |c.data| == n && forall i :: n <= i < 64 ==> !c.freemap[i]
  }

  /** `ChunkHashtableBlock()`: all slots zero and free. */
  function NewChunk(n: nat): (c: ChunkBlock)
    requires ChunkSize(n)
    ensures WellFormed(c, n) && c.freemap == AllFree(n)
    ensures forall i :: 0 <= i < n ==> c.data[i] == 0
  {
    ChunkBlock(AllFree(n), seq(n, _ => 0))
  }

  /** `full()`: no slot is free. */
  predicate Full(c: ChunkBlock)
  {
    IsZero(c.freemap)
  }

  /**
   * `add(entry)`: the entry goes into the lowest free slot, whose free bit
   * is cleared; a full chunk refuses it and stays as it was.
   */
  function ChunkAdd(c: ChunkBlock, n: nat, entry: W64): (r: (bool, ChunkBlock))
    requires WellFormed(c, n)
    ensures WellFormed(r.1, n)
    ensures r.0 <==> !Full(c)
    ensures !r.0 ==> r.1 == c
    ensures r.0 ==> var slot := Lsb(c.freemap);
      slot < n && r.1.data == c.data[slot := entry] && !r.1.freemap[slot]
      && forall i :: 0 <= i < 64 && i != slot ==> r.1.freemap[i] == c.freemap[i]
  {
    if IsZero(c.freemap) then (false, c)
    else
      var idx := Lsb(c.freemap);
      if idx >= n then (false, c)
      else (true, ChunkBlock(And(c.freemap, Not(Single(idx))), c.data[idx := entry]))
  }

  /** Slot i is in use and holds the entry. */
  predicate Holds(c: ChunkBlock, i: nat, entry: W64)
  {
    i < |c.data| && i < 64 && !c.freemap[i] && c.data[i] == entry
  }

  /** The word whose bit i says slot i holds the entry, free or not. */
  function MatchWord(c: ChunkBlock, n: nat, entry: W64): Word
    requires WellFormed(c, n)
  {
    seq(64, i requires 0 <= i < 64 => i < n && c.data[i] == entry)
  }

  /**
   * `operator ()(entry)`: the lowest slot in use that holds the entry, or
   * none; free slots are masked out whatever they hold.
   */
  function ChunkLookup(c: ChunkBlock, n: nat, entry: W64): (r: Option<nat>)
    requires WellFormed(c, n)
    ensures r.Some? ==>
      r.value < n && Holds(c, r.value, entry) && forall j :: 0 <= j < r.value ==> !Holds(c, j, entry)
    ensures r.None? ==> forall j :: 0 <= j < n ==> !Holds(c, j, entry)
  {
    var m := And(MatchWord(c, n, entry), Not(c.freemap));
    assert forall j :: 0 <= j < 64 ==> (m[j] <==> Holds(c, j, entry));
    if IsZero(m) then None else Some(Lsb(m))
  }

  /**
   * `remove(entry)`: the slot lookup finds is freed (its data stays); the
   * result says whether every slot is free afterwards.
   */
  function ChunkRemove(c: ChunkBlock, n: nat, entry: W64): (r: (bool, ChunkBlock))
    requires WellFormed(c, n)
    ensures WellFormed(r.1, n) && r.1.data == c.data
    ensures r.0 <==> r.1.freemap == AllFree(n)
    ensures ChunkLookup(c, n, entry).None? ==> r.1 == c
    ensures ChunkLookup(c, n, entry).Some? ==> var slot := ChunkLookup(c, n, entry).value;
      r.1.freemap[slot] && forall i :: 0 <= i < 64 && i != slot ==> r.1.freemap[i] == c.freemap[i]
  {
    match ChunkLookup(c, n, entry)
    case None => (c.freemap == AllFree(n), c)
    case Some(slot) =>
      var fm := Or(c.freemap, Single(slot));
      (fm == AllFree(n), ChunkBlock(fm, c.data))
  }

  /** The loop of `operator ()`: the match word built slot by slot, then masked. */
  method ChunkFind(c: ChunkBlock, n: nat, entry: W64) returns (r: Option<nat>)
    requires WellFormed(c, n)
    ensures r == ChunkLookup(c, n, entry)
  {
    var m := Zero();
    var i := 0;
    while i < n
      invariant 0 <= i <= n && |m| == 64
      invariant forall j :: 0 <= j < 64 ==> m[j] == (j < i && c.data[j] == entry)
    {
      m := m[i := c.data[i] == entry];
      i := i + 1;
    }
    WordsEqual(m, MatchWord(c, n, entry));
    m := And(m, Not(c.freemap));
    if IsZero(m) {
      r := None;
    } else {
      r := Some(Lsb(m));
    }
  }

  /** A chunk that accepts an entry then finds it. */
  lemma ChunkAddThenLookup(c: ChunkBlock, n: nat, entry: W64)
    requires WellFormed(c, n) && !Full(c)
    ensures ChunkLookup(ChunkAdd(c, n, entry).1, n, entry).Some?
  {
    var slot := Lsb(c.freemap);
    assert Holds(ChunkAdd(c, n, entry).1, slot, entry);
  }

  /** Removing an entry a chunk holds frees one slot: the lookup slot is free afterwards. */
  lemma ChunkRemoveFreesLookupSlot(c: ChunkBlock, n: nat, entry: W64)
    requires WellFormed(c, n) && ChunkLookup(c, n, entry).Some?
    ensures !Holds(ChunkRemove(c, n, entry).1, ChunkLookup(c, n, entry).value, entry)
    ensures forall i :: 0 <= i < n && i != ChunkLookup(c, n, entry).value ==>
      (Holds(ChunkRemove(c, n, entry).1, i, entry) <==> Holds(c, i, entry))
  {
  }

  /** A new chunk is empty of entries and not full, so `add` into it succeeds. */
  lemma NewChunkAccepts(n: nat, entry: W64)
    requires ChunkSize(n)
    ensures !Full(NewChunk(n)) && ChunkAdd(NewChunk(n), n, entry).0
    ensures ChunkLookup(NewChunk(n), n, entry).None?
  {
    assert NewChunk(n).freemap[0];
  }

  /**
   * The chain `remove` leaves: each chunk has the entry removed, and the
   * chunks that end up all free are unlinked.
   */
  function ChainRemove(chain: seq<ChunkBlock>, n: nat, entry: W64): (r: seq<ChunkBlock>)
    requires forall c :: c in chain ==> WellFormed(c, n)
    ensures forall c :: c in r ==> WellFormed(c, n)
    ensures |r| <= |chain|
  {
    if chain == [] then []
    else
      KeptAfterRemove(chain[0], n, entry) + ChainRemove(chain[1..], n, entry)
  }

  /** What `remove` keeps of one chunk: nothing when it becomes all free, else the chunk with the entry removed. */
  function KeptAfterRemove(c: ChunkBlock, n: nat, entry: W64): (r: seq<ChunkBlock>)
    requires WellFormed(c, n)
    ensures |r| <= 1 && forall x :: x in r ==> WellFormed(x, n) && x.freemap != AllFree(n)
    ensures r == [] <==> ChunkRemove(c, n, entry).0
    ensures r != [] ==> r[0] == ChunkRemove(c, n, entry).1
    ensures ChunkLookup(c, n, entry).None? && c.freemap != AllFree(n) ==> r == [c]
  {
    var (empty, c') := ChunkRemove(c, n, entry);
    if empty then [] else [c']
  }

  /** The chunks of a sequence that are not all free, in order. */
  function DropAllFree(cs: seq<ChunkBlock>, n: nat): (r: seq<ChunkBlock>)
    requires ChunkSize(n)
    ensures |r| <= |cs| && forall x :: x in r ==> x in cs && x.freemap != AllFree(n)
  {
    if cs == [] then []
    else (if cs[0].freemap == AllFree(n) then [] else [cs[0]]) + DropAllFree(cs[1..], n)
  }

  /** Every chunk of a chain with one occurrence of the entry taken out. */
  function RemoveEach(chain: seq<ChunkBlock>, n: nat, entry: W64): (r: seq<ChunkBlock>)
    requires forall c :: c in chain ==> WellFormed(c, n)
    ensures |r| == |chain|
  {
    seq(|chain|, k requires 0 <= k < |chain| => ChunkRemove(chain[k], n, entry).1)
  }

  /**
   * `remove` works chunk by chunk: every chunk of the chain has one
   * occurrence of the entry taken out, and exactly the chunks left all free
   * are unlinked; the others stay, in chain order.
   */
  lemma {:induction false} ChainRemoveChunkwise(chain: seq<ChunkBlock>, n: nat, entry: W64)
    requires ChunkSize(n) && forall c :: c in chain ==> WellFormed(c, n)
    ensures ChainRemove(chain, n, entry) == DropAllFree(RemoveEach(chain, n, entry), n)
  {
    if chain != [] {
      var each := RemoveEach(chain, n, entry);
      ChainRemoveChunkwise(chain[1..], n, entry);
      assert each[1..] == RemoveEach(chain[1..], n, entry);
      assert each[0] == ChunkRemove(chain[0], n, entry).1;
    }
  }

  /** Removing over a chain split in two is removing over each part. */
  lemma {:induction false} ChainRemoveAppend(a: seq<ChunkBlock>, b: seq<ChunkBlock>, n: nat, entry: W64)
    requires forall c :: c in a ==> WellFormed(c, n)
    requires forall c :: c in b ==> WellFormed(c, n)
    ensures ChainRemove(a + b, n, entry) == ChainRemove(a, n, entry) + ChainRemove(b, n, entry)
  {
    if a != [] {
      assert (a + b)[0] == a[0] && (a + b)[1..] == a[1..] + b;
      ChainRemoveAppend(a[1..], b, n, entry);
      assert ChainRemove(a + b, n, entry) == KeptAfterRemove(a[0], n, entry) + ChainRemove(a[1..] + b, n, entry);
    } else {
      assert a + b == b;
    }
  }

  /** No chunk left in a chain by `remove` is all free. */
  lemma {:induction false} ChainRemoveFreesEmptyChunks(chain: seq<ChunkBlock>, n: nat, entry: W64)
    requires forall c :: c in chain ==> WellFormed(c, n)
    ensures forall c :: c in ChainRemove(chain, n, entry) ==> c.freemap != AllFree(n)
  {
    if chain != [] {
      ChainRemoveFreesEmptyChunks(chain[1..], n, entry);
    }
  }

  /**
   * Every chunk `remove` keeps is one of the chain's chunks with the entry
   * taken out, and chunks without the entry that were not all free are
   * kept unchanged.
   */
  lemma {:induction false} ChainRemoveKeeps(chain: seq<ChunkBlock>, n: nat, entry: W64, k: nat)
    requires forall c :: c in chain ==> WellFormed(c, n)
    requires k < |chain| && ChunkLookup(chain[k], n, entry).None? && chain[k].freemap != AllFree(n)
    ensures chain[k] in ChainRemove(chain, n, entry)
  {
    if k > 0 {
      ChainRemoveKeeps(chain[1..], n, entry, k - 1);
    }
  }

  /** The first chunk at or after chunk k, and its slot, holding the entry. */
  function ChainLookupFrom(chain: seq<ChunkBlock>, n: nat, entry: W64, k: nat): (r: Option<(nat, nat)>)
    requires k <= |chain| && forall c :: c in chain ==> WellFormed(c, n)
    ensures r.Some? ==>
      k <= r.value.0 < |chain| && Holds(chain[r.value.0], r.value.1, entry)
      && forall j :: k <= j < r.value.0 ==> ChunkLookup(chain[j], n, entry).None?
    ensures r.None? <==> forall j :: k <= j < |chain| ==> ChunkLookup(chain[j], n, entry).None?
    decreases |chain| - k
  {
    if k == |chain| then None
    else match ChunkLookup(chain[k], n, entry)
      case Some(slot) => Some((k, slot))
      case None => ChainLookupFrom(chain, n, entry, k + 1)
  }

  /** `ChunkHashtable::operator ()`: the first chunk of a chain, and its slot, holding the entry. */
  function ChainLookup(chain: seq<ChunkBlock>, n: nat, entry: W64): (r: Option<(nat, nat)>)
    requires forall c :: c in chain ==> WellFormed(c, n)
  {
    ChainLookupFrom(chain, n, entry, 0)
  }

  /** Every chunk of every set is well formed. */
  ghost predicate ChainsWellFormed(s: seq<seq<ChunkBlock>>, n: nat)
  {
    forall b, c :: 0 <= b < |s| && c in s[b] ==> WellFormed(c, n)
  }

  /**
   * `ChunkHashtable::add(entry)` on the entry's chain: a new chunk is linked
   * at the head exactly when the chain is empty or its head chunk is full;
   * the entry then goes into the head chunk, which cannot refuse it (the
   * insertion sits inside an assertion in the source and is taken as always
   * executed).  The rest of the chain is untouched and the entry can be
   * found afterwards.
   */
  function ChainAdd(chain: seq<ChunkBlock>, n: nat, entry: W64): (r: seq<ChunkBlock>)
    requires ChunkSize(n) && forall c :: c in chain ==> WellFormed(c, n)
    ensures forall c :: c in r ==> WellFormed(c, n)
    ensures chain == [] || Full(chain[0]) ==> |r| == |chain| + 1 && r[1..] == chain
    ensures !(chain == [] || Full(chain[0])) ==> |r| == |chain| && r[1..] == chain[1..]
    ensures |r| >= 1 && r[0] == ChunkAdd(if chain == [] || Full(chain[0]) then NewChunk(n) else chain[0], n, entry).1
    ensures ChainLookup(r, n, entry).Some?
  {
    var grow := chain == [] || Full(chain[0]);
    var base := if grow then NewChunk(n) else chain[0];
    assert base in chain || base == NewChunk(n);
    NewChunkAccepts(n, entry);
    ChunkAddThenLookup(base, n, entry);
    var (ok, base') := ChunkAdd(base, n, entry);
    var r := [base'] + (if grow then chain else chain[1..]);
    assert r[0] == base';
    r
  }

  /** A chain in which some chunk holds the entry finds it. */
  lemma HeldIsFound(chain: seq<ChunkBlock>, n: nat, e: W64, k: nat, slot: nat)
    requires forall c :: c in chain ==> WellFormed(c, n)
    requires k < |chain| && slot < n && Holds(chain[k], slot, e)
    ensures ChainLookup(chain, n, e).Some?
  {
    assert chain[k] in chain;
  }

  /** `add` loses nothing: every entry the chain found before, it still finds. */
  lemma ChainAddKeepsEntries(chain: seq<ChunkBlock>, n: nat, entry: W64, e: W64)
    requires ChunkSize(n) && forall c :: c in chain ==> WellFormed(c, n)
    requires ChainLookup(chain, n, e).Some?
    ensures ChainLookup(ChainAdd(chain, n, entry), n, e).Some?
  {
    var r := ChainAdd(chain, n, entry);
    var (k, slot) := ChainLookup(chain, n, e).value;
    assert chain[k] in chain;
    if chain == [] || Full(chain[0]) {
      assert r[k + 1] == chain[k];
      HeldIsFound(r, n, e, k + 1, slot);
    } else if k > 0 {
      assert r[k] == chain[k];
      HeldIsFound(r, n, e, k, slot);
    } else {
      assert chain[0].freemap[Lsb(chain[0].freemap)];
      assert Holds(r[0], slot, e);
      HeldIsFound(r, n, e, 0, slot);
    }
  }

  /** Removing over one more chunk of a chain adds what is kept of that chunk. */
  lemma ChainRemoveStep(chain: seq<ChunkBlock>, i: nat, n: nat, entry: W64)
    requires forall c :: c in chain ==> WellFormed(c, n)
    requires i < |chain|
    ensures ChainRemove(chain[..i + 1], n, entry) == ChainRemove(chain[..i], n, entry) + KeptAfterRemove(chain[i], n, entry)
  {
    assert chain[..i + 1] == chain[..i] + [chain[i]];
    assert chain[i] in chain;
    ChainRemoveAppend(chain[..i], [chain[i]], n, entry);
    assert ChainRemove([chain[i]], n, entry) == KeptAfterRemove(chain[i], n, entry) + ChainRemove([], n, entry);
  }

  /**
   * The loop of `ChunkHashtable::remove` over one chain: each chunk in turn
   * has the entry removed and is kept only when some slot stays in use.
   */
  method RemoveFromChain(chain: seq<ChunkBlock>, n: nat, entry: W64) returns (kept: seq<ChunkBlock>)
    requires forall c :: c in chain ==> WellFormed(c, n)
    ensures kept == ChainRemove(chain, n, entry)
  {
    kept := [];
    var i := 0;
    while i < |chain|
      invariant 0 <= i <= |chain|
      invariant kept == ChainRemove(chain[..i], n, entry)
    {
      var (empty, c) := ChunkRemove(chain[i], n, entry);
      ChainRemoveStep(chain, i, n, entry);
      assert KeptAfterRemove(chain[i], n, entry) == if empty then [] else [c];
      if !empty {
        kept := kept + [c];
      }
      i := i + 1;
    }
    assert chain[..i] == chain;
  }

  class ChunkHashtable {
    const setcount: nat
    const entriesPerChunk: nat
    /** `setof(entry)`, which each user of the table defines. */
    const setOf: W64 -> nat
    const sets: array<seq<ChunkBlock>>
    var count: int

    ghost predicate Valid()
      reads this, sets
    {
      ChunkSize(entriesPerChunk) && sets.Length == setcount
      && (forall e :: setOf(e) < setcount)
      && ChainsWellFormed(sets[..], entriesPerChunk)
    }

    /** `ChunkHashtable()`, through `init()`: every set empty, count zero. */
    constructor(setcount: nat, entriesPerChunk: nat, setOf: W64 -> nat)
      requires ChunkSize(entriesPerChunk) && forall e :: setOf(e) < setcount
      ensures Valid() && fresh(sets) && count == 0
      ensures this.setcount == setcount && this.entriesPerChunk == entriesPerChunk && this.setOf == setOf
      ensures forall b :: 0 <= b < setcount ==> sets[b] == []
    {
      this.setcount := setcount;
      this.entriesPerChunk := entriesPerChunk;
      this.setOf := setOf;
      sets := new seq<ChunkBlock>[setcount](_ => []);
      count := 0;
    }

    /** `add(entry)` on the entry's set (see ChainAdd); no other set changes. */
    method Add(entry: W64)
      requires Valid()
      modifies sets
      ensures Valid() && count == old(count)
      ensures sets[setOf(entry)] == ChainAdd(old(sets[setOf(entry)]), entriesPerChunk, entry)
      ensures ChainLookup(sets[setOf(entry)], entriesPerChunk, entry).Some?
      ensures forall b :: 0 <= b < setcount && b != setOf(entry) ==> sets[b] == old(sets[b])
    {
      var b := setOf(entry);
      var chain := sets[b];
      assert chain == sets[..][b];
      var chain' := ChainAdd(chain, entriesPerChunk, entry);
      sets[b] := chain';
      assert sets[..] == old(sets[..])[b := chain'];
    }

    /**
     * `remove(entry)`: every chunk of the entry's set loses one occurrence
     * of it, and the chunks that become all free are unlinked and freed.
     */
    method Remove(entry: W64)
      requires Valid()
      modifies sets
      ensures Valid() && count == old(count)
      ensures sets[setOf(entry)] == ChainRemove(old(sets[setOf(entry)]), entriesPerChunk, entry)
      ensures forall b :: 0 <= b < setcount && b != setOf(entry) ==> sets[b] == old(sets[b])
    {
      var b := setOf(entry);
      var chain := sets[b];
      assert chain == sets[..][b];
      var kept := RemoveFromChain(chain, entriesPerChunk, entry);
      sets[b] := kept;
      assert sets[..] == old(sets[..])[b := kept];
    }

    /** `operator ()(entry)`: the first chunk along the set's chain that holds the entry. */
    method Lookup(entry: W64) returns (found: Option<(nat, nat)>)
      requires Valid()
      ensures found == ChainLookup(sets[setOf(entry)], entriesPerChunk, entry)
    {
      var chain := sets[setOf(entry)];
      assert chain == sets[..][setOf(entry)];
      var k := 0;
      while k < |chain|
        invariant 0 <= k <= |chain|
        invariant ChainLookup(chain, entriesPerChunk, entry) == ChainLookupFrom(chain, entriesPerChunk, entry, k)
      {
        var slot := ChunkFind(chain[k], entriesPerChunk, entry);
        if slot.Some? {
          return Some((k, slot.value));
        }
        k := k + 1;
      }
      found := None;
    }

    /** `clear()`: every chunk of every set unlinked and freed, count zero. */
    method Clear()
      requires Valid()
      modifies this, sets
      ensures Valid() && count == 0
      ensures forall b :: 0 <= b < setcount ==> sets[b] == []
    {
      var i := 0;
      while i < setcount
        invariant 0 <= i <= setcount
        invariant forall b :: 0 <= b < i ==> sets[b] == []
        invariant forall b :: i <= b < setcount ==> sets[b] == old(sets[b])
      {
        sets[i] := [];
        i := i + 1;
      }
      count := 0;
    }
  }
}
