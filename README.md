# PTLsim translation-cache structures in Dafny

This project models the data structures under PTLsim's translation cache, the cache of decoded x86 basic blocks kept by the cycle-accurate x86-64 simulator. It proves the contracts those structures promise.

Two headers define these structures.

`superstl.h` holds the container building blocks:
- `Hashtable`, a chained hash map keyed by 64-bit words.
- `ChunkHashtable`, a hash set whose sets are chains of fixed-size chunks with a free-slot bitmap.
- The intrusive lists `listlink`, `selfqueuelink` and `queuelink`.
- `dynarray` and `renew`.
- The multi-word bit vector `bitvec<N>`.

`ptlhwdef.h` holds the hardware records:
- The translation key `RIPVirtPhys`.
- Segment descriptors and the descriptor cache.
- The four page-table-entry levels and the 16-slot PTE cache of a `Context`.
- Condition-code inversion, the mask-uop control word and the operation-class masks.
- `TransOp::init` and the basic-block reference count.

Modules, one file each:
- `Machine`: bounded machine integers.
- `Words`: 64-bit words as 64 booleans, with the standard meaning of each bit operator.
- `Sequences`: the node order of a list or queue with one node left out.
- `Hashtables`, `ChunkHashtables`, `Lists`, `Queues`, `Dynarrays`, `Bitvecs`: the containers.
- `TranslationKeys`, `Segments`, `PageTables`, `PteCache`, `Uops`, `TransOps`: the hardware records.

Structures that the source updates in place are classes over arrays, and each method is proved against a specification function or ghost state:
- A hash table holds an array of buckets, with a ghost map as its contents.
- List and queue nodes live in an arena of integer handles, with a ghost sequence giving the list order.
- A bit vector holds an array of words, with a ghost N-bit value.
- A dynamic array holds a backing array, with a ghost element sequence.

Record values that the source copies (PTEs, chunk blocks, the translation key) are datatypes.

## Model

| member | source | states |
|---|---|---|
| Hashtables.BucketOf | tags/import/ptlsim/superstl.h:1289 | the bucket of a key (its hash, which for W64 keys is the key, cut to log2(setcount) bits) is below setcount |
| Hashtables.InsertNewKey | tags/import/ptlsim/superstl.h:1357-1359 | pushing a new entry at the head of its bucket and adding one to count keeps the buckets representing the contents with the key added |
| Hashtables.OverwriteKey | tags/import/ptlsim/superstl.h:1350-1355 | overwriting the value of the entry found for a key keeps the buckets representing the contents with that key's value replaced, count unchanged |
| Hashtables.DeleteKey | tags/import/ptlsim/superstl.h:1363-1370 | cutting the entry found for a key out of its bucket and subtracting one from count represents the contents without that key |
| Hashtables.Hashtable.constructor | tags/import/ptlsim/superstl.h:1321-1324 | setcount is a power of two, every bucket is empty, contents are empty and count is 0 |
| Hashtables.Hashtable.FindEntry | tags/import/ptlsim/superstl.h:1288-1297 | the search of the key's bucket finds an entry with that key exactly when the key is present, and reports not-found (-1) otherwise |
| Hashtables.Hashtable.Get | tags/import/ptlsim/superstl.h:1339-1343 | the value stored for a present key, and null (None) for an absent one |
| Hashtables.Hashtable.Add | tags/import/ptlsim/superstl.h:1349-1361 | the key maps to the new value afterwards. A present key gives back its old value with count unchanged; a new key is linked at the head of its bucket, count grows by one and 0 is returned. Other buckets are untouched |
| Hashtables.Hashtable.Remove | tags/import/ptlsim/superstl.h:1363-1371 | the key is absent afterwards. An absent key returns 0 and changes no bucket; a present key returns its value and count drops by one. Only the key's bucket changes |
| Hashtables.Hashtable.Clear | tags/import/ptlsim/superstl.h:1326-1337 | every bucket is empty, contents are empty and count is 0 |
| Hashtables.AddThenGet | tags/import/ptlsim/superstl.h:1339-1361 | get right after add returns the value just added |
| Hashtables.RemoveThenGet | tags/import/ptlsim/superstl.h:1339-1371 | get right after remove returns null |
| ChunkHashtables.NewChunk | tags/import/ptlsim/superstl.h:1446-1452 | a new block has every data slot zero and freemap == ALL_FREE, the low n bits set |
| ChunkHashtables.ChunkAdd | tags/import/ptlsim/superstl.h:1458-1464 | add succeeds exactly when the block is not full. On success the entry goes to the lowest free slot and only that freemap bit is cleared; on failure the block is unchanged |
| ChunkHashtables.ChunkLookup | tags/import/ptlsim/superstl.h:1466-1474 | the result is the lowest occupied slot equal to the entry; free slots are ignored, and None means no occupied slot holds it |
| ChunkHashtables.ChunkFind | tags/import/ptlsim/superstl.h:1466-1474 | the loop that builds the match word and masks it with ~freemap returns exactly ChunkLookup |
| ChunkHashtables.ChunkRemove | tags/import/ptlsim/superstl.h:1476-1482 | only the found slot's bit is set free and data is untouched; without a match the block is unchanged. The result is true exactly when freemap == ALL_FREE afterwards |
| ChunkHashtables.ChunkAddThenLookup | tags/import/ptlsim/superstl.h:1458-1474 | after add into a non-full block, lookup finds the entry |
| ChunkHashtables.ChunkRemoveFreesLookupSlot | tags/import/ptlsim/superstl.h:1466-1482 | remove frees the slot lookup found and keeps every other slot's occupancy |
| ChunkHashtables.NewChunkAccepts | tags/import/ptlsim/superstl.h:1446-1464 | a new block is not full, accepts any entry and holds none |
| ChunkHashtables.KeptAfterRemove | tags/import/ptlsim/superstl.h:1522-1526 | one remove step drops the chunk exactly when chunk remove reports it all free, and otherwise keeps the chunk with the entry removed (ChunkRemove's block); a chunk with no match that was not all free survives unchanged |
| ChunkHashtables.ChainRemoveChunkwise | tags/import/ptlsim/superstl.h:1518-1529 | remove takes one occurrence of the entry out of every chunk of the chain and then unlinks exactly the chunks left all free; the others stay in chain order |
| ChunkHashtables.ChainRemove | tags/import/ptlsim/superstl.h:1518-1529 | the chain after remove is no longer than before and holds only well-formed chunks; what each chunk becomes is stated by ChainRemoveChunkwise |
| ChunkHashtables.ChainRemoveAppend | tags/import/ptlsim/superstl.h:1518-1529 | remove works chunk by chunk: over a concatenated chain it is the concatenation of the results |
| ChunkHashtables.ChainRemoveFreesEmptyChunks | tags/import/ptlsim/superstl.h:1522-1526 | no all-free chunk is left in the chain after remove |
| ChunkHashtables.ChainRemoveKeeps | tags/import/ptlsim/superstl.h:1518-1529 | a chunk without the entry that is not all-free stays in the chain |
| ChunkHashtables.ChainRemoveStep | tags/import/ptlsim/superstl.h:1520-1528 | one loop step extends the kept prefix by the current chunk's remove outcome |
| ChunkHashtables.ChainLookupFrom | tags/import/ptlsim/superstl.h:1531-1540 | the first chunk from k on that holds the entry, with its slot. None exactly when no chunk from k on holds it |
| ChunkHashtables.ChainAdd | tags/import/ptlsim/superstl.h:1508-1516 | a new head chunk is linked exactly when the set is empty or its head is full, otherwise only the head changes. The head becomes chunk add of the entry into the new chunk or the old head, and lookup then finds the entry |
| ChunkHashtables.ChainAddKeepsEntries | tags/import/ptlsim/superstl.h:1508-1516 | add loses nothing: every entry the set's lookup found before, it still finds |
| ChunkHashtables.RemoveFromChain | tags/import/ptlsim/superstl.h:1518-1529 | the while-loop over the chain computes ChainRemove |
| ChunkHashtables.ChunkHashtable.constructor | tags/import/ptlsim/superstl.h:1542-1552 | every set is empty and count is 0 |
| ChunkHashtables.ChunkHashtable.Add | tags/import/ptlsim/superstl.h:1508-1516 | the entry's set becomes ChainAdd of it, so lookup finds the entry. Other sets and count are unchanged |
| ChunkHashtables.ChunkHashtable.Remove | tags/import/ptlsim/superstl.h:1518-1529 | the entry's set becomes ChainRemove of it (one occurrence out of every chunk, all-free chunks dropped). Other sets and count are unchanged |
| ChunkHashtables.ChunkHashtable.Lookup | tags/import/ptlsim/superstl.h:1531-1540 | the walk of the entry's set returns ChainLookup: the first chunk holding the entry and its slot, or null |
| ChunkHashtables.ChunkHashtable.Clear | tags/import/ptlsim/superstl.h:1554-1566 | every set is empty and count is 0 |
| Lists.AddToLinks | tags/import/ptlsim/superstl.h:982-988 | splicing x in front of root keeps a well-linked list whose order is x followed by the old list |
| Lists.UnlinkLinks | tags/import/ptlsim/superstl.h:974-980 | bypassing the node at position k keeps a well-linked list of the other nodes in order, with the node detached |
| Lists.UnlinkState | tags/import/ptlsim/superstl.h:974-980 | unlinking any node keeps a well-linked list: a listed node leaves it with the others in order, an unlisted node changes no link, and the node ends with null links |
| Lists.LinksOfNode | tags/import/ptlsim/superstl.h:990-992 | a node that is not listed has both links null; every link is null, the root or a node |
| Lists.ListArena.constructor | tags/import/ptlsim/superstl.h:968-971 | every node is reset (both links null) and the list is empty |
| Lists.ListArena.LinkedIffListed | tags/import/ptlsim/superstl.h:990-992 | linked() (a non-null next or prevnp) holds exactly for the nodes in the list |
| Lists.ListArena.AddTo | tags/import/ptlsim/superstl.h:982-988 | an unlinked node becomes the first element and the root; the rest keep their order |
| Lists.ListArena.Unlink | tags/import/ptlsim/superstl.h:974-980 | a listed node leaves the list, the others keep their order, and the node is unlinked afterwards. An unlisted node changes nothing. The node's data is returned |
| Queues.AddLinkHead | tags/import/ptlsim/superstl.h:1021-1023 | addlink(root, root.next) keeps a well-linked circular queue with x at the head |
| Queues.AddLinkTail | tags/import/ptlsim/superstl.h:1037-1039 | addlink(root.prev, root) keeps a well-linked circular queue with x at the tail |
| Queues.UnlinkAt | tags/import/ptlsim/superstl.h:1012-1019 | bypassing the node at position k keeps a well-linked queue of the others in order |
| Queues.UnlinkFree | tags/import/ptlsim/superstl.h:1012-1019 | after unlink the node points to itself both ways |
| Queues.SelfLinked | tags/import/ptlsim/superstl.h:1009 | a node that is not queued points to itself both ways, so its unlink has no effect |
| Queues.QueueArena.constructor | tags/import/ptlsim/superstl.h:1009 | every node is reset to point to itself and the queue is empty |
| Queues.QueueArena.EmptyIffNoElements | tags/import/ptlsim/superstl.h:1067-1069 | empty() (root.next == root) holds exactly when no node is queued |
| Queues.QueueArena.AddHead | tags/import/ptlsim/superstl.h:1021-1023 | the node becomes the head; the rest keep their order |
| Queues.QueueArena.AddTail | tags/import/ptlsim/superstl.h:1037-1039 | the node becomes the tail; the rest keep their order |
| Queues.QueueArena.Unlink | tags/import/ptlsim/superstl.h:1012-1019 | a queued node leaves the queue, the others keep their order, and unlinked() holds. An unqueued node changes nothing |
| Queues.QueueArena.RemoveHead | tags/import/ptlsim/superstl.h:1045-1050 | null on an empty queue, with nothing changed; otherwise the head is returned, removed and left unlinked |
| Queues.QueueArena.RemoveTail | tags/import/ptlsim/superstl.h:1052-1057 | null on an empty queue, with nothing changed; otherwise the tail is returned, removed and left unlinked |
| Queues.QueueArena.RemoveHeadUnchecked | tags/import/ptlsim/superstl.h:1124-1128 | the head is returned, removed and left unlinked. On an empty queue the root itself is returned and nothing changes |
| Queues.QueueArena.RemoveTailUnchecked | tags/import/ptlsim/superstl.h:1130-1134 | the tail is returned, removed and left unlinked. On an empty queue the root itself is returned and nothing changes |
| Dynarrays.RoundUpIsLeastMultiple | tags/import/ptlsim/superstl.h:776 | reserve's round-up of n to the granularity g is the least multiple of g at or above n |
| Dynarrays.Renew | tags/import/ptlsim/superstl.h:650-663 | the same array when the count does not grow; otherwise a fresh array of newcount slots whose first oldcount slots are copied |
| Dynarrays.Dynarray.constructor | tags/import/ptlsim/superstl.h:721-725 | empty, no storage, granularity 16 |
| Dynarrays.Dynarray.WithCapacity | tags/import/ptlsim/superstl.h:727-733 | empty, with granularity g and capacity initcap rounded up to a multiple of g |
| Dynarrays.Dynarray.Capacity | tags/import/ptlsim/superstl.h:741 | the capacity is at least the length |
| Dynarrays.Dynarray.Reserve | tags/import/ptlsim/superstl.h:774-779 | never shrinks. A larger size grows the capacity to its round-up to the granularity, in fresh storage; the elements and the length are kept |
| Dynarrays.Dynarray.Push | tags/import/ptlsim/superstl.h:746-755 | the element is appended; the capacity grows, rounded up, only when the array was full |
| Dynarrays.Dynarray.Pop | tags/import/ptlsim/superstl.h:757-760 | returns the last element and removes it; the storage is kept |
| Dynarrays.Dynarray.Resize | tags/import/ptlsim/superstl.h:762-765 | the length becomes newsize. Shrinking keeps the prefix and the storage; growing keeps the old elements. A size within the capacity keeps the capacity and the storage, a larger one grows the capacity to its round-up in fresh storage |
| Dynarrays.Dynarray.ResizeFill | tags/import/ptlsim/superstl.h:767-772 | as Resize, capacity and storage included; when growing, every slot from the old length up to the capacity holds emptyvalue |
| Dynarrays.Dynarray.Clear | tags/import/ptlsim/superstl.h:743 | no elements; the storage is kept |
| Dynarrays.PushThenPop | tags/import/ptlsim/superstl.h:746-760 | pop right after push returns the pushed element and restores the elements |
| Bitvecs.WordCountFits | tags/import/ptlsim/superstl.h:1590 | BITVEC_WORDS(n) words hold exactly the n bits, with less than one word of padding |
| Bitvecs.Extracted | tags/import/ptlsim/superstl.h:2115-2117 | extract with the corrected maskop (see Findings): bit j of extract(index, count) is bit index + j of the vector, for j below count and inside the vector, and zero elsewhere |
| Bitvecs.Removed | tags/import/ptlsim/superstl.h:2135-2137 | remove with the corrected maskop (see Findings): the bits below index are kept, the count bits from index are cut out, and the bits above move down with zero fill |
| Bitvecs.ShiftPastWidthClears | tags/import/ptlsim/superstl.h:1995-2009 | a shift by N or more gives all zeros |
| Bitvecs.ShiftsCompose | tags/import/ptlsim/superstl.h:2082-2084 | two shifts in the same direction equal one shift by their sum |
| Bitvecs.MaskedTwice | tags/import/ptlsim/superstl.h:2105-2109 | with the corrected maskop, masking twice keeps the bits below the smaller count |
| Bitvecs.InsertThenExtract | tags/import/ptlsim/superstl.h:2092-2117 | with the corrected insertop and maskop, extracting the field just inserted gives back the low len bits of x that fit in the vector |
| Bitvecs.InsertKeepsOutside | tags/import/ptlsim/superstl.h:2092-2097 | insert leaves every bit below i and at or above i + len unchanged |
| Bitvecs.ShlWordsBits | tags/import/ptlsim/superstl.h:1637-1653 | after shiftleftop(s) bit j of the words is old bit j - s, and zero below s |
| Bitvecs.ShrWordsBits | tags/import/ptlsim/superstl.h:1655-1672 | after shiftrightop(s) bit j of the words is old bit j + s, and zero past the last word |
| Bitvecs.MaskWordsBits | tags/import/ptlsim/superstl.h:1674-1681 | maskop(count), corrected, keeps exactly the bits below count |
| Bitvecs.MaskAsWrittenKeepsWholeWord | tags/import/ptlsim/superstl.h:1674-1681 | maskop as written with count 64 on two all-ones words keeps bit 64 |
| Bitvecs.MaskAsWrittenOneWordClears | tags/import/ptlsim/superstl.h:1826 | the one-word maskop as written with count 64 clears bit 0 |
| Bitvecs.InsertWordsBits | tags/import/ptlsim/superstl.h:1714-1724 | insertop, corrected, puts the low len bits of x at bits i .. i + len - 1 and keeps every other bit |
| Bitvecs.InsertAsWrittenMisplacesHighPart | tags/import/ptlsim/superstl.h:1719-1723 | insertop as written at i = 60 with len 8 writes the high part into word 0 (bit 0 set) instead of word 1 (bit 64 clear) |
| Bitvecs.SanitizeKeepsValue | tags/import/ptlsim/superstl.h:1887-1909 | sanitize zeroes the padding bits at or above N and keeps the N-bit value |
| Bitvecs.SanitizedValueDeterminesWords | tags/import/ptlsim/superstl.h:1693-1697 | two sanitized word arrays with the same value are equal word by word, so comparing words compares values |
| Bitvecs.Bitvec.constructor | tags/import/ptlsim/superstl.h:1606 | all bits clear |
| Bitvecs.Bitvec.FromWord | tags/import/ptlsim/superstl.h:1610-1613 | bit j is bit j of val for j below 64 and N, and zero above; the padding is sanitized |
| Bitvecs.Bitvec.Sanitize | tags/import/ptlsim/superstl.h:1906-1909 | the padding becomes zero and the value is unchanged |
| Bitvecs.Bitvec.Test | tags/import/ptlsim/superstl.h:2034-2036 | test(index) holds exactly when bit index of the value is set |
| Bitvecs.Bitvec.Set | tags/import/ptlsim/superstl.h:2011-2014 | only bit index changes, to 1 |
| Bitvecs.Bitvec.Reset | tags/import/ptlsim/superstl.h:2016-2019 | only bit index changes, to 0 |
| Bitvecs.Bitvec.Assign | tags/import/ptlsim/superstl.h:2021-2027 | only bit index changes, to whether val is nonzero |
| Bitvecs.Bitvec.Invert | tags/import/ptlsim/superstl.h:2029-2032 | only bit index changes, to its complement |
| Bitvecs.Bitvec.SetAll | tags/import/ptlsim/superstl.h:2038-2042 | all N bits set, with the padding kept zero |
| Bitvecs.Bitvec.ResetAll | tags/import/ptlsim/superstl.h:2044-2047 | all N bits clear |
| Bitvecs.Bitvec.InvertAll | tags/import/ptlsim/superstl.h:2052-2056 | every one of the N bits flips, with the padding kept zero |
| Bitvecs.Bitvec.ShiftLeftOp | tags/import/ptlsim/superstl.h:1637-1653 | the words become the word-level left shift, whose bits ShlWordsBits describes |
| Bitvecs.Bitvec.ShiftRightOp | tags/import/ptlsim/superstl.h:1655-1672 | the words become the word-level right shift, whose bits ShrWordsBits describes |
| Bitvecs.Bitvec.ShiftLeft | tags/import/ptlsim/superstl.h:1995-2001 | an index from 0 to N-1 shifts the value up with zero fill; any other index (unsigned comparison) clears it |
| Bitvecs.Bitvec.ShiftRight | tags/import/ptlsim/superstl.h:2003-2009 | an index from 0 to N-1 shifts the value down with zero fill; any other index clears it |
| Bitvecs.Bitvec.MaskOp | tags/import/ptlsim/superstl.h:1674-1681 | maskop, corrected: the value keeps exactly its low count bits |
| Bitvecs.Bitvec.Insert | tags/import/ptlsim/superstl.h:2092-2097 | insert, with the corrected insertop: the len bits from i take the low bits of x, every other bit is kept, and the padding stays zero |
| Bitvecs.Bitvec.AndOp | tags/import/ptlsim/superstl.h:1625-1627 | the value becomes the bitwise and of both values |
| Bitvecs.Bitvec.OrOp | tags/import/ptlsim/superstl.h:1629-1631 | the value becomes the bitwise or of both values |
| Bitvecs.Bitvec.XorOp | tags/import/ptlsim/superstl.h:1633-1635 | the value becomes the bitwise xor of both values |
| Bitvecs.Bitvec.EqualOp | tags/import/ptlsim/superstl.h:1693-1697 | true exactly when the two values are equal |
| Bitvecs.Bitvec.NonzeroOp | tags/import/ptlsim/superstl.h:1699-1703 | true exactly when some bit is set |
| Bitvecs.Bitvec.LsbOp | tags/import/ptlsim/superstl.h:1734-1740 | the index of the lowest set bit, or notfound when no bit is set |
| TranslationKeys.EqualFullSystemIsFieldwise | trunk/ptlsim/ptlhwdef.h:229-238 | in the hypervisor build two keys are equal exactly when rip, mfnlo, use64, kernel, the padding, mfnhi and df all agree |
| TranslationKeys.EqualFullSystemIsEquivalence | trunk/ptlsim/ptlhwdef.h:229-238 | the hypervisor-build == is reflexive, symmetric and transitive |
| TranslationKeys.EqualUserModeIsEquivalence | trunk/ptlsim/ptlhwdef.h:229-238 | the user-build == is reflexive, symmetric and transitive |
| TranslationKeys.FullSystemRefinesUserMode | trunk/ptlsim/ptlhwdef.h:211-238 | keys equal in the hypervisor build are equal in the user build, but not conversely: keys that differ only in use64 are equal only in the user build |
| Segments.BaseRoundTrip | trunk/ptlsim/ptlhwdef.h:422-431 | getbase, corrected, returns what setbase stored, for every 32-bit address |
| Segments.BaseAsWrittenRoundTrip | trunk/ptlsim/ptlhwdef.h:422-431 | getbase as written inverts setbase for addresses below 2^31 |
| Segments.BaseAsWrittenSignExtends | trunk/ptlsim/ptlhwdef.h:429-431 | getbase as written turns the base 0x8000_0000 into 0xFFFF_FFFF_8000_0000 |
| Segments.LimitRoundTripBytes | trunk/ptlsim/ptlhwdef.h:433-444 | a size below 2^20 survives setlimit and getlimit unchanged |
| Segments.LimitRoundTripPages | trunk/ptlsim/ptlhwdef.h:433-444 | a size from 2^20 to 2^32 - 4096 comes back rounded up to the next 4096 boundary |
| Segments.LimitOfFourGiBWraps | trunk/ptlsim/ptlhwdef.h:433-444 | a size of exactly 4 GiB overflows the 20 limit bits and comes back as 0 |
| Segments.SegmentDescriptor.SetBase | trunk/ptlsim/ptlhwdef.h:422-427 | the address is split over base0, base1 and base2, no other field changes, and getbase returns it |
| Segments.SegmentDescriptor.SetLimit | trunk/ptlsim/ptlhwdef.h:433-438 | g is set exactly for sizes of 2^20 or more, which are stored in pages rounded up. Only g and the limit fields change |
| Segments.SegmentDescriptorCache.Load | trunk/ptlsim/ptlhwdef.h:461-471 | presence, code size, privilege, base and limit come from the descriptor, the base through the corrected getbase (see Findings); the selector is not updated |
| Segments.SegmentDescriptorCache.Flatten | trunk/ptlsim/ptlhwdef.h:474-482 | a present 64-bit user segment with base 0 and limit 2^64 - 1; the selector is kept |
| PageTables.Level1PTE.Accum | trunk/ptlsim/ptlhwdef.h:612-615 | p, rw and us are anded with the other level's, nx is ored, and every other field is unchanged |
| PageTables.AccumIdempotent | trunk/ptlsim/ptlhwdef.h:612-615 | accumulating the same level twice equals accumulating it once |
| PageTables.AccumCommutes | trunk/ptlsim/ptlhwdef.h:612-615 | two levels accumulated in either order give the same entry |
| PageTables.AccumulateAllRights | trunk/ptlsim/ptlhwdef.h:612-615 | over a whole walk the page is present, writable or user-accessible exactly when the entry and every level say so. It is no-execute when any of them says so, and the other fields are the entry's |
| PageTables.AccumulateAllOrderFree | trunk/ptlsim/ptlhwdef.h:612-615 | any rearrangement of the same levels accumulates to the same entry |
| PageTables.Level4PTE.P | trunk/ptlsim/ptlhwdef.h:565 | the copy has `p` = val truncated to 1 bit; every other field equals the original |
| PageTables.Level4PTE.W | trunk/ptlsim/ptlhwdef.h:566 | the copy has `rw` = val truncated to 1 bit; every other field equals the original |
| PageTables.Level4PTE.U | trunk/ptlsim/ptlhwdef.h:567 | the copy has `us` = val truncated to 1 bit; every other field equals the original |
| PageTables.Level4PTE.WT | trunk/ptlsim/ptlhwdef.h:568 | the copy has `pwt` = val truncated to 1 bit; every other field equals the original |
| PageTables.Level4PTE.CD | trunk/ptlsim/ptlhwdef.h:569 | the copy has `pcd` = val truncated to 1 bit; every other field equals the original |
| PageTables.Level4PTE.A | trunk/ptlsim/ptlhwdef.h:570 | the copy has `a` = val truncated to 1 bit; every other field equals the original |
| PageTables.Level4PTE.NX | trunk/ptlsim/ptlhwdef.h:571 | the copy has `nx` = val truncated to 1 bit; every other field equals the original |
| PageTables.Level4PTE.AVL | trunk/ptlsim/ptlhwdef.h:572 | the copy has `avl` = val truncated to 3 bits; every other field equals the original |
| PageTables.Level4PTE.MFN | trunk/ptlsim/ptlhwdef.h:573 | the copy has `mfn` = val truncated to 51 bits; every other field equals the original |
| PageTables.Level3PTE.P | trunk/ptlsim/ptlhwdef.h:580 | the copy has `p` = val truncated to 1 bit; every other field equals the original |
| PageTables.Level3PTE.W | trunk/ptlsim/ptlhwdef.h:581 | the copy has `rw` = val truncated to 1 bit; every other field equals the original |
| PageTables.Level3PTE.U | trunk/ptlsim/ptlhwdef.h:582 | the copy has `us` = val truncated to 1 bit; every other field equals the original |
| PageTables.Level3PTE.WT | trunk/ptlsim/ptlhwdef.h:583 | the copy has `pwt` = val truncated to 1 bit; every other field equals the original |
| PageTables.Level3PTE.CD | trunk/ptlsim/ptlhwdef.h:584 | the copy has `pcd` = val truncated to 1 bit; every other field equals the original |
| PageTables.Level3PTE.A | trunk/ptlsim/ptlhwdef.h:585 | the copy has `a` = val truncated to 1 bit; every other field equals the original |
| PageTables.Level3PTE.NX | trunk/ptlsim/ptlhwdef.h:586 | the copy has `nx` = val truncated to 1 bit; every other field equals the original |
| PageTables.Level3PTE.AVL | trunk/ptlsim/ptlhwdef.h:587 | the copy has `avl` = val truncated to 3 bits; every other field equals the original |
| PageTables.Level3PTE.MFN | trunk/ptlsim/ptlhwdef.h:588 | the copy has `mfn` = val truncated to 51 bits; every other field equals the original |
| PageTables.Level2PTE.P | trunk/ptlsim/ptlhwdef.h:595 | the copy has `p` = val truncated to 1 bit; every other field equals the original |
| PageTables.Level2PTE.W | trunk/ptlsim/ptlhwdef.h:596 | the copy has `rw` = val truncated to 1 bit; every other field equals the original |
| PageTables.Level2PTE.U | trunk/ptlsim/ptlhwdef.h:597 | the copy has `us` = val truncated to 1 bit; every other field equals the original |
| PageTables.Level2PTE.WT | trunk/ptlsim/ptlhwdef.h:598 | the copy has `pwt` = val truncated to 1 bit; every other field equals the original |
| PageTables.Level2PTE.CD | trunk/ptlsim/ptlhwdef.h:599 | the copy has `pcd` = val truncated to 1 bit; every other field equals the original |
| PageTables.Level2PTE.A | trunk/ptlsim/ptlhwdef.h:600 | the copy has `a` = val truncated to 1 bit; every other field equals the original |
| PageTables.Level2PTE.D | trunk/ptlsim/ptlhwdef.h:601 | the copy has `d` = val truncated to 1 bit; every other field equals the original |
| PageTables.Level2PTE.PSZ | trunk/ptlsim/ptlhwdef.h:602 | the copy has `psz` = val truncated to 1 bit; every other field equals the original |
| PageTables.Level2PTE.NX | trunk/ptlsim/ptlhwdef.h:603 | the copy has `nx` = val truncated to 1 bit; every other field equals the original |
| PageTables.Level2PTE.AVL | trunk/ptlsim/ptlhwdef.h:604 | the copy has `avl` = val truncated to 3 bits; every other field equals the original |
| PageTables.Level2PTE.MFN | trunk/ptlsim/ptlhwdef.h:605 | the copy has `mfn` = val truncated to 51 bits; every other field equals the original |
| PageTables.Level1PTE.P | trunk/ptlsim/ptlhwdef.h:617 | the copy has `p` = val truncated to 1 bit; every other field equals the original |
| PageTables.Level1PTE.W | trunk/ptlsim/ptlhwdef.h:618 | the copy has `rw` = val truncated to 1 bit; every other field equals the original |
| PageTables.Level1PTE.U | trunk/ptlsim/ptlhwdef.h:619 | the copy has `us` = val truncated to 1 bit; every other field equals the original |
| PageTables.Level1PTE.WT | trunk/ptlsim/ptlhwdef.h:620 | the copy has `pwt` = val truncated to 1 bit; every other field equals the original |
| PageTables.Level1PTE.CD | trunk/ptlsim/ptlhwdef.h:621 | the copy has `pcd` = val truncated to 1 bit; every other field equals the original |
| PageTables.Level1PTE.A | trunk/ptlsim/ptlhwdef.h:622 | the copy has `a` = val truncated to 1 bit; every other field equals the original |
| PageTables.Level1PTE.D | trunk/ptlsim/ptlhwdef.h:623 | the copy has `d` = val truncated to 1 bit; every other field equals the original |
| PageTables.Level1PTE.G | trunk/ptlsim/ptlhwdef.h:624 | the copy has `g` = val truncated to 1 bit; every other field equals the original |
| PageTables.Level1PTE.NX | trunk/ptlsim/ptlhwdef.h:625 | the copy has `nx` = val truncated to 1 bit; every other field equals the original |
| PageTables.Level1PTE.AVL | trunk/ptlsim/ptlhwdef.h:626 | the copy has `avl` = val truncated to 3 bits; every other field equals the original |
| PageTables.Level1PTE.MFN | trunk/ptlsim/ptlhwdef.h:627 | the copy has `mfn` = val truncated to 51 bits; every other field equals the original |
| PteCache.PageBase | trunk/ptlsim/ptlhwdef.h:855 | floor(rawvirt, 4096) is a page boundary within 4096 bytes below the address |
| PteCache.Slot | trunk/ptlsim/ptlhwdef.h:854 | the slot, bits 12..15 of the address, is below 16 |
| PteCache.SamePageSameSlot | trunk/ptlsim/ptlhwdef.h:853-856 | addresses on one page share both the slot and the tag |
| PteCache.Context.constructor | trunk/ptlsim/ptlhwdef.h:863-864 | a context as `flush_tlb` leaves it: every tag is invalid, so the cache agrees with every walker |
| PteCache.Context.FlushTlb | trunk/ptlsim/ptlhwdef.h:863-864 | every slot drops its page, so the cache agrees with every walker |
| PteCache.Context.VirtToPte | trunk/ptlsim/ptlhwdef.h:853-861 | the slot's tag becomes the page and the result is the slot's entry; no other slot changes. A hit keeps the walk count, and a miss walks once and caches the walker's entry. A cache that agrees with a page-granular walker keeps agreeing and returns the walker's entry |
| PteCache.LookupTwice | trunk/ptlsim/ptlhwdef.h:853-861 | two lookups on the same page walk at most once and return the same entry |
| Uops.FlagBitPositions | trunk/ptlsim/ptlhwdef.h:23-30 | each single-flag mask is the bit its comment names |
| Uops.CompositeFlagMasks | trunk/ptlsim/ptlhwdef.h:31-32 | FLAG_SF_ZF is SF or ZF, and FLAG_ZAPS is ZF, AF, PF and SF |
| Uops.NotWaitInvMask | trunk/ptlsim/ptlhwdef.h:33 | FLAG_NOT_WAIT_INV excludes WAIT and INV and covers ZAPS, CF and OF, plus bit 5 |
| Uops.IsClassMonotone | trunk/ptlsim/ptlhwdef.h:1116 | isclass against a mask implies isclass against any mask containing it |
| Uops.BranchClassesNest | trunk/ptlsim/ptlhwdef.h:947-953 | isbarrier implies isbranch, and iscondbranch implies isbranch |
| Uops.LoadStoreBranchDisjoint | trunk/ptlsim/ptlhwdef.h:953-958 | load and store classes are disjoint, and no memory class is a branch class |
| Uops.FpClassAsWrittenMissesAlu | trunk/ptlsim/ptlhwdef.h:977 | OPCLASS_FP as written does not contain OPCLASS_FP_ALU |
| Uops.FpClassCoversFpClasses | trunk/ptlsim/ptlhwdef.h:969-977 | OPCLASS_FP, corrected, contains exactly the seven FP classes, bits 19 to 25 |
| Uops.InvertCondInvolution | trunk/ptlsim/ptlhwdef.h:1174-1177 | inverting twice gives back the condition, for every int |
| Uops.InvertCondNegates | trunk/ptlsim/ptlhwdef.h:1174-1177 | the inverse of each of the 16 condition codes is a condition code that holds exactly when the original does not |
| Uops.MaskControlFromFields | trunk/ptlsim/ptlhwdef.h:1134-1138 | each argument that fits its 6-bit field is stored unchanged, and bits 18..31 keep what they held |
| Uops.MakeMaskControlInfo | trunk/ptlsim/ptlhwdef.h:1166-1168 | the control word fits in its 18 field bits |
| Uops.MaskControlDataRoundTrip | trunk/ptlsim/ptlhwdef.h:1126-1141 | reading the fields back from a control word's raw data gives the same fields |
| Uops.DataMaskControlRoundTrip | trunk/ptlsim/ptlhwdef.h:1126-1141 | the raw data of a control word read from any 32-bit word is that word |
| Uops.MakeMaskControlInfoMatchesUnion | trunk/ptlsim/ptlhwdef.h:1126-1168 | the union built from fields differs from make_mask_control_info of the same fields by exactly its bits 18..31, so the two agree exactly when those bits were zero |
| Uops.MakeMaskControlInfoRoundTrip | trunk/ptlsim/ptlhwdef.h:1126-1168 | unpacking make_mask_control_info(ms, mc, ds) gives ms, mc and ds back, with bits 18..31 clear |
| TransOps.TransOp.constructor | trunk/ptlsim/ptlhwdef.h:1232-1234 | the new uop is initialised as by init |
| TransOps.TransOp.Init | trunk/ptlsim/ptlhwdef.h:1236-1266 | opcode, rd, ra, rb, rc, size, setflags and memid take their arguments truncated to the field widths, and the immediates are stored. Every other field is zero |
| TransOps.InitKeepsFittingOperands | trunk/ptlsim/ptlhwdef.h:1236-1249 | arguments that fit their fields are stored unchanged |
| TransOps.InitTruncatesWideOperands | trunk/ptlsim/ptlhwdef.h:1219-1237 | an opcode of 128 is stored as 0 and a register of -1 as 127 |
| TransOps.BasicBlock.constructor | trunk/ptlsim/ptlhwdef.h:1343 | a block as `BasicBlock::reset` prepares it: no references |
| TransOps.BasicBlock.Acquire | trunk/ptlsim/ptlhwdef.h:1329-1331 | the reference count grows by one |
| TransOps.BasicBlock.Release | trunk/ptlsim/ptlhwdef.h:1333-1337 | requires a reference (the source asserts the count stays non-negative). The count drops by one, and the result is true exactly when it reaches 0 |
| TransOps.AcquireThenRelease | trunk/ptlsim/ptlhwdef.h:1329-1337 | release undoes acquire and reports unused exactly when the count was 0 before |
| TransOps.ReleaseAll | trunk/ptlsim/ptlhwdef.h:1333-1337 | releasing each of n references leaves the count at 0, and only the n-th release reports the block unused |

## Left out

- The stream and stringbuf classes, `print` members and output operators: file and console I/O.
- `tempbuf`: it depends on `mmap`/`mprotect` guard pages.
- `CRC32` and `HashtableKeyManager<const char*>`: the CRC table is external and the key manager uses `strdup`/`free`. Only W64 keys are modelled.
- `CycleTimer`: it reads the time-stamp counter and works in floating point.
- `indexref`/`indexrefnull`, `array<T, size>` and `Hashtable::getentries`: outside the structures modelled here.
- Hashtables.Hashtable.constructor: setcount is a power of two (2^setbits, setbits at most 31), and the bucket is key % setcount. For another setcount the source buckets by the low log2(setcount) bits and leaves the top buckets unused; that case, and `log2` itself, are not part of this model.
- Hashtables.Hashtable: the value type is W64, and a missing value is reported as `None` by Get and as 0 by Remove, as the source's `false` converts to 0. The entries' `listlink` chains are sequences per bucket; their pointer splicing is modelled by Lists.
- ChunkHashtables.ChunkHashtable: `setof` is supplied by subclasses and is a constructor parameter here. Entries are W64 values and `entries_per_chunk` is from 1 to 63, since `1LL << 64` is undefined. Chunks are values in a sequence per set, so their `listlink` splicing and `delete` are not modelled in place. The source's `count` is never changed by add or remove, and the model keeps it so.
- ChunkHashtables.ChunkHashtable.Add: the `assert(base->add(entry))` is modelled as always executed.
- Lists.ListArena: `listlink` nodes are integer handles into one arena with one root. The `data` pointer is the node's own handle, so Unlink returns the handle. Lists rooted in other variables are separate arenas.
- Queues.QueueArena: `selfqueuelink` and `queuelink` nodes are handles into one arena with one root node; `head()`/`tail()` and the `addto` aliases of addhead are not separate members. A node with null links, which `unlinked()` also accepts, never arises, because nodes are always reset.
- Dynarrays.Dynarray: `int` lengths are unbounded naturals, so 32-bit overflow of `length`/`reserved` is not modelled. Freeing the old storage (`delete[]`) and the destructor are not modelled. `empty()` compares a member function with 0 and is not modelled. `trim()` has an empty body.
- Dynarrays.RoundUp: `(n + g-1) & ~(g-1)` is written as `(n + g-1) / g * g`, which is the same number for the power-of-two granularities the source requires.
- Dynarrays.Dynarray.Pop: requires a non-empty array; the source decrements `length` below 0 on an empty one and reads `data[-1]`.
- Dynarrays.Renew: the slots from oldcount on are default values; the source leaves them uninitialised.
- Bitvecs.Bitvec: only N >= 1 is modelled, since `bitvecbase<0>::getword` allocates. The one-word base `bitvecbase<1>` computes the same words as the general one for every operation modelled except maskop (see Findings). Not modelled: `popcount`, `msb`, `nextlsb`, `accum`, `integer`, `subset`, `allset`/`all`, the bit `reference` class, the copy constructor, and `print`.
- Bitvecs.Bitvec.Set: requires index < N, as does Reset, Assign, Invert and Test; the source does not check the index.
- Bitvecs.Bitvec.Insert: requires len <= 64 and the field to lie inside the words. `v << i` for i of 64 or more is undefined in C and is modelled as x86 does it, as a shift by i % 64.
- Bitvecs.Bitvec.ShiftLeftOp: requires a shift below the word capacity, as does ShiftRightOp; their callers shift only by less than N.
- PageTables: the entries are values, and Level1PTE.Accum returns the updated entry instead of assigning fields in place. Every level's `accum` overload is modelled through the p, rw, us and nx fields it reads.
- PteCache.Context: the page-table walker is a function parameter, with a counter of its calls. No other `Context` member is modelled.
- PteCache.Context.constructor: `Context()` leaves `cached_pte_virt` unset; the model starts from the state `flush_tlb` leaves, every tag invalid. `flush_tlb` is only declared, so FlushTlb models the cache part of its documented effect and not the propagation to core-specific TLBs.
- Uops: the `opinfo` table is external, so the `isclass` predicates take the opcode's `opclass` value. `MakeMaskControlInfo` takes arguments that fit their 6-bit fields. Condition codes are checked against the tttn table of section B.1.4.7 of Intel SDM Vol. 2; the simulator's own flag evaluation is not part of these headers.
- TranslationKeys: `RIPVirtPhys::update` and the constructor from frames are only declared, so they are not modelled.
- TransOps: `BasicBlockChunkList`, `BasicBlockPtr` and the `BasicBlock` members that are only declared.
- TransOps.BasicBlock.constructor: `BasicBlockBase` has no constructor and never sets `refcount`; the model starts from a count of 0, as the only-declared `BasicBlock::reset` is taken to leave it.
- Uops.MakeMaskControlInfoMatchesUnion: the union's field constructor leaves bits 18..31 as they were, so it matches make_mask_control_info only when those bits were zero; the model carries them as the `rest` field.
- Raw 64-bit views are not modelled: the PTEs' `RawDataAccessors`, `SegmentDescriptor(W64)` and `operator W64`, and the packed words of `TransOpBase`. Each record is modelled by its named fields.
- Bitvecs.Extracted: extract, remove and `%` go through `mask` and so through maskop; the model uses the corrected maskop (see Findings), so Extracted, Removed, MaskedTwice and InsertThenExtract state the intended results, not the as-written ones for counts that are multiples of 64.
- The x87/SSE state and inline-asm helpers of `ptlhwdef.h`, and the translation-cache algorithms themselves, are not in the modelled headers.

## Findings

| source | as written | input that shows it | evidently intended | confidence | as-written member | corrected member |
|---|---|---|---|---|---|---|
| trunk/ptlsim/ptlhwdef.h:429-431 | `base0 + (base1 << 16) + (base2 << 24)` is computed in 32-bit `int`, so a base of 2^31 or more goes negative and is sign-extended to W64; the descriptor cache's `operator =` copies that base | base0 = 0, base1 = 0, base2 = 0x80 gives 0xFFFF_FFFF_8000_0000 | the zero-extended 32-bit base 0x8000_0000 | not executed | Segments.BaseAsWrittenSignExtends | Segments.BaseRoundTrip |
| trunk/ptlsim/ptlhwdef.h:977 | the last FP class is joined by a comma, so the comma operator makes `OPCLASS_FP` just `OPCLASS_FP_CONVERTFP` | opclass `OPCLASS_FP_ALU` is not in `OPCLASS_FP` | the union of the seven FP classes | not executed | Uops.FpClassAsWrittenMissesAlu | Uops.FpClassCoversFpClasses |
| tags/import/ptlsim/superstl.h:1674-1681, 1826 | maskop masks word count/64 only when count % 64 != 0, so a count that is a multiple of 64 keeps that whole word. The one-word version masks with bitmask(count % 64), so a count of 64 clears everything. `mask`, `%`, `extract` and `remove` inherit this: `bitvec<64>::extract(0, 64)` gives 0, and `bitvec<128>::remove(0, 1)` ors the old bits 0..63 back in | two all-ones words with count 64 keep bit 64; one all-ones word with count 64 loses bit 0 | keep exactly the bits below count | not executed | Bitvecs.MaskAsWrittenKeepsWholeWord | Bitvecs.MaskWordsBits |
| tags/import/ptlsim/superstl.h:1719-1723 | insertop writes the part of the field that crosses a word boundary into word `wordof(i+1)`, which is word i/64 itself unless i % 64 == 63 | zero words, i = 60, len = 8, x all ones: bit 0 is set and bit 64 stays clear | the high part goes to word i/64 + 1 | not executed | Bitvecs.InsertAsWrittenMisplacesHighPart | Bitvecs.InsertWordsBits |
