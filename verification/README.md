# A verified model of the file system filter

The filter intercepts file system calls by overwriting slots of the vnode operation vectors that all vnodes of a
file system share. This project models the parts of it whose correctness is hardest to see, and proves in Dafny what
they promise. The files follow the structure of the program.

**Hooking** (`FsdFilter/VNodeHook.cpp`, `FsdFilter/VNodeHook.h`). Threads hook and unhook vectors while other
threads dispatch through the same vectors with no lock. `HookProtocol` is a step system: one step is one acquisition
or release of the lock, one slot write, one atomic counter change, one retain or release, or one unlocked slot read.
Any number of threads, vectors, entries and registered operations take part, and every allocation may fail. A step
never blocks on a mistake: touching a freed entry or saving over an original raises a fault flag, which is proved
never to be raised. `HookInvariant` says what every step keeps, `HookSteps`, `HookRefs`, `HookData` and `HookKept`
prove it step by step, and `HookTheorems` draws the conclusions for all schedules. `VnodeHook` has the same calls as
methods that update the vectors and the table in place, one call at a time, against the functions of `HookSpec`,
which also holds the theorems on runs of calls. `HookLedger` counts the calls on one vector in a run of the step
system and says what a step does for that vector, `HookMoves` and `HookOwners` what it does to table, counters and
entries; `HookStages` and `HookApart` prove what the counter promises when callers keep some of their calls on a
vector apart, and `HookRace` has a run in which the promises fail and, from it, exactly which calls have to be kept
apart. `HookEvents` ties that to the events of a schedule alone, and `HookEnds` proves that calls end. The table from
vector to entry is a map here; that the hash table below behaves as one is `HashRuns.RunIsMapRun`, and that lookups by
several readers at once may be taken as steps of their own is `HashTable.Table.Get`: without a heuristic they write
nothing.

**Page copy** (`FsdFilter/VmPmap.cpp`). `PageCopy` walks source and destination pages independently over a partial
page map and a physical memory that is an array of bytes. Addresses are 64 bits wide and wrap.

**Hash table** (`FsdFilter/CommonHashTable.cpp`). `HashTable` has the table as objects with the pointers of the
original: each entry is on the chain of its bucket and on the list of all entries by age. `HashLists` says what well
formed lists are, `HashSpec` what the table means (a dictionary that remembers insertion order), `HashBuckets` how
its items fall into buckets, what eviction and doubling do to them and what rehashing costs, `HashChains` how the
heuristics reorder a chain; `PowersOfTwo` is about masks. `HashRuns` has the theorems on any sequence of calls,
`HashRecency` says which item a full bucket gives up, and `HashWalks` has those on iterators.

**Decoder** (`FsdFilter/distorm/distorm3/src`). `PrefixScan`, `OpcodeTrie`, `OperandBytes`, `DecodeInst` and
`DecodeLoop` follow prefix.c, instructions.c, operands.c and decoder.c; each has the code as methods over a cursor
and the bytes left to pay for, and the functions they are proved to compute. The text of prefix.c is not UTF-8, so
the rows about it cite its caller and its headers. The trie is any that is well formed (`X86`): lists of 8, 256, 72
or 12 nodes, nested as the generated tables nest them. `VexPrefixes` is about the prefixes in front of VEX.
`DecodeRun` is about whole decodes and knows nothing of x86: what filter, stop flags and capacity make of the plain
result; `DecodeRoom` says exactly when the capacity is enough. The limit of 15 bytes is that of section 2.3.11 of the
Intel 64 and IA-32 Architectures Software Developer's Manual, Volume 2A.

Against the decoder stands an assembler, which says how instructions are written, piece by piece. `PrefixBytes` has
the bytes of prefixes, REX and VEX, `OpcodePaths` the ways through the trie, `AddressForms` and `OperandPieces` the
addressing forms and the operands of each type, and `Assembly` whole instructions. Each piece is read back and
whatever is read is such a piece, so the decoder is the inverse of the assembler: `Assembly.WrittenIsDecoded`,
`Assembly.DecodedIsWritten`, `Assembly.NothingElseIsDecoded`. `PrefixEffects` draws from this what mandatory prefixes
select and which sizes are in effect, `Listings` what becomes of a whole listing, and `FunctionStart` models the one
use the filter makes of the decoder, recognising the start of a function in memory (`FsdFilter/FltFakeFSD.cpp`);
`Prologue` proves that the operation listed in a comment there is recognised.

**Text** (textdefs.c, wstring.c, distorm.c). `HexSpec` says what the hexadecimal printers write and how to read it
back, `HexText` has the printers, and `Distorm` the conversion of the result array in place, the hex dumps and the
signed displacements.

All lemmas turn off automatic induction, so that the proofs are those in the text.

## Where the code does less than it promises

- With calls interleaved, a vector can be restored while a hook is outstanding, and the assertion that a removed
  entry has counter zero (`FsdFilter/VNodeHook.cpp:568`) fails: `HookRace.OutstandingHookIsLost`,
  `HookRace.CountedEntryIsRemoved`. Between the decrement and the exclusive lock another thread can remove the entry
  and a third can publish a new one. What callers have to do, when each unhook call is matched by an earlier hook call,
  is exactly to keep unhook calls on a vector apart from hook calls, or to keep them apart from each other, in which
  case hook calls may overlap anything: both promises then hold in all schedules (`HookApart.CounterKept`), and under
  any other choice of which calls may overlap there is a schedule in which each fails (`HookRace.ExactlyTheSafe`).
  Hook calls come with every access to a file (`FsdFilter/Kauth.cpp:89`) and unhook calls from reclaiming a vnode
  (`FsdFilter/VFSHooks.cpp:380`), and neither holds a lock around its call. Transparency, reference counts and saved
  originals hold whatever overlaps.
- The page copy returns 32 bits of a 64-bit count: `PageCopy.ReturnedLengthMeansDone` has the exact condition,
  `PageCopy.LongCopyReportsZero` an input beyond it.
- Text for 16-bit code shows other bytes than those decoded when the offset does not fit 16 bits:
  `Distorm.HexIndexIsRight`, `Distorm.FitsEverywhere`, `Distorm.HexIndexCanBeWrong`.
- The text of 16- and 32-bit code shows a negative displacement as a positive one. The decoder cuts it to the address
  mask first (decoder.c:507), so that the printer, which would write a minus sign (distorm.c:93-104), never sees it
  negative: 8b 45 f8, which reads 8 bytes below EBP, is shown with +0xfffffff8
  (`Distorm.NegativeDispIsShownPositive`). `Distorm.DispIsShown` says exactly when the text is right: always in 64-bit
  code, in 32-bit code for displacements that are not negative, in 16-bit code for those that are also below 64 K.
  Modulo the address space the text is always right: `Distorm.CutDispIsCongruent`.
- A comment says that REX in front of VEX makes an instruction illegal (instructions.c:184). The decoder has dropped
  the REX by then, and with it the record of what kind of VEX there is: `VexPrefixes.RefusedPrefixes`,
  `VexPrefixes.RexHidesShortVex`. So 40 c5 e1 58 c0 is decoded, as VADDPS and not as the VADDPD that it is without
  the REX, by the tables of insts.c:2259-2277: `VexPrefixes.RexBeforeVexIsDecoded`. This is the only exception to
  `Assembly.DecodedIsWritten`. Another comment gives c4 for the short VEX and c5 for the long one (prefix.c:182-186);
  the code has them the right way round. The model follows the code.
- The header lets the callback for evicted entries refuse one (`FsdFilter/CommonHashTable.h:319-321`); the code ignores
  what it returns (`FsdFilter/CommonHashTable.cpp:583`), and the model follows the code.
- With bounded buckets the table is meant to act as a cache (`FsdFilter/CommonHashTable.h:306`). With move-to-front it
  gives up the entry of the bucket used longest ago, but a rehash forgets all uses, since it lists every chain by age:
  `HashRecency.LeastRecentGoes` counts uses from the last rehash on.
- The comment at ght_create says that the size is higher than the one asked for
  (`FsdFilter/CommonHashTable.cpp:400`); a size that is a power of two stays as it is.

## Model

| member | source | states |
|---|---|---|
| `HookTheorems.Transparency` | FsdFilter/VNodeHook.cpp:133-229 | in every interleaving, whatever the schedule and whichever allocations fail, a call that VFS makes through a registered slot with no lock ends in that vector's own pristine file system function, never in a hook and never in NULL |
| `HookTheorems.ReachableInvariant` | FsdFilter/VNodeHook.cpp:233-641 | every state that any schedule of hooking, unhooking and dispatching threads reaches satisfies the whole invariant: lock, reference counts, vectors, table, saved originals |
| `HookKept.StepKeepsInvariant` | FsdFilter/VNodeHook.cpp:233-641 | one step of any thread, from any state that satisfies the invariant, keeps it |
| `HookTheorems.WhenTheLockIsFree` | FsdFilter/VNodeHook.cpp:337-475 | whenever no one holds the lock exclusively, a vector in the table has the hooks in all its registered slots and the pristine functions in its entry, and any other vector is pristine slot for slot |
| `HookKept.SlotIsHookOrOriginal` | FsdFilter/VNodeHook.cpp:412-467 | at any instant, lock or no lock, a registered slot holds its own hook or the file system's own function |
| `HookTheorems.UnregisteredSlotsNeverChange` | FsdFilter/VNodeHook.cpp:382-469 | no step of any run changes a slot without a registered hook |
| `HookTheorems.HookNeverSaved` | FsdFilter/VNodeHook.cpp:412-458 | no entry, not even one that has left the table, ever has a hook saved as an original |
| `HookTheorems.NeverFaults` | FsdFilter/VNodeHook.h:170-177 | no run saves over an original that is already set, touches a freed entry, releases more than was retained, or indexes a slot that is not there |
| `HookTheorems.ReferencesConserved` | FsdFilter/VNodeHook.cpp:300-334 | an entry's reference count is one for the table plus one for each thread that holds it, and an entry that is not alive was freed exactly once and nobody can reach it |
| `HookTheorems.NothingLeaks` | FsdFilter/VNodeHook.cpp:471-483 | when all calls have returned, the entries alive are exactly those in the table, each with one reference, and the lock is free; the lost race and the failed add included |
| `HookTheorems.FreedForGood` | FsdFilter/VNodeHook.cpp:528-566 | an entry once freed is never alive again and never freed again, whatever runs afterwards |
| `HookTheorems.NoDeadlock` | FsdFilter/VNodeHook.h:295-345 | while any call is in progress, some thread inside a call can take its next step |
| `HookEnds.StepEnds` | FsdFilter/VNodeHook.cpp:133-641 | a step of a thread inside a call either waits for the lock and changes nothing, or brings its call nearer to its end |
| `HookEnds.CallEnds` | FsdFilter/VNodeHook.cpp:233-641 | whatever the other threads do, a call is over after at most 3n + 12 steps of its own in which it does not wait for the lock, with n registered operations |
| `HookEnds.AllEnd` | FsdFilter/VNodeHook.cpp:233-641 | from every reachable state the calls in progress can all be run to their end without starting another call and without a step that waits: a state from which a call could no longer end is never reached |
| `HookEvents.CallsAreBooked` | FsdFilter/VNodeHook.cpp:300-352 | for every schedule, the hook and unhook calls counted on a vector are those its events start, and no more hook calls are given up than events in which memory is refused, so none if memory is never refused |
| `HookEvents.StartsDecide` | FsdFilter/VNodeHook.cpp:300-352 | on events alone: if no allocation fails and callers keep calls apart as above, then whenever no hook or unhook call on the vector is in progress, it is in the table, hooked in all registered slots, with a counter of hook calls started minus unhook calls started, if that is positive, and otherwise pristine slot for slot and out of the table |
| `HookApart.CounterKept` | FsdFilter/VNodeHook.cpp:300-352 | with calls interleaved, as long as unhook calls on a vector are kept apart from hook calls, or from each other, and each is matched by an earlier hook call: an entry taken out of the table has counter zero, and whenever no call on the vector is in progress it is hooked if and only if the hook calls not given up outnumber the unhook calls, its counter is the difference, and otherwise it is pristine slot for slot; all other calls, on this vector or others, overlap as they like |
| `HookApart.RunIsSound` | FsdFilter/VNodeHook.cpp:538-568 | in every state of such a run: the counter is increments minus decrements, the calls under way are those started and not yet counted, every thread that has looked the vector up still has the entry of the table, an entry about to be removed counts nothing, and at most one thread wants to remove it |
| `HookStages.SoundKept` | FsdFilter/VNodeHook.cpp:233-641 | each single act of a thread on the vector keeps that, under either way of keeping calls apart |
| `HookStages.DropperMeans` | FsdFilter/VNodeHook.cpp:524-533 | an unhook call that has not decremented the counter yet finds the vector hooked |
| `HookStages.RemoverMeans` | FsdFilter/VNodeHook.cpp:544-564 | while a thread removes the entry no other call on the vector needs it: each has yet to look the vector up, waits with an entry of its own, or is done with it; if hook calls are kept apart from unhook calls, only the last |
| `HookOwners.OwnedKept` | FsdFilter/VNodeHook.cpp:331-360 | an entry allocated for one vector is never held or entered for another, in any run |
| `HookLedger.ThreadGoes` | FsdFilter/VNodeHook.cpp:233-641 | every step of the protocol is, seen from one vector, one of a few acts between the stages of a call |
| `HookMoves.ThreadMoves` | FsdFilter/VNodeHook.cpp:831-887 | only adding and removing an entry change the table, and a thread gets an entry from the table, from its step before, or newly allocated |
| `HookMoves.ThreadCounts` | FsdFilter/VNodeHook.h:197-212 | a step changes the counter of the entry it increments or decrements by one, and no other |
| `HookRace.CountedEntryIsRemoved` | FsdFilter/VNodeHook.cpp:538-568 | the assertion that a removed entry has counter zero fails: a run in which thread 1 takes out of the table an entry whose counter is 1 |
| `HookRace.OutstandingHookIsLost` | FsdFilter/VNodeHook.cpp:538-628 | that run to its end: three hook calls and two unhook calls have returned, none failed, no two hook calls overlapped, and the vector is pristine and out of the table although a hook is outstanding; no schedule that leads there keeps unhook calls apart from hook calls, or from each other |
| `HookRace.ExactlyTheSafe` | FsdFilter/VNodeHook.cpp:300-328 | for any choice of which hook and unhook calls on a vector may overlap: either promise holds in all schedules if and only if the choice keeps unhook calls apart from hook calls, or from each other |
| `HookRace.ReachedIsRun` | FsdFilter/VNodeHook.cpp:495-641 | the states of that run are reached by a schedule of the protocol in a valid environment, in which each unhook call is matched and hook calls do not overlap each other |
| `HookSpec.BalancedHooking` | FsdFilter/VNodeHook.cpp:300-328 | with calls atomic and each unhook matched by an earlier hook, the counter is hooks minus unhooks, the vector is hooked while that is positive, and the last unhook restores it slot for slot |
| `HookSpec.AnyRun` | FsdFilter/VNodeHook.cpp:495-641 | the same for any sequence of calls, where an unhook of a vector that is not hooked changes nothing |
| `HookSpec.UnhookUndoesHook` | FsdFilter/VNodeHook.cpp:578-628 | one unhook undoes one hook: the vector is what it was and the entry is gone |
| `HookSpec.OriginalsThroughout` | FsdFilter/VNodeHook.cpp:147-228 | throughout a balanced run a caller that asks for an original is given the file system's own function |
| `HookSpec.HookedAt` | FsdFilter/VNodeHook.cpp:382-469 | the hooking loop leaves operation j's hook in operation j's slot, and all other slots alone |
| `HookSpec.SavedAt` | FsdFilter/VNodeHook.cpp:412-458 | the hooking loop saves under each operation's own enum index the function that was in its slot |
| `HookSpec.RestoredAt` | FsdFilter/VNodeHook.cpp:578-628 | the restoring loop puts back each saved original except those marked as not hooked, and leaves all other slots alone |
| `VnodeHook.HooksTable.HookVnodeVop` | FsdFilter/VNodeHook.cpp:233-491 | vnodes other than regular files and directories (VREG, VDIR) are left alone with success; for those two, the status for each failing allocation, and the vector and its entry become what one hook makes of them; all other vectors and entries stay as they are |
| `VnodeHook.HooksTable.UnHookVnodeVop` | FsdFilter/VNodeHook.cpp:495-641 | for VREG and VDIR the vector and its entry become what one unhook makes of them, any other vnode changes nothing; all other vectors and entries stay as they are |
| `VnodeHook.HooksTable.GetOriginalVnodeOp` | FsdFilter/VNodeHook.cpp:133-229 | the saved original of a hooked vector, the slot itself of any other |
| `VnodeHook.HooksTable.InstallHooks` | FsdFilter/VNodeHook.cpp:379-469 | the loop in place: the whole vector and the whole originals array afterwards |
| `VnodeHook.HooksTable.RestoreOriginals` | FsdFilter/VNodeHook.cpp:575-628 | the loop in place: the whole vector afterwards |
| `VnodeHook.HooksTable.AddAndHook` | FsdFilter/VNodeHook.cpp:354-469 | the exclusive section: the entry is in the table with counter one and the vector is hooked |
| `VnodeHook.Entry.SetOriginalVop` | FsdFilter/VNodeHook.h:170-177 | needs the place still to be NULL, and fills that place and no other |
| `VnodeHook.Entry.IncrementVnodeCounter` | FsdFilter/VNodeHook.h:197-202 | one more, and returns the value before |
| `VnodeHook.Entry.DecrementVnodeCounter` | FsdFilter/VNodeHook.h:207-212 | one less, and returns the value before |
| `PageCopy.WriteWiredSrcToWiredDst` | FsdFilter/VmPmap.cpp:50-104 | for any partial page map and any alignment: exactly the first n bytes arrive (when source and destination are physically apart), nothing else in memory changes, and n is as far as both sides translate; the value returned is n cut to 32 bits |
| `PageCopy.Reach` | FsdFilter/VmPmap.cpp:72-77 | how far a copy gets: every byte before translates on both sides, and the byte where it stops does not |
| `PageCopy.ReturnedLengthMeansDone` | FsdFilter/VmPmap.cpp:103 | the value returned equals `len` if and only if `len` is below 2^32 and every touched page translates to a non-zero address |
| `PageCopy.LongCopyReportsZero` | FsdFilter/VmPmap.cpp:50-104 | an input on which the returned value is not the number of bytes copied: a complete copy of 4 GB returns zero |
| `PageCopy.ChunkSize` | FsdFilter/VmPmap.cpp:79-90 | a chunk is not empty, crosses no page on either side, and ends at a page boundary unless it is the last |
| `PageCopy.CopyChunk` | FsdFilter/VmPmap.cpp:92-96 | one chunk adds its bytes to those that have arrived and touches no other byte |
| `PageCopy.TranslationParts` | FsdFilter/VmPmap.cpp:41-45 | a translation keeps the offset in the page and takes the frame from the map; zero means no mapping, or frame zero |
| `PageCopy.ChunkInPages` | FsdFilter/VmPmap.cpp:79-100 | a chunk within one page on each side translates throughout and is physically contiguous on both |
| `PageCopy.SlotWriteCompletes` | FsdFilter/VNodeHook.cpp:463-467 | the 8-byte slot write that the hooks make returns 8 when both ends translate |
| `HashRuns.FromEmpty` | FsdFilter/CommonHashTable.cpp:381-720 | any sequence of insert, get, replace, remove and rehash on a new table, under any heuristic and any limit: its answers, the items pushed out included, its items by age and the keys of every chain in order are those of the step function; with unbounded buckets it answers as a plain map; with bounded ones no bucket exceeds the limit; with automatic rehashing the rehashes move at most three entries for each successful insert |
| `HashRecency.LeastRecentGoes` | FsdFilter/CommonHashTable.cpp:566-583 | after any calls on a new table, without heuristics or with move-to-front, an insert into a full bucket pushes out the key of that bucket inserted or found longest ago, counting from the last rehash: all keys used before it belong in other buckets; without heuristics it is the oldest item of the bucket |
| `HashRecency.RunTraced` | FsdFilter/CommonHashTable.cpp:520-720 | in every run each chain lists the keys of its bucket in the order of their use, the last first |
| `HashRuns.RunIsTidy` | FsdFilter/CommonHashTable.cpp:157-206 | in every run, under any heuristic, each chain lists the keys of its bucket, each once |
| `HashRuns.Perform` | FsdFilter/CommonHashTable.cpp:520-915 | any sequence of calls gives exactly the answers, and leaves exactly the items and chains, that the step function gives |
| `HashRuns.EnterMeans` | FsdFilter/CommonHashTable.cpp:549-609 | what an insert of a new key does, counted on the items of its bucket: the size doubles exactly if the table does so of itself and has more than twice as many items as buckets; an item is pushed out exactly if the bucket has reached a limit, and it is one of that bucket, the last of its chain; all other items stay in order, the new one is the newest and in front of its chain |
| `HashRuns.RunIsMapRun` | FsdFilter/CommonHashTable.cpp:520-720 | with unbounded buckets the step function is a plain map, call by call |
| `HashRuns.RunStaysWithin` | FsdFilter/CommonHashTable.cpp:549-594 | no bucket ever exceeds the limit, automatic doubling included, whatever heuristic reorders the chains |
| `HashRuns.StepIsPaid` | FsdFilter/CommonHashTable.cpp:549-594 | one call keeps the account of moved entries, whether an insert doubles the table or not, and whatever is removed or evicted |
| `HashRuns.RunIsPaid` | FsdFilter/CommonHashTable.cpp:549-555 | never more than twice the size plus one items, and all rehashes together move at most three entries for each insert |
| `HashRuns.InsertsAreOks` | FsdFilter/CommonHashTable.cpp:609 | the inserts counted are those that returned GHT_OK |
| `HashRuns.RoundUpIs` | FsdFilter/CommonHashTable.cpp:400-407 | the size computed by doubling is the least power of two not below the one asked for |
| `HashRuns.InsertIsStep` | FsdFilter/CommonHashTable.cpp:557-607 | an insert that puts its key in front of its chain, and pushes out the last of a full one, is the step |
| `HashRuns.ExecuteInsert` | FsdFilter/CommonHashTable.cpp:520-610 | an insert in place is that step |
| `HashSpec.LookupIsMapLookup` | FsdFilter/CommonHashTable.cpp:614-640 | a lookup answers what the map of the items has for the key, NULL for a missing one |
| `HashSpec.InsertIsMapUpdate` | FsdFilter/CommonHashTable.cpp:596-609 | appending a new key is one more entry of the map |
| `HashSpec.RemoveIsMapRemove` | FsdFilter/CommonHashTable.cpp:678-720 | removing an item removes its key from the map and nothing else |
| `HashSpec.ReplaceIsMapUpdate` | FsdFilter/CommonHashTable.cpp:644-674 | replacing updates the map at a key it has, and does nothing for any other key |
| `HashChains.SoughtMeans` | FsdFilter/CommonHashTable.cpp:157-206 | a lookup keeps its chain's keys and, but for the one found, their order; a found key stays where it is without heuristics, ends one place nearer the front under transposing and in front under move-to-front; without a find nothing moves |
| `HashBuckets.InsertStaysWithin` | FsdFilter/CommonHashTable.cpp:566-594 | without heuristics an insert into a bucket at its limit evicts exactly the oldest item of that bucket, any other insert evicts nothing, and the limit is kept |
| `HashBuckets.InsertedAtStaysWithin` | FsdFilter/CommonHashTable.cpp:566-594 | whichever item of a full bucket goes, the limit is kept |
| `HashBuckets.LastIsOldest` | FsdFilter/CommonHashTable.cpp:572-580 | the last of a bucket's newest-first chain is its oldest item |
| `HashBuckets.DoublingStaysWithin` | FsdFilter/CommonHashTable.cpp:549-555 | a bucket of the doubled table is part of one old bucket, so doubling keeps the limit |
| `HashBuckets.RemoveStaysWithin` | FsdFilter/CommonHashTable.cpp:699-716 | a removal keeps the limit |
| `HashBuckets.BucketsSumUp` | FsdFilter/CommonHashTable.cpp:587-594 | every item is in exactly one bucket |
| `HashBuckets.NewestCounts` | FsdFilter/CommonHashTable.cpp:587-594 | a bucket's chain is as long as there are items that belong in it |
| `HashBuckets.MovesAreBounded` | FsdFilter/CommonHashTable.cpp:874-886 | from that account: at most three moved entries for each insert |
| `PowersOfTwo.MaskIsModulo` | FsdFilter/CommonHashTable.cpp:536 | masking with a power of two less one is the remainder |
| `PowersOfTwo.DoubledModulo` | FsdFilter/CommonHashTable.cpp:552-554 | the bucket in the doubled table determines the bucket in the old one |
| `HashTable.Table.Insert` | FsdFilter/CommonHashTable.cpp:520-610 | the status; on a duplicate or a failed allocation nothing at all changes; else the items afterwards, the item evicted, the key in front of its chain and the last of a full one gone, the size and what was moved, with both linked structures well formed |
| `HashTable.Table.Get` | FsdFilter/CommonHashTable.cpp:614-640 | the data of the key and the same items in the same age order; an entry found moves in its chain exactly as the heuristic says, and all else stays; without a heuristic nothing at all is written |
| `HashTable.Table.Replace` | FsdFilter/CommonHashTable.cpp:644-674 | the previous data, the items with that one replaced, and the chains as after a lookup |
| `HashTable.Table.Remove` | FsdFilter/CommonHashTable.cpp:678-720 | the data of the key, and the items and the chain without it in the same order |
| `HashTable.Table.Rehash` | FsdFilter/CommonHashTable.cpp:846-915 | terminates with the same items in the same age order, every entry in the bucket of the new mask, and every chain newest first |
| `HashTable.Table.Refilled` | FsdFilter/CommonHashTable.cpp:863-886 | the new table after the loop: the old items in the old order, all moved once |
| `HashTable.Table.MoveAll` | FsdFilter/CommonHashTable.cpp:874-886 | the loop: what the new table holds is always the oldest part of the old |
| `HashTable.Table.TakeOver` | FsdFilter/CommonHashTable.cpp:902-910 | the old table becomes the new one |
| `HashTable.Table.RehashIfFull` | FsdFilter/CommonHashTable.cpp:549-555 | doubles when there are more than twice as many items as buckets, and otherwise changes nothing |
| `HashTable.Table.MoveToFront` | FsdFilter/CommonHashTable.cpp:87-114 | the chain with the entry first and the others in their order, all pointers right |
| `HashTable.Table.Transpose` | FsdFilter/CommonHashTable.cpp:45-82 | the chain with the entry and the one before it exchanged, all pointers right |
| `HashTable.Table.SearchInBucket` | FsdFilter/CommonHashTable.cpp:157-206 | the entry with the key if and only if there is one, and the chain reordered by the heuristic, with nothing written if there is none |
| `HashTable.Table.FindInBucket` | FsdFilter/CommonHashTable.cpp:170-182 | the entry of the chain with the key, or none has it |
| `HashTable.Table.FoundMeans` | FsdFilter/CommonHashTable.cpp:170-200 | what one bucket says about a key holds for the whole table |
| `HashTable.Table.RemoveFromChain` | FsdFilter/CommonHashTable.cpp:118-149 | both lists without the entry, all pointers right |
| `HashTable.Table.Unchain` | FsdFilter/CommonHashTable.cpp:120-131 | the chain without the entry |
| `HashTable.Table.Unage` | FsdFilter/CommonHashTable.cpp:133-148 | the age list without the entry |
| `HashTable.Table.Detach` | FsdFilter/CommonHashTable.cpp:700-707 | the entry out of both lists and out of the counts |
| `HashTable.Table.RemoveEntry` | FsdFilter/CommonHashTable.cpp:699-716 | the table stays well formed and the other entries keep their order, in their chain and by age |
| `HashTable.Table.LinkFirst` | FsdFilter/CommonHashTable.cpp:557-564 | the new entry in front of its chain |
| `HashTable.Table.LastInChain` | FsdFilter/CommonHashTable.cpp:576-580 | the loop finds the last entry of the chain |
| `HashTable.Table.AppendNewest` | FsdFilter/CommonHashTable.cpp:596-607 | the new entry last by age |
| `HashTable.Table.PlaceWithRoom` | FsdFilter/CommonHashTable.cpp:587-607 | one more item, the newest, in its bucket |
| `HashTable.Table.PlaceEvicting` | FsdFilter/CommonHashTable.cpp:566-586 | the last entry of the chain goes, which without heuristics is the oldest item of the bucket |
| `HashTable.Table.PlaceEntry` | FsdFilter/CommonHashTable.cpp:557-607 | the items after placing an entry, by the limit |
| `HashTable.Table.IsPresent` | FsdFilter/CommonHashTable.cpp:537-541 | whether the key is there, with nothing reordered |
| `HashTable.Table.constructor` | FsdFilter/CommonHashTable.cpp:381-454 | an empty well-formed table of the rounded size |
| `HashTable.Table.Configure` | FsdFilter/CommonHashTable.cpp:475-500 | changes the settings and keeps the table well formed |
| `HashTable.Table.MaskedIsSlot` | FsdFilter/CommonHashTable.cpp:536 | the masked hash value is the index of the key's bucket |
| `HashTable.Table.ChainLength` | FsdFilter/CommonHashTable.cpp:587-594 | `p_nr` of a bucket is the length of its chain and the number of items that belong in it |
| `HashTable.Table.ChainsSumUp` | FsdFilter/CommonHashTable.cpp:593 | `i_items` is the sum of `p_nr` and the number of items |
| `HashTable.Table.LastInChainIsOldest` | FsdFilter/CommonHashTable.cpp:572-582 | in a table that is newest first, the entry evicted is the oldest of its bucket |
| `HashTable.Table.NewestAfterPlacing` | FsdFilter/CommonHashTable.cpp:557-607 | an insert keeps every chain newest first |
| `HashTable.Table.NewestAfterRemoval` | FsdFilter/CommonHashTable.cpp:118-149 | a removal keeps every chain newest first |
| `HashTable.TableSize` | FsdFilter/CommonHashTable.cpp:400-407 | the least power of two not below the size asked for, and its mask |
| `HashTable.Iterator.First` | FsdFilter/CommonHashTable.cpp:724-747 | the walk starts at the oldest entry |
| `HashTable.Iterator.Next` | FsdFilter/CommonHashTable.cpp:766-792 | the walk goes to the next newer entry, or ends |
| `HashWalks.Walk` | FsdFilter/CommonHashTable.h:442-449 | a whole walk visits exactly the items that were in the table, once each, oldest to newest, whatever the caller looks up in between and whichever visited entries, the current one included, it removes; and the table then has, in the same order, all items but those removed |
| `HashWalks.Turn` | FsdFilter/CommonHashTable.cpp:766-792 | one step of a walk after anything the caller may do: the next item not yet visited, with just the items removed gone |
| `HashWalks.Do` | FsdFilter/CommonHashTable.cpp:118-149 | a lookup leaves all items, the removal of a visited entry takes out just that item, and both leave what the walk has ahead as it is |
| `HashWalks.Visit` | FsdFilter/CommonHashTable.cpp:766-792 | one turn of the loop of the caller keeps what the walk promises: visited are the first items, ahead the others, and in the table those not removed |
| `HashWalks.RemovedFromLeft` | FsdFilter/CommonHashTable.cpp:678-720 | removing the key of one of the items from what is left of them takes out that item and no other |
| `HashWalks.GoneMeans` | FsdFilter/CommonHashTable.h:442-449 | which items are gone: those the caller asks to forget at a turn that has visited them |
| `HashWalks.LeftHas` | FsdFilter/CommonHashTable.h:442-449 | an item is left if and only if it is one of those not gone |
| `DecodeInst.InstructionFits` | FsdFilter/distorm/distorm3/src/decoder.c:214-219 | an instruction has at least one byte, lies inside the buffer, and with its prefixes is at most 15 bytes long, for every well-formed trie and every byte string |
| `DecodeInst.Decode` | FsdFilter/distorm/distorm3/src/decoder.c:79-359 | the verdict on the bytes; on success without the WAIT fallback the size is what the cursor advanced and what was debited; all gates and bytes are indexed in range |
| `DecodeInst.TryDecode` | FsdFilter/distorm/distorm3/src/decoder.c:109-219 | succeeds if and only if there is an instruction, and ends right behind it |
| `DecodeInst.ReadModrm` | FsdFilter/distorm/distorm3/src/decoder.c:149-163 | fails if and only if the ModR/M byte is missing or has a forbidden form |
| `DecodeInst.DecodeFound` | FsdFilter/distorm/distorm3/src/decoder.c:118-219 | from the found instruction on, the same |
| `DecodeInst.DecodeSuffix` | FsdFilter/distorm/distorm3/src/decoder.c:199-219 | from behind the operands on: the byte of 3DNow!, the comparison byte below 8, and the limit of 15 bytes |
| `Assembly.WrittenIsDecoded` | FsdFilter/distorm/distorm3/src/decoder.c:405-556 | for every well-formed trie, every mode and every way to write an instruction (prefixes, VEX, opcode path, ModR/M byte, operands in any addressing form, suffix), with fewer than 15 bytes of prefixes and an opcode that is not itself read as a prefix, and with any bytes behind it: the decoder takes exactly that code for exactly that instruction if it has at most 15 bytes; longer code is dropped up to its first opcode byte, or is WAIT up to there |
| `Assembly.DecodedIsWritten` | FsdFilter/distorm/distorm3/src/decoder.c:405-556 | the converse: whatever is decoded as an instruction is such code, of at most 15 bytes, and ends where the instruction ends; the only exception is a short VEX behind REX |
| `Assembly.NothingElseIsDecoded` | FsdFilter/distorm/distorm3/src/decoder.c:421-535 | bytes that start with no such code are dropped: only prefixes as so many bytes, anything else up to the first byte behind its prefixes, and 9b there is WAIT |
| `Assembly.LeftIsAdjusted` | FsdFilter/distorm/distorm3/src/decoder.c:462-481 | what the decoder keeps of the prefixes it read: in 64-bit code REX only right before the opcode, and no overrides of CS, SS, DS or ES |
| `Listings.ListingIsDecoded` | FsdFilter/distorm/distorm3/src/decoder.c:405-556 | a listing of such code is decoded line by line, each line at its address, and what follows as if decoded from there |
| `Listings.ListingIsUsed` | FsdFilter/distorm/distorm3/src/decoder.c:483-556 | with one entry of room for each line, no filter and no stop flags, a run uses exactly one entry for each line |
| `FunctionStart.IsFunctionAt` | FsdFilter/FltFakeFSD.cpp:1520-1724 | DdIsFunctionAtKernelAddress: true if and only if all hundred bytes are backed by memory and the decoder, in the mode of the kernel, uses fifteen entries for them, the first a push and the second a move |
| `FunctionStart.TwoBytesAreEnough` | FsdFilter/FltFakeFSD.cpp:1545-1556 | the check of the first byte, and of the last if the end is on another page, tells whether all hundred bytes are backed by memory |
| `FunctionStart.ListingIsRecognised` | FsdFilter/FltFakeFSD.cpp:1573-1584 | fifteen instructions that fit into the hundred bytes, the first a push and the second a move, are recognised whatever follows them |
| `Prologue.OperationIsRecognised` | FsdFilter/FltFakeFSD.cpp:1586-1603 | the start of an operation that the filter notes as genuine, its fifteen instructions assembled and followed by any bytes: it is decoded as those instructions, each at the address noted beside it, and recognised as a function, by the entries of the generated tables for them (insts.c:858-863, 964-977, 4474, 4507-4511, 4567) |
| `OpcodeTrie.OpcodeIsNear` | FsdFilter/distorm/distorm3/src/instructions.c:256-450 | an opcode, WAIT included, is at most three bytes long and inside the buffer, and a walk only drops prefixes |
| `OpcodeTrie.InstLookup` | FsdFilter/distorm/distorm3/src/instructions.c:256-450 | the walk over the trie finds what its specification finds, with every byte up to the opcode's last paid for |
| `OpcodeTrie.LookupFirst` | FsdFilter/distorm/distorm3/src/instructions.c:271-383 | the walk from the first opcode byte on |
| `OpcodeTrie.LookupLonger` | FsdFilter/distorm/distorm3/src/instructions.c:385-409 | the walk through a list of 256 |
| `OpcodeTrie.LookupThird` | FsdFilter/distorm/distorm3/src/instructions.c:405-449 | the walk at the third byte |
| `OpcodeTrie.LookupOneByte` | FsdFilter/distorm/distorm3/src/instructions.c:295-337 | the special single-byte instructions |
| `OpcodeTrie.LookupVex` | FsdFilter/distorm/distorm3/src/instructions.c:177-254 | the walk behind a VEX prefix |
| `OpcodeTrie.LookupPrefixed` | FsdFilter/distorm/distorm3/src/instructions.c:121-175 | the choice by mandatory prefix is the one of Select, which `PrefixEffects.OnePrefixSelects` and `PrefixEffects.TwoPrefixesSelect` state on the bytes 66, f3 and f2 |
| `OpcodePaths.SelectIsMandatory` | FsdFilter/distorm/distorm3/src/instructions.c:121-175 | case by case: which of the first four of a prefixed list is chosen and which prefix it uses up; the fallback to the first; with 66 beside f3 or f2 only an instruction that takes an operand size; f3 and f2 together nothing |
| `PrefixEffects.NoPrefixSelects` | FsdFilter/distorm/distorm3/src/instructions.c:127-130 | any well-formed tables with a prefixed list behind 0f: without a prefix the first of the list is found |
| `PrefixEffects.OnePrefixSelects` | FsdFilter/distorm/distorm3/src/instructions.c:131-147 | behind 66 the second of the list is found, behind f3 the third, behind f2 the fourth, and the first if that place is empty |
| `PrefixEffects.TwoPrefixesSelect` | FsdFilter/distorm/distorm3/src/instructions.c:148-174 | behind 66 and f3 the third and behind 66 and f2 the fourth, in either order and only if it takes an operand size; behind f3 and f2 nothing |
| `PrefixEffects.AdditionIsDecoded` | FsdFilter/distorm/distorm3/src/instructions.c:121-175 | with what the generated tables have behind 0f 58 (insts.c:2259-2277): 0f 58 c0 is ADDPS in every mode, whatever follows |
| `PrefixEffects.PrefixedAdditionIsDecoded` | FsdFilter/distorm/distorm3/src/instructions.c:121-175 | and behind 66, f3 and f2 it is ADDPD, ADDSS and ADDSD |
| `PrefixEffects.SizesInEffect` | FsdFilter/distorm/distorm3/src/decoder.c:34-77 | the operand and address size in effect, from the prefixes as written: in each mode without 66 and 67 and with them, and REX.W over 66 in 64-bit code |
| `PrefixEffects.ImmediateSizes` | FsdFilter/distorm/distorm3/src/decoder.c:49-77 | so an immediate as wide as the operand is written in 2 bytes in 16-bit code and 4 elsewhere, the other way round behind 66, and with REX.W in 4 or, for instructions that ask for it, 8 |
| `OpcodePaths.PathIsFound` | FsdFilter/distorm/distorm3/src/instructions.c:256-450 | every way to write an opcode without VEX, with anything behind it: the walk ends at its last byte and finds the instruction that stands there, WAIT, divided lists and mandatory prefixes included |
| `OpcodePaths.FoundIsPath` | FsdFilter/distorm/distorm3/src/instructions.c:256-450 | and whatever the walk finds is an opcode written in such a way |
| `OpcodePaths.VexPathIsFound` | FsdFilter/distorm/distorm3/src/instructions.c:177-254 | the same behind VEX, in the table that its map stands for and at the place that its prefix field and vvvv select |
| `OpcodePaths.FoundIsVexPath` | FsdFilter/distorm/distorm3/src/instructions.c:177-254 | and whatever is found behind VEX is written in such a way |
| `OpcodeTrie.Lookup3DNow` | FsdFilter/distorm/distorm3/src/instructions.c:472-490 | reads one byte if and only if that makes a 3DNow! instruction |
| `OpcodeTrie.DividedIndex` | FsdFilter/distorm/distorm3/src/instructions.c:349-362 | the index in a divided list is below 72 |
| `OpcodeTrie.VexIndex` | FsdFilter/distorm/distorm3/src/instructions.c:181-214 | the index in a prefixed list is at least 4 and below 12 |
| `VexPrefixes.RefusedPrefixes` | FsdFilter/distorm/distorm3/src/instructions.c:184-186 | a VEX instruction is refused for its prefixes if and only if 66, f0, f2 or f3 precedes; a REX, which the comment names too, makes no difference |
| `VexPrefixes.RexHidesShortVex` | FsdFilter/distorm/distorm3/src/decoder.c:462-481 | behind a dropped REX a VEX of two bytes is looked up as one of three |
| `VexPrefixes.RexBeforeVexIsDecoded` | FsdFilter/distorm/distorm3/src/instructions.c:184-214 | an input, with the nodes that the generated tables have behind 0f 58: 40 c5 e1 58 c0 is decoded as VADDPS although REX precedes VEX, without the REX it is VADDPD, and with the REX kept the lookup would refuse it |
| `VexPrefixes.VexAddIsDecoded` | FsdFilter/distorm/distorm3/src/instructions.c:189-229 | the same bytes without the REX are the instruction they should be |
| `VexPrefixes.RexIsDropped` | FsdFilter/distorm/distorm3/src/decoder.c:462-475 | REX in front of VEX is always dropped before the walk |
| `OperandBytes.ReadStream` | FsdFilter/distorm/distorm3/src/operands.c:73-102 | moves on by the size if and only if there are so many bytes, and reads just those |
| `OperandBytes.ExtractMemory` | FsdFilter/distorm/distorm3/src/operands.c:205-485 | moves on by SIB and displacement as the specification says, for every address size, mod and rm; that this is what the addressing forms take is `AddressForms.FormIsRead` |
| `AddressForms.FormIsRead` | FsdFilter/distorm/distorm3/src/operands.c:104-121 | every legal addressing form (16-bit registers, base with no, 1-byte or 4-byte displacement, SIB with and without base, displacement alone), with anything behind it, is read exactly to its end |
| `AddressForms.ReadIsForm` | FsdFilter/distorm/distorm3/src/operands.c:432-473 | and whatever is read is one of the legal forms, with its mod and rm |
| `OperandPieces.PieceIsRead` | FsdFilter/distorm/distorm3/src/instructions.h:37-276 | an operand of each type as it is written, with anything behind it, is read exactly to its end |
| `OperandPieces.ReadIsPiece` | FsdFilter/distorm/distorm3/src/operands.c:502-1298 | and whatever is read for an operand is one as it is written: memory only where a register is not allowed, immediates of their size, registers that exist |
| `OperandPieces.PiecesAreRead` | FsdFilter/distorm/distorm3/src/decoder.c:178-197 | the same for all operands of an instruction, one behind the other |
| `OperandPieces.ReadIsPieces` | FsdFilter/distorm/distorm3/src/decoder.c:178-197 | and back |
| `OperandBytes.Extract` | FsdFilter/distorm/distorm3/src/operands.c:502-1298 | how many bytes an operand takes, and which operands are refused |
| `OperandBytes.ExtractAll` | FsdFilter/distorm/distorm3/src/decoder.c:178-197 | the operands in order, each only if those before it exist |
| `PrefixScan.PrefixesOf` | FsdFilter/distorm/distorm3/src/decoder.c:408-420 | at most 15 bytes of prefixes, all inside the buffer; VEX last or not at all |
| `PrefixScan.PrefixState.Decode` | FsdFilter/distorm/distorm3/src/decoder.c:410-419 | the scan in place finds just those prefixes |
| `PrefixScan.PrefixState.Track` | FsdFilter/distorm/distorm3/src/x86defs.h:56-72 | one turn of the loop of prefixes_decode: a legacy prefix, a REX in 64 bits, or the end |
| `PrefixScan.PrefixState.TrackVex2` | FsdFilter/distorm/distorm3/src/x86defs.h:67-86 | the two-byte VEX, if there is one |
| `PrefixScan.PrefixState.TrackVex3` | FsdFilter/distorm/distorm3/src/x86defs.h:67-86 | the three-byte VEX, if there is one |
| `PrefixScan.KindsAre` | FsdFilter/distorm/distorm3/src/prefix.h:39-50 | a kind of prefix counts as present if and only if one of the leading bytes is such a prefix |
| `PrefixScan.InvalidHasNone` | FsdFilter/distorm/distorm3/src/decoder.c:416-419 | bytes that prefixes_is_valid rejects start no prefix |
| `PrefixBytes.PrefixIsByte` | FsdFilter/distorm/distorm3/src/x86defs.h:56-72 | a byte starts a prefix if and only if it is the byte of a prefix that is legal in the mode, and then it is of that kind |
| `PrefixBytes.RexIsRead` | FsdFilter/distorm/distorm3/src/x86defs.h:70-86 | the bits of REX come back out of its byte |
| `PrefixBytes.RexIsWritten` | FsdFilter/distorm/distorm3/src/x86defs.h:70-86 | and every byte from 40 to 4f is a REX |
| `PrefixBytes.SpelledIsRead` | FsdFilter/distorm/distorm3/src/decoder.c:416-419 | what is read of up to fifteen prefixes as written, with anything behind them that starts with none, is those: each kind once, and of several REX the last |
| `PrefixBytes.ReadIsSpelled` | FsdFilter/distorm/distorm3/src/decoder.c:416-419 | and the prefixes read are written in the leading bytes |
| `PrefixBytes.VexIsRead` | FsdFilter/distorm/distorm3/src/instructions.c:189-214 | VEX behind up to thirteen bytes of other prefixes: its bits, table and place in a prefixed list come back out of its bytes |
| `PrefixBytes.ReadIsVex` | FsdFilter/distorm/distorm3/src/x86defs.h:67-86 | what is read as VEX is VEX as it is written, with the bytes it takes |
| `DecodeLoop.DecodeInternal` | FsdFilter/distorm/distorm3/src/decoder.c:369-557 | the entries used and the outcome are those of the run; without the filter it succeeds if and only if the plain result, cut at the first entry to stop on, has at most `maxResultCount` entries, and then returns just those; nothing at or past the capacity is written |
| `DecodeRoom.FinishesWithRoom` | FsdFilter/distorm/distorm3/src/decoder.c:429-484 | an unfiltered run finishes, with all that is wanted, if and only if there is one entry of room for each wanted entry; otherwise it gives up |
| `DecodeRoom.RoomForAll` | FsdFilter/distorm/distorm3/src/decoder.c:483-484 | so room for the plain result is enough, however many bytes it has |
| `DecodeRoom.GivesUpWhenFull` | FsdFilter/distorm/distorm3/src/decoder.c:483-521 | it gives up only when it has to: the entries used and those of the next step together are more than the room |
| `DecodeRoom.FilteredRoom` | FsdFilter/distorm/distorm3/src/decoder.c:483-503 | with the filter: the entries used are as many of the wanted ones as there is room for, and the run gives up if and only if the room is full and something other than prefixes is still to be decoded, though it might be filtered |
| `DecodeLoop.Turn` | FsdFilter/distorm/distorm3/src/decoder.c:405-554 | one turn: the entry or entries it adds, the bytes it consumes, and what happens next |
| `DecodeLoop.TurnOnPrefixes` | FsdFilter/distorm/distorm3/src/decoder.c:421-452 | a turn that finds only prefixes |
| `DecodeLoop.TurnOnInstruction` | FsdFilter/distorm/distorm3/src/decoder.c:483-553 | a turn that decodes: filter, rollback, drop, stop |
| `DecodeLoop.PutDrops` | FsdFilter/distorm/distorm3/src/decoder.c:518-535 | one entry for each dropped byte |
| `DecodeLoop.ReadPrefixes` | FsdFilter/distorm/distorm3/src/decoder.c:410-452 | whether there is anything but prefixes |
| `DecodeLoop.DecodeBehind` | FsdFilter/distorm/distorm3/src/decoder.c:462-500 | what is decoded behind the prefixes |
| `DecodeLoop.ChunkIsRight` | FsdFilter/distorm/distorm3/src/decoder.c:405-451 | a step covers at least one and at most 15 of the remaining bytes |
| `DecodeLoop.StepsFit` | FsdFilter/distorm/distorm3/src/decoder.c:405-554 | so the loop terminates on every input |
| `DecodeRun.UsedTiles` | FsdFilter/distorm/distorm3/src/decoder.c:405-556 | without the filter, the entries used cover a prefix of the input with no gap or overlap on every return path, and all of it on success without stop flags |
| `DecodeRun.PlainTiles` | FsdFilter/distorm/distorm3/src/decoder.c:405-556 | the plain result covers the whole input |
| `DecodeRun.TileAt` | FsdFilter/distorm/distorm3/src/decoder.c:505-507 | the address of an entry is that of its bytes cut to the mask, and an entry for an undecodable byte is one byte long and tells that byte |
| `DecodeRun.RunIsWanted` | FsdFilter/distorm/distorm3/src/decoder.c:502-553 | with room for `codeLen` entries a run succeeds and returns the plain result filtered and cut at the first entry to stop on |
| `DecodeRun.FilterAlone` | FsdFilter/distorm/distorm3/src/decoder.c:502-503 | with the filter alone: exactly the decoded entries of the plain result whose flow control class is not FC_NONE |
| `DecodeRun.NoFilter` | FsdFilter/distorm/distorm3/src/decoder.c:502-503 | without the filter nothing is left out |
| `DecodeRun.UpToStopIsShortest` | FsdFilter/distorm/distorm3/src/decoder.c:543-553 | what is returned with stop flags is the shortest prefix that ends at a decoded entry whose flow control class is one to stop on, or everything |
| `DecodeRun.NeverPastCapacity` | FsdFilter/distorm/distorm3/src/decoder.c:426-444 | never more entries than there is room for |
| `DecodeRun.GivingUpResumes` | FsdFilter/distorm/distorm3/src/decoder.c:483-521 | after DECRES_MEMORYERR the entries used and the plain result from the first uncovered byte on make up the plain result |
| `DecodeRun.ResumesElsewhere` | FsdFilter/distorm/distorm3/src/decoder.c:483-521 | so decoding the rest as an input of its own, at its own offset, gives exactly the rest, both of the plain result and of the result cut at the first entry to stop on |
| `DecodeRun.UsedGoOn` | FsdFilter/distorm/distorm3/src/decoder.c:483-553 | what is used before a run gives up has no entry to stop on |
| `DecodeRun.PlainOfRest` | FsdFilter/distorm/distorm3/src/decoder.c:405-556 | decoding from some byte on is decoding an input that starts there |
| `DecodeRun.RunIsPrefix` | FsdFilter/distorm/distorm3/src/decoder.c:483-553 | whatever the capacity, an unfiltered run uses a prefix of the plain result |
| `DecodeRun.UsedAreShort` | FsdFilter/distorm/distorm3/src/decoder.c:515 | no entry covers more bytes than the longest step |
| `Distorm.Decode64` | FsdFilter/distorm/distorm3/src/distorm.c:309-371 | DECRES_INPUTERR exactly for a negative length, a decode type other than 0, 1 and 2, and missing code or result, and then the array is left alone; else, on the slots alone and for each of the three types: slot i has the offset of the code plus the sizes of the slots before it, cut to 16, 32 or 64 bits, and twice as many digits as bytes, which read back are its bytes; DECRES_SUCCESS if and only if the sizes add up to all of the code, and if and only if there is room for the plain result |
| `Distorm.TextRenders` | FsdFilter/distorm/distorm3/src/distorm.c:123-139 | that, of one slot: offset, size and digits |
| `Distorm.RoomDecides` | FsdFilter/distorm/distorm3/src/distorm.c:356-370 | it succeeds if and only if there is room for the plain result, and if and only if all bytes are covered |
| `Distorm.Decompose64` | FsdFilter/distorm/distorm3/src/distorm.c:36-64 | DECRES_INPUTERR exactly for those arguments or both address limits at once; else the entries used and the outcome are those of the run with the filter, the stops and the mask that the features say |
| `Distorm.DecodeAndConvert` | FsdFilter/distorm/distorm3/src/distorm.c:334-370 | the same, once the arguments are good |
| `Distorm.Convert` | FsdFilter/distorm/distorm3/src/distorm.c:357-367 | converting one entry in place never damages a later one |
| `Distorm.Format` | FsdFilter/distorm/distorm3/src/distorm.c:118-139 | size, offset and hex dump of one entry |
| `Distorm.FormatHex` | FsdFilter/distorm/distorm3/src/distorm.c:136-139 | the dump of exactly the bytes of the entry, at most 30 of the 48 characters |
| `Distorm.DumpsAddUp` | FsdFilter/distorm/distorm3/src/distorm.c:356-370 | the dumps of a tiling, put together, are the dump of the bytes covered |
| `Distorm.HexIndexIsRight` | FsdFilter/distorm/distorm3/src/distorm.c:138-139 | the dump reads the bytes of the entry if and only if the offset fits the address mask there |
| `Distorm.FitsEverywhere` | FsdFilter/distorm/distorm3/src/distorm.c:353-354 | that holds all over the code if and only if, with 16-bit addresses, the code ends within the first 64 K of a 4 G block |
| `Distorm.HexIndexCanBeWrong` | FsdFilter/distorm/distorm3/src/distorm.c:138-139 | an input on which the dump would read other bytes: 16-bit code at offset 64 K |
| `Distorm.RunIsConvertible` | FsdFilter/distorm/distorm3/src/distorm.c:356-367 | what the decoder leaves in the array can be converted: it tiles the code and no entry is longer than 15 bytes |
| `Distorm.FormatSignedDisp` | FsdFilter/distorm/distorm3/src/distorm.c:93-104 | the text appended for a displacement, nothing for size zero |
| `Distorm.DispIsShown` | FsdFilter/distorm/distorm3/src/decoder.c:507 | the text of a displacement of 1, 2 or 4 bytes, read with its sign, cut by the decoder and printed, is right in 64-bit code, in 32-bit code if and only if it is not negative, and in 16-bit code if and only if it is not negative and below 64 K; in 32-bit code a negative one is shown 4 G too high |
| `Distorm.CutDispIsRead` | FsdFilter/distorm/distorm3/src/distorm.c:93-104 | what the printer gets from the decoder, cut to the mask they share, is always read back from its text, and is the displacement decoded if and only if the cut has changed nothing |
| `Distorm.CutDispIsCongruent` | FsdFilter/distorm/distorm3/src/distorm.c:93-104 | modulo the address space the text always is the displacement decoded |
| `Distorm.NegativeDispIsShownPositive` | FsdFilter/distorm/distorm3/src/distorm.c:93-104 | the input 8b 45 f8 in 32-bit code: the displacement is -8 and its text +0xfffffff8 |
| `Distorm.DispIsRead` | FsdFilter/distorm/distorm3/src/distorm.c:93-104 | the printer alone: reading the text back gives the number it was given if and only if its magnitude fits the address mask |
| `HexSpec.PrintedIsRead` | FsdFilter/distorm/distorm3/src/textdefs.c:105-179 | parsing what the printers append gives the value back, with no leading zero except for zero itself |
| `HexSpec.DumpIsRead` | FsdFilter/distorm/distorm3/src/textdefs.c:29-64 | reading a hex dump back gives the bytes |
| `HexSpec.HbIsHex` | FsdFilter/distorm/distorm3/src/textdefs.c:66-103 | the printer of bytes prints the number if and only if it is below 256, as it is in both calls (distorm.c:130, distorm.c:205) |
| `HexSpec.LoadOfLittleEndian` | FsdFilter/distorm/distorm3/src/textdefs.c:128-155 | loading the little-endian bytes of a number gives the number, so both 64-bit printers write the same text |
| `HexSpec.DumpOfBoth` | FsdFilter/distorm/distorm3/src/distorm.c:138-139 | the dump of two stretches is the two dumps |
| `HexSpec.NoLeadingZero` | FsdFilter/distorm/distorm3/src/textdefs.c:117-120 | the digits of a positive number do not start with zero |
| `HexSpec.DigitsFit` | FsdFilter/distorm/distorm3/src/textdefs.c:105-179 | a number of n nibbles has at most n digits |
| `HexText.WString.Clear` | FsdFilter/distorm/distorm3/src/wstring.c:26-30 | the text is empty |
| `HexText.WString.Append` | FsdFilter/distorm/distorm3/src/wstring.c:45-49 | the characters are appended, and the buffer still ends in a terminator |
| `HexText.WString.HexB` | FsdFilter/distorm/distorm3/src/textdefs.c:29-64 | two digits of the low byte are appended |
| `HexText.WString.CodeHb` | FsdFilter/distorm/distorm3/src/textdefs.c:66-103 | what is appended for any number, and that it is right for a byte |
| `HexText.WString.CodeHdw` | FsdFilter/distorm/distorm3/src/textdefs.c:105-126 | the text of a 32-bit number is appended |
| `HexText.WString.CodeHqw` | FsdFilter/distorm/distorm3/src/textdefs.c:128-155 | the text of eight little-endian bytes, high half first, is appended |
| `HexText.WString.Off64` | FsdFilter/distorm/distorm3/src/textdefs.c:157-180 | the text of a 64-bit number is appended |
| `HexText.WString.PutNibbles` | FsdFilter/distorm/distorm3/src/textdefs.c:117-120 | the loop writes the digits of the number so far, leaving out leading zeros |
| `HexText.TwoHalves` | FsdFilter/distorm/distorm3/src/textdefs.c:140-151 | the two loops together write the digits of the whole number |

## Left out

- HookVnodeVop, UnHookVnodeVop: one call at a time and without reference counts; the step system has both.
- IncrementVnodeCounter, DecrementVnodeCounter: the counter is unbounded, the original's is 32 bits wide; its own assertions exclude the overflow.
- The branch of FltHookVnodeVop that skips the strategy operation: vnodes that would take it were sent away before, so it cannot be reached; the marker for skipped operations is modelled and never stored.
- Slots are read and written whole; a torn 8-byte write, and a vnode whose vector changes between dispatch and query, are not modelled.
- The 8-byte slot writes of the step system are atomic and complete; what makes them complete is `PageCopy.SlotWriteCompletes`.
- Descriptor tables are two injective lists, operation to slot and operation to enum index; a registered operation without a descriptor, which the original only logs, does not occur.
- The lock is a readers/writer lock without fairness, so a thread that is always passed over may wait for ever; what is proved is that some thread can always move, that a call ends when it is let move, and that all calls can be run to their end.
- `FltVnodeHooksHashTable::free` on a table that is not empty: it asserts emptiness.
- FltHookVnodeVopAndParent and the bodies in `FsdFilter/VFSHooks.cpp`: they ask for the original and call it.
- The rest of `FsdFilter/FltFakeFSD.cpp`, `FsdFilter/VersionDependent.cpp`, `FsdFilter/Kauth.cpp`, `FsdFilter/FsdFilter.cpp`: memory probing, structure layouts, registration and IOKit classes.
- WriteWiredSrcToWiredDst: that exactly the first n bytes arrive is claimed when no destination byte is also a source byte or another destination byte; what else is untouched is claimed always. A length of 2^64 or more has no representation in the original.
- Rehash: allocation inside it succeeds, as the original asserts for the table and only logs for the entries.
- Insert, Replace: NULL data is excluded, as the original's own assertion excludes it.
- Table sizes and counts are unbounded; the original's are 32 bits wide.
- An eviction callback that calls back into the table: the callback is modelled by what it is given.
- FromEmpty, Perform, ExecuteInsert: NULL data, as for Insert.
- LeastRecentGoes: not for the transposing heuristic, whose chains are not in the order of any use; what goes under it is the last of the chain that the steps of `HashRuns` keep.
- AddAndHook: the retain of AddEntry and its failure; the step system has both.
- Refilled: allocation succeeds, as for Rehash.
- Table.constructor: allocation succeeds; ght_create returns NULL when it does not.
- The hash functions (one at a time, CRC, rotating): any function of the key will do, so they are a parameter.
- Walk: insertions during a walk, which the header leaves open.
- ght_finalize, the allocator, freed memory and the debugging copies of keys.
- Extract: how many bytes an operand takes and which operands are refused, not the values, registers and sizes it is decoded to. Operand types are grouped by that.
- Decode: the mnemonic, the flags of the entry (LOCK, REP, operand size), the registers used, and the masks of used and unused prefixes.
- The contents of the trie (insts.c, mnemonics.c), which are generated data.
- DecodeInternal: `nextOffset`, which a run of prefixes only does not update.
- A result array of the older interface has wider elements, so the decoder steps by the width of those; the model counts elements.
- LookupOneByte, LookupVex: which prefixes are marked as used, and the register in vvvv.
- Track: which of several prefixes of one kind is marked as unused.
- ExtractMemory: registers and segments, as for Extract.
- Decompose64: the values and registers of the entries, as for Extract and Decode; a missing pointer to the count, which is answered with success at once.
- IsFunctionAt: which pages are backed by memory, and what is in it, are parameters; addresses do not wrap.
- OperationIsRecognised: the tables are any that have the entries cited; that the generated tables have them is read off insts.c.
- WrittenIsDecoded, DecodedIsWritten: an instruction is the entry of the trie that it is decoded to, not its mnemonic and operand values; what a SIB byte or a displacement stands for is not part of it.
- DecodeAndConvert, Convert, Format, FormatHex: the same condition on 16-bit code as for Decode64.
- Decode64: 16-bit code must lie where the dumps fit the address mask, since the original reads outside the code otherwise; `Distorm.FitsEverywhere` says when that is. Mnemonic and operand text are not modelled. The check against `maxInstructions` in its loop is never taken and left out.
- FormatSignedDisp: the negation of the least 64-bit number, which is undefined in C, is taken to wrap.
- PutNibbles: shifts are counted in nibbles.
