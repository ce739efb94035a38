# The Clozure CL kernel: collector, generations and thread protocols

This project models the parts of the Clozure CL kernel that decide whether a
heap survives a collection and whether threads survive each other, and proves
what they are for.  The layout is that of the 32-bit PowerPC port: 32-bit words,
8-byte dnodes, tags in the low three bits.

- **Marking.**  `rmark` has a recursive branch and a branch that inverts links:
  it overwrites the pointer it has just followed with the way back, and tells
  from the tag of `prev` what it overwrote.  Both mark exactly what is reachable
  through unmarked objects, the second restores every word it overwrote, and both
  push every weak hash vector they meet on a list and clear its cache.
- **Sliding.**  The relocation table with its population counts gives every live
  object the address that sliding down would; forwarding and copying in place
  leave a well-formed heap that spells out the same graph.
- **Generations.**  The areas and their boundaries, the write barrier, marking
  and forwarding through remembered old words, the choice of what to collect and
  where to tenure the survivors: over every run of stores, allocations,
  collections and switches the remembered set is right and nothing refers to free
  memory, and every collection keeps all that is reachable.
- **Weak hash vectors.**  They are objects of the heap that is collected, found by
  marking.  The loop that marks the other element of a pair whose weak element is
  live ends although its list grows meanwhile, and retains the least set that is
  closed under references and holds such elements; reaping removes exactly the
  pairs whose weak word is dead; and what is left is slid like any other heap.
- **Interrupted allocation.**  Wherever a thread is stopped in the instructions
  that allocate an object, it is left as after all of them, or so that the
  allocation trap is taken again for the same object.
- **Purification.**  Copying every ivector that is referred to, walking the heap
  through the breadcrumbs the copies leave, keeps all references and leaves a
  well-formed heap.
- **Thread protocols.**  The recursive lock as spinlock and semaphore and as
  futex, the reader/writer lock, and stopping the world, each as atomic steps of
  any number of threads, with invariants over every interleaving, what each call
  does in terms of who has the lock, and who can move in every state.

How the source's data appears:

- A heap is a sequence (in methods, an array) of words, each a number below
  2^32.  `Objects.WellFormed` parses it into conses, gvectors and ivectors and
  says that pointer slots hold proper references.
- A word of a bit vector is the sequence of its 32 bits, most significant first
  (the direct order of the PowerPC), and `&`, `|`, `~`, `<<` and `>>` are defined
  bit by bit; `WordValues` gives each such word its number and proves that shifts,
  complements and masks are those of unsigned arithmetic.  `Bits.Denotes` relates
  an array of words to a set of numbers.
- Methods work in place where the source does.  A class stands for the source's
  globals of one phase: `Collector` for the marker, `LinkInverter` for its
  state machine, `Compactor`, `BitidxState`, `MemoizedArea` and
  `MemoizedForward` for the walks over reference bits, `Generations` for the
  area structures, `GenerationalHeap` for all of it, `Context` for a thread's
  registers, `Purifier` for purify.  The list of weak hash vectors runs through
  their own link words; `Collector` holds its head.
- Instructions are 32-bit numbers; `Instructions.Step` is what the processor does
  with those that allocation sequences are made of.
- The test of the stack pointer that picks a branch of `rmark` is a
  nondeterministic choice.  Stacks, thread-local bindings and registers are an
  array of root words.  `resize_dynamic_heap` is any new end of the dynamic area
  at or above the free pointer.
- A thread protocol is a relation `Step` between states, a `Run` is any sequence
  of steps from the initial state, and the theorems speak of every state of
  every run.  Accesses under a spinlock that only its holder makes may share a
  step; the atomic primitives are single steps, and `atomic_decf` on a futex is
  its load and its store-conditional.

- `SmallHeap`, `SmallTable`, `SmallPairs` and `SmallCollection` hold heaps and an
  allocation sequence that meet the conditions of the theorems, and say word by word
  what becomes of them.

Findings.

- A reader of the reader/writer lock can sleep for good while the lock is free,
  when a writer's timed wait ends although the writer has been signalled:
  `RwLock.TimeoutCanStrandAReader` gives the interleaving.
  `RwLock.SleepersHaveAHolder` proves that nothing else can strand a thread, and
  never a writer; `RwLock.UntimedWritersStrandNobody`, that it takes a writer
  that waits with a timeout.
- `rwlock_try_rlock` does not wait for blocked writers, although the comment on the
  blocking form says that readers do; the model follows the code.
- A thread that defers its suspension and then asks for the lock on the ring of
  threads, or suspends itself, can bring everything to a standstill:
  `StopWorldProgress.DeferringCanStopEverybody` and
  `StopWorldProgress.SuspendingOneselfCanStopEverybody` give the interleavings, and
  `StopWorldProgress.SomebodyMoves` proves that nothing else can, short of every
  thread waiting to be resumed.  (The Lisp function `process-suspend` refuses to
  suspend the current process, level-1/l1-processes.lisp:316-322.)
- A thread that is stopped past the allocation trap loses the count of the bytes it
  has used of its segment: `InterruptedAllocation.BytesCounted` proves that it is
  lost there and nowhere else, `SmallHeap.EightBytesAreLost` is an instance.
- Marking a weak hash vector goes one word beyond its header, to the first key of
  the first pair, where `mark_weak_hash_vector` stops at the header.  So that key
  is never weak: `FirstKeys.FirstKeysMatter` says exactly when that retains more,
  `SmallTable.FirstKeyIsRetained` is an instance.

## Model
| member | source | states |
|---|---|---|
| Bits.SetNBits | lisp-kernel/bits.c:26-54 | exactly the interval [first, first+n) is added to the set of bits that are on |
| Bits.ZeroBits | lisp-kernel/bits.c:57-66 | clears the words holding the first nbits bits, and no other |
| Bits.SetBit | lisp-kernel/bits.h:44-58 | adds one bit and reports whether it was on |
| Bits.ClrBit | lisp-kernel/bits.h:72-86 | removes one bit and reports whether it was on |
| Bits.RefBit | lisp-kernel/bits.h:88-106 | tells membership in the set of bits that are on |
| Bits.CountLeadingZeros | lisp-kernel/bits.h:147-185 | the position of the first bit that is on |
| Objects.SizesAgree | lisp-kernel/ppc-gc.c:784-828 | for every header the marker, the heap walker, the compactor and purify's byte count agree on where the object ends |
| Objects.AreaDnodeInRange | lisp-kernel/gc.h:104-106 | the unsigned subtraction and one comparison decide membership in an area |
| Objects.StartsAreDisjoint | lisp-kernel/ppc-gc.c:1255-1313 | walking a well-formed heap meets objects that do not overlap and end inside it |
| Graphs.MarkStepIsExact | lisp-kernel/ppc-gc.c:475-782 | what every marking method promises is that exactly the objects reachable through unmarked ones are added |
| Graphs.AllRootsMarked | lisp-kernel/gc-common.c:1708-1766 | marking from every root marks exactly the live objects |
| Graphs.ClosedHoldsLive | lisp-kernel/gc-common.c:1751-1757 | a set that holds the roots and is closed under references holds everything live |
| HeapGraph.GraphIsValid | lisp-kernel/ppc-gc.c:475-782 | a well-formed heap is a graph: no word is a slot of two objects, and slots refer to objects |
| LinkInversion.Descend | lisp-kernel/ppc-gc.c:632-670 | overwriting the slot that leads down with the way back keeps the walk's invariant |
| LinkInversion.Ascend | lisp-kernel/ppc-gc.c:607-656 | coming up restores the overwritten slot and keeps the invariant |
| LinkInversion.Finish | lisp-kernel/ppc-gc.c:577-622 | when the walk is back at the top no word is overwritten and the step is done |
| LinkInverters.LinkTag | lisp-kernel/ppc-gc.c:611-630 | the tag of a link tells which kind of slot it leads back to |
| LinkInverters.LinkInverter.MarkConsCode | lisp-kernel/ppc-gc.c:636-648 | the code at its label: one slot of a cons is done or descended into, and the rank of what is left drops |
| LinkInverters.LinkInverter.MarkCdrCode | lisp-kernel/ppc-gc.c:654-670 | the same for the other slot, after which the machine climbs |
| LinkInverters.LinkInverter.MarkVectorLoopCode | lisp-kernel/ppc-gc.c:756-780 | the same for the elements of a gvector, from the last to the first |
| LinkInverters.LinkInverter.ClimbCode | lisp-kernel/ppc-gc.c:611-630 | dispatching on the tag of prev restores the slot it leads to |
| LinkInverters.LinkInverter.Run | lisp-kernel/ppc-gc.c:577-782 | the state machine terminates, restores every word it overwrote on its way, marks exactly what one marking step must, and has pushed exactly the newly marked weak hash vectors |
| LinkInverters.LinkInverter.ClearWords | lisp-kernel/ppc-gc.c:722-747 | clears the cache of a weak hash vector and the data of a pool, pushes the vector, and leaves how many words are followed |
| MarkBits.TestAndMark | lisp-kernel/ppc-gc.c:475-495 | only a pointer to an unmarked object of the area goes further, with its first dnode marked |
| MarkBits.MarkSuffix | lisp-kernel/ppc-gc.c:271-291 | an object's dnodes are all marked, and nothing else |
| Marker.Collector.Rmark | lisp-kernel/ppc-gc.c:475-782 | both branches: one exact marking step, every newly marked weak hash vector on the list, and no word changed but those that marking clears and the links |
| Marker.Collector.MarkWeakHtabv | lisp-kernel/gc-common.c:321-332 | the recursive branch for a weak hash vector: its header is marked from, and it is pushed after the vectors that this has reached |
| Marker.Collector.MarkRecursively | lisp-kernel/ppc-gc.c:496-587 | the recursive branch marks children from the last slot to the first |
| Marker.Collector.MarkRoot | lisp-kernel/ppc-gc.c:217-340 | the same for a root |
| Marker.Collector.MarkRoots | lisp-kernel/gc-common.c:1666-1790 | after clearing the mark bits and marking every root, the marked objects are the live ones, and the list holds the weak hash vectors among them |
| Relocation.CalculateRelocation | lisp-kernel/ppc-gc.c:1087-1121 | every entry is the address its first dnode slides down to, and the result is the first unmarked dnode |
| Relocation.ForwardingIsSlide | lisp-kernel/ppc-gc.c:1169-1212 | all four ways of counting from the nearest table entry give base + 8 * marked dnodes below + tag |
| WordValues.LeadingMaskValue | lisp-kernel/ppc-gc.c:1192-1192 | the bits kept by the mask for a dnode in the first half are those of 0xffff0000 shifted by arithmetic and cut off to a halfword |
| WordValues.TrailingMaskValue | lisp-kernel/ppc-gc.c:1205-1205 | the bits kept in the second half are those of (1 << n) - 1 |
| WordValues.MaskValue | lisp-kernel/bits.h:48-50 | the mask of a bit number is the number that shifting BIT0_MASK gives |
| WordValues.ShlIsMultiplication | lisp-kernel/bits.c:33-34 | shifting left multiplies and drops the carry, as on unsigned words |
| WordValues.HasFlagIsBit | lisp-kernel/constants.h:127-146 | testing a flag tests one bit of the word |
| WordValues.SetFlagIsOr | lisp-kernel/ppc-gc.c:1496-1535 | setting a flag turns on its bit and no other |
| Relocation.SlideOrder | lisp-kernel/ppc-gc.c:1169-1212 | forwarding is strictly increasing on marked dnodes and never moves up |
| Relocation.AllMarkedCount | lisp-kernel/gc-common.c:1024-1041 | below the first unmarked dnode nothing moves |
| Sliding.SlidIsWellFormed | lisp-kernel/ppc-gc.c:1430-1598 | sliding the live objects of a well-formed heap leaves a well-formed heap |
| Sliding.SlidIsSameGraph | lisp-kernel/gc-common.c:1833-1894 | it is the same graph: kinds, sizes and data kept, every reference follows its object, images are distinct |
| Sliding.MovedKeysAreTold | lisp-kernel/ppc-gc.c:1496-1535 | of every hash vector that stays, the flags keep all bits but the one that says that keys have moved, that one stays on, and it is on if keys are tracked and the object that one of them refers to has another address |
| Sliding.ImageFits | lisp-kernel/ppc-gc.c:1454-1588 | an object's new place is not above its old one and ends inside the new heap |
| Sliding.SlidWalk | lisp-kernel/ppc-gc.c:1430-1598 | walking the new heap meets the images of the live objects, in order, and nothing else |
| Compactor.Compactor.NodeForwardingAddress | lisp-kernel/gc-common.c:1024-1041 | with its shortcut below the first unmarked dnode, where the word's object slides to |
| Compactor.Compactor.ForwardRange | lisp-kernel/ppc-gc.c:1255-1313 | objects before the first unmarked dnode are brought up to date in place, told when a tracked key moved |
| Compactor.Compactor.CompactObject | lisp-kernel/ppc-gc.c:1483-1573 | one object is copied down over words already read, each reference forwarded |
| Compactor.Compactor.CompactHashVector | lisp-kernel/ppc-gc.c:1496-1535 | a hash vector with tracked keys learns whether any key moved, exactly then |
| Compactor.Compactor.CompactDynamicHeap | lisp-kernel/ppc-gc.c:1430-1598 | every live object is copied to its image and the result is the address after the last |
| FullGc.Gc | lisp-kernel/gc-common.c:1666-1900 | for heaps with weak hash vectors and pools: mark, reap, relocate, forward and compact leave a well-formed heap with the graph that had to be retained, hash vectors told of keys that moved, forwarded roots, and the surviving vectors on WEAKVLL at their new addresses |
| FullGc.WithoutWeakObjects | lisp-kernel/gc-common.c:1666-1900 | in particular without weak objects exactly what the roots reach stays, and it is the same graph |
| FullGc.WithWeakObjects | lisp-kernel/gc-common.c:1666-1900 | with them all that the roots reach stays; of every surviving vector exactly the pairs whose weak word, key or value by its flags, is dead are removed, the counts grow by their number, and both words of every other pair stay live; other objects keep their words |
| SmallCollection.CollectedIs | lisp-kernel/gc-common.c:1666-1900 | a collection of a heap of six objects, word by word: two go, four slide, a hash vector is told that its key has moved |
| WeakLinks.ForwardWeakvllLinks | lisp-kernel/gc-common.c:1005-1019 | the list, still with old addresses in copied links, comes to lead through the new places, and nothing else changes |
| RefScan.BitidxState.constructor | lisp-kernel/gc-common.c:1143-1162 | every non-zero word is ahead of a fresh iterator when the index covers the bits |
| RefScan.BitidxState.NextRefbits | lisp-kernel/gc-common.c:1104-1141 | refines a plain scan: the least non-zero word at or after the last one returned, whatever happens to words before it |
| Areas.Generations.constructor | lisp-kernel/pmcl-kernel.c:1749-1793 | empty tenured, second and first areas below a dynamic area, nothing ephemeral |
| Areas.Generations.TenureToArea | lisp-kernel/memory.c:640-693 | everything younger joins the target; areas stay contiguous and conserve their dnodes, mark bits become zeroed reference bits, the globals agree |
| Areas.Generations.UntenureFromArea | lisp-kernel/memory.c:697-731 | everything from the area on joins the dynamic area; contiguity and globals as above |
| Areas.Generations.EgcControl | lisp-kernel/memory.c:734-755 | switching on makes everything tenured with no reference bits, switching off makes everything dynamic, repeating changes nothing |
| RememberedSet.RememberedWord | lisp-kernel/gc-common.c:1500-1546 | both words of a remembered dnode may be treated as references |
| EphemeralMark.MemoizedArea.MarkEphemeralRoot | lisp-kernel/ppc-gc.c:342-363 | marks from the word, and says whether it is an ephemeral pointer or a hash header |
| EphemeralMark.EphemeralWords | lisp-kernel/ppc-gc.c:342-363 | what such a word is, by its tag, its address and its subtag |
| EphemeralMark.MemoizedArea.MaskLastWord | lisp-kernel/gc-common.c:1462-1472 | bits at and beyond the last dnode of old space are cleared, and no others |
| EphemeralMark.MemoizedArea.MarkMemoizedArea | lisp-kernel/gc-common.c:1424-1549 | marks from both words of every remembered dnode, and keeps exactly the bits of dnodes with an ephemeral reference or a hash header |
| EphemeralForward.MemoizedForward.ForwardMemoizedArea | lisp-kernel/gc-common.c:1165-1259 | the words of remembered dnodes are forwarded, and a hash vector is told when one of its second words moved |
| EphemeralForward.OldSpaceSettled | lisp-kernel/gc-common.c:1165-1259 | when everything that refers to the area is remembered, all of old space is up to date and no moved key goes untold |
| OldSpace.KeptSlid | lisp-kernel/gc-common.c:1838-1894 | updating old space and sliding the area is sliding the whole heap with everything old kept |
| OldSpace.AreaWellFormed | lisp-kernel/gc-common.c:1666-1674 | what lies above an area boundary is a well-formed heap of its own |
| EphemeralGc.ScannedThrough | lisp-kernel/gc-common.c:1751-1755 | given the remembered-set invariant, everything old words refer to in the area has been marked |
| EphemeralGc.CollectArea | lisp-kernel/gc-common.c:1660-1894 | the phases over the area above a boundary, with old space in place below it |
| Survival.Survives | lisp-kernel/gc-common.c:1896-1900 | with the bits that marking kept, the invariant holds again for the new boundaries |
| Survival.Needed | lisp-kernel/gc-common.c:1424-1549 | a reference from old space into the area makes its bit one that marking keeps |
| Generational.GenerationalHeap.Choose | lisp-kernel/gc-common.c:1596-1615 | the youngest area whose contents with all younger ones are below its threshold |
| Generational.GenerationalHeap.Gc | lisp-kernel/gc-common.c:1558-1930 | for every heap that satisfies the invariant: keeps everything reachable even through old space, the same graph, the roots, and the invariant, as a step of the heap's run; the survivors are in the generation that was chosen, all young when there is no room, all tenured after a full collection that made room, with exactly the reference bits that marking kept |
| HeapRuns.GcKeepsGraph | lisp-kernel/gc-common.c:1833-1894 | nothing reachable is lost, what is kept is the same graph, and hash vectors know of keys that moved |
| HeapRuns.FullIsExact | lisp-kernel/gc-common.c:1708-1766 | without old space exactly the live objects are kept |
| Generational.GenerationalHeap.EgcControl | lisp-kernel/memory.c:734-755 | switching the generations on or off keeps the heap and the invariant, and makes everything old or everything young |
| Generational.GenerationalHeap.EndGc | lisp-kernel/gc-common.c:1903-1922 | after resizing: without room for the youngest generation everything becomes young, with room after a full collection everything is tenured, and else the boundaries stay |
| Generational.GenerationalHeap.Memoize | lisp-kernel/ppc-exceptions.c:1964-1972 | one dnode joins the remembered set, its bit and the bit of its block are set |
| Generational.GenerationalHeap.StoreNode | lisp-kernel/ppc-exceptions.c:1935-1974 | a store through the barrier, of a word that refers to nothing beyond the free pointer, writes one slot, remembers its dnode and that of the hash vector exactly when it is old and below the value, and keeps the invariant |
| Generational.GenerationalHeap.Allocate | lisp-kernel/ppc-exceptions.c:115-231 | a new object of any size at the free pointer, whatever has been stored before, keeps the invariant |
| HeapRuns.RunIsSound | lisp-kernel/gc-common.c:1558-1930 | in every state of every run of stores, allocations, collections and switches, old dnodes with younger references are remembered and nothing refers to free memory |
| HeapRuns.CollectionIsSound | lisp-kernel/gc-common.c:1896-1922 | a collection above any boundary with any tenuring of the survivors keeps that |
| HeapRuns.AllocationIsKnown | lisp-kernel/ppc-exceptions.c:115-231 | so does a new object that refers only to what is in use |
| HeapRuns.StoreIsKnown | lisp-kernel/ppc-exceptions.c:1935-1974 | so does a store through the barrier |
| HeapRuns.RootsStayKnown | lisp-kernel/gc-common.c:1833-1894 | a root that may be stored before a collection may be stored after it, so a run can go on |
| Barrier.StoreRemembers | lisp-kernel/ppc-exceptions.c:1935-1974 | comparing the address with the value, and naming the hash vector when a key is stored, suffices for the invariant |
| Barrier.YoungerIsAbove | lisp-kernel/ppc-exceptions.c:1964-1966 | a pointer into a strictly younger generation always passes the barrier's test |
| Allocation.AllocationRemembers | lisp-kernel/ppc-exceptions.c:115-231 | a new object that refers to the heap only needs no reference bits |
| SemaphoreLock.MutualExclusion | lisp-kernel/thread_manager.c:249-274 | at most one thread holds the lock, and owner and count say who and how often |
| SemaphoreLock.SleepersCounted | lisp-kernel/thread_manager.c:322-353 | sleepers = (avail - owned) + waiting + tokens whenever the spinlock is free |
| SemaphoreLock.NoLostWakeup | lisp-kernel/thread_manager.c:322-353 | a free lock with sleepers has a token or a woken thread on its way |
| SemaphoreLock.SleepersHaveAnOwner | lisp-kernel/thread_manager.c:249-353 | when nobody can move, a sleeper is waiting for an owner who keeps the lock |
| SemaphoreLock.CountIsCalls | lisp-kernel/thread_manager.c:249-353 | a thread outside the calls owns the lock exactly when more of its locks than of its unlocks have returned, and the count is how many more |
| SemaphoreLock.RefusedExactly | lisp-kernel/thread_manager.c:322-353 | an unlock is refused exactly when the thread has unlocked as often as it has locked |
| SemaphoreLock.CanMove | lisp-kernel/thread_manager.c:249-353 | a thread cannot go on exactly when it waits for the spinlock or sleeps without a token |
| FutexLock.MutualExclusion | lisp-kernel/thread_manager.c:278-302 | at most one thread has the futex, also between the decrement and the store that frees it |
| FutexLock.SleepersWillBeWoken | lisp-kernel/thread_manager.c:278-302 | while a thread sleeps the word is contended or an unlocker has yet to wake all |
| FutexLock.SleepersHaveAnOwner | lisp-kernel/thread_manager.c:278-376 | when nobody can move, a sleeper is waiting for a thread that holds the lock |
| FutexLock.CountIsCalls | lisp-kernel/thread_manager.c:305-376 | owner and count agree with the calls that have returned |
| FutexLock.RefusedExactly | lisp-kernel/thread_manager.c:355-376 | an unlock is refused exactly when the thread has unlocked as often as it has locked |
| FutexLock.CanMove | lisp-kernel/thread_manager.c:278-302 | every thread can go on, and waking all leaves nobody asleep |
| RwLock.StateMeans | lisp-kernel/thread_manager.c:2425-2456 | state is positive exactly when a writer is set and then its depth, otherwise minus the read holds |
| RwLock.ReadersOrWriter | lisp-kernel/thread_manager.c:2496-2527 | readers never coexist with a writer, nor two writers |
| RwLock.SleepersHaveAHolder | lisp-kernel/thread_manager.c:2635-2677 | whatever times out or is interrupted: when nobody can move, a sleeper waits for a holder, or it is a reader and a writer that gave up has left its token |
| RwLock.UntimedWritersStrandNobody | lisp-kernel/thread_manager.c:2496-2527 | as long as no writer gives up waiting, threads sleep for good only while the lock is held |
| RwLock.TimeoutCanStrandAReader | lisp-kernel/thread_manager.c:2496-2527 | after a writer's timeout a reader can sleep for good while the lock is free: the interleaving |
| RwLockCalls.TryReadSays | lisp-kernel/thread_manager.c:2603-2616 | a try to read succeeds unless somebody writes |
| RwLockCalls.TryWriteSays | lisp-kernel/thread_manager.c:2561-2579 | a try to write succeeds exactly when nobody else has the lock and the thread does not read |
| RwLockCalls.ReadSays | lisp-kernel/thread_manager.c:2425-2456 | a reader gets the lock unless somebody writes or a writer is blocked, and a writer that reads is refused |
| RwLockCalls.WriteSays | lisp-kernel/thread_manager.c:2496-2527 | a writer gets the lock exactly when nobody else has it and it does not read, and else sleeps |
| RwLockCalls.UnlockSays | lisp-kernel/thread_manager.c:2635-2677 | one hold is given up, and when nobody has the lock any more one blocked writer, or else every blocked reader, gets a token |
| RwLockCalls.CanMove | lisp-kernel/thread_manager.c:2425-2677 | a thread cannot go on exactly when it waits for the spinlock and somebody has it, who can go on |
| StopWorld.StoppedIsBlocked | lisp-kernel/thread_manager.c:2315-2362 | when suspend_other_threads has returned every other thread of the ring waits in its handler, its count one higher |
| StopWorld.WorldStands | lisp-kernel/thread_manager.c:2315-2378 | until resume_other_threads nothing about another thread of the ring changes and none joins it |
| StopWorld.CountsRestored | lisp-kernel/thread_manager.c:2218-2230 | afterwards every suspend count is what it was, a thread suspended before is still blocked, and one that was not is not, and can leave its handler |
| StopWorld.SuspendedIsBlocked | lisp-kernel/thread_manager.c:2088-2130 | whenever the lock is free, a thread with a positive suspend count is blocked in its handler |
| StopWorld.OneOnTheWay | lisp-kernel/thread_manager.c:581-606 | in every state of every run at most one suspension is on its way to a thread, so a deferred one is not overwritten, and with no resumption on its way there is one exactly when the thread should be suspended and is not yet |
| StopWorld.ResumedRuns | lisp-kernel/thread_manager.c:2218-2230 | whenever the lock is free a thread with suspend count 0 is not blocked, and if it waits in its handler it can leave it with the one token taken |
| StopWorldProgress.CanMove | lisp-kernel/thread_manager.c:2088-2130 | in every state of every run a thread cannot move exactly when it waits to be resumed, for the lock, or for an acknowledgement |
| StopWorldProgress.SomebodyMoves | lisp-kernel/thread_manager.c:2315-2378 | when threads ask for the lock only with nothing deferred and not to suspend themselves, some thread can always move unless all are blocked |
| StopWorldProgress.AcknowledgesAlone | lisp-kernel/thread_manager.c:581-606 | a thread with a suspension on its way, also a deferred one, can acknowledge it and stop by its own steps |
| StopWorldProgress.DeferringRuns | lisp-kernel/thread_manager.c:597-605 | a thread that defers its suspension is never stopped by it |
| StopWorldProgress.JoinedStays | lisp-kernel/thread_manager.c:809-827 | a thread that has joined the ring is in it from then on |
| StopWorldProgress.DeferringCanStopEverybody | lisp-kernel/thread_manager.c:597-599 | the interleaving to a standstill when a thread asks for the lock with its suspension deferred |
| StopWorldProgress.SuspendingOneselfCanStopEverybody | lisp-kernel/thread_manager.c:2169-2182 | the interleaving to a standstill when a thread suspends itself |
| WeakMarker.MarkPair | lisp-kernel/gc-common.c:422-443 | marks the other element of a pair with a live weak one, unless it is live already, and tells whether it did |
| WeakMarker.MarkWeakHashVector | lisp-kernel/gc-common.c:364-449 | for one vector of the heap: the header needs nothing new; unless it says that something was marked, every pair whose weak word, key or value by the flags, is not dead has another word that is not dead; what marking reaches joins the list |
| WeakMarker.OnePass | lisp-kernel/gc-common.c:530-568 | ends with the list empty although it grows, every marked vector pending, and something newly marked if it says so, else every vector held |
| WeakMarker.MarkUntilNothingNew | lisp-kernel/gc-common.c:525-572 | the do/while ends and has marked the least set that is closed under references and retains what the vectors in it must, which is said word by word |
| WeakMarker.RetainsMeansKept | lisp-kernel/gc-common.c:371-443 | what it means to retain, in terms of the words of pairs and the weak-on-value flag |
| WeakTables.LeastIsUnique | lisp-kernel/gc-common.c:525-572 | there is one such set only |
| WeakTables.RootsThenTables | lisp-kernel/gc-common.c:1708-1766 | marking the roots first and then what the vectors retain gives the least set that holds the roots |
| WeakTables.GrowPair | lisp-kernel/gc-common.c:422-443 | marking for one pair stays within that set |
| Reaping.ReapHashVector | lisp-kernel/gc-common.c:229-301 | exactly the pairs whose weak word is dead are replaced, the counts grow by their number, all other words but the link and the cleared cache are kept |
| Reaping.TraditionalMarkhtabvs | lisp-kernel/gc-common.c:524-594 | the least set is marked, every vector in it is reaped once as its words say, and exactly those are on WEAKVLL |
| ReapedHeap.BothElementsLive | lisp-kernel/gc-common.c:229-301 | after reaping both elements of every pair are live, and a pair is gone exactly when its weak element was dead |
| ReapedHeap.ReapedIsSlidable | lisp-kernel/gc-common.c:229-301 | the reaped heap is well formed and its live objects refer to live ones in all slots, so it can be slid |
| FirstKeys.FirstKeysMatter | lisp-kernel/gc-common.c:321-332 | what is retained is what headers and pairs demand if and only if the first key of each of those vectors is live anyway, and else more |
| FirstKeys.FirstPairStays | lisp-kernel/ppc-gc.c:724-735 | the first pair of a vector whose flags do not say weak on value is never reaped |
| SmallTable.FirstKeyIsRetained | lisp-kernel/gc-common.c:321-332 | a cons that only a pair refers to is retained when it is the first pair |
| SmallPairs.LiveKeyRetainsItsValue | lisp-kernel/gc-common.c:364-449 | three pairs with weak keys: the value of a live key is retained, a dead key with a live value is not |
| SmallPairs.DeadKeyGoes | lisp-kernel/gc-common.c:229-301 | and the first of these two pairs stays, the other goes and is counted |
| Instructions.StoresDecode | lisp-kernel/ppc-exceptions.h:224-243 | what is matched as a store into a new object is that store |
| Instructions.AssignmentDecodes | lisp-kernel/ppc-exceptions.c:175-185 | what is taken for an assignment from allocptr is one |
| InterruptedAllocation.EmulationIsExecution | lisp-kernel/ppc-exceptions.c:162-187 | emulating an instruction is executing it |
| InterruptedAllocation.ConsAllocates | lisp-kernel/ppc-macros.s:565-572 | an uninterrupted sequence makes the cons it is asked for |
| InterruptedAllocation.Context.FinishAllocatingCons | lisp-kernel/ppc-exceptions.c:153-189 | from any instruction past the trap, the state of running the rest |
| InterruptedAllocation.Context.FinishAllocatingUvector | lisp-kernel/ppc-exceptions.c:202-231 | the same for a uvector |
| InterruptedAllocation.Context.AllocptrDisplacement | lisp-kernel/ppc-exceptions.c:115-138 | at the trap the size that was asked for less the tag, whatever kind and size that is; adding it undoes the decrement; past the trap zero |
| InterruptedAllocation.Context.PcLuserXp | lisp-kernel/ppc-exceptions.c:2034-2101 | at every point of a sequence, the thread that the lemmas below speak of |
| InterruptedAllocation.Context.NormalizeTcr | lisp-kernel/ppc-exceptions.c:677-732 | the same, with the bytes counted and the segment given up |
| InterruptedAllocation.Context.HandleAllocTrap | lisp-kernel/ppc-exceptions.c:352-408 | last_allocptr and allocbase are the ends of the new segment, allocptr has made room below its end for the size the sequence asked for, and what was used of the old segment is counted; without a segment all is given up |
| InterruptedAllocation.StoppedPastTrapCompletes | lisp-kernel/ppc-exceptions.c:2078-2099 | stopped at any instruction past the trap, the thread is as after the whole sequence, without a segment |
| InterruptedAllocation.TrapIsRetaken | lisp-kernel/ppc-exceptions.c:2034-2072 | stopped at the trap, the thread takes it again for the same kind and size |
| InterruptedAllocation.HandlingHidesInterruption | lisp-kernel/ppc-exceptions.c:352-408 | after the trap nothing tells that the thread was stopped, and its bytes are counted once |
| InterruptedAllocation.StoppedAtTrapCompletes | lisp-kernel/ppc-exceptions.c:2034-2072 | and it ends as a thread that began with the segment the trap gave it |
| InterruptedAllocation.DeferredIsUndone | lisp-kernel/ppc-exceptions.c:2155-2167 | after an interrupt handler the thread is at the trap as before, also when its segment was taken meanwhile |
| InterruptedAllocation.BytesCounted | lisp-kernel/ppc-exceptions.c:677-732 | the bytes used of a segment are counted when its thread is stopped if and only if it is not past the trap of an allocation |
| InterruptedAllocation.BytesAcrossTrap | lisp-kernel/ppc-exceptions.c:352-408 | a thread that traps, gets a new segment and is stopped later has the bytes used of both segments counted |
| InterruptedAllocation.VoidedTraps | lisp-kernel/ppc-exceptions.c:677-732 | a thread that has given up its segment traps at its next allocation |
| SmallHeap.EightBytesAreLost | lisp-kernel/ppc-exceptions.c:2078-2099 | a thread that runs a cons sequence past the trap and is stopped there loses eight bytes of the count |
| Purifiers.UnboxedBytesInRange | lisp-kernel/ppc-gc.c:1609-1670 | the bytes of all ivectors of the heap |
| Purifiers.Purifier.PurifyObject | lisp-kernel/ppc-gc.c:1680-1721 | one ivector is copied whole, and filled with breadcrumbs |
| Purifiers.Purifier.CopyIvectorReference | lisp-kernel/ppc-gc.c:1725-1746 | a reference to an ivector becomes one to its only copy, any other stays |
| Purifiers.Purifier.PurifyRange | lisp-kernel/ppc-gc.c:1804-1828 | the walk meets every slot once although ivectors ahead and behind it are turned into breadcrumbs |
| Purifiers.Purify | lisp-kernel/ppc-gc.c:1989-2036 | heap and roots purified, and no more bytes used than all ivectors have |
| PurifiedHeap.SlotsFollow | lisp-kernel/ppc-gc.c:1725-1746 | every slot that led to an ivector leads to its copy, which has the same words; the others are unchanged |
| PurifiedHeap.CopiedExactly | lisp-kernel/ppc-gc.c:1725-1746 | exactly the ivectors that a slot or a root refers to are copied |
| PurifiedHeap.CopiedByHeader | lisp-kernel/ppc-gc.c:1736-1742 | of the referenced objects those whose header has tag 7, and another subtag than 31, are copied |
| PurifiedHeap.MacptrStays | lisp-kernel/ppc-gc.c:1740-1740 | a macptr keeps its words, and what refers to it is as it was |
| PurifiedHeap.PurifiedIsWellFormed | lisp-kernel/ppc-gc.c:1696-1712 | what is left is a well-formed heap in which nothing refers to a copied ivector's old place |

## Left out
- Weak populations (`subtag_weak`): a heap has none, although it may have weak hash vectors and pools.
- Generational.GenerationalHeap.Gc: does not cover heaps with weak hash vectors or pools, which `FullGc.Gc` does; so their tables in tenured space, of which only remembered pairs are looked at, are not modelled.
- EphemeralMark.MemoizedArea.MarkMemoizedArea: does not cover weak hash vectors in the memoized area either.
- Generational.GenerationalHeap.StoreNode: does not store into the flags of a hash vector, nor does it cover the conditional stores of the write barrier.
- EphemeralGc.CollectArea: copies the area and its mark bits to arrays of their own and back, where the source works in the one memory and bit vector.
- The other method of weak marking (`ncircle_markhtabvs`).
- Package reclamation, termination lists, gcable pointers and the reaping that goes with them.
- Static dnodes at the low end of the dynamic area: there are none, as after `init_consing_areas`.
- The managed static area and its reference bits; `REF_BASE` is the start of the tenured area.
- Locatives, program counters and control stacks as roots: roots are tagged words.
- Addresses in the area structures are counted in dnodes, thresholds too.
- Purification of references from stacks, locatives and gcable pointers (roots are tagged words), undoing it, saving and loading of images.
- In the generational heap an allocation is one step that puts a whole object at the free pointer; a collection that `allocate_object` runs is not part of `HandleAllocTrap`.
- Interruption of stack frame initialisation, catch frames and `ffcall_return_window`.
- Thread exit, `kill_tcr` and dead TCRs; foreign threads that first appear in the suspend handler.
- The futex form of the reader/writer lock, the try form of the recursive lock, and waits on semaphores in general.
- Mapping and protecting memory, signals masks, instruction caches, the debugger and all input and output.
