# Shared-memory queues and binary serialization, modelled and proved

The repository moves data between processes. Two parts of it carry the risk: the queues that
several threads use at once without locks, and the serializer that turns values into bytes and
back. This project models both in Dafny and proves what they promise.

**The lock-free queue stack.** `IndexQueue` is a ring of cells that carry a lap counter; any number
of threads push and pop indices with compare-exchange. `LockFreeQueue` keeps its elements in a
buffer and passes the buffer's indices back and forth between two such rings, one for free and one
for used slots; `ResizeableLockFreeQueue` shrinks by taking indices out of service. In
`IndexQueueProtocol`, `LockFreeQueueProtocol` and `SofiProtocol` every atomic load, store and
compare-exchange is one step of one thread, steps of any number of threads interleave freely, and
a weak compare-exchange may fail for no reason. The results hold for every state that some
interleaving reaches. They are layered: a ring never overflows because its clients own their
indices uniquely, and clients own them uniquely because the rings are FIFO queues.
Safety over interleavings does not say that a call does its work, so every call is also proved to
end, when no other thread runs, within a stated number of steps and with exactly the answer of a
bounded FIFO queue: `IndexQueueAlone`, `LockFreeQueueAlone`, `SofiAlone`.

**The same queues, one thread at a time.** `IndexQueue.dfy`, `LockFreeQueue.dfy`,
`ResizeableLockFreeQueue.dfy`, `Sofi.dfy`, `Fifo.dfy` and `VariantQueue.dfy` are the C++ classes as
classes, loops included, with contracts in terms of the sequence of stored elements.

**`UsedChunkList`.** Two linked lists threaded through one array. A cleanup process must get every
chunk back after the owner died between any two assignments, so `Insert` and `Remove` also return
the memory after each assignment.

**The serializer.** `Schemas` has the types and the memory layout of trivially copyable ones,
`SerializerFormat` what every overload writes and reads, `Serializer` and `Deserializer` the cursors
that the overloads advance, `SerializerBytes` where which byte lies. Lengths, return codes, byte order, block copies and truncating length
fields are those of the code.

## Model

| member | source | states |
|---|---|---|
| IndexQueueProtocol.StepRefines | shared_memory/include/entity/index_queue.hpp:153-420 | every atomic step of every call is a step of a FIFO sequence: an append at the publishing cell exchange, a drop of the head at the read-position exchange, nothing otherwise; and it keeps the ring's invariant, by which everything below the publication frontier is published and the frontier is the write position or one beyond |
| IndexQueueProtocol.StepStable | shared_memory/include/entity/index_queue.hpp:153-420 | what one call relies on survives any step of any other call |
| IndexQueueProtocol.PopOutcome | shared_memory/include/entity/index_queue.hpp:234-374 | a pop that returns an index returns the head of the abstract queue at its exchange |
| IndexQueueProtocol.PushOutcome | shared_memory/include/entity/index_queue.hpp:153-232 | a push ends only after it has appended its own index, once |
| IndexQueueProtocol.CellCycle | shared_memory/include/entity/index_queue.hpp:158-172 | the four cases a loaded cell can be in, exactly: one cycle behind at the publication frontier, same cycle in the lap below it, ahead for an outdated position |
| IndexQueueProtocol.Publish | shared_memory/include/entity/index_queue.hpp:182-194 | a publishing exchange can only succeed at the frontier and there appends the index |
| IndexQueueProtocol.StepForward | shared_memory/include/entity/index_queue.hpp:174-231 | no step moves a position, the frontier or a cell's cycle back, and a cell that changes moves to a strictly later cycle, so its exchange has no ABA |
| IndexQueueProtocol.StepKeepsUnread | shared_memory/include/entity/index_queue.hpp:59-64 | a push by the owner of an index never overwrites a cell that is still to be read |
| IndexQueueProtocol.StalePushNeverPublishes | shared_memory/include/entity/index_queue.hpp:165-172 | a push that loaded an outdated write position cannot publish with it |
| IndexQueueProtocol.ConditionalPopIsTruthful | shared_memory/include/entity/index_queue.hpp:290-374 | popIfFull takes only from a full queue, and popIfSizeIsAtLeast only from one with that many indices, at the moment of the exchange |
| IndexQueueProtocol.EmptyIsTruthful | shared_memory/include/entity/index_queue.hpp:270-276 | a failing pop and a positive empty() saw the queue empty at their load |
| IndexQueueProtocol.SoloTermination | shared_memory/include/entity/index_queue.hpp:177-284 | from any state in which the invariant holds, a call that runs alone is finished after nine steps, even behind a push that stalled before moving the write position |
| IndexQueueAlone.ConditionalPopsAlone | shared_memory/include/entity/index_queue.hpp:290-374 | alone, with no push halfway, popIfFull succeeds if and only if the queue is full, and popIfSizeIsAtLeast if and only if it holds the minimum |
| IndexQueueAlone.PopIfFullAlone | shared_memory/include/entity/index_queue.hpp:290-325 | from any state in the invariant: success exactly if full, then the oldest index is taken, otherwise nothing changes |
| IndexQueueAlone.PopIfSizeAlone | shared_memory/include/entity/index_queue.hpp:327-374 | the same for a minimum, not counting an index published by a push that has not moved the write position |
| IndexQueueAlone.PopAlone | shared_memory/include/entity/index_queue.hpp:234-288 | alone, pop takes the oldest index within three steps, and fails exactly on an empty queue |
| IndexQueueAlone.EmptyAlone | shared_memory/include/entity/index_queue.hpp:404-413 | alone, empty answers whether there is an index |
| IndexQueueAlone.PushAppends | shared_memory/include/entity/index_queue.hpp:152-232 | alone, push appends its index within nine steps and leaves the write position settled, also behind a push that stalled |
| IndexQueueProgress.LockFree | shared_memory/include/entity/index_queue.hpp:152-374 | lock-freedom: of n calls in flight, scheduled in any order without spurious failures, one finishes, appends or removes within 18 n + 2 steps |
| IndexQueueProgress.QuietComesCloser | shared_memory/include/entity/index_queue.hpp:196-231 | a step after which nothing has finished, been appended or removed brings all calls together closer to such a step; a failed exchange is paid for by the one move of the write position |
| IndexQueueWords.StepOnWords | shared_memory/include/entity/index_queue.hpp:152-420 | for ring lengths that divide 2^64, every step computed on 64-bit words, wrap-around included, is the step on unbounded positions, as long as no position the call has loaded is older than the laps words can tell apart |
| CyclicIndex.IndexAndCycle | shared_memory/include/entity/cycle_index.hpp:79-93 | cell and cycle of a position are remainder and quotient, and give the position back |
| CyclicIndexWords.AddIsRepeatedNext | shared_memory/include/entity/cycle_index.hpp:96-124 | on 64-bit words, x + n is n applications of next if and only if the word overflows at most once or the ring length divides 2^64 |
| CyclicIndexWords.IterateIndex | shared_memory/include/entity/cycle_index.hpp:116-124 | stepping visits the cells in ring order, across any number of overflows |
| CyclicIndexWords.AddIndex | shared_memory/include/entity/cycle_index.hpp:96-115 | under the same condition the index of x + n is that of x advanced by n around the ring |
| CyclicIndexWords.OneLapAhead | shared_memory/include/entity/cycle_index.hpp:125-136 | x is one cycle behind x + CycleLength if and only if nothing overflows or the length divides 2^64 |
| CyclicIndexWords.AddThenMinus | shared_memory/include/entity/cycle_index.hpp:137-142 | (x + n) - x is n, for n below 2^63, if and only if nothing overflows or the length divides 2^64 |
| CyclicIndexWords.WordsCompareLikePositions | shared_memory/include/entity/cycle_index.hpp:125-136 | for lengths that divide 2^64, cycle comparisons of words agree with those of unbounded positions less than all laps apart |
| CyclicIndexWords.WrapStep | shared_memory/include/entity/cycle_index.hpp:96-124 | for such lengths, + and next on words are + and successor of positions, wrap included |
| CyclicIndexWords.DistanceOfWords | shared_memory/include/entity/cycle_index.hpp:137-142 | the signed difference of two words is the distance of their positions when that fits 63 bits |
| LockFreeQueueSystem.NextKeepsInv | shared_memory/include/entity/resizeable_lockfree_queue.hpp:163-325 | every action of every thread, resizes included, keeps the index ledger, the buffer and every thread in order |
| LockFreeQueueSystem.ExactlyOnePlace | shared_memory/include/entity/lockfree_queue.hpp:122-221 | in every reachable state each index is in exactly one place, the free queue, the used queue, the unused list or one thread, and in no list twice |
| LockFreeQueueSystem.NeverOverflows | shared_memory/include/entity/index_queue.hpp:59-64 | hence neither ring ever holds more indices than it has cells |
| LockFreeQueueSystem.NoRaceOnTheBuffer | shared_memory/include/entity/lockfree_queue.hpp:233-255 | no two threads are ever about to touch the same buffer slot |
| LockFreeQueueSystem.SlotsAreReady | shared_memory/include/entity/lockfree_queue.hpp:233-255 | in every reachable state, no thread is about to read a destroyed element or to construct over a live one |
| LockFreeQueueFifo.EveryRunIsFifo | shared_memory/include/entity/lockfree_queue.hpp:122-255 | over every interleaving, the values pushed are, in publication order, those taken out followed by those stored, and every thread delivers what it takes exactly once, in order, up to the one it is about to read |
| LockFreeQueueResults.ResultsAreTruthful | shared_memory/include/entity/resizeable_lockfree_queue.hpp:163-325 | in every run a push that returns has enqueued exactly its argument, once; what a finished push, pop or setCapacity delivered, to its caller or to the remove handler, are exactly the values it took out as the oldest, in order; a call that reports failure did neither |
| LockFreeQueueResults.AnswersAreJustified | shared_memory/include/entity/resizeable_lockfree_queue.hpp:163-205 | every answer given in a reachable state is justified by it: refused only with no free index, nothing popped and empty only with no value, and setCapacity refused only for a capacity out of range, a queue that cannot be resized, or another thread holding the flag |
| LockFreeQueueFifo.EvictsOnlyWhenFull | shared_memory/include/entity/lockfree_queue.hpp:164-183 | push evicts only while all Capacity indices are in the used queue |
| LockFreeQueueFifo.EvictsOnlyAtCapacity | shared_memory/include/entity/resizeable_lockfree_queue.hpp:272-314 | the resizeable push evicts only from a queue with at least as many values as the capacity it loaded |
| LockFreeQueueFifo.FailuresAreTruthful | shared_memory/include/entity/lockfree_queue.hpp:122-137 | pop returns nothing, and tryPush refuses, only if there was no value, or no free index, at the deciding load |
| LockFreeQueueFifo.EmptyAnswerIsTruthful | shared_memory/include/entity/lockfree_queue.hpp:223-226 | in every reachable state, empty() answers true only while the used queue is empty, and false at its loaded position only while it is not |
| LockFreeQueueSolo.SpinsForEver | shared_memory/include/entity/resizeable_lockfree_queue.hpp:298-325 | with a capacity of zero and both queues empty, a push that runs alone never returns and never changes anything, whatever its exchanges do |
| LockFreeQueueAlone.PushReturnsExactlyWithCapacity | shared_memory/include/entity/resizeable_lockfree_queue.hpp:298-325 | from every reachable state between calls, a push that runs alone returns if and only if the capacity is at least one |
| LockFreeQueueAlone.SetCapacityAlone | shared_memory/include/entity/resizeable_lockfree_queue.hpp:163-270 | from every reachable state between calls, setCapacity(n) alone ends within 24 max + 21 steps; it returns true if and only if the queue is resizeable and n is at most MaxCapacity; then the capacity is n, the newest min(n, size) values stay and the others went to the handler, oldest first; otherwise nothing changes |
| LockFreeQueueAlone.PushAlone | shared_memory/include/entity/resizeable_lockfree_queue.hpp:298-325 | likewise push returns within 49 steps, with the oldest value if and only if the queue is at its capacity |
| LockFreeQueueAlone.TryPushAlone | shared_memory/include/entity/lockfree_queue.hpp:122-154 | likewise tryPush stores its value and returns true if and only if the queue is not at its capacity |
| LockFreeQueueAlone.PopAlone | shared_memory/include/entity/lockfree_queue.hpp:208-221 | likewise pop returns the oldest value if and only if there is one |
| LockFreeQueueAlone.QueriesAlone | shared_memory/include/entity/lockfree_queue.hpp:223-231 | likewise empty() and size() answer for the values stored and change nothing |
| LockFreeQueueQuiescence.ReachableQuiescent | shared_memory/include/entity/index_queue.hpp:221-231 | in every reachable state between calls no write position is left behind and the two queues hold capacity many indices |
| LockFreeQueueCounters.SizeIsTruthful | shared_memory/include/entity/lockfree_queue.hpp:76-82 | in every reachable state m_size is the number of indices written but not yet read, at most the capacity, and no fetch_sub underflows |
| LockFreeQueueCounters.SizeAnswerIsTruthful | shared_memory/include/entity/lockfree_queue.hpp:228-231 | what size() answers at its load is at least the number of values in the used queue and at most the number of cells |
| LockFreeQueueCounters.CapacityIsTruthful | shared_memory/include/entity/resizeable_lockfree_queue.hpp:207-270 | capacity and indices out of service add up to MaxCapacity in every reachable state, up to the one a shrink is about to subtract |
| LockFreeQueueCounters.ResizeIsTruthful | shared_memory/include/entity/resizeable_lockfree_queue.hpp:184-205 | when a concurrent setCapacity(n) is about to return true, the capacity is n |
| SofiProtocol.ExecSimulates | shared_memory/include/entity/sofi.hpp:205-315 | every interleaving of producer, consumer and observer, copies word by word, is a run of a FIFO queue: popped, returned and judged values are intact and are the oldest |
| SofiProtocol.EveryRunIsFifo | shared_memory/include/entity/sofi.hpp:205-315 | the values handed out, ordered by read-position exchange, are exactly a prefix of the pushed ones, the rest is stored, and what the producer took out it returned |
| SofiResults.ResultsAreTruthful | shared_memory/include/entity/sofi.hpp:205-315 | in every run a push has stored exactly its argument and returns exactly the value it dropped; a pop returns exactly the value it took, accepted by the verificator, and fails only after a round that saw the buffer empty or the oldest value refused |
| SofiObserver.AnswersAreTruthful | shared_memory/include/entity/sofi.hpp:155-203 | in every run there is a moment between the start of the call and its answer at which size() was the number of values in the abstract queue, and empty() was whether there was none |
| SofiAlone.ObserverAlone | shared_memory/include/entity/sofi.hpp:155-203 | alone, size() answers the number of values within four steps and empty() whether there is none within three |
| SofiAlone.PopAlone | shared_memory/include/entity/sofi.hpp:210-259 | alone, popIf pops the oldest value if and only if there is one and the verificator accepts it, within words + 5 steps, wherever the producer has stopped |
| SofiAlone.PushAlone | shared_memory/include/entity/sofi.hpp:261-315 | alone, push stores its value within 2 words + 5 steps and returns the oldest if and only if the buffer was full, wherever the consumer has stopped |
| IndexQueues.IndexQueue.Push | shared_memory/include/entity/index_queue.hpp:152-232 | in place: appends, whatever the number of spurious failures, and finishes a stalled push |
| IndexQueues.IndexQueue.Pop | shared_memory/include/entity/index_queue.hpp:234-288 | in place: takes the oldest index if and only if there is one |
| IndexQueues.IndexQueue.PopIfFull | shared_memory/include/entity/index_queue.hpp:290-325 | in place: takes the oldest index only if full, and always if full with no push unfinished |
| IndexQueues.IndexQueue.PopIfSizeIsAtLeast | shared_memory/include/entity/index_queue.hpp:327-374 | in place: the same for a minimum number of indices |
| IndexQueues.IndexQueue.IsEmpty | shared_memory/include/entity/index_queue.hpp:404-413 | in place: true if and only if there is no index |
| LockFreeQueues.LockFreeQueue.TryPush | shared_memory/include/entity/lockfree_queue.hpp:122-154 | in place: appends unless full, result and contents as in the bounded queue |
| LockFreeQueues.LockFreeQueue.Push | shared_memory/include/entity/lockfree_queue.hpp:156-206 | in place: terminates with at most one eviction, of the oldest element, exactly when full |
| LockFreeQueues.LockFreeQueue.Pop | shared_memory/include/entity/lockfree_queue.hpp:208-221 | in place: takes the oldest element or reports an empty queue |
| LockFreeQueues.LockFreeQueue.ReadBufferAt | shared_memory/include/entity/lockfree_queue.hpp:233-243 | moves the element out of a live slot, leaves a destroyed one |
| LockFreeQueues.FillSlot | shared_memory/include/entity/lockfree_queue.hpp:132-137 | a free index names a destroyed slot; filled and published it appends one value and conserves the indices |
| LockFreeQueues.EmptySlot | shared_memory/include/entity/lockfree_queue.hpp:216-220 | a used index names a live slot; read out it drops the oldest value and conserves the indices wherever it goes next |
| ResizeableLockFreeQueues.ResizeableLockFreeQueue.SetCapacity | shared_memory/include/entity/resizeable_lockfree_queue.hpp:163-205 | terminates; true exactly for n up to MaxCapacity with no resize in progress; then the capacity is n, n plus the unused indices is MaxCapacity, the newest min(n, size) elements stay in order and the others went to the handler oldest first |
| ResizeableLockFreeQueues.ResizeableLockFreeQueue.DecreaseCapacity | shared_memory/include/entity/resizeable_lockfree_queue.hpp:228-270 | retires free indices first and then the oldest elements, as many as do not fit, and stops at a capacity of zero |
| ResizeableLockFreeQueues.ResizeableLockFreeQueue.IncreaseCapacity | shared_memory/include/entity/resizeable_lockfree_queue.hpp:207-226 | gives back as many indices as asked for or as there are, elements untouched |
| ResizeableLockFreeQueues.ResizeableLockFreeQueue.Push | shared_memory/include/entity/resizeable_lockfree_queue.hpp:298-325 | terminates with at most one eviction, of the oldest element, exactly at the current capacity |
| ResizeableLockFreeQueues.ResizeableLockFreeQueue.TryGetUsedIndex | shared_memory/include/entity/resizeable_lockfree_queue.hpp:272-282 | succeeds exactly when the queue holds its capacity |
| SofiQueues.SoFi.Push | shared_memory/include/entity/sofi.hpp:261-315 | in place: stores the value, and hands out the oldest exactly when the ring is full |
| SofiQueues.SoFi.PopIf | shared_memory/include/entity/sofi.hpp:210-259 | in place: pops the oldest element exactly if there is one and the verificator accepts it |
| SofiQueues.SoFi.SetCapacity | shared_memory/include/entity/sofi.hpp:168-182 | in place: succeeds exactly on an empty ring up to the built size |
| Rings.WindowAppend | shared_memory/include/entity/sofi.hpp:266-271 | writing the slot behind the window appends to it as long as the lap is not full |
| FifoQueues.FiFo.Push | shared_memory/include/entity/fifo.hpp:42-56 | in place: appends unless full |
| FifoQueues.FiFo.Pop | shared_memory/include/entity/fifo.hpp:81-98 | in place: takes the oldest element or reports an empty queue |
| VariantQueues.VariantQueue.Push | shared_memory/include/entity/varaint_queue.hpp:130-171 | whichever queue is behind it: no answer if and only if there was room; a rejecting kind answers the value itself and changes nothing, an overflowing one the oldest value, which is gone |
| VariantQueues.VariantQueue.Pop | shared_memory/include/entity/varaint_queue.hpp:173-203 | whichever queue is behind it: the oldest element |
| VariantQueues.VariantQueue.SetCapacity | shared_memory/include/entity/varaint_queue.hpp:259-286 | on SoFi always reports true, and takes effect exactly on an empty ring with enough slots; on the lock-free queue true exactly up to MaxCapacity, and keeps the newest elements that fit |
| VariantQueues.VariantQueue.PerformAll | shared_memory/include/entity/varaint_queue.hpp:130-257 | the answers to a whole sequence of calls, and the contents after it, depend only on the overflow behaviour, the capacity and the contents before |
| VariantQueues.AnswersAreFifo | shared_memory/include/entity/varaint_queue.hpp:130-203 | over any sequence of calls, the contents before and the values that entered are, in this order, the values that left and the contents after |
| VariantQueues.CompareQueues | shared_memory/include/entity/varaint_queue.hpp:130-257 | SoFi and the overwriting lock-free queue, and FiFo and tryPush, cannot be told apart by any sequence of push, pop, empty and size at equal capacity, which for the overwriting lock-free queue is at least one |
| UsedChunkList.List.Insert | shared_memory/include/entity/used_chunk_list.hpp:83-106 | fails exactly if Capacity chunks are stored, otherwise the chunk becomes the most recent one; after each single assignment the recorded chunks are the old or the new contents |
| UsedChunkList.List.Remove | shared_memory/include/entity/used_chunk_list.hpp:108-141 | takes out exactly the most recently inserted match, its traversal terminates; after each single assignment the recorded chunks are the old or the new contents |
| UsedChunkList.List.Cleanup | shared_memory/include/entity/used_chunk_list.hpp:143-155 | from any memory whatsoever releases every recorded chunk exactly once and leaves a valid empty list |
| UsedChunkList.List.Init | shared_memory/include/entity/used_chunk_list.hpp:157-180 | builds the free list over all entries |
| UsedChunkList.InsertCrashes | shared_memory/include/entity/used_chunk_list.hpp:83-106 | wherever an insert stops, a cleanup would release the chunks stored before or those stored after |
| UsedChunkList.RemoveCrashes | shared_memory/include/entity/used_chunk_list.hpp:108-141 | the same for a remove |
| UsedChunkList.RecordedIsStored | shared_memory/include/entity/used_chunk_list.hpp:143-152 | between calls the recorded chunks are exactly the listed ones |
| UsedChunkList.InsertKeepsInv | shared_memory/include/entity/used_chunk_list.hpp:83-106 | the two lists stay acyclic, disjoint and together cover all entries, free entries hold the logical null |
| UsedChunkList.RemoveKeepsInv | shared_memory/include/entity/used_chunk_list.hpp:108-141 | the same for unlinking any entry |
| UsedChunkList.PartitionSize | shared_memory/include/entity/used_chunk_list.hpp:83-106 | the lengths of the two lists add up to Capacity |
| WireFormat.WireReadsBack | serialize/detail/endian_wrapper.hpp:30-140 | a word written and read back, swapped or not, on either host, is the number modulo the width of its field |
| WireFormat.OrderOnTheWire | serialize/detail/endian_wrapper.hpp:30-58 | words travel most significant byte first exactly if the configured order is the host's |
| Schemas.LayoutReadsBack | serialize/detail/reflection.hpp:627-729 | copying the memory of a trivially serializable object, padding included, copies its value |
| SerializerRoundTrip.RoundTrip | serialize/detail/deserializer.hpp:51-472 | for every type, value, configuration and following bytes, if no length is mistaken or truncated, reading gives ok, the value, and exactly the following bytes |
| SerializerRoundTrip.PartsRoundTrip | serialize/detail/serializer.hpp:36-50 | the same for a list of arguments |
| SerializerRoundTrip.SurvivesRoundTrip | serialize/detail/deserializer.hpp:149-218 | a struct member, variant content or pointee comes back, with exactly its bytes consumed, even if its own reading ends in a dropped error: an empty container, or an array, sequence, pair or tuple that ends in one, at any depth |
| SerializerRoundTrip.EmptyReadsBack | serialize/detail/deserializer.hpp:468-470 | an empty container reads as length_error with its bytes consumed and the target empty |
| SerializerBytes.BlockBytes | serialize/detail/serializer.hpp:112-134 | with the little-endian configuration on a little-endian host, a vector of trivially copyable elements is its length, most significant byte first, and the images of the elements in memory; an array only the latter |
| SerializerBytes.ByteBlockBytes | serialize/detail/serializer.hpp:112-134 | in every configuration the same holds for elements of one byte |
| SerializerBytes.ElementBytes | serialize/detail/serializer.hpp:136-158 | in every other case the elements are written one by one, in order |
| SerializerBytes.VectorWordAt | serialize/detail/serializer.hpp:112-134 | word i of a vector lies at length field + i times its width, least significant byte first exactly if the configuration or the host is little-endian |
| SerializerBytes.GroupBytes | serialize/detail/serializer.hpp:160-247 | pairs and tuples are their parts in order; a struct has a field in front, the size of the whole struct where nothing is swapped plus one per string |
| SerializerBytes.VariantBytes | serialize/detail/serializer.hpp:173-179 | a variant is its index and the alternative of that index |
| SerializerBytes.MemberAligned | serialize/detail/reflection.hpp:627-729 | every member of a trivially serializable object lies at the next multiple of its alignment |
| SerializerBytes.MemberImage | serialize/detail/reflection.hpp:627-729 | and has its own image there |
| SerializerSafety.ReadIsSafe | serialize/detail/deserializer.hpp:61-472 | reading arbitrary bytes leaves an object of the type, sets and maps without duplicates, and a cursor inside the buffer and not moved back |
| SerializerSafety.IntoIsSafe | serialize/detail/deserializer.hpp:259-317 | elements read into a set or map never replace those read before |
| SerializerErrors.PlainOutcome | serialize/detail/deserializer.hpp:70-472 | without struct, variant and pointer, the encoding of a value whose lengths fit reads as ok if and only if no container in it is empty, and as length_error otherwise |
| SerializerErrors.Truncated | serialize/detail/memory_reader.hpp:25-33 | without struct, variant and pointer, every proper prefix of an encoding reads as no_buffer_space |
| SerializerErrors.TruncatedDropping | serialize/detail/deserializer.hpp:149-218 | for every struct, variant and smart pointer whose own length field is not written as zero, and every cut point, the truncated encoding reads as ok if and only if that field is complete, and as no_buffer_space otherwise |
| SerializerErrors.DroppingOutcome | serialize/detail/deserializer.hpp:149-218 | the encoding of a struct, variant or pointer reads as ok if and only if its own length field, as truncated, is not zero, whatever becomes of its parts; otherwise as length_error |
| SerializerErrors.VariantOutcome | serialize/detail/deserializer.hpp:149-165 | a variant whose index fits its field reads as ok if and only if there is no index field or it does not hold its first alternative, and as length_error otherwise |
| SerializerErrors.TruncatedStructIsAccepted | serialize/detail/deserializer.hpp:167-188 | a concrete struct whose truncated encoding reads as ok with a wrong value |
| SerializerTargets.TruncatedTarget | serialize/detail/deserializer.hpp:61-472 | what the target holds and which bytes stay unread after any cut: pieces in front of the cut have their values, a string that is cut is resized and zero, elements and members behind it are as constructed |
| SerializerTargets.TruncatedStructTarget | serialize/detail/deserializer.hpp:167-188 | what each member of an accepted truncated struct holds: its value in front of the cut, what was prepared at it, and what the unread bytes are taken for behind it |
| SerializerSize.SizeAgrees | serialize/detail/calculate_size.hpp:27-180 | the computed size is never less than the bytes written, if nothing is swapped or structs have no length field; if nothing is swapped it is exactly those and one per string |
| SerializerSize.BufferIsFilled | serialize/detail/calculate_size.hpp:188-194 | runtime info of the default configuration: bytes written plus number of strings |
| SerializerSize.SizeIsThatOfUnswapped | serialize/detail/calculate_size.hpp:27-194 | whatever the byte orders, the computed size is exactly that of the encoding where nothing is swapped, and one byte per string |
| SerializerSize.StructFieldsAreNotCounted | serialize/detail/calculate_size.hpp:90-100 | every other configuration computes too small a size for a concrete array of structs, so the condition is exact |
| Serializer.Serializer.SerializeOne | serialize/detail/serializer.hpp:52-286 | in place: appends the encoding at the cursor, loops over elements, and stays within its room |
| Serializer.Serializer.SerializeMany | serialize/detail/serializer.hpp:42-50 | in place: the arguments one after the other |
| Serializer.Serializer.WriteWrapper | serialize/detail/endian_wrapper.hpp:30-58 | in place: one word in the configured order |
| Serializer.Serializer.SerializeLengthField | serialize/detail/serializer.hpp:248-278 | in place: a length cut to its field |
| Serializer.MemoryWriter.WriteBytesArray | serialize/detail/memory_writer.hpp:17-23 | copies bytes at the cursor, everything else in the buffer unchanged |
| Serializer.CalculateOneSize | serialize/detail/calculate_size.hpp:27-172 | the accumulating computation gives the size function |
| Serializer.SerializeTo | serialize/serialize.hpp:47-58 | the buffer resized by the computed size suffices; it ends up holding its old bytes, the encoding, and one zero per string |
| Deserializer.MemoryReader.Read | serialize/detail/memory_reader.hpp:25-33 | reads all of the bytes or none |
| Deserializer.Deserializer.ReadWrapper | serialize/detail/endian_wrapper.hpp:84-127 | in place: one word in the configured order |
| Deserializer.Deserializer.DeserializeLengthField | serialize/detail/deserializer.hpp:427-472 | in place: a zero in a field of non-zero width is length_error |
| Deserializer.Deserializer.DeserializeOne | serialize/detail/deserializer.hpp:61-425 | in place, for arbitrary input: code, target (partly filled on errors) and cursor are those of the decoding function |
| Deserializer.Deserializer.DeserializeMany | serialize/detail/deserializer.hpp:42-59 | in place: stops at the first error |

## Where the code and its documentation disagree

The model follows the code.

- `kLittleEndian` names the configuration that swaps the bytes of every word: a little-endian host
  writes big-endian words, while block copies of trivially copyable sequences keep the host's order
  (`serialize/detail/endian_wrapper.hpp:36-58`, `OrderOnTheWire`).
- `serialize_one_helper` writes empty containers and the first alternative of a variant, which
  `deserialize_length_field` then refuses (`serialize/detail/deserializer.hpp:468-470`,
  `PlainOutcome`, `VariantOutcome`).
- `SoFi::setCapacity` documents 0 < newSize < CapacityValue and accepts 0 and CapacityValue as well
  (`shared_memory/include/entity/sofi.hpp:125-130`, `168-182`).
- `VariantQueue::setCapacity` reports true on top of SoFi also when SoFi has refused the capacity
  (`shared_memory/include/entity/varaint_queue.hpp:268-275`, `VariantQueue.SetCapacity`).
- A `SoFi::push` that overflows returns false although the value is stored
  (`shared_memory/include/entity/sofi.hpp:261-315`).
- `ResizeableLockFreeQueue::setCapacity` accepts 0, and `push`, which is documented to succeed
  always, does not return then (`shared_memory/include/entity/resizeable_lockfree_queue.hpp:298-325`,
  `PushReturnsExactlyWithCapacity`).

## Left out

- Weak memory: steps interleave sequentially consistently; relaxed and acquire/release reordering is
  not modelled.
- 64-bit wrap-around of queue positions for ring lengths that do not divide 2^64: the protocols use
  unbounded positions, which `CyclicIndexWords` ties to words without overflow, or across it for
  lengths that divide 2^64.
- ResizeableLockFreeQueues.ResizeableLockFreeQueue.Push: requires a capacity of at least one in the
  class, because a method has to terminate; that the call spins otherwise is a result about the step
  machine. `VariantQueue` inherits the condition for the kind that uses this push.
- ResizeableLockFreeQueues.ResizeableLockFreeQueue.DecreaseCapacity: does not cover decreasing a
  capacity that is already zero, which spins and which `setCapacity` never asks for.
- SerializerRoundTrip.RoundTrip: `Clean` is sufficient, not necessary: once a dropped error has left
  the cursor inside a value, the bytes read next may happen to be the right ones.
- Lock-freedom of `pushImpl` and of a shrinking setCapacity: both spin while another thread holds an
  index, as the comments in the code say. The results about their runs are safety results; only
  `IndexQueue` is proved lock-free.
- Object lifetime beyond live and destroyed: a buffer slot is empty or holds an element; placement
  new, moves and destructors are not distinguished.
- `SoFi::setCapacity`, `size` and `empty` retry loops run once when no other thread interferes; the
  class shows the single pass.
- `VariantQueue` construction, and `setCapacity` for the kind on top of FiFo, which aborts.
- The synchronizer flag of `UsedChunkList` only orders memory accesses and is not modelled; a chunk
  and its header are identified.
- A chunk that `remove` has already handed to an owner that dies is the owner's: it is no longer
  recorded.
- Serializer: 128-bit integers, wide strings, optional, expected, monostate, bitset and the stream
  reader overload.
- Serializer: targets are freshly constructed; the loop variable that map and set decoding reuses
  after moving from it counts as fresh too.
- Serializer: sets and maps are listed in iteration order, so a decoded one is compared up to the
  order its container gives it.
- Serializer: lengths of 2^63 bytes and more, where the code is undefined, and allocation failure.
- Ports, publishers, listeners, mutexes, semaphores, chunk headers, allocators and the setup of
  shared memory: declarations or operating system calls.
- The vendored optional, expected, variant and logging libraries, and the queues that duplicate the
  ones above in weaker form.
