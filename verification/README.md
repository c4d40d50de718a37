# iceoryx2: verified models of the zero-copy core

This project models the parts of iceoryx2 that carry its promises, a zero-copy publish-subscribe
middleware, and proves what they promise:

- **the sample lifecycle**: a publisher loans chunks of a fixed data segment, writes and sends them,
  counts references, keeps a history and takes samples back, while any number of subscribers receive and
  return samples between any two of its steps (`SampleLifecycle`, `SampleReferences`, `SampleDelivery`,
  `SampleTheorems`, `SampleReturns`, `SampleCapacity`, `SampleLeaks`). `PublisherPort` is the port itself, with its loops; every method
  there is proved to follow a run of the lifecycle, so all theorems about runs hold for it;
- **what it stands on**: the return channels, with `try_send` in single steps (`ReturnChannel`), the
  lock-free queue that overflows safely (`OverflowQueue`), the lock-free index set (`UniqueIndexSet`), the pool and bump
  allocators (`PoolAllocator`, `BumpAllocator`) and the ring buffer of the history (`RingQueue`);
- **small concurrent protocols**: the reference counter of inter-process handles (`IpcHandle`), unique ids
  (`UniqueSystemId`) and the lazy singleton (`LazySingleton`);
- **strings and arithmetic**: byte strings and semantic strings (`ByteStrings`, `SemanticStrings`), the
  mapping between names and files (`NamedConcept`), alignment, powers of two and base 64 (`Math`, on top
  of `Bits`). `Common` holds shared vocabulary.

Concurrent code is modelled as a transition system with one step per access to shared memory, under
sequential consistency. A theorem about a reachable state is a theorem about every run of any length with
any number of threads. Where the source panics, the model returns a value that says so.

## What the proofs found

Where the code does not meet a property, a lemma shows a run or an input on which it fails, and another
one states exactly when it holds.

- `try_send` reads the length of the return channel before the length of the receive channel. A subscriber
  that runs in between makes the estimate of free space wrong, and `release_sample` can then hit its "should
  never happen" error. With both reads as steps of the lifecycle, no run gets there if and only if the
  publisher can loan nothing, or can loan one sample only and the history fits into buffer plus borrowed
  samples (`ReturnChannel.PublisherReturnsPossible`). Without overflow the service builder refuses a history
  that is longer than the buffer, so that only the number of loans decides.
- A subscriber that joins in the slot of one that has left, before the publisher updates its connections, is
  not connected: its slot still holds the connection of its predecessor, which goes on receiving the samples
  (`PublisherPort.LateJoinerInTakenSlot`). A subscriber in the list is served if and only if its slot was
  empty and the connection can be created, or the connection is its own already
  (`PublisherPort.Publisher.PopulateSubscriberChannels`, `PublisherPort.Publisher.Send`), and that stays so
  until an update sees the slot empty (`PublisherPort.StaleOwnerStays`, `PublisherPort.ServedEventually`).
  This is the ordinary case, since the slot is an index of the index set, which hands out next what was
  released last (`UniqueIndexSet.ReleasedIndexComesNext`).
- References are lost when a connection is removed while it holds samples, and when delivering the history
  evicts from the buffer of the new connection, which happens if and only if the buffer may overflow and is
  shorter than the history (`SampleLeaks.HistoryLosesIff`). The data segment makes up for one lost chunk and
  no more (`SampleLeaks.OneLostChunkIsTolerated`), and in every configuration subscribers that leave at the
  wrong moment can use up the whole segment (`SampleLeaks.OutOfMemoryIsReachable`). The runs that show this
  follow the publisher's program order, with no subscriber between the checks of `try_send`.
- The overflowing queue gives an element out twice if its capacity is zero, and only then; the service
  builder lifts buffer sizes to at least one (`OverflowQueue.SafeIffCapacity`).
- The index set is exclusive if and only if no thread sleeps through 2^32 exchanges
  (`UniqueIndexSet.ExclusiveIffTagLasts`; arithmetic wraps as in a release build).
- Unique ids are compared by the nanosecond fraction alone, so two threads can make the same id twice if the
  fraction recurs. Ids are unique if and only if there is one thread, or the fraction does not recur, or less
  than a second lies between the id whose fraction was loaded and the exchange
  (`UniqueSystemId.UniqueIffSafe`).
- Buckets of the pool are a bucket size apart although they are counted with the size rounded up to the
  alignment, so they are aligned if and only if there is at most one or the size is a multiple of the
  alignment. `get_index` accepts pointers behind the last bucket.
- Byte strings bounds-check one position behind the range that they remove. Removing a range that ends at
  the capacity panics, so `pop` on a full string does, and so does the rollback of a semantic string.
  `retain` removes the bytes on which the closure is true, as the code does; its documentation says false.
  The semantic string applies the closure twice and checks only the first result, so a closure with a state
  can leave illegal content. It cannot, whatever the rules, if and only if its second pass leaves the same as
  the first or removes nothing (`SemanticStrings.RetainIsSafeIff`); a file name becomes illegal if and only if
  the second pass leaves nothing, `.` or `..` (`NamedConcept.FileNameAfterRetain`).
- The normalisation of paths drops one trailing separator and squeezes the others. The name
  is extracted from its own path again if and only if the path hint does not end with exactly two separators
  and prefix, name and suffix together fit into a file name (`NamedConcept.PathRoundTrip`). With two
  separators the path is not recognised (`NamedConcept.DoubleSeparatorLosesName`), and a file name that is too
  long panics (`NamedConcept.LongNamePanics`), although `path_for` makes such paths.
- After a failed creation the handle can be used again if and only if it belongs to a read-write mutex whose
  attributes were initialised (`IpcHandle.FailedCreation`, `IpcHandle.StuckForever`).

## Model

| member | source | states |
|---|---|---|
| SampleReferences.StepRefs | iceoryx2/src/port/publisher.rs:288-440 | the number of references to a chunk, over loans, history, all queues, hands and orphans, changes by exactly the step's increments and decrements, for each of the sixteen steps |
| SampleReferences.StepCounter | iceoryx2/src/port/publisher.rs:343-408 | counter and pending increments of every chunk change by the same amount, and a counter falls only on release |
| SampleReferences.StepKeepsRefs | iceoryx2/src/port/publisher.rs:288-440 | every step keeps the reference invariant: balance, free means unreferenced, loans are exclusive, no negative counter, loan counter equals live loans |
| SampleTheorems.Conservation | iceoryx2/src/port/publisher.rs:395-440 | in every reachable state a chunk's counter plus the increments under way is the number of its references, and it is free exactly when there are none |
| SampleTheorems.ReleaseIsSafe | iceoryx2/src/port/publisher.rs:395-408 | no decrement underflows, nothing free is freed again, and a chunk is deallocated exactly when its last reference goes |
| SampleTheorems.LoanedChunkIsUnused | iceoryx2/src/port/publisher.rs:540-560 | a chunk from the allocator has counter zero and no reference, so the "already in use" panic is unreachable |
| SampleDelivery.StepPayload | iceoryx2/src/port/publisher.rs:534-576 | every step keeps every buffered, borrowed, returned, recorded or orphaned entry pointing at the payload of its own send |
| SampleTheorems.PayloadIntegrity | iceoryx2/src/port/subscriber.rs:221-251 | whatever a subscriber holds or will receive reads as the payload that was sent, and its chunk is not free |
| SampleTheorems.HeldSampleIsStable | iceoryx2/src/sample.rs:56-74 | no step of anybody changes the memory of a sample that a subscriber holds |
| SampleTheorems.HeldSampleOverRuns | iceoryx2/src/sample.rs:56-74 | a held sample reads the same at any two moments of any run |
| SampleTheorems.StepBorrowed | iceoryx2/src/port/subscriber.rs:155-176 | what a subscriber has borrowed changes only by receiving the oldest waiting sample and by returning the very sample that was named |
| SampleTheorems.HeldUntilGivenUp | iceoryx2/src/sample.rs:56-74 | over every run a received sample stays borrowed and reads the same until the subscriber returns that sample or its connection is removed |
| SampleDelivery.StepConnections | iceoryx2/src/port/publisher.rs:358-393 | every step keeps all queues bounded, ordered and without duplicates, and accounts for every offered sample |
| SampleDelivery.StepHistory | iceoryx2/src/port/publisher.rs:343-356 | every step keeps the history the last sends in order |
| SampleTheorems.ReachableInv | iceoryx2/src/port/publisher.rs:236-440 | all invariants hold after any run of publisher and subscriber steps |
| SampleTheorems.OrderedDelivery | iceoryx2/src/port/subscriber.rs:275-297 | received and waiting samples are strictly increasing in send order, none older than the history at connection time, received, waiting, refused and evicted add up to what was offered, and no more is borrowed or returned than was received |
| SampleTheorems.LosslessDelivery | iceoryx2/src/port/publisher.rs:358-393 | without refusal and eviction a subscriber gets exactly the samples offered, without a gap |
| SampleTheorems.OverflowKeepsNewest | iceoryx2/src/port/publisher.rs:358-393 | the buffer holds the newest offers without a gap as long as none was refused |
| SampleTheorems.HistoryIsLastSends | iceoryx2/src/port/publisher.rs:343-356 | between sends the history has min(history size, sends) entries, which read as the last payloads sent |
| SampleCapacity.AllocatedSize | iceoryx2/src/service/messaging_pattern.rs:59-73 | after a reclaim, allocated chunks are at most subscribers * (buffer + borrowed) + history + loans + orphaned chunks |
| SampleCapacity.FreeChunkExists | iceoryx2/src/service/messaging_pattern.rs:59-73 | below the loan limit a free chunk exists after a reclaim unless at least two chunks are orphaned |
| SampleReturns.HistoryArrivesFirst | iceoryx2/src/port/publisher.rs:288-308 | a connection that is offered an entry of the history holds no more than the entries before it |
| SampleReturns.FittingHistoryKeepsReferences | iceoryx2/src/port/publisher.rs:288-308 | delivering the history loses no reference unless the buffer may overflow and is shorter than the history |
| SampleReturns.ReturnIsPossible | iceoryx2/src/port/subscriber.rs:155-176 | with one loan at a time and a history that fits into buffer plus borrowed samples, a connection never holds more than the return channel, in any reachable state, so every borrowed sample can be returned |
| SampleLeaks.HistoryOverflows | iceoryx2/src/port/publisher.rs:294-299 | a run in which delivering the history evicts an entry and its reference is lost |
| SampleLeaks.HistoryLosesIff | iceoryx2/src/port/publisher.rs:288-308 | delivering the history can lose a reference if and only if the buffer may overflow, the history is longer and anything can be sent |
| SampleLeaks.LeakCycle | iceoryx2/src/port/publisher.rs:279-283 | in every configuration, a send and a subscriber that connects, is offered samples as try_send accepts them, and leaves take one chunk out of circulation for good |
| SampleLeaks.TwoLostChunks | iceoryx2/src/service/messaging_pattern.rs:59-73 | a run to a full segment with two lost chunks, one sample borrowed and one waiting |
| SampleLeaks.OneLostChunkIsTolerated | iceoryx2/src/service/messaging_pattern.rs:59-73 | over all configurations and reachable states after a reclaim below the loan limit: a chunk is free with at most n lost chunks if and only if n is at most one |
| SampleLeaks.OutOfMemoryIsReachable | iceoryx2/src/port/publisher.rs:562-589 | for every configuration that allows a loan, an undisturbed run of the publisher leads to a state with nothing loaned or connected and no free chunk |
| PublisherPort.Publisher.constructor | iceoryx2/src/port/publisher.rs:158-234 | a new port has sent and lost nothing, and has a connection for exactly the subscribers whose connection could be created |
| PublisherPort.Publisher.Receive | iceoryx2/src/port/subscriber.rs:221-251 | moves the oldest waiting sample, which reads as sent, to the borrowed ones; fails exactly at the borrow limit; nothing exactly if none waits |
| PublisherPort.Publisher.ReturnSample | iceoryx2/src/port/subscriber.rs:155-176 | exactly the named sample moves from the borrowed to the returned ones, the others stay; refused exactly when the return channel is full, and never with one loan at a time and a history that fits |
| PublisherPort.Publisher.ReleaseSample | iceoryx2/src/port/publisher.rs:395-408 | the counter is positive before it is decremented, and exactly the last reference frees an allocated chunk |
| PublisherPort.Publisher.RetrieveReturnedSamples | iceoryx2/src/port/publisher.rs:410-440 | terminates against any subscriber, reclaims everything that had been returned before, and leaves at most buffer plus borrowed samples in each connection |
| PublisherPort.Publisher.LoanUninit | iceoryx2/src/port/publisher.rs:534-590 | reclaims everything returned, refuses exactly at the loan limit, never returns a chunk in use, runs out of memory exactly if no chunk is free after the reclaim, and then at least two chunks are orphaned |
| PublisherPort.Publisher.WritePayload | iceoryx2/src/sample_mut.rs:124-131 | writes the chunk of a loan and nothing else |
| PublisherPort.Publisher.DropSample | iceoryx2/src/sample_mut.rs:66-73 | dropping an unsent sample ends the loan and frees its chunk |
| PublisherPort.Publisher.CheckSend | iceoryx2_cal/src/zero_copy_connection/posix_shared_memory.rs:428-444 | with subscribers running between the reads, success implies room, a full buffer is reported only if it was full, a connection with spare room is never refused, and the return channel is judged by its first length against the later length of the buffer; a refusal is one that the queues justify at the last read |
| PublisherPort.Publisher.DeliverHistory | iceoryx2/src/port/publisher.rs:288-308 | a new connection is offered the whole history oldest first; nothing is lost if it fits into the buffer, the lost references are exactly the evicted ones, and there are none unless the buffer may overflow and is shorter |
| PublisherPort.Publisher.PopulateSubscriberChannels | iceoryx2/src/port/publisher.rs:236-286 | reclaims everything returned; slots without subscriber lose their connection, empty slots with one get a connection that has been offered the last sends, occupied slots are kept; a slot then serves a subscriber if and only if its connection was already theirs, or it was empty, they are in it and the creation succeeds; it fails exactly if a creation fails fatally, and then the slots before the first such one are updated and the others kept; lost references are bounded by what removed connections held and new ones evicted, and there are none if no connection is removed and the history fits |
| PublisherPort.Publisher.Remove | iceoryx2/src/port/details/subscriber_connections.rs:90-92 | empties one slot, touches no other, and loses exactly the samples in the three queues of its connection |
| PublisherPort.Publisher.Create | iceoryx2/src/port/details/subscriber_connections.rs:94-105 | fills an empty slot, delivers the history, changes the other connections only as subscribers do, and loses exactly the evicted references |
| PublisherPort.Publisher.AddToHistory | iceoryx2/src/port/publisher.rs:343-356 | the sample becomes the newest history entry and the evicted one gives up its reference |
| PublisherPort.Publisher.OfferSample | iceoryx2/src/port/publisher.rs:363-388 | the sample is delivered exactly if the connection refuses nothing; no full-buffer discard with overflow or blocking; waiting only when blocking without overflow on a buffer that was full; a connection with room to spare takes it |
| PublisherPort.Publisher.DeliverSample | iceoryx2/src/port/publisher.rs:358-393 | every connection is offered the sample, with one refusal or eviction at most and none if it has room to spare, and the result is the number of connections that took it |
| PublisherPort.Publisher.SendToAll | iceoryx2/src/port/publisher.rs:335-341 | the payload becomes the latest send and history entry, is offered to all, and the loan ends |
| PublisherPort.Publisher.Send | iceoryx2/src/port/publisher.rs:483-491 | a send appends exactly the loaned payload, or fails exactly on a fatal creation and only drops the sample; the result is the number of connections that took the sample, those that an update made included; a late joiner whose slot was empty and whose connection was created has been offered the last history and then the sample; a subscriber in the list is offered the sample if and only if that holds or the connection in the slot was already theirs; it blocks only on a full buffer; no reference is lost without an update, nor with one that removes nothing and whose history fits |
| PublisherPort.UpdatedThenSent | iceoryx2/src/port/publisher.rs:335-341 | a connection created by the update before a send is offered history and sample; with a history below the buffer size both are there completely, and at the buffer size at most one sample is missing |
| PublisherPort.LateJoinerInTakenSlot | iceoryx2/src/port/details/subscriber_connections.rs:94-105 | in every configuration with a loan: one subscriber leaves, another takes its slot, and the next send reaches the connection of the first and no connection of the second |
| PublisherPort.StaleOwnerStays | iceoryx2/src/port/details/subscriber_connections.rs:94-105 | as long as no update sees the slot empty, its connection stays with its first owner, whoever is in the slot |
| PublisherPort.ServedEventually | iceoryx2/src/port/publisher.rs:249-282 | however many updates find a subscriber in its slot, it is served if and only if the slot was empty and one attempt succeeds, or the connection was its own all along |
| ReturnChannel.ReachedIsReachable | iceoryx2_cal/src/zero_copy_connection/posix_shared_memory.rs:428-449 | every run in which try_send makes its two reads and its push one by one, with subscribers in between, is a run of the lifecycle, and a send under way can always go on |
| ReturnChannel.NeverRefused | iceoryx2/src/port/subscriber.rs:155-176 | with no loan, or one at a time and a history that fits into buffer plus borrowed, no run of the lifecycle refuses a return |
| ReturnChannel.SendDisturbed | iceoryx2_cal/src/zero_copy_connection/posix_shared_memory.rs:428-439 | a send between whose reads the subscriber returns one sample and receives another is accepted although one sample more is then on its way |
| ReturnChannel.LongHistory | iceoryx2_cal/src/zero_copy_connection/posix_shared_memory.rs:428-439 | with a history longer than buffer plus borrowed, a run of the lifecycle in which a subscriber connects while a sample is loaned, and a return is refused |
| ReturnChannel.TwoSendsInARow | iceoryx2_cal/src/zero_copy_connection/posix_shared_memory.rs:428-439 | with two loans, a run of the lifecycle in which two sends without a reclaim in between lead to a refused return |
| ReturnChannel.PublisherReturnsPossible | iceoryx2/src/port/subscriber.rs:155-176 | over all configurations and all runs of the lifecycle, with the reads of try_send as separate steps or with any answer the queues allow: no return is ever refused if and only if the publisher can loan nothing, or one sample only with a history that fits into buffer plus borrowed |
| OverflowQueue.StepIsFifo | iceoryx2_bb/lock_free/src/spsc/safely_overflowing_index_queue.rs:304-377 | through its contents, every access of producer and consumer is a step of a first-in first-out queue |
| OverflowQueue.EachValueOnceInOrder | iceoryx2_bb/lock_free/src/spsc/safely_overflowing_index_queue.rs:304-377 | each pushed value leaves at most once, in push order, to the consumer or back to the producer, unchanged |
| OverflowQueue.OverflowOnlyWhenFull | iceoryx2_bb/lock_free/src/spsc/safely_overflowing_index_queue.rs:304-334 | at most capacity elements between pushes, and only a full queue evicts |
| OverflowQueue.PopsOldest | iceoryx2_bb/lock_free/src/spsc/safely_overflowing_index_queue.rs:347-377 | in every reachable state an undisturbed pop gives nothing exactly if the queue is empty, and removes the oldest element otherwise |
| OverflowQueue.PushAppends | iceoryx2_bb/lock_free/src/spsc/safely_overflowing_index_queue.rs:304-334 | in every reachable state an undisturbed push appends the value, and evicts the oldest element exactly if the queue is full |
| OverflowQueue.CapacityZeroPopsTwice | iceoryx2_bb/lock_free/src/spsc/safely_overflowing_index_queue.rs:347-377 | a run with capacity zero in which the consumer pops what was never pushed |
| OverflowQueue.SafeIffCapacity | iceoryx2_bb/lock_free/src/spsc/safely_overflowing_index_queue.rs:304-377 | no more comes out than was put in if and only if the capacity is positive |
| UniqueIndexSet.StepInv | iceoryx2_bb/lock_free/src/mpmc/unique_index_set.rs:346-421 | every access keeps the linked list equal to the stack of free indices, each index in one place, and every copy of the head consistent |
| UniqueIndexSet.AcquiredIndexIsFree | iceoryx2_bb/lock_free/src/mpmc/unique_index_set.rs:346-379 | a successful exchange takes an index in range that is free and in no thread's hands |
| UniqueIndexSet.IndicesAreExclusive | iceoryx2_bb/lock_free/src/mpmc/unique_index_set.rs:346-421 | no two threads ever work on the same index |
| UniqueIndexSet.EmptyMeansAllTaken | iceoryx2_bb/lock_free/src/mpmc/unique_index_set.rs:351-354 | the set looks empty exactly when every index is taken; no index is lost |
| UniqueIndexSet.AcquiresIffFree | iceoryx2_bb/lock_free/src/mpmc/unique_index_set.rs:346-379 | in every reachable state an undisturbed acquire gives none exactly if no index is free, and the one on top of the stack otherwise |
| UniqueIndexSet.ReleasedIndexComesNext | iceoryx2_bb/lock_free/src/mpmc/unique_index_set.rs:346-421 | in every reachable state: an undisturbed release of an index and then an undisturbed acquire, by any threads, hands out that index and leaves the stack as it was |
| UniqueIndexSet.TagWrapHandsOutTwice | iceoryx2_bb/lock_free/src/mpmc/unique_index_set.rs:356-371 | a run of 2^32 exchanges after which an owned index is about to be handed out again |
| UniqueIndexSet.ExclusiveIffTagLasts | iceoryx2_bb/lock_free/src/mpmc/unique_index_set.rs:346-421 | for any bound on the age of copies of the head: no index is handed out twice if and only if the bound is at most 2^32 |
| PoolAllocator.BucketInside | iceoryx2_bb/memory/src/pool_allocator.rs:144-149 | all counted buckets lie inside the given memory, for every address and layout |
| PoolAllocator.AsManyAsFit | iceoryx2_bb/memory/src/pool_allocator.rs:144-149 | the number of buckets is the largest that fits behind the aligned start with sizes rounded up to the alignment |
| PoolAllocator.BucketsDisjoint | iceoryx2_bb/memory/src/pool_allocator.rs:175-181 | different buckets do not overlap |
| PoolAllocator.AlignedIffMultiple | iceoryx2_bb/memory/src/pool_allocator.rs:101-114 | all buckets are aligned if and only if there is at most one or the size is a multiple of the alignment |
| PoolAllocator.ManagementMemorySuffices | iceoryx2_bb/memory/src/pool_allocator.rs:138-149 | the management memory, computed without the address, holds the free list of the actual number of buckets at any address |
| PoolAllocator.ManagementMemoryIsTight | iceoryx2_bb/memory/src/pool_allocator.rs:138-149 | for the layout of a type at an aligned address the estimate is exact, and at some addresses the management memory is used to its last byte |
| PoolAllocator.SegmentHoldsExactly | iceoryx2/src/port/publisher.rs:314-333 | the requested segment size gives exactly the requested number of chunks at every base address |
| PoolAllocator.SampleIndexInverts | iceoryx2/src/port/publisher.rs:310-312 | the offset of chunk i, from the raw or the aligned start, has sample index i |
| PoolAllocator.SampleIndexBijective | iceoryx2/src/port/publisher.rs:310-333 | sample indices of a segment are in range and equal exactly for equal chunks, which lie inside the segment |
| PoolAllocator.GetIndexInverts | iceoryx2_bb/memory/src/pool_allocator.rs:151-158 | any pointer into bucket i has index i |
| PoolAllocator.AcceptedIffInBucket | iceoryx2_bb/memory/src/pool_allocator.rs:151-158 | an existing index is returned exactly for pointers into buckets; the end of the memory is accepted with an index that does not exist |
| PoolAllocator.Pool.New | iceoryx2_bb/memory/src/pool_allocator.rs:101-149 | a new pool has no live bucket and as many as fit; it panics exactly on a size of zero and on a memory that ends before its aligned start |
| PoolAllocator.Pool.Allocate | iceoryx2_bb/memory/src/pool_allocator.rs:162-188 | each error exactly in its case; otherwise a bucket that was not live, inside the memory, apart from all live buckets, and aligned as requested if the bucket size is a multiple of the bucket alignment (all alignments being powers of two, as the language guarantees) |
| PoolAllocator.Pool.Deallocate | iceoryx2_bb/memory/src/pool_allocator.rs:190-207 | frees exactly the live bucket that contains the pointer; refuses exactly pointers outside |
| BumpAllocator.StepInv | iceoryx2_bb/memory/src/bump_allocator.rs:72-118 | every load, exchange and reset keeps all chunks disjoint and aligned, and the position at the end of the last one |
| BumpAllocator.ChunksAreSafe | iceoryx2_bb/memory/src/bump_allocator.rs:53-118 | in every run with any number of threads the chunks since the last reset are disjoint, aligned and inside; the used space ends with the last of them, is 0 without any, and never exceeds the size |
| BumpAllocator.FailsOnlyWithoutRoom | iceoryx2_bb/memory/src/bump_allocator.rs:71-108 | an undisturbed request, spurious failures included, fails exactly on size zero or if no aligned offset from the position on leaves room; otherwise it appends a chunk of the requested size and alignment at the least such offset and changes nothing else |
| BumpAllocator.ResetFreesAll | iceoryx2_bb/memory/src/bump_allocator.rs:110-118 | after a deallocation a request succeeds exactly if the whole memory has room for it, at the least aligned offset |
| RingQueue.KeepsNewest | iceoryx2_bb/container/src/queue.rs:263-276 | any number of pushes with overflow keep exactly the newest elements in order |
| RingQueue.Queue.constructor | iceoryx2_bb/container/src/queue.rs:98-107 | a new queue is empty |
| RingQueue.Queue.UncheckedPush | iceoryx2_bb/container/src/queue.rs:278-286 | appends to the contents, whatever the positions |
| RingQueue.Queue.Push | iceoryx2_bb/container/src/queue.rs:250-259 | appends unless full, and says which |
| RingQueue.Queue.Pop | iceoryx2_bb/container/src/queue.rs:234-247 | removes and returns the oldest element, or nothing exactly if empty |
| RingQueue.Queue.PushWithOverflow | iceoryx2_bb/container/src/queue.rs:263-276 | appends, and evicts and returns exactly the oldest element exactly if full |
| RingQueue.Queue.Get | iceoryx2_bb/container/src/queue.rs:113-131 | the i-th oldest element, or a panic exactly out of range |
| RingQueue.Queue.Clear | iceoryx2_bb/container/src/queue.rs:214-216 | empties the queue |
| IpcHandle.StepInv | iceoryx2_bb/posix/src/unmovable_ipc_handle.rs:49-78 | every step of creation, opening and destruction, of both kinds of lock, keeps counter, value, native lock and agents consistent |
| IpcHandle.CounterCountsConstructs | iceoryx2_bb/posix/src/unmovable_ipc_handle.rs:49-78 | a positive counter is the number of constructs, including those built and dropped for lack of capability; otherwise there are none, and at most one builder |
| IpcHandle.BuilderIsAlone | iceoryx2_bb/posix/src/read_write_mutex.rs:211-291 | whoever initialises or destroys is the only one, and nobody has a construct |
| IpcHandle.NativeCallsAlternate | iceoryx2_bb/posix/src/read_write_mutex.rs:425-434 | the native lock is never initialised or destroyed twice in a row, and each creation is destroyed at most once and before the next |
| IpcHandle.ConstructFindsItsValue | iceoryx2_bb/posix/src/mutex.rs:348-473 | a construct finds an initialised lock, the value of its creation and the inter-process flag that was stored then; one obtained from a handle finds that flag set |
| IpcHandle.OpensIffCapable | iceoryx2_bb/posix/src/unmovable_ipc_handle.rs:49-78 | in every reachable state an undisturbed open gives up exactly if the counter is not positive; otherwise the counter is one higher, and there is a construct if and only if the last creation was inter-process capable; if not, dropping it restores the handle |
| IpcHandle.CreatesIffUnused | iceoryx2_bb/posix/src/read_write_mutex.rs:211-291 | an undisturbed creation changes nothing unless the handle is uninitialised; then it leaves the given value and flag, an initialised lock and one construct |
| IpcHandle.ValueBetweenLives | iceoryx2_bb/posix/src/read_write_mutex.rs:425-434 | an uninitialised handle holds no value, except that a mutex keeps the value of its last life |
| IpcHandle.LastDropDestroys | iceoryx2_bb/posix/src/mutex.rs:564-573 | a drop destroys the lock exactly if no other construct exists |
| IpcHandle.LastDropResets | iceoryx2_bb/posix/src/mutex.rs:564-573 | dropping the last construct undisturbed leaves the handle uninitialised and the lock destroyed; only a mutex keeps its value |
| IpcHandle.FailedCreation | iceoryx2_bb/posix/src/read_write_mutex.rs:228-277 | after a failed creation some later run creates a lock with the handle if and only if it is a read-write mutex past its attribute initialisation |
| IpcHandle.StuckForever | iceoryx2_bb/posix/src/mutex.rs:368-470 | after another failure nobody ever creates or opens the handle again |
| IpcHandle.StuckIsReachable | iceoryx2_bb/posix/src/mutex.rs:368-376 | for both kinds of lock a run leaves the handle stuck |
| UniqueSystemId.StepInv | iceoryx2_bb/posix/src/unique_system_id.rs:83-106 | an exchange that relies on the fraction of the latest id makes a later id than all before |
| UniqueSystemId.StrictlyIncreasing | iceoryx2_bb/posix/src/unique_system_id.rs:77-111 | ids of any number of threads are strictly increasing under every safe schedule |
| UniqueSystemId.WithinASecondNoRecurrence | iceoryx2_bb/posix/src/unique_system_id.rs:95-105 | less than a second after the loaded id, an equal fraction means that no id was made in between |
| UniqueSystemId.Duplicate | iceoryx2_bb/posix/src/unique_system_id.rs:95-105 | a run of two threads in which an id is made twice |
| UniqueSystemId.UniqueIffSafe | iceoryx2_bb/posix/src/unique_system_id.rs:77-111 | ids are unique, and increasing, if and only if the fraction does not recur, or less than a second passes, or there is one thread |
| UniqueSystemId.PackRoundTrip | iceoryx2_bb/posix/src/unique_system_id.rs:109-133 | process id, seconds and nanoseconds are recovered exactly from the 128-bit value |
| UniqueSystemId.LaterIsLarger | iceoryx2_bb/posix/src/unique_system_id.rs:109-109 | later times of a process give larger values |
| UniqueSystemId.ProcessesDiffer | iceoryx2_bb/posix/src/unique_system_id.rs:109-120 | values of different processes differ |
| LazySingleton.OneValueForAll | iceoryx2_bb/elementary/src/lazy_singleton.rs:69-98 | at most one set_value returns true, and every get that returns yields its value |
| LazySingleton.ReadsAreSafe | iceoryx2_bb/elementary/src/lazy_singleton.rs:85-98 | a get that reads the cell finds it filled, and nobody writes it any more |
| LazySingleton.AcceptedForever | iceoryx2_bb/elementary/src/lazy_singleton.rs:69-98 | once accepted, a value stays, later calls are refused, and a get reads it without spinning or panicking |
| LazySingleton.AcceptedIffUnclaimed | iceoryx2_bb/elementary/src/lazy_singleton.rs:69-81 | in every reachable state an undisturbed set_value is accepted exactly if no other call was or is about to be, and is refused without effect otherwise |
| LazySingleton.PanicsIffUnclaimed | iceoryx2_bb/elementary/src/lazy_singleton.rs:85-98 | a get panics if and only if it finds that no set_value has returned true or is about to |
| LazySingleton.SpinsUntilAccepted | iceoryx2_bb/elementary/src/lazy_singleton.rs:94-98 | a get that spins goes on exactly when a value has been accepted, and returns it |
| ByteStrings.ByteString.InsertBytesUnchecked | iceoryx2_bb/container/src/byte_string.rs:373-390 | moves the tail and writes the bytes: the contents are the splice, terminated by zero; fails exactly at position capacity |
| ByteStrings.ByteString.InsertBytes | iceoryx2_bb/container/src/byte_string.rs:344-364 | splices, or reports exceeding the capacity or panics, each exactly in its case with the bytes unchanged |
| ByteStrings.ByteString.RemoveRangeImpl | iceoryx2_bb/container/src/byte_string.rs:449-460 | cuts the range and terminates; panics exactly if the range ends at the capacity or the string stays full |
| ByteStrings.ByteString.RemoveRange | iceoryx2_bb/container/src/byte_string.rs:440-447 | cuts the range or panics, exactly out of bounds and in the cases above |
| ByteStrings.ByteString.Remove | iceoryx2_bb/container/src/byte_string.rs:426-437 | removes and returns one byte, panics exactly out of range or at the last position of the capacity |
| ByteStrings.ByteString.Pop | iceoryx2_bb/container/src/byte_string.rs:405-411 | removes the last byte, panics exactly on a full string |
| ByteStrings.ByteString.Retain | iceoryx2_bb/container/src/byte_string.rs:467-476 | for closures with a state, called from the last byte to the first: leaves, in order, the bytes on which the closure answered false, and the state it ends in; panics exactly if the last byte of a full string is to go |
| ByteStrings.StatelessKept | iceoryx2_bb/container/src/byte_string.rs:462-476 | a closure without state leaves, in order, exactly the bytes on which it is false |
| ByteStrings.FirstCallIsLastByte | iceoryx2_bb/container/src/byte_string.rs:467-476 | a closure that is true on its first call removes the last byte, and is called once on each byte |
| ByteStrings.ByteString.Find | iceoryx2_bb/container/src/byte_string.rs:480-500 | the first occurrence, or none exactly if there is none |
| ByteStrings.ByteString.RFind | iceoryx2_bb/container/src/byte_string.rs:504-524 | the last occurrence, or none exactly if there is none |
| ByteStrings.ByteString.StripPrefix | iceoryx2_bb/container/src/byte_string.rs:528-536 | strips exactly true prefixes, and panics exactly on a full string with an empty or whole prefix |
| ByteStrings.ByteString.StripSuffix | iceoryx2_bb/container/src/byte_string.rs:540-556 | strips exactly true suffixes, and panics exactly if the string is full |
| ByteStrings.ByteString.Truncate | iceoryx2_bb/container/src/byte_string.rs:559-568 | keeps the first bytes, and longer lengths change nothing |
| SemanticStrings.New | iceoryx2_bb/container/src/semantic_string.rs:74-83 | succeeds exactly on legal content within the capacity, and then holds it |
| SemanticStrings.SemanticString.InsertBytes | iceoryx2_bb/container/src/semantic_string.rs:134-155 | the legal splice, or an error exactly in its case with the bytes as before; the rollback panics exactly if the inserted range ends at the capacity |
| SemanticStrings.SemanticString.Remove | iceoryx2_bb/container/src/semantic_string.rs:181-192 | removes a byte if the rest is legal, otherwise the byte is back in place |
| SemanticStrings.SemanticString.Pop | iceoryx2_bb/container/src/semantic_string.rs:159-165 | removes the last byte if the rest is legal, otherwise changes nothing |
| SemanticStrings.SemanticString.RemoveRange | iceoryx2_bb/container/src/semantic_string.rs:196-207 | removes the range exactly if the rest is legal, otherwise changes nothing |
| SemanticStrings.SemanticString.Retain | iceoryx2_bb/container/src/semantic_string.rs:211-223 | the first pass of the closure is checked on a copy and refused exactly if illegal, with nothing changed; otherwise the second pass, from the state that the first left, is what the string becomes |
| SemanticStrings.RetainIsSafeIff | iceoryx2_bb/container/src/semantic_string.rs:211-223 | under all rules the second pass leaves legal content if and only if it leaves the same as the first or removes nothing |
| SemanticStrings.StatelessRetainIsSafe | iceoryx2_bb/container/src/semantic_string.rs:211-223 | for a closure without state both passes agree, so the result is legal |
| SemanticStrings.SecondPassCanEmpty | iceoryx2_bb/container/src/semantic_string.rs:211-223 | a closure with a counter empties a string that the check saw kept |
| SemanticStrings.SemanticString.StripPrefix | iceoryx2_bb/container/src/semantic_string.rs:228-245 | strips a true prefix exactly if the rest is legal, otherwise changes nothing |
| SemanticStrings.SemanticString.StripSuffix | iceoryx2_bb/container/src/semantic_string.rs:250-267 | strips a true suffix exactly if the rest is legal, otherwise changes nothing |
| SemanticStrings.SemanticString.Truncate | iceoryx2_bb/container/src/semantic_string.rs:270-282 | truncates exactly if the rest is legal, otherwise changes nothing |
| NamedConcept.Concatenation | iceoryx2_bb/system_types/src/file_name.rs:38-40 | file names joined are a legal file name, so the rests between the strips are legal |
| NamedConcept.FilesDiffer | iceoryx2_cal/src/named_concept.rs:68-81 | different names never share a file |
| NamedConcept.ExtractionInverts | iceoryx2_cal/src/named_concept.rs:93-111 | a name is extracted exactly from the file prefix + name + suffix, for every legal name |
| NamedConcept.ExtractNameFromFile | iceoryx2_cal/src/named_concept.rs:93-111 | a name exactly for the file made from it; none exactly if the prefix is missing, or the legal name behind it lacks the suffix; a panic exactly if behind the prefix, or between prefix and suffix, there is nothing, `.` or `..` |
| NamedConcept.NewNormalized | iceoryx2_bb/system_types/src/path.rs:119-138 | one trailing separator is dropped and separators that follow another one are left out |
| NamedConcept.SqueezedFixed | iceoryx2_bb/system_types/src/path.rs:119-138 | a path without adjacent separators loses none |
| NamedConcept.SqueezedDouble | iceoryx2_bb/system_types/src/path.rs:119-138 | of two adjacent separators one makes no difference to the normal form, wherever they are |
| NamedConcept.SamePath | iceoryx2_bb/system_types/src/path.rs:66-78 | paths are equal exactly if their normal forms are |
| NamedConcept.SplitPath | iceoryx2_bb/system_types/src/file_path.rs:117-144 | the parts of a file path behind and before its last separator |
| NamedConcept.ExtractNameFromPath | iceoryx2_cal/src/named_concept.rs:84-90 | nothing for another directory, a panic for a file name that is too long, otherwise what the file name gives |
| NamedConcept.AddPathEntry | iceoryx2_bb/system_types/src/path.rs:84-101 | appends the separator if needed and the entry, exactly if it fits; otherwise only a separator that fits is left behind |
| NamedConcept.PathFor | iceoryx2_cal/src/named_concept.rs:68-81 | directory, prefix, name and suffix, exactly if they fit |
| NamedConcept.PathRoundTrip | iceoryx2_cal/src/named_concept.rs:68-90 | for all hints and file names, extracting from the path of a name gives the name if and only if the hint does not end with exactly two separators and prefix, name and suffix together fit into a file name; nothing exactly with two separators; a panic exactly otherwise |
| NamedConcept.DoubleSeparatorLosesName | iceoryx2_cal/src/named_concept.rs:84-87 | with a hint of two separators the path of a name is not recognised |
| NamedConcept.LongNamePanics | iceoryx2_bb/container/src/byte_string.rs:210-213 | with prefix, name and suffix of 100 bytes each and no hint, extracting from the path panics |
| NamedConcept.FileNameAfterRetain | iceoryx2_bb/container/src/semantic_string.rs:211-223 | for any closure, a file name is illegal after the second pass if and only if that leaves nothing, `.` or `..` |
| Math.Align | iceoryx2_bb/elementary/src/math.rs:16-22 | a multiple of the alignment, less than one alignment above the value |
| Math.AlignIsLeast | iceoryx2_bb/elementary/src/math.rs:16-22 | no smaller multiple is above the value |
| Math.Log2OfPowerOf2 | iceoryx2_bb/elementary/src/math.rs:30-42 | the exponent of a power of two, and the index of the highest bit of any other number |
| Math.RoundToPow2 | iceoryx2_bb/elementary/src/math.rs:141-152 | the least power of two not below the value, and an overflow exactly for 0 and above 2^63 |
| Math.NumeralIsUnique | iceoryx2_bb/elementary/src/math.rs:48-81 | a number has exactly one base-64 numeral, so the conversion is injective |
| Math.ToB64 | iceoryx2_bb/elementary/src/math.rs:48-81 | a numeral of 1 to 22 digits whose value is the given number |

## Left out

- PublisherPort.Publisher.Send: says how many references an update loses and bounds them, not which sample of a removed connection was meanwhile returned; a send that waits for a full buffer under the blocking strategy ends as `Blocked`; that it eventually proceeds depends on the subscriber and is not modelled.
- PublisherPort.Publisher.PopulateSubscriberChannels: the subscriber list is an argument; the lock-free container it is read from is not part of this model.
- PublisherPort.Publisher.RetrieveReturnedSamples: the branch that only warns about a failed reclaim does not occur, since popping the return channel cannot fail.
- ReturnChannel.PublisherReturnsPossible: the return queue is a sequence with a capacity; its lock-free implementation is not modelled.
- UniqueIndexSet.ExclusiveIffTagLasts: the counter of borrowed indices is a statistic and not modelled.
- PoolAllocator.Pool.Allocate: picks any free bucket; the order of the free list is that of UniqueIndexSet. Grow, shrink and the truncation of indices to 32 bits are not modelled.
- Weak memory orderings: every access is sequentially consistent.
- Overflow of addresses, positions and the ring buffer's start beyond 64 bits.
- `send_copy`, the loop of a subscriber over several publishers, and the release of samples at the end of a port.
- Creation, discovery and removal of services, shared memory, files, sockets, events, notifier and listener, configuration and logging.
- IpcHandle.ConstructFindsItsValue: is about the flag in the handle; a read-write mutex hands the same constant to the native attribute whatever the flag says.
- POSIX calls: their results are inputs, and only the handle counters of the mutexes are modelled, not locking.
- `from_c_str`, which writes no terminator, the base-64 form of byte arrays and escaped strings, which are not injective, vectors and relocatable pointers.
