# Verified cores of an Avalanche node

Dafny models of the stateful cores of a Go implementation of an Avalanche node, with proofs of what each core
promises over all inputs and all runs. `dafny verify dfyconfig.toml` checks everything.

| files | core |
|---|---|
| Sums, InboundModel, InboundInvariants, InboundRelease, InboundSafety, InboundProgress, InboundDeadlock, InboundForever, InboundZero, InboundLists, InboundOrder, Inbound | inbound message throttler |
| Outbound, SendQueue | outbound message throttler and the peers' send queues |
| LinkedList, LinkedDB, LinkedIterator | linked list inside a key-value store |
| Order, VersionDB, VersionIterator | versioned overlay database and its merge iterator |
| RpcDB | remote database batches |
| SharedModel, SharedPages, SharedReader, SharedOrder, SharedMemory, LockTable | shared memory between chains, its paginated trait index, its lock table |
| BigEndian, CodecModel, CodecRoundTrip, CodecCanonical, CodecWire, Codec, Registry | type-directed codec and its type registry |
| Genesis, GenesisOrder, GenesisConfig | splitting of initial stakes and the accounting of the supply |
| ValidatorSet, Validators | weighted validator set |
| Index | index of accepted containers |

Where the code updates fields in place there is a class with those fields, and each method is proved against a
function of the old state; the lemmas are about those functions. Concurrent code is a state machine whose steps are
the stretches between points where another goroutine can run; the lemmas are about every run of it.

## Findings

Properties that hold only under a condition, with the condition proved:

- The inbound throttler can have a waiter while nothing is outstanding exactly when (validator allocation + 1) *
  (node limit - 1) is at least the at-large allocation (`InboundDeadlock.ProgressExactly`). Such a waiter can be blocked
  for good, whatever calls follow, exactly when moreover the node limit is two or more or there is no validator
  allocation (`InboundForever.ForGoodExactly`). Both results are about the throttler alone: they let one node have
  several acquires waiting and let its share change between calls, while a peer's read loop makes one acquire at a time.
- An acquire returns at once exactly when its size is positive and within the node's room (`InboundZero.AcquireExactly`).
  A message of size zero, which a peer may send, always waits, and can leave a node's id list without the id of its
  oldest waiter (`InboundZero.ZeroSizeBreaks`), exactly when the node limit is positive and less than the at-large
  allocation (`InboundLists.ListsExactly`). For positive sizes that never happens (`InboundSafety.RunKeeps`).
- Reading shared memory by trait with limit one never moves past its first key when resumed
  (`SharedReader.LimitOneStays`); with a limit of two or more it always ends (`SharedReader.ReadAll`).
- A scan of a trait without a start key skips what was put after the empty key (`SharedOrder.EmptyKeyHides`); reading by
  traits misses a key exactly when it was put after the empty key and every requested trait it carries is also one of
  the empty key's (`SharedOrder.ReadsAllExactly`).
- Marshal truncates a slice's length to 32 bits and accepts lengths unmarshal refuses; the round trip holds exactly up
  to MaxInt32 (`CodecCanonical.RoundTripExactly`), and fails for instance at 2^32 empty structs
  (`CodecCanonical.LongSliceFails`). Unmarshal accepts arrays that marshal refuses (`CodecCanonical.Canonical`), for
  instance one of one element under a limit of zero (`CodecCanonical.LongArrayRefused`).
- Type ids can be given out twice, for instance after a negative skip (`Registry.SkipBackBreaks`); the registry is a
  bijection exactly when none is (`Registry.RunExactly`).
- A zero total stake yields one group instead of one per staker (`Genesis.SpreadCount`), and with several stakers
  `FromConfig` then indexes out of range (`GenesisConfig.FromConfig`).
- Adding weight drops the error of an overflowing total, which then stays as it was, as does the loaded sampler
  (`ValidatorSet.OverflowBreaks`); each operation on the validator set keeps its invariant exactly when its numbers fit
  (`ValidatorSet.DoExactly`).
- `GetContainerRange` is documented to accept a count of zero; the code refuses it, and so does the model. When start
  plus count exceeds 2^64 it returns zero containers and no error (`Index.Indexer.GetContainerRange`).

## Model

| member | source | states |
|---|---|---|
| InboundSafety.RunKeeps | network/throttling/inbound_msg_throttler.go:105-288 | Over every run of acquires and releases, for any validator shares and positive sizes: in each pool what remains plus what is used is the allocation, each node has been given exactly its outstanding sizes plus the partial grants of its waiters, no node is over its limit, waiting ids increase, and each node's id list is the projection of the queue onto that node. |
| InboundSafety.AcquireKeeps | network/throttling/inbound_msg_throttler.go:105-186 | An acquire of positive size, completed or queued, keeps that invariant; its size moves to the outstanding ones or, as far as granted, to its waiter. |
| InboundSafety.ReleaseCovered | network/throttling/inbound_msg_throttler.go:201-218 | Releasing an outstanding message never subtracts more than the node has used from either pool. |
| InboundSafety.ReleaseKeeps | network/throttling/inbound_msg_throttler.go:189-288 | A release, with every waiter it completes, keeps the invariant; completed waiters become outstanding messages. |
| InboundSafety.ReleaseAtLargeKeeps | network/throttling/inbound_msg_throttler.go:201-251 | The at-large half of a release on its own keeps pools, queue order, blocking and id lists, and charges each node what its waiters gained. |
| InboundSafety.ReleaseVdrKeeps | network/throttling/inbound_msg_throttler.go:253-287 | The validator half of a release does the same, returning to the pool what no waiter of the node can use. |
| InboundRelease.SweepFifo | network/throttling/inbound_msg_throttler.go:88-99 | A waiter completed by the at-large sweep is always its node's oldest, so dropping the first id of the node's list drops the right one. |
| InboundRelease.SweepBlocked | network/throttling/inbound_msg_throttler.go:220-251 | After the sweep a waiter remains only if the pool is empty or its node is at its limit. |
| InboundRelease.SweepPools | network/throttling/inbound_msg_throttler.go:220-251 | The sweep conserves the pool, respects every node's limit and only ever charges more. |
| InboundRelease.SweepAccount | network/throttling/inbound_msg_throttler.go:220-251 | What the sweep charges a node is exactly what that node's waiters received. |
| InboundRelease.SweepOrder | network/throttling/inbound_msg_throttler.go:220-251 | The sweep leaves the remaining waiters in their order of arrival. |
| InboundRelease.ServeOwnIsWalk | network/throttling/inbound_msg_throttler.go:254-278 | Looking waiters up through the node's id list serves exactly the waiters a single pass over the queue would; the branch for an id that is not in the queue is unreachable. |
| InboundRelease.WalkAccount | network/throttling/inbound_msg_throttler.go:254-278 | Validator bytes handed to waiters equal what those waiters received, for the releasing node only. |
| InboundRelease.WalkLeftover | network/throttling/inbound_msg_throttler.go:254-287 | Validator bytes go back to the pool only when the node has no waiter left. |
| InboundProgress.RunFair | network/throttling/inbound_msg_throttler.go:105-288 | Over every run, only a node's oldest waiter holds at-large bytes, and the bytes held by later waiters of other nodes leave room for it, except for what came from the validator pool. |
| InboundProgress.StuckBound | network/throttling/inbound_msg_throttler.go:105-288 | A reachable state with a waiter but nothing outstanding needs an at-large allocation of at most (validator allocation + 1) times (node limit - 1). |
| InboundProgress.Progress | network/throttling/inbound_msg_throttler.go:105-288 | With a larger allocation than that, no reachable state with nothing outstanding has a waiter. |
| InboundDeadlock.Deadlock | network/throttling/inbound_msg_throttler.go:105-288 | With no larger an allocation there is a run after which nothing is outstanding, no at-large byte is left and a waiter remains. |
| InboundDeadlock.ProgressExactly | network/throttling/inbound_msg_throttler.go:105-288 | Progress is guaranteed for every run with sizes between one and the node limit exactly when (validator allocation + 1) * (node limit - 1) is below the at-large allocation. With no validator allocation: exactly when the node limit is at most the allocation. |
| InboundForever.ForGoodExactly | network/throttling/inbound_msg_throttler.go:105-288 | A waiter that no continuation ever unblocks, with sizes between one and the node limit and any shares, is reachable exactly when the at-large allocation is at most (validator allocation + 1) * (node limit - 1) and the node limit is two or more or there is no validator allocation. |
| InboundForever.DeadForever | network/throttling/inbound_msg_throttler.go:105-288 | Once both pools are empty and nothing is outstanding, every continuation leaves the whole queue in place. |
| InboundForever.LimitOneUnblocks | network/throttling/inbound_msg_throttler.go:253-287 | With node limit one and some validator allocation every waiter can still be unblocked, by passing one validator byte along its node's waiters. |
| InboundForever.ReleaseCount | network/throttling/inbound_msg_throttler.go:189-288 | A release takes one message away, and every waiter it completes becomes outstanding. |
| Inbound.MsgThrottler.Acquire | network/throttling/inbound_msg_throttler.go:105-186 | The method on mutable fields takes exactly the acquire step of the state machine; every subtraction is one of natural numbers. |
| Inbound.MsgThrottler.Release | network/throttling/inbound_msg_throttler.go:189-288 | The method on mutable fields takes exactly the release step and returns the waiters whose calls resume. |
| Inbound.GiveAtLarge | network/throttling/inbound_msg_throttler.go:220-251 | The loop over the queue, deleting entries while iterating, computes the sweep. |
| Inbound.GiveVdr | network/throttling/inbound_msg_throttler.go:254-278 | The loop over the node's ids computes the same as the recursive definition. |
| InboundZero.AcquireExactly | network/throttling/inbound_msg_throttler.go:105-164 | An acquire returns at once exactly when its size is positive and at most what is left of the node's limit in the at-large pool plus what is left of its share in the validator pool; so one of size zero always waits. |
| InboundZero.AcquireTakes | network/throttling/inbound_msg_throttler.go:105-186 | What an acquire takes: at-large bytes first, up to the node's limit; validator bytes only when there are no more of those, and never past the share; one that waits has found the at-large pool empty or the node at its limit, and the validator pool empty or the node at its share. |
| InboundOrder.SweepOldestFirst | network/throttling/inbound_msg_throttler.go:220-251 | A waiter is given at-large bytes only when every older one, of whatever node, is complete or stopped by its node's limit. |
| InboundOrder.WalkOldestFirst | network/throttling/inbound_msg_throttler.go:254-278 | Of the releasing node's waiters one is given validator bytes only when the older ones are complete. |
| InboundOrder.ReleaseGives | network/throttling/inbound_msg_throttler.go:201-218 | A release gives validator bytes back first: while they cover the message the at-large pool is not touched, and without waiters exactly the rest goes back to the at-large pool. |
| InboundOrder.ReleaseLeftover | network/throttling/inbound_msg_throttler.go:253-287 | Validator bytes go back to their pool only when the releasing node has nobody left waiting. |
| InboundZero.ZeroSizeBreaks | network/throttling/inbound_msg_throttler.go:220-251 | Under every positive node limit less than the at-large allocation, a run with a message of size zero after which the first id of a node's list is not in the queue, while an older waiter of the node is; this is why the other results take sizes to be positive. |
| InboundLists.ListsKept | network/throttling/inbound_msg_throttler.go:105-288 | With a node limit of zero, or of at least the at-large allocation, each node's id list is the projection of the queue and the pools are conserved after every run, whatever the sizes, zero included. |
| InboundLists.ListsExactly | network/throttling/inbound_msg_throttler.go:105-288 | With sizes from zero to the node limit, the id lists are the projections of the queue in every run exactly when the node limit is zero or at least the at-large allocation. |
| InboundLists.SweepFront | network/throttling/inbound_msg_throttler.go:220-251 | When the node limit leaves room for the whole pool, the at-large sweep completes a front part of the queue and leaves the rest in place. |
| Outbound.AcquireExactly | network/throttling/outbound_msg_throttler.go:63-119 | A message is accepted exactly when what is left of the node's limit in the at-large pool and of its share in the validator pool together cover it. |
| Outbound.AcquireTakes | network/throttling/outbound_msg_throttler.go:63-119 | At-large bytes come first, up to the node's limit; validator bytes make up the rest and never pass the share. |
| Outbound.ReleaseGives | network/throttling/outbound_msg_throttler.go:122-150 | Validator bytes are given back before at-large ones, exactly as many as the size. |
| Outbound.AcquireKeeps | network/throttling/outbound_msg_throttler.go:67-115 | An accepted message keeps both pools conserved and every node within its limit, and raises this node's bytes by exactly its size. |
| Outbound.ReleaseKeeps | network/throttling/outbound_msg_throttler.go:122-150 | Releasing no more than a node uses does not underflow, keeps the pools conserved and lowers only this node's bytes, by exactly that size. |
| Outbound.Throttler.Acquire | network/throttling/outbound_msg_throttler.go:63-119 | The method on mutable fields; a refused message changes nothing. |
| Outbound.Throttler.Release | network/throttling/outbound_msg_throttler.go:122-150 | The method on mutable fields, returning validator bytes first. |
| SendQueue.Conservation | network/peer.go:309-328 | After every interleaving of senders, writers and closers of any number of peers: each node's bytes at the throttler equal the bytes queued or in the hands of a sender or the writer, and each acquired message is released at most once and otherwise still held exactly once. |
| SendQueue.Fifo | network/peer.go:303-325 | Over every run: until the closer is done, the messages that senders queued are those the writer took, in that order, and then those still queued; after that the writer has taken the first of them, in order. |
| SendQueue.ClosedQuiet | network/peer.go:306-325 | Once the connection is closed and nobody holds the lock who has not noticed, nothing more is queued or taken. |
| SendQueue.Delivers | network/peer.go:303-392 | Over a new connection a message that the throttler accepts can be queued and reaches the writer, and then nothing is charged any more. |
| SendQueue.NextKeeps | network/peer.go:362-395 | Each single step keeps that account for every peer. |
| SendQueue.DrainedForGood | network/peer.go:488-511 | Once the closer is done the queue is empty and stays empty, although the closed flag is set without the lock. |
| SendQueue.Drains | network/peer.go:488-511 | Under every schedule, and whatever other peers do, a peer that starts no further send takes a bounded number of steps; a run that used up the bound has settled it; and once settled it is closed and empty, no bytes are charged to it and every message it acquired has been released exactly once. |
| SendQueue.FewSteps | network/peer.go:309-395 | The bound: each step other than starting a send leaves the peer strictly less to do. |
| SendQueue.SettledHoldsNothing | network/peer.go:488-511 | When a peer can only start a send, its queue and the hands of its goroutines are empty and it is closed. |
| LinkedDB.Database.Put | database/linkeddb/linkeddb.go:89-134 | On a coherent cache over stored nodes that represent an ordered map, Put yields the nodes of the updated map, a new key at the head; a failed batch write changes neither the store nor what is represented. |
| LinkedDB.Database.Delete | database/linkeddb/linkeddb.go:136-200 | Delete yields the nodes of the map without the key, relinking both neighbours and the head; an absent key changes nothing; a failed write changes nothing. |
| LinkedDB.Database.GetNode | database/linkeddb/linkeddb.go:290-321 | With any eviction, the cached answer, including cached absence, is what the store holds. |
| LinkedDB.Database.GetHeadKey | database/linkeddb/linkeddb.go:250-275 | The cached head key is what the store holds. |
| LinkedDB.Database.WriteBatch | database/linkeddb/linkeddb.go:345-358 | Caches change only after the batch is written and then agree with the store, whatever is evicted. |
| LinkedDB.Database.ResetBatch | database/linkeddb/linkeddb.go:337-343 | Leftovers of a failed operation are dropped before the next one. |
| LinkedDB.Database.Has | database/linkeddb/linkeddb.go:74-79 | Has agrees with the represented map. |
| LinkedDB.Database.Get | database/linkeddb/linkeddb.go:81-87 | Get agrees with the represented map. |
| LinkedDB.Database.Head | database/linkeddb/linkeddb.go:217-227 | Head returns the first pair of the represented map. |
| LinkedDB.NodeKeyInjective | database/linkeddb/linkeddb.go:425-429 | Node keys are distinct for distinct keys and never the head key. |
| LinkedList.DeleteNode | database/linkeddb/linkeddb.go:136-200 | Which nodes a removal changes and how: only the removed one and its two neighbours, whose links become each other. |
| LinkedList.PutNewNode | database/linkeddb/linkeddb.go:108-133 | Which nodes an insertion changes: the new head and the old one. |
| LinkedIterator.Iterator.constructor | database/linkeddb/linkeddb.go:231-231 | A new iterator starts before the head. |
| LinkedIterator.Iterator.WithStart | database/linkeddb/linkeddb.go:237-248 | An iterator with a start begins at that key when it is in the list, and at the head otherwise. |
| LinkedIterator.Iterator.Next | database/linkeddb/linkeddb.go:368-418 | Next yields the pair at the iterator's position and moves on, and ends exactly at the end of the list. |
| LinkedIterator.Drain | database/linkeddb/linkeddb.go:368-418 | Iterating to the end yields each remaining pair exactly once, in order, with its current value. |
| LinkedIterator.NewestFirst | database/linkeddb/linkeddb.go:89-200 | After any sequence of puts and deletes the map is what replaying them gives, and the order is by insertion, newest first, updates not counting. |
| LinkedIterator.WriteThenRead | database/linkeddb/linkeddb.go:89-418 | Any puts and deletes on a new stored list, any of whose batch writes may fail, followed by a full iteration, yield exactly the pairs of the successful writes' map in that order. |
| VersionDB.Transparent | database/versiondb/db.go:52-265 | Over every sequence of puts, deletes, batch writes, commits, aborts and changes of the underlying database, reads equal lookups in a plain map; commit, in any traversal order, changes no read; abort restores the base; after a change of database the pending writes are replayed over the new one. |
| VersionDB.StepRefines | database/versiondb/db.go:52-265 | Each single call, with any order in which a commit traverses the pending changes, refines the plain map. |
| VersionDB.CommitFlattens | database/versiondb/db.go:248-265 | Writing the pending changes to the base in any order gives the flattened map. |
| VersionDB.RecordIsWrite | database/versiondb/db.go:311-326 | Recording a batch in memory has the effect, once flattened, of writing it. |
| VersionDB.Database.Get | database/versiondb/db.go:66-80 | Get is lookup in the flattened map. |
| VersionDB.Database.Has | database/versiondb/db.go:52-63 | Has is membership in the flattened map. |
| VersionDB.Database.Commit | database/versiondb/db.go:199-213 | On success the base is the flattened map and nothing is pending; on a failed write neither changes. |
| VersionDB.Database.CommitBatch | database/versiondb/db.go:239-265 | The returned batch lists every pending change exactly once. |
| VersionDB.Database.WriteBatch | database/versiondb/db.go:311-326 | The loop over a batch records its writes in order. |
| VersionDB.Database.Abort | database/versiondb/db.go:216-233 | Abort leaves nothing pending, whichever way the map is cleared. |
| VersionIterator.MergeIsFlatten | database/versiondb/db.go:371-435 | Merging a sorted base scan with the sorted pending keys is the sorted scan of the flattened map, for any start and prefix. |
| VersionIterator.WantedExactly | database/versiondb/db.go:132-136 | A key is in the requested range exactly when it begins with the prefix, byte for byte, and is the start key or comes after it. |
| Order.LessExactly | database/versiondb/db.go:135-141 | The order of keys is that of Go's strings: a proper prefix comes first, and otherwise the first byte that differs decides. |
| VersionIterator.MergeSorted | database/versiondb/db.go:371-435 | The merge is strictly increasing. |
| VersionIterator.MergeMember | database/versiondb/db.go:371-435 | A pair is in the merge exactly when memory has it, or the base has it and memory does not mention its key. |
| VersionIterator.Iterator.Next | database/versiondb/db.go:371-435 | The loop, skipping deletions, returns the first pair of what is left of the merge, and stops exactly when nothing is left. |
| VersionIterator.NewIterator | database/versiondb/db.go:125-152 | What a new iterator will yield is the flattened map restricted to the prefix and start, sorted. |
| VersionIterator.Scan | database/versiondb/db.go:125-152 | Iterating to the end yields exactly those pairs, in strictly increasing order. |
| VersionIterator.Select | database/memdb/db.go:125-150 | The base iterator yields the wanted pairs of a map in order. |
| SharedMemory.RunConsistent | chains/atomic/shared_memory.go:82-201 | Over every run of puts and removals, failed ones included, a key is in a trait's list exactly when its stored element is present and carries the trait. |
| SharedModel.SetValueConsistent | chains/atomic/shared_memory.go:226-264 | Putting an element, or cancelling a pending removal, keeps lists and elements consistent. |
| SharedModel.RemoveValueConsistent | chains/atomic/shared_memory.go:266-296 | Removing an element, or noting a removal ahead of its put, keeps them consistent. |
| SharedModel.PutRemoveCommute | chains/atomic/shared_memory.go:226-296 | A put and a removal of an absent key, in either order, both succeed and give back exactly the state before. |
| SharedModel.PutReads | chains/atomic/shared_memory.go:226-264 | A put makes an unknown key readable with exactly the key, value and traits put, cancels a removal ahead of it, fails on a key that is readable already, and changes no other key. |
| SharedModel.RemoveReads | chains/atomic/shared_memory.go:266-296 | A removal makes a readable key unknown again, is noted for an unknown one, fails the second time, and changes no other key. |
| SharedMemory.PutThenRead | chains/atomic/shared_memory.go:82-201 | What one chain puts under new keys, none twice, its peer reads with exactly those values and traits through everything that follows, until it removes them. |
| SharedMemory.PutAndGet | chains/atomic/shared_memory.go:82-134 | Putting new keys succeeds, and getting them as the peer returns exactly the values put, in order. |
| SharedMemory.OpsCommute | chains/atomic/shared_memory.go:82-201 | The same for the whole memory, the put by one chain and the removal by its peer. |
| SharedMemory.OnlyPeerReads | chains/atomic/shared_memory.go:90-96 | What a chain puts for a peer is on the side that this peer, and no other chain or pair, reads. |
| SharedMemory.StepVisible | chains/atomic/shared_memory.go:82-201 | An operation changes what a chain reads from a peer only if it is that peer's put for it or its own removal. |
| SharedMemory.State.SetValue | chains/atomic/shared_memory.go:226-264 | The loop over traits, with its error for a second put, against the definition. |
| SharedMemory.State.RemoveValue | chains/atomic/shared_memory.go:266-296 | The loop over traits, with its error for a second removal, against the definition. |
| SharedMemory.Memory.Put | chains/atomic/shared_memory.go:82-109 | A batch is put entirely, or on the first error not at all. |
| SharedMemory.Memory.Remove | chains/atomic/shared_memory.go:174-201 | A batch is removed entirely, or on the first error not at all. |
| SharedMemory.Memory.Get | chains/atomic/shared_memory.go:111-134 | All values in order, or not found exactly when some key is absent or removed ahead of its put. |
| SharedMemory.Memory.Indexed | chains/atomic/shared_memory.go:136-172 | The page for the sorted traits and starting point; every key on it has a present element with a requested trait, so the lookup never fails. |
| SharedReader.AppendTraitKeys | chains/atomic/shared_memory.go:338-359 | The loop over one list collects its unseen keys until the limit, and returns the last key visited. |
| SharedReader.GetKeys | chains/atomic/shared_memory.go:310-336 | The loop over traits, repeated or not, collects from the starting point on; a full page reports the position of its last key, and one that is not full the end of the last trait's list. |
| SharedPages.FromPosition | chains/atomic/shared_memory.go:316-329 | Resuming from a reported position leaves exactly the positions from there on, that one included. |
| SharedPages.SeesEverything | database/linkeddb/linkeddb.go:237-248 | A scan without a start key sees every position exactly when no list has the empty key below its head. |
| SharedOrder.RunInOrder | chains/atomic/shared_memory.go:82-201 | After every run of puts and removals there is one order of the present keys, newest first, that every trait's list follows. |
| SharedOrder.SeenExactly | database/linkeddb/linkeddb.go:237-248 | A scan of a trait without a start key misses a key with the trait exactly when the empty key has the trait too and was put before it. |
| SharedOrder.ReadsAllExactly | database/linkeddb/linkeddb.go:237-248 | Every key that carries a requested trait can be read exactly when each one put after the empty key carries a requested trait that the empty key does not; so always when the empty key carries none. |
| SharedOrder.ReadKeys | chains/atomic/shared_memory.go:310-359 | Reading all pages, with a limit of at least two, finds exactly the keys that carry a requested trait, except those put after the empty key that carry only requested traits of the empty key; with no requested trait on the empty key, exactly all. |
| SharedOrder.EmptyKeyHides | database/linkeddb/linkeddb.go:237-248 | The empty key and then a second key are put with one trait; a scan of the trait sees only the empty key. |
| SharedPages.UniqSame | chains/atomic/shared_memory.go:315-334 | A trait requested twice changes neither the keys of a page nor where a full page ends. |
| SharedReader.PageAdvances | chains/atomic/shared_memory.go:310-359 | With a limit of at least two a full page moves on strictly, and a page that is not full is the last. |
| SharedReader.LimitOneStays | chains/atomic/shared_memory.go:310-359 | With limit one, resuming from any position returns that key and that position again, for ever. |
| SharedReader.ReadAll | chains/atomic/shared_memory.go:310-359 | With a limit of at least two, for any traits, feeding each page's end back terminates; the union of the pages is exactly the set of keys that a scan of a requested trait sees, which `SharedOrder.ReadKeys` says in terms of the elements, and no page repeats a key or exceeds the limit. |
| LockTable.Exclusion | chains/atomic/memory.go:62-102 | After every run of any number of threads: no release or unlock panics, an entry exists exactly while some thread is between makeLock and releaseLock and counts those threads, and at most one thread per space is between Lock returning and releaseLock. |
| LockTable.NextKeeps | chains/atomic/memory.go:62-102 | Each step keeps the invariant behind that, although entries are deleted before the mutex is unlocked and may be created anew. |
| LockTable.NoDeadlock | chains/atomic/memory.go:62-102 | Whenever a thread is under way, some thread can take a step. |
| LockTable.WaitsForSameSpace | chains/atomic/memory.go:62-102 | After any run a waiting thread waits for the one inside the same space or for one on its way out, never for one inside another space. |
| LockTable.Memory.MakeLock | chains/atomic/memory.go:76-87 | Adds one user to the entry, creating it with a new mutex if missing, and returns its mutex. |
| LockTable.Memory.ReleaseLock | chains/atomic/memory.go:89-102 | Takes one user away, deletes the entry of the last, and returns the mutex the entry had; panics exactly on an unknown id. |
| RpcDB.ClientWrite | database/rpcdb/db_client.go:181-229 | Walking the writes backwards, deduplicating and chunking, then the server's handling, leaves the database as in-order replay would; each key is sent once. In every request eight bytes an element plus the lengths of keys and values are at most 65536, or there is one element, and no two requests in a row would have fit in one. With an error, a lost request or a lost reply at any chunk the write fails and the database is untouched, except that a lost last reply leaves it fully written. |
| RpcDB.Send | database/rpcdb/db_client.go:199-226 | One request and what each kind of fault does to the server and the reply. |
| RpcDB.BatchEquivalence | database/rpcdb/db_client.go:181-229 | The same when requests of other batches come in between: the last chunk applies exactly the batch's writes to the database as it is then. |
| RpcDB.NoInterference | database/rpcdb/db_server.go:93-128 | After any requests, failing or not, the database is that of the completed batches in order of completion, and what is collected for each id depends on that id's requests only. |
| RpcDB.AgreesAll | database/rpcdb/db_client.go:181-229 | Sending only the last write of each key has the effect of sending them all. |
| RpcDB.Server.WriteBatch | database/rpcdb/db_server.go:93-128 | A continuing request only adds to its batch; the final one writes the whole batch and forgets it; an error writes nothing and frees the batch. |
| CodecCanonical.RoundTripExactly | codec/reflectcodec/type_codec.go:86-372 | For every finite type, bijective registry and value that marshals: unmarshalling its bytes followed by any suffix returns the value and leaves the suffix exactly when no slice in the value is longer than MaxInt32. |
| CodecRoundTrip.RoundTrip | codec/reflectcodec/type_codec.go:86-372 | The round trip itself, including arrays of bytes packed one by one and read in bulk, truncated lengths and sign wrap-around. |
| CodecCanonical.Canonical | codec/reflectcodec/type_codec.go:218-372 | Whatever unmarshal accepts is well typed and is exactly what marshal writes for the value returned, then the rest; marshal refuses that value only because of an array longer than the codec's limit, which unmarshal does not check. |
| CodecCanonical.UnmarshalInjective | codec/reflectcodec/type_codec.go:195-214 | Two inputs that unmarshal to the same value are equal. |
| CodecCanonical.LongSliceFails | codec/reflectcodec/type_codec.go:138-160 | A slice of 2^32 empty structs marshals to the bytes of an empty slice, and unmarshals to one. |
| CodecCanonical.LongArrayRefused | codec/reflectcodec/type_codec.go:161-176 | With a limit of zero an array of one boolean unmarshals, and marshal refuses it. |
| CodecCanonical.LargerLimit | codec/reflectcodec/type_codec.go:218-372 | What unmarshal accepts under a limit it accepts, with the same result, under a larger one. |
| CodecCanonical.UnmarshalMarshal | codec/reflectcodec/type_codec.go:195-214 | Unmarshal undoes marshal, and any extra byte is refused. |
| CodecWire.MarshalIsWire | codec/reflectcodec/type_codec.go:86-192 | When marshal succeeds its bytes are exactly the value's layout: numbers most significant byte first and in two's complement, one byte for a boolean, a string after two bytes of length, a slice after four, an interface after its four-byte type id, fields and elements in order. |
| CodecWire.UnmarshalIsWire | codec/reflectcodec/type_codec.go:218-372 | What unmarshal reads is exactly the layout of the value it returns. |
| BigEndian.BigLays | utils/wrappers/packing.go:110-165 | Byte i of a number written in w bytes is the number divided by 256 to the power w-1-i, modulo 256. |
| BigEndian.FromBigIsPlaceValue | utils/wrappers/packing.go:121-177 | Reading gives each byte the power of 256 of its place, most significant first. |
| CodecRoundTrip.BulkBytes | codec/reflectcodec/type_codec.go:151-175 | Packing bytes one by one writes what packing them in bulk writes. |
| CodecModel.Decode | codec/reflectcodec/type_codec.go:218-372 | Decoding terminates, by remaining bytes and then by the type, and never grows the input. |
| Codec.Marshal | codec/reflectcodec/type_codec.go:86-191 | The recursion over a mutable packer appends exactly the encoding when the value encodes and fits; otherwise it returns the value's own error or, when the room ran out first, the packer's. |
| Codec.MarshalMany | codec/reflectcodec/type_codec.go:155-175 | The element loop appends the elements' encodings in order, or returns the first error. |
| Codec.MarshalFields | codec/reflectcodec/type_codec.go:177-187 | The field loop does the same, each field with its own slice limit. |
| Codec.ReadValue | codec/reflectcodec/type_codec.go:218-372 | The recursion over a mutable packer returns what decoding returns, errors included, and leaves the packer at the rest. |
| Codec.ReadItems | codec/reflectcodec/type_codec.go:291-323 | The element loops and the bulk read of bytes. |
| Codec.UnmarshalBytes | codec/reflectcodec/type_codec.go:195-214 | The result of decoding the whole input, with left-over bytes refused. |
| Codec.Packer.Pack | utils/wrappers/packing.go:71-96 | Writing appends, or sets the sticky error exactly when the limit is passed. |
| Codec.Packer.Unpack | utils/wrappers/packing.go:216-225 | Reading takes the next bytes, or sets the sticky error exactly when there are too few. |
| Registry.RunExactly | codec/linearcodec/codec.go:60-81 | Over every run of registrations and skips, negative and wrapping ones included, ids and types are a bijection exactly when no registration gave out an id a second time; a type that lost its id never gets it back. |
| Registry.RunSound | codec/linearcodec/codec.go:60-81 | Skipping forward only and using up at most 2^32 ids, no id is given out twice. |
| Registry.GivenID | codec/linearcodec/codec.go:60-81 | A type gets as its id how many ids were registered or skipped before it, in 32 bits, and keeps it through every run. |
| Registry.RegisterExactly | codec/linearcodec/codec.go:68-81 | Registering a new type keeps the bijection exactly when the next id is unused. |
| Registry.SkipBackBreaks | codec/linearcodec/codec.go:60-64 | A negative skip followed by a registration takes over an id already given out. |
| Registry.Types.RegisterType | codec/linearcodec/codec.go:68-81 | The method, refusing a type registered before. |
| Registry.Types.SkipRegistrations | codec/linearcodec/codec.go:60-64 | The method, with 32-bit wrap-around. |
| Genesis.SplitAllocations | genesis/genesis.go:414-475 | For n groups: exactly n groups, the first n-1 of floor(total / n) each, the last with the rest, and the amount of every owner and lock time preserved, if and only if the total is positive or n is one; no 64-bit sum overflows. |
| Genesis.SpreadSplits | genesis/genesis.go:414-475 | The even split holds of the recursive definition exactly under that condition. |
| Genesis.SpreadConserves | genesis/genesis.go:427-472 | Nothing is lost or moved to another owner or lock time, whatever the group weight. |
| GenesisOrder.SplitInOrder | genesis/genesis.go:414-475 | Unit by unit, owner and lock time of the groups one after the other are those of the allocations one after the other; groups hold no initial amounts and no empty allocations. |
| Genesis.SpreadCount | genesis/genesis.go:436-456 | All n-1 inner groups are completed exactly when there is something to split or n is one; with a zero total there is a single group. |
| Genesis.PourOne | genesis/genesis.go:434-467 | Closing groups with parts of one unlock until it fits computes the recursive definition, within 64 bits. |
| GenesisConfig.FromConfig | genesis/genesis.go:209-373 | A supply beyond 64 bits is an error; no stakers is a division by zero; a zero staked total with several stakers is an index out of range; otherwise, and only then, X-chain holders, P-chain outputs and stakes together are the initial supply, holders get the initial amounts, every owner and lock time gets its unlocks, as stake when its address is staked and as output otherwise, and every staker but the last gets an equal share; outputs and stakes keep the order of the allocations, unit by unit. |
| GenesisConfig.StakedExactly | genesis/genesis.go:294-298 | What is set aside for staking is, for every owner and lock time, everything if the owner is a staker and nothing otherwise. |
| GenesisConfig.InitialSupply | genesis/config.go:132-148 | The checked sum fails exactly when the total does not fit in 64 bits. |
| GenesisConfig.Unlocked | genesis/genesis.go:294-320 | Outputs and set-aside allocations together hold every amount; the outputs are positive and, unit by unit, in the order of the allocations that are not staked. |
| GenesisConfig.Stakes | genesis/genesis.go:322-354 | Out of range exactly when there are fewer groups than stakers; otherwise stakes hold exactly what the groups hold. |
| GenesisConfig.GroupCount | genesis/genesis.go:322-326 | There is a group for every staker exactly when something is staked or there is one staker. |
| ValidatorSet.RunKeeps | snow/validators/set.go:115-501 | Over every run of replacements, additions, removals, maskings, revelations and samplings that fits in 64 bits step by step: index map and slices are inverse, sampled weights are zero exactly on masked validators, the cached total is their sum, a loaded sampler has them up to trailing zeros, and weights and mask are what the operations say. |
| ValidatorSet.DoExactly | snow/validators/set.go:115-501 | An operation, done as the code does it in 64 bits, keeps that invariant exactly when: for an addition, the total fits if the validator is not masked and its own weight if it is; for a revelation, the total with the revealed weight; for a replacement, the weights kept that are not masked. Removals, maskings and loads always do. |
| ValidatorSet.OverflowBreaks | snow/validators/set.go:199-210 | Two additions that overflow together, with a sample in between: the total stays the first weight, and the sampler stays loaded without the second. |
| ValidatorSet.RebuiltExactly | snow/validators/set.go:141-166 | The replacing loop gets to its end exactly when the weights kept that are not masked fit in 64 bits; then the set holds exactly what the list keeps, and otherwise its total is wrong. |
| ValidatorSet.RebuiltLeaves | snow/validators/set.go:141-166 | An overflowing replacement leaves what the list keeps up to and including the first validator with which the total does not fit, and the total without it. |
| ValidatorSet.DoKeeps | snow/validators/set.go:115-501 | Each operation that fits keeps the invariant and changes weights and mask exactly as a plain map and set would. |
| ValidatorSet.AddWeightKeeps | snow/validators/set.go:180-211 | Adding what fits changes exactly that validator's weight; the sampler has to be loaded again exactly when the validator is not masked. |
| ValidatorSet.AddBreaks | snow/validators/set.go:199-210 | Adding what does not fit loses the invariant: the error is dropped and the total left stale, or a masked validator's two weights differ, one wrapped around and one at the maximum. |
| ValidatorSet.AddLeaves | snow/validators/set.go:196-210 | What an overflowing addition leaves: the validator's weight at the maximum, its entries in the slices wrapped around, every other entry, the total and the loaded sampler as before. |
| ValidatorSet.RemoveWeightKeeps | snow/validators/set.go:259-334 | Removing lowers exactly that validator's weight, and drops it at zero by moving the last entry into its place. |
| ValidatorSet.MaskKeeps | snow/validators/set.go:451-469 | Masking changes no weight and takes the validator out of the total. |
| ValidatorSet.UnmaskExactly | snow/validators/set.go:478-501 | Revealing puts the validator back into the total, and keeps the invariant exactly when the total with its weight fits. |
| ValidatorSet.UnmaskLeaves | snow/validators/set.go:491-497 | An overflowing revelation puts the weight back into the sampled weights and leaves the total and the loaded sampler as before. |
| ValidatorSet.SumFits | snow/validators/set.go:478-501 | As long as the weights of all validators, masked ones included, add up within 64 bits, revealing never fails. |
| Validators.Set.AddWeight | snow/validators/set.go:170-211 | Entering a new validator and raising its weight in the slices, with the dropped overflow, is the addition of the run theorem; the invariant is kept exactly when it fits; weight zero changes nothing. |
| Validators.Set.RemoveWeight | snow/validators/set.go:249-283 | Lowering a weight by at most what there is, and dropping the entry at zero, is the removal of the run theorem; no subtraction underflows. |
| Validators.Set.SwapOut | snow/validators/set.go:301-334 | The last entry takes the removed one's place in all three slices and in the index map, also when it is the removed one. |
| Validators.Set.MaskValidator | snow/validators/set.go:444-469 | Masking zeroes the sampled weight and lowers the total without underflow; an id that is not a validator is only remembered. |
| Validators.Set.RevealValidator | snow/validators/set.go:471-501 | Revealing restores the sampled weight and the total; the error is reported exactly when the total does not fit, and then the invariant is lost. |
| Validators.Set.Replace | snow/validators/set.go:115-167 | The loop keeps the first validator of each id that has weight, in order, and what was masked stays masked; it stops with an error exactly when the weights kept that are not masked do not fit in 64 bits, and then the total is wrong. |
| Validators.Set.Sample | snow/validators/set.go:376-403 | Whatever positively weighted entries the sampler draws, the result holds current validators that are not masked, also when the sampler was loaded before later changes; when the sampler does not take the weights nothing changes and it is given them again next time, when it fails to draw it stays loaded; size zero draws nothing. |
| Index.RunKeeps | indexer/index.go:73-168 | Through any accepts, failed commits and crashes with reopening: the stored indices are exactly those below the next, container and index maps are inverse on disk and in memory, and memory only runs ahead of the disk. |
| Index.AcceptKeeps | indexer/index.go:123-168 | A new container gets the next index and is appended; a known id changes nothing; the disk changes only with a commit. |
| Index.CommittedStays | indexer/index.go:73-168 | What is on disk stays there at its index through everything that follows. |
| Index.Indexer.constructor | indexer/index.go:73-106 | Opening reads the next index back. |
| Index.Indexer.Accept | indexer/index.go:123-168 | The three writes and the commit make the accept step; a failed commit reports an error and leaves the disk as it was. |
| Index.Indexer.GetContainerRange | indexer/index.go:210-244 | The contiguous slice from the start, clipped to the last container, for one to 1024 containers; all refusals; and, exactly when start plus count exceeds 2^64, as many zero containers as were asked for, without an error. |
| Index.RangeEnds | indexer/index.go:228-232 | The last index and the length as computed in 64-bit unsigned and signed arithmetic. |
| Index.Indexer.GetContainerByIndex | indexer/index.go:174-204 | The container at an index, or an error exactly when there is none. |
| Index.Indexer.GetIndex | indexer/index.go:247-252 | The position of a container, or not found exactly when it was not accepted. |
| Index.Indexer.GetContainerByID | indexer/index.go:254-264 | The container with an id, or not found exactly when it was not accepted. |
| Index.Indexer.GetLastAccepted | indexer/index.go:268-277 | The last container accepted, or an error exactly when there is none. |

## Left out

- Metrics, logs, clocks and timers: they do not influence the state proved about; timestamps are parameters.
- The floating-point share of a validator in both throttlers: an arbitrary natural number on each call.
- Goroutine scheduling of the inbound throttler: a blocked `Acquire` is its waiter record, completed by the release that serves it.
- Message lengths of 2^32 bytes or more in the peer's writer, which truncates lengths to 32 bits.
- Sockets, handshake, gossip and routing of peers; only sending, dequeuing and closing are modelled.
- Errors of the underlying databases other than a failing batch, which changes nothing, and the closed state of a database.
- Hashes and prefixes that build database keys, shared-space ids and tracked keys: taken to be injective, so keys are kept apart by name.
- Byte encodings of linked-list nodes, shared-memory elements and containers: stored as values; the codec is proved separately.
- The LRU policy of the node cache: any entry may be evicted at any time.
- Changes to shared memory between two pages.
- Extra batches written together with a shared-memory batch.
- A delete that another goroutine makes while a linked-list iterator is under way.
- Go reflection and types that contain themselves other than through an interface; struct fields that are not serialized are not part of a value.
- The order of X-chain holders and the encoding of addresses and memos in the genesis.
- The sampler's random choice: its draws are parameters.
- Genesis.SplitAllocations: requires a 64-bit total, which `InitialSupply` checks before it is called.
- What the validator set does after an overflow has broken its invariant.
- Index.Indexer.Accept: requires that the next index fits in 64 bits.
