# Replicated log over remote memory: a verified model

The system keeps a key-value log on a chain of nodes. The head writes each record straight into a byte ring in the
memory of the node behind it: header and key first, room for the value reserved, the write pointer published, and the
value later, by another thread, with a tag as its very last byte. The tail parses keys as soon as they are published,
waits for tags, executes, cleans its table of dirty keys and moves the read pointer. No byte is copied on the way unless
the ring end cuts a field.

The project proves that this is a FIFO queue of (key, value) pairs, under every interleaving of the three threads and
with the bytes of every remote write becoming visible one at a time. Around that it verifies the parts the log stands
on: the circular queue between two threads, the hash map with rehashing, the work queue that makes remote reads and
writes atomic, the node tags and table of remote addresses, the send-region allocator and the hash function.

## How it is built

| module | content |
|---|---|
| `Bits`, `Ring`, `Layout` | masking as modulo for all integers, ring positions, two-fragment copies, the byte layout of a record |
| `Replication` | the protocol as a state machine: one step per access to shared state |
| `Simulation`, `HeadSteps`, `TailSteps` | the relation to the history of reserved records, kept by every step |
| `Theorems`, `Guarantees`, `FirstLap`, `Progress` | the results about whole runs |
| `Schedules`, `StaleTags`, `Limits` | runs built step by step, and with them the exact conditions of the results |
| `Nodes`, `NodeLaws`, `ValueWrites`, `ReaderThread`, `NicThread` | the routines as classes over a byte array, proved against the functions the steps are made of; what a pass of the reader and the NIC's loop must do, and that they are sequences of steps |
| `UnlockQueue`, `HashMap` | the containers, as classes; the queue also shared by two threads |
| `WorkQueue`, `Linearizability`, `Effects` | callers, worker, NIC and completion handler against an atomic byte array, down to which bytes a call touches |
| `AddressMap`, `SendRegion`, `Murmur`, `MurmurVectors` | address tags and records, the bump allocator, MurmurHash3 and its values at fixed keys |

In `Replication` the ring size is any power of two below 2^32, the header any size of at least the two lengths, and the
limits the reader passes are parameters. Wrapped pointers are related to unbounded counters; the writer's pointer ranges over
0..size inclusive. Functions that only compute carry no contract of their own; the lemmas about them do.

## Hypotheses

They are `requires` clauses or guards of steps, not facts.

- Tag hygiene (`Replication.Hygienic`): a reservation finds something other than 1 where its tag will go. The tail hands
  out a zeroed buffer and a comment asks for the ring to be zeroed again after reading (src/log_buffer.c:454-455, 753),
  but `free_log` moves the read pointer without clearing (src/log_buffer.c:340-341), so the code alone does not guarantee
  it. `StaleTags` says exactly what that costs; see below.
- Queues hold a ring full of logs (`Simulation.QueuesFit`): size <= QUEUE_SIZE * (header + 3). The repository's constants,
  64 and 2048, satisfy it.
- Stable keys: the dirty map keeps pointers to keys; the model keys it by the bytes behind them.
- Transport: posting succeeds; fragments of one transfer arrive in order and the last byte of a fragment last; the
  4-byte pointer transfers are atomic; memory is sequentially consistent.
- The work queue's address table and connections do not change during a run, and the bytes an operation names lie in the
  remote memory.

## Results worth knowing

- Tag hygiene is not only sufficient. In every state a good run reaches with the head idle, and for every record that
  fits, the call is safe under every schedule if and only if the byte where its tag will go is not 1
  (`StaleTags.SafeToCallIff`). With a 1 there, the tail can execute the record before the call has returned, with whatever
  string the old bytes spell; it is the wrong string unless the old bytes are the very ones about to be sent.
- Counted in bytes: for every configuration in which two short records take little more than the ring, runs that ask for
  at most B bytes are safe if and only if B is at most the ring size (`StaleTags.FirstLapIsExact`).
- At the repository's own constants (ring 64, header 32, queues 2048) two calls are enough: key "abc" with value "\x01",
  then a key of 24 bytes with value "xyz", which the tail can execute with value "abc" (`StaleTags.ShippedConstantsFail`).
- The space check is exact, and the second one in `rb_write_mate` never refuses what the first one admitted.
- `clean_log`'s "not in the dirty map" branch, the two queue-full exits and the unchecked put into `dirty_queue` cannot
  fail on a good run.
- With the limits `reader_thread` passes (one value at a time) no accepted record can get stuck, and every schedule that
  gives NIC and reader enough steps executes everything. Those limits are exactly the ones that work: a smaller batch than
  asked for is left waiting in `executing_queue` (src/log_buffer.c:462-469), so with a limit of two a single accepted
  record is never executed (`Limits.DeliversIff`).
- A message of at most L bytes in the send region stays intact while it and the messages after it take at most
  SEND_REGION_SIZE - L + 1 bytes, and not for one byte more.
- MurmurHash3 separates any two keys that differ inside one 4-byte unit; keys that differ in two neighbouring blocks
  collide for exactly one second block, which is given. So one normal address on two nodes never has the same hash, only perhaps the same bucket.
- A transport that is not registered gets node index 3, one past the last (src/mid_client_work.c:56-62).

## Model

| member | source | states |
|---|---|---|
| `Theorems.ExecutedIsPrefixOfAccepted` | src/log_buffer.c:290-719 | over every interleaving, the pairs the tail executes are a prefix, in order, of the pairs `head_node_write_log` accepted: none lost, repeated, reordered or torn |
| `Theorems.DrainedMeansAllExecuted` | src/log_buffer.c:445-487 | when the head is idle and the tail has run dry, everything accepted has been executed |
| `Theorems.StepSim` | src/log_buffer.c:290-719 | every step of writer, NIC and reader keeps the relation between ring bytes, pointers, four queues, dirty map and the history of records |
| `Theorems.LogInExecuting` | src/log_buffer.c:489-525 | zero copy is safe: a log in `executing_queue`, read through its stored addresses, is its record |
| `Theorems.StepEvents` | src/log_buffer.c:290-328 | each step adds to the accepted and executed pairs exactly the next record of the history |
| `Progress.AcceptedCanBeExecuted` | src/log_buffer.c:355-383 | from every reachable state, steps of the NIC and the reader alone lead to a state where executed equals accepted |
| `Progress.EveryScheduleDelivers` | src/log_buffer.c:355-487 | every continuation without the writer in which the NIC makes as many steps as it has work, followed by a bounded number of steps, has executed exactly what was accepted |
| `Limits.DeliversIff` | src/log_buffer.c:458-469 | every good run can be brought by NIC and reader to executed equal to accepted if and only if keys are asked for and values one at a time |
| `Limits.OneAccepted` | src/log_buffer.c:290-328 | whatever the limits, some good run has accepted a record |
| `Progress.SmallBatchesStarve` | src/log_buffer.c:462-469 | with a limit of 0, or fewer calls than the value limit, no run executes anything |
| `Progress.NicAdvances` | src/log_buffer.c:422-436 | while a value is outstanding the NIC has a step, and it leaves less to do |
| `Progress.ReaderAdvances` | src/log_buffer.c:456-484 | once all values are delivered, each reader step brings the next execution closer |
| `FirstLap.FirstLapNeedsNoHygiene` | src/mid_rdma_recv_handler.c:138-138 | while at most one ring full of bytes has been asked for, runs are hygienic by themselves, since the buffer starts zeroed |
| `StaleTags.SafeToCallIff` | src/log_buffer.c:290-345 | in every state reached by a good run with the head idle, for every record that fits: the call is safe under every schedule if and only if the byte where its tag will go is not 1 |
| `StaleTags.FirstLapIsExact` | src/log_buffer.c:332-345 | runs that ask for at most B bytes execute a prefix of what they accept if and only if B is at most the ring size |
| `StaleTags.ShippedConstantsFail` | include/log_copy.h:12-48 | with ring 64, header 32, queues 2048 and reader_thread's limits, a run of two calls executes the second key with a value that was never given |
| `StaleTags.StaleValueIsExecuted` | src/log_buffer.c:616-642 | from any quiet state, a call whose value field still holds any bytes that end in a tag can be accepted and executed with the string those bytes spell |
| `StaleTags.StaleTagRunsAhead` | src/log_buffer.c:314-326 | whatever those bytes are, the record can be executed before the call has returned |
| `StaleTags.WrongUnlessSame` | src/log_buffer.c:293-304 | the executed string is the argument of the call if and only if the old bytes are the ones about to be sent |
| `StaleTags.SecondCallTorn` | src/log_buffer.c:386-436 | two calls of which the second finds such bytes give a run that is not a prefix, for any two records |
| `Schedules.Cycle` | src/log_buffer.c:290-353 | from a quiet state a hygienic call can run to its end; its record then stays in the ring although it is freed, and no other byte changes |
| `Schedules.Settle` | src/log_buffer.c:355-487 | with the writer idle, NIC and reader can finish everything, and only bytes of live records change |
| `Guarantees.PointersAreOrdered` | src/log_buffer.c:75-92 | cached rd <= true rd <= rd_key <= published wr <= local wr, less than one lap apart, so a stale read pointer only under-estimates free space |
| `HeadSteps.FreeSizeIsExact` | include/log_copy.h:135-144 | the masked difference of the stored pointers gives the true free space |
| `HeadSteps.RecheckPasses` | src/log_buffer.c:386-391 | the second space check never refuses what the first admitted |
| `Guarantees.LiveBytesStable` | src/log_buffer.c:386-436 | no step changes a transferred byte of a record that is still live |
| `Guarantees.StepFrame` | src/log_buffer.c:386-436 | a transfer step stores one byte of its own record and leaves all other live slots alone |
| `Layout.SlotsApart` | src/log_buffer.c:386-419 | bytes of records less than one lap apart never share a slot |
| `Guarantees.ExecutingHoldsAccepted` | src/log_buffer.c:616-655 | a log enters `executing_queue` only with its value complete, cut by the ring end or not |
| `TailSteps.TagMeansDone` | include/log_copy.h:158-162 | a set tag means that every byte of that value has been transferred |
| `Guarantees.DirtyCountIsExact` | src/log_buffer.c:579-592 | whenever `dirty_lock` is free, a key's count is the number of its logs parsed and not yet cleaned; `judge_key_dirty` is true exactly when that is positive |
| `Guarantees.NothingIsRefused` | src/log_buffer.c:592-599 | no queue refuses a log, `clean_log` finds its key, no exit is reached |
| `HeadSteps.LiveFit` | src/log_buffer.c:807-810 | fewer live records than the queue length, since each owns at least header + 3 ring bytes |
| `Guarantees.DirtyQueueIsTheOthers` | src/log_buffer.c:661-719 | `dirty_queue` is the executed log not yet cleaned, then `executing_queue`, then `value_peeding_queue`; the log freed sits at the read pointer |
| `Guarantees.KeyLoopStopsAtBoundary` | src/log_buffer.c:545-577 | the bytes ahead of the key pointer are none or a whole record; a parse strictly lowers the count |
| `TailSteps.ParseIs` | src/log_buffer.c:553-577 | parsing at a boundary gives the lengths and key of the record that starts there |
| `TailSteps.KeysAhead` | src/log_buffer.c:549-550 | the count of bytes ahead is the total length of the published records not yet parsed |
| `NodeLaws.KeyLoopParsesAll` | src/log_buffer.c:540-608 | for a fixed published pointer, `read_log_key` parses exactly the next published records, as many as the limit allows, and never exits |
| `NodeLaws.ValueLoopMovesComplete` | src/log_buffer.c:610-659 | `read_log_value` moves complete values only, in order, and stops at its limit, at the last parsed log or at a missing tag |
| `NodeLaws.WrittenRecord` | src/log_buffer.c:386-436 | header, key and value written at any position lie in the ring byte for byte; all other ring bytes are unchanged |
| `NodeLaws.WriteReadRoundTrip` | src/log_buffer.c:559-577 | parsing and reading where a record was written gives back its lengths, key and value |
| `NodeLaws.TransferIsWrite` | src/log_buffer.c:422-436 | in whatever order the bytes of a transfer become visible, the outcome is that of the sequential routine |
| `Bits.AndIsMod` | include/log_copy.h:135-150 | masking with 2^k - 1 is reduction modulo 2^k, for negative differences too |
| `Ring.WrapDiff` | include/log_copy.h:135-150 | the masked difference of two stored pointers is the distance of their counters |
| `Ring.AdvancePoints` | src/log_buffer.c:394-416 | the pointer after a possibly wrapped copy, which may be `size`, still stands for the right counter |
| `Ring.ReadFragsIsWindow` | src/log_buffer.c:744-767 | the two memcpy calls of `rb_read` yield the ring bytes in ring order |
| `Ring.WriteThenRead` | src/log_buffer.c:427-435 | a two-fragment write is found again from the same position, the rest of the ring is as before |
| `Layout.LERoundTrip` | include/log_copy.h:30-35 | a length stored as a 4-byte integer is read back |
| `Layout.ValueOfCall` | src/log_buffer.c:293-304 | the string read from the value field of a record is the argument of the call that built it |
| `Layout.RecordBytes` | src/log_buffer.c:293-304 | the bytes of a record by position: two 4-byte lengths, the rest of the header, key and NUL, value and NUL, tag 1 |
| `Nodes.TailNode.constructor` | src/mid_rdma_recv_handler.c:118-140 | the tail's buffer starts zeroed, with all pointers at 0 and empty queues |
| `Nodes.TailNode.Clear` | src/log_buffer.c:754-755 | the bytes of the range are 0, every other byte is unchanged |
| `Nodes.TailNode.RbRead` | src/log_buffer.c:736-772 | refused exactly when asking for more than the published data; else the ring window, and in consuming mode that window is zero, the rest of the ring unchanged and the read pointer advanced |
| `Nodes.TailNode.ReadLogKey` | src/log_buffer.c:540-608 | the loop leaves the state the reader's key steps lead to |
| `Nodes.TailNode.ReadLogValue` | src/log_buffer.c:610-659 | the loop leaves the state the reader's value steps lead to, up to a missing tag |
| `Nodes.TailNode.CleanLog` | src/log_buffer.c:661-698 | lowers or removes the key's count and moves the read pointer past the log; halts when the key is absent |
| `ReaderThread.PassDelivers` | src/log_buffer.c:456-484 | a pass parses the published records up to the key limit; if a full batch of values is complete it hands out the values of that many oldest records, in order, and moves the read pointer behind exactly them; otherwise it hands out nothing, and waits exactly when a parsed value is missing |
| `ReaderThread.ReaderRound` | src/log_buffer.c:456-484 | one pass of the loop over `read_log_key`, `read_log_value`, `top_log`, `send_log` and `clean_log`, and the values it hands out, are those of the pass the law above is about |
| `ReaderThread.PassIsSteps` | src/log_buffer.c:456-484 | a pass is a sequence of the protocol's reader steps, which execute the values it hands out |
| `ReaderThread.ExecuteBatch` | src/log_buffer.c:471-481 | the while loop executes and frees one log per turn |
| `ReaderThread.ExecuteDelivers` | src/log_buffer.c:471-481 | executing a batch hands out the values of the oldest records, in order, and frees exactly them |
| `ReaderThread.ValuesDone` | src/log_buffer.c:610-659 | `read_log_value` moves as many values as are parsed and complete, up to its limit, no fewer and no more |
| `ReaderThread.ExecuteLeads` | src/log_buffer.c:471-481 | `top_log`, `send_log` and `clean_log` in this order are the steps from one execution to the next |
| `ReaderThread.KeyLoopLeads` | src/log_buffer.c:540-608 | `read_log_key` without interference is a sequence of reader steps |
| `ReaderThread.ValueLoopLeads` | src/log_buffer.c:610-659 | `read_log_value` up to a missing tag is a sequence of reader steps |
| `Nodes.HeadNode.constructor` | src/log_buffer.c:803-845 | the head starts with both pointers at 0 and nothing to send |
| `Nodes.HeadNode.CheckRemoteSize` | src/log_buffer.c:75-92 | fetches the read pointer and compares with the free space |
| `Nodes.HeadNode.RbWriteData` | src/log_buffer.c:422-436 | one or two remote writes make the two-fragment copy |
| `Nodes.HeadNode.RbWriteMate` | src/log_buffer.c:386-419 | -1 and no change when full; else header and key written and the pointer past the reserved value published |
| `Nodes.HeadNode.WriteLog` | src/log_buffer.c:290-328 | accepted exactly when ring and sending queue have room; the whole new state in each case |
| `Nodes.HeadNode.NicThread` | src/log_buffer.c:355-383 | for queued logs at consecutive reserved places, less than one lap long, with header and key in the ring: afterwards every record is there whole, and no byte outside the value fields has changed |
| `ValueWrites.ValuesLand` | src/log_buffer.c:371-372 | the same of the sequence of writes, byte by byte on unwrapped counters |
| `NicThread.LoopIsSteps` | src/log_buffer.c:355-383 | the loop is a sequence of the protocol's NIC steps from idle to idle |
| `UnlockQueue.UnQueue.constructor` | src/unlock_queue.c:5-14 | an empty queue |
| `UnlockQueue.UnQueue.PutQueue` | src/unlock_queue.c:24-36 | appends exactly when fewer than len - 1 entries are held |
| `UnlockQueue.UnQueue.PopQueue` | src/unlock_queue.c:39-45 | drops the first entry, if any |
| `UnlockQueue.UnQueue.EmptyQueue` | src/unlock_queue.c:48-51 | true exactly for no entries |
| `UnlockQueue.UnQueue.TopQueue` | src/unlock_queue.c:53-56 | the first entry of a non-empty queue |
| `UnlockQueue.StepRefinesAtomicQueue` | src/unlock_queue.c:24-56 | with put and pop split into their memory accesses, every step of either thread is a step of an atomic queue of capacity len - 1 |
| `UnlockQueue.OpenSlotIsStable` | src/unlock_queue.c:39-56 | the producer never touches the slot the consumer is reading |
| `UnlockQueue.DeliveredInOrder` | src/unlock_queue.c:24-56 | over every interleaving, accepted is delivered, in order and untorn, followed by what is still held, at most len - 1 entries |
| `UnlockQueue.NobodyIsStuck` | src/unlock_queue.c:24-56 | in every reachable state: an idle consumer whose queue holds something takes its oldest entry, and an idle producer whose queue is not full puts its entry in, however the other thread's steps fall in between |
| `UnlockQueue.TakeDelivers` | src/unlock_queue.c:39-56 | emptyQueue, topQueue and popQueue on a non-empty queue deliver exactly its oldest entry, whole |
| `UnlockQueue.PutIsAccepted` | src/unlock_queue.c:24-36 | putQueue into a queue with room is accepted |
| `HashMap.Map.constructor` | src/mid_hashmap.c:237-264 | an empty map with the requested or default number of buckets |
| `HashMap.Map.Put` | src/mid_hashmap.c:93-139 | the map with the key bound; bucket count doubled exactly when the new size reaches it and the double is at least 50; terminates together with the rebuild |
| `HashMap.Map.Get` | src/mid_hashmap.c:141-153 | the key's value, or NULL exactly when it is absent |
| `HashMap.Map.Exists` | src/mid_hashmap.c:155-170 | whether the key is bound |
| `HashMap.Map.Remove` | src/mid_hashmap.c:172-215 | the map without the key; bucket count halved exactly when less than half used and the half is at least 50; the result is a key of the same bucket, NULL exactly when the bucket was empty |
| `HashMap.Map.Reset` | src/mid_hashmap.c:267-323 | rebuilding to any admissible size preserves every binding |
| `HashMap.Map.Collect` | src/mid_hashmap.c:272-294 | the temporary array of exactly `size` cells receives every binding once |
| `HashMap.Map.Refill` | src/mid_hashmap.c:312-318 | re-inserting all entries never starts another rebuild |
| `HashMap.InsertOk` | src/mid_hashmap.c:96-124 | a new entry in an empty head or behind an occupied one keeps the bucket invariant |
| `HashMap.UnlinkOk` | src/mid_hashmap.c:180-209 | removing an entry from the walk keeps the bucket invariant for the smaller map |
| `HashMap.UnlinkWalk` | src/mid_hashmap.c:180-209 | promoting the first chained entry or unlinking takes exactly one entry out of the walk and leaves no empty head with a chain |
| `HashMap.NextIsNew` | src/mid_hashmap.c:275-294 | the next entry the collecting loop meets has not been collected, so the temporary array has room |
| `Linearizability.Linearizable` | src/mid_rdma_top_api.c:199-283 | every history of calls and returns from any number of threads is one of an atomic object: each operation takes effect once, between call and return; which bytes that touches is in `Effects.EveryAnswerIsRight` |
| `Effects.EveryAnswerIsRight` | src/mid_rdma_transport.c:234-347 | every history has the effects of its calls between call and return on one memory, byte for byte: a read holds the bytes at base + offset + index, a write puts its bytes there and leaves all others alone, an unknown address changes nothing and returns 0, an unconnected node returns -1; between items that memory is the remote one |
| `Effects.AtomicAnswers` | src/mid_rdma_transport.c:259-323 | the atomic object gives exactly these answers |
| `Linearizability.StepMatches` | src/mid_client_work.c:311-369 | every step of caller, worker, NIC or completion handler is none, one or two steps of the atomic object with the same events |
| `WorkQueue.PostMatches` | src/mid_rdma_transport.c:331-339 | posting is where an operation takes effect, with the effect of `Effects.AtomicAnswers` |
| `WorkQueue.TransferMatches` | src/mid_rdma_transport.c:266-275 | moving a byte, in any order, changes neither the atomic memory nor a promised result |
| `WorkQueue.CompletionMatches` | src/mid_rdma_cq_handler.c:41-47 | the order write_flag, then done_flag is invisible to callers |
| `WorkQueue.LookUpMatches` | src/mid_client_work.c:349-355 | an unknown address takes no effect, leaves the buffer alone and still completes with 0 |
| `WorkQueue.RejectMatches` | src/mid_rdma_top_api.c:206-211 | a call to an unconnected node returns -1 without effect |
| `Linearizability.ServedInListOrder` | src/mid_client_work.c:420-475 | operations take effect in work-list order, and those still to come are exactly the backlog |
| `Linearizability.QuietMemory` | src/mid_client_work.c:420-475 | with nothing outstanding, the remote memory is what the appended operations make one after the other |
| `Linearizability.OneTransferAtATime` | src/mid_client_work.c:329-334 | at most one transfer is in flight; between items every write_flag is false; the spin loops on write_flag fall through |
| `Linearizability.NeverStuck` | src/mid_rdma_top_api.c:235-235 | while a call is open, some thread can move |
| `Linearizability.EveryStepIsProgress` | src/mid_client_work.c:424-472 | every step except a new call lowers a well-founded rank |
| `Linearizability.EveryCallCanReturn` | src/mid_rdma_top_api.c:199-283 | from every reachable state all open calls can return without new calls |
| `AddressMap.TransferDhmpAddr` | src/mid_client_work.c:50-73 | for addresses below 2^48, untagging gives the address back, and the node index leads back to the transport exactly when it is registered |
| `AddressMap.TagRoundTrip` | src/mid_client_work.c:225-239 | on all 64-bit values, address and node are recovered if and only if the address is below 2^48 |
| `AddressMap.NodesHashApart` | src/mid_client_work.c:78-88 | one normal address on two nodes has two different 32-bit hash values |
| `AddressMap.IndexIs` | src/mid_client_work.c:78-88 | the bucket is the MurmurHash3 value of the pointer's eight bytes, lowest first, modulo 50000 |
| `AddressMap.NodesKeptApart` | src/mid_client_work.c:78-88 | 0x7f0000001000 on nodes 0 and 1 goes to buckets 12699 and 39268 |
| `AddressMap.AddressTable.constructor` | src/mid_rdma_init.c:137-141 | every bucket is empty |
| `AddressMap.AddressTable.Insert` | src/mid_client_work.c:94-103 | the record becomes the newest live one |
| `AddressMap.AddressTable.Find` | src/mid_client_work.c:244-267 | the newest live record of that bucket with that normal address, or none |
| `AddressMap.AddressTable.Remove` | src/mid_client_work.c:281-288 | exactly the record a lookup finds goes out of the table |
| `AddressMap.ScanIsHit` | src/mid_client_work.c:249-267 | walking one bucket finds the newest fitting record of the whole table |
| `AddressMap.LookupIsMap` | src/mid_client_work.c:244-288 | after any insertions and removals by which no two live entries of a bucket share a normal address, a live address gets its own record, and another is refused if and only if no live one shares bucket and normal address with it |
| `AddressMap.SharesIff` | src/mid_client_work.c:78-88 | two addresses share bucket and normal address if and only if their hashes agree modulo 50000 and their low 48 bits agree |
| `AddressMap.NewestWins` | src/mid_client_work.c:94-103 | a record just inserted is the one found and the one removed, whatever else is live |
| `SendRegion.SendMr.CreateTask` | src/mid_rdma_task.c:36-71 | 12 + data_size bytes at the current position, or at 0 when they do not fit; the bytes of the slot by position, and no other byte changed |
| `SendRegion.FrameRoundTrip` | src/mid_rdma_cq_handler.c:28-31 | an undisturbed frame decodes to its message |
| `SendRegion.FrameBytes` | src/mid_rdma_task.c:62-67 | the bytes of a frame by position: kind in 4 bytes, size in 8, then the data |
| `SendRegion.SlotInRegion` | src/mid_rdma_task.c:53-60 | every slot lies inside the region |
| `SendRegion.SlotsDisjoint` | src/mid_rdma_task.c:53-60 | messages i < j are disjoint when messages i..j take at most size - L + 1 bytes |
| `SendRegion.MessageSurvives` | src/mid_rdma_task.c:36-71 | within that bound a message still decodes to itself |
| `SendRegion.SurvivalIsExact` | src/mid_rdma_task.c:36-71 | every message survives messages of `total` bytes, itself included, if and only if `total` is at most size - L + 1 |
| `SendRegion.SqueezeBreaks` | src/mid_rdma_task.c:49-60 | real frames of 12 to L bytes that take one byte more, after which the message does not decode to itself |
| `Murmur.MurmurHash3` | src/murmur3_hash.c:71-129 | the loop with negative indices computes a left fold over blocks, then the tail and the finalisation |
| `MurmurVectors.HashOfOneByte` | src/murmur3_hash.c:123-125 | the key [0] has hash 0x514e28b7: the length is mixed in |
| `MurmurVectors.HashOfAbc` | src/murmur3_hash.c:104-118 | a key of three tail bytes has hash 0xb3dd93fa |
| `MurmurVectors.HashOfTest` | src/murmur3_hash.c:86-97 | "test" has hash 0xba6bd213 |
| `MurmurVectors.HashOfHello` | src/murmur3_hash.c:71-129 | "hello", a block and one tail byte, has hash 0x248bfa47 |
| `MurmurVectors.HashOfEight` | src/murmur3_hash.c:71-129 | a key of two blocks has hash 0xd161d673 |
| `MurmurVectors.LengthsApart` | src/murmur3_hash.c:123-123 | keys of different lengths below 2^32 that reach the same state have different hashes |
| `Murmur.RoundBijective` | src/murmur3_hash.c:88-96 | a round is a bijection of the state for every block and of the block for every state |
| `Murmur.FmixBijective` | src/murmur3_hash.c:56-65 | the finalisation is a bijection |
| `Murmur.OneUnitNeverCollides` | src/murmur3_hash.c:71-129 | keys of equal length differing only inside one 4-byte block, or only in the tail bytes, have different hashes |
| `Murmur.TwoBlocksCollideIff` | src/murmur3_hash.c:71-129 | keys of equal length differing only in two neighbouring blocks collide if and only if the second block is the one computed here |

## Left out

- Middle nodes of the chain: their NIC thread sends values without headers, so forwarding is unfinished.
- `rb_write`, `memcpy_buffer`, `read_one_log` and `writer_thread`: not on the path of the log.
- Connection set-up, memory registration, device discovery, configuration, logging and the exit of the threads after REPEAT logs.
- SEND, FREE and MALLOC work items: their waiting follows other rules; only the table part of FREE is modelled.
- C integers: lengths are unbounded except that the ring is smaller than 2^32; `int` truncation of longer lengths is not modelled.
- Memory lifetimes: queues hold copies of log entries instead of shared pointers, so a log used after `free` is not modelled.
- Weak memory orders: every access is sequentially consistent.
- HashMap.Map: hash code and key equality are any in-range function and equality of keys; the default string hash and `defaultClear` are not modelled, and chains are sequences rather than linked nodes.
- Nodes.TailNode.ReadLogValue: returns at a missing tag instead of spinning on it; the spinning is part of the state machine.
- Nodes.TailNode.RbRead: on a refusal the caller's buffer keeps its content; the model of the copying callers takes it to be zeroed.
- StaleTags.FirstLapIsExact: for configurations with 2 * header + 7 <= size + 1; where fewer than two short records fit, the first unsafe number of bytes depends on which header bytes can be 1, and `StaleTags.SafeToCallIff` gives the condition call by call.
- SendRegion.SurvivalIsExact: for L of at least 23 bytes and regions of at least 2 * L + 10 bytes, where frames of 12 bytes and more can fill any gap.
- WorkQueue: read and write counters and the memory registration of local buffers; the address table is fixed during a run.
