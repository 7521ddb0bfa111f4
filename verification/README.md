# Verified models of triSYCL and AIE++ components

Dafny models of the parts of triSYCL and of its AIE++ extension where state, concurrency or
unsigned arithmetic make the code hard to trust by reading. `dafny verify dfyconfig.toml`
checks the whole project.

| files | component |
|---|---|
| PipeModel, PipeFifo, Pipe | SYCL 2.2 pipe: a bounded circular buffer with queues of read and write reservations |
| HeapModel, HeapRuns, HeapMemory, HeapAllocator | AIE heap allocator: block list, whole runs, layout in memory words, device and host code |
| TaskModel, TaskOrder, TaskSerial, TaskCounts, TaskExact, Tasks | task graph of the command groups |
| Coherence | copies of a buffer in the host and device contexts |
| ChainBarrier, ChainBarrierExact | token barrier of a chain of tiles |
| GridBarrier, FullBarrier, FullBarrierExact | barrier of a grid: chains, then the locks and directions of the tiles |
| ServiceModel, ServiceProtocol, ServiceProgress, ServiceExact | service requests from the tiles to the host |
| IndexSpace, NdRange, LinearId | enumeration and linearisation of index spaces |
| Stream | objects of any size over fixed-size stream transfers |
| Basics | unsigned arithmetic and sums |

Objects that the source updates in place are classes. Each method is proved to be a function
of the old state, and the properties are proved of that function. Concurrent protocols are
state machines: a step is one call under a lock, or one access to shared memory, and the
theorems are about all schedules. Kernels, services and buffer contents are arbitrary.

Some promises of the code fail in a corner. For each there is a concrete input or schedule and
the exact condition under which the promise holds:

* `pipe::reserve_write` compares an unsigned sum with the capacity. The comment beside it avoids
  a difference because of unsigned values; the sum wraps too. Then a reservation loses stored
  elements (`PipeModel.ReserveWriteKeepsElementsIff`), and a waiting caller is not woken
  (`PipeModel.ReserveWriteIsWokenIff`).
* `align_up` wraps for sizes above 2^32 - 4. Then malloc and realloc give less than requested
  (`HeapRuns.MallocHonoursRequestIff`, `HeapRuns.ReallocHonoursRequestIff`) and realloc drops
  data (`HeapRuns.ReallocKeepsBytesIff`).
* The leak check of the heap looks for blocks without `is_host_allocated`, which the allocator of
  the device never clears. A leak is seen only where the memory happened to have that bit clear
  (`HeapAllocator.NewLeakIsSeenIff`).
* A realloc that fails for want of one more byte has still taken the free block behind
  (`HeapModel.ReallocFailsIff`).
* The task graph has no link from a reader to a later writer (`TaskExact.AlwaysSerialIff`,
  `TaskExact.SameContentsIff`).
* Over several rounds `barrier_impl` needs its two closing releases not to be separated
  (`ChainBarrierExact.BarrierHoldsIff`, `FullBarrierExact.FullBarrierHoldsIff`). The emulation
  runs all fibers on one thread.
* `wait_all` never returns when the host stays with a tile that announced another request, and
  that tile is done or waits for a tile that waits for the host. `log` announces a request
  after its last piece, so a `log` before a barrier is enough (`ServiceExact.AlwaysCanReturnIff`).
* The rounding in `get_group_range` wraps when the sum of a global and a local size exceeds 2^64
  (`NdRange.CoversGlobalIff`).
* The stream loop runs past objects whose blocks reach 2^32 (`Stream.GuardOverrunsIff`).

## Model

| member | source | states |
|---|---|---|
| `PipeFifo.PipeIsFifo` | include/triSYCL/sycl_2_2/pipe/detail/pipe.hpp:222-480 | In every run of writes, reads, reservations, element accesses and commits in any order, the values taken out are a prefix of the values put in, in stream order; nothing at or after an uncommitted write reservation is taken; at most `capacity` slots are unreleased. |
| `PipeFifo.StepKeepsCoupled` | include/triSYCL/sycl_2_2/pipe/detail/pipe.hpp:222-480 | Every step keeps the pipe equal to the window of a history that is built from calls and replies only. |
| `PipeFifo.RunKeepsCoupled` | include/triSYCL/sycl_2_2/pipe/detail/pipe.hpp:222-480 | The same over whole runs. |
| `PipeFifo.LoadSeesStream` | include/triSYCL/sycl_2_2/pipe_reservation/detail/pipe_reservation.hpp:160-166 | Until it is committed, a read reservation shows the stream at its own place, whatever other clients do. |
| `PipeFifo.AdmissionIsExact` | include/triSYCL/sycl_2_2/pipe/detail/pipe.hpp:330-414 | With no committed reservation waiting at a queue front, read, write and both reservations are granted if and only if the history has enough committed values, or enough room before the first uncommitted read reservation. |
| `PipeModel.AnsweredIff` | include/triSYCL/sycl_2_2/pipe/detail/pipe.hpp:222-414 | In every valid state write is granted exactly when a slot is free, read when a value is stored that is neither frozen nor reserved, and a reservation when it is not empty and that many slots or values are there; stated on the fields, for requests that do not wrap the room test. |
| `PipeFifo.OpenReservationsWork` | include/triSYCL/sycl_2_2/pipe_reservation/detail/pipe_reservation.hpp:160-186 | A store through a reservation that the history has open is carried out and puts its value at the place of the reservation in the stream; marking is carried out exactly when the reservation is open; a store through any other reservation is refused. |
| `PipeFifo.RunKeepsCapacity` | include/triSYCL/sycl_2_2/pipe/detail/pipe.hpp:132-135 | No run changes the capacity. |
| `PipeModel.StepKeepsInv` | include/triSYCL/sycl_2_2/pipe/detail/pipe.hpp:222-480 | Stored count within capacity, frozen plus write-reserved within the stored count, reservations disjoint and in stream order, first read reservation at the head, slots frozen exactly while a read reservation is pending: every call keeps all of it. |
| `PipeModel.SizeIsExact` | include/triSYCL/sycl_2_2/pipe/detail/pipe.hpp:147-156 | Neither unsigned subtraction in size() wraps. |
| `PipeModel.RoomTestIsExactIff` | include/triSYCL/sycl_2_2/pipe/detail/pipe.hpp:390-397 | The unsigned room test of reserve_write is right if and only if its sum stays below 2^64; when the sum wraps the test always passes. |
| `PipeModel.PushBlanksAppends` | include/triSYCL/sycl_2_2/pipe/detail/pipe.hpp:399-402 | With room for all of them the pushes append default elements and overwrite nothing. |
| `PipeModel.PushBlanksOverwrites` | include/triSYCL/sycl_2_2/pipe/detail/pipe.hpp:399-402 | Without room, the stream still grows by n while the buffer is cut to its capacity. |
| `PipeModel.ReserveWriteKeepsElementsIff` | include/triSYCL/sycl_2_2/pipe/detail/pipe.hpp:390-408 | An admitted write reservation loses no stored element if and only if the sum in its room test does not wrap. |
| `PipeModel.WrappedReservationLosesElement` | include/triSYCL/sycl_2_2/pipe/detail/pipe.hpp:390-408 | A concrete admitted reservation that loses the stored element. |
| `PipeModel.ReleaseReadKeepsInv` | include/triSYCL/sycl_2_2/pipe/detail/pipe.hpp:433-446 | Releasing the front read reservation pops at most the frozen slots and keeps the invariant. |
| `PipeModel.MoveWritesSettles` | include/triSYCL/sycl_2_2/pipe/detail/pipe.hpp:458-480 | No committed write reservation stays at the front, and the stored elements do not change. |
| `PipeModel.MoveReadsSettles` | include/triSYCL/sycl_2_2/pipe/detail/pipe.hpp:420-452 | No committed read reservation stays at the front; the readable size, the next slot to read and the end of the stream do not change. |
| `PipeModel.CommitSettles` | include/triSYCL/sycl_2_2/pipe_reservation/detail/pipe_reservation.hpp:175-186 | Commits in any order never leave a released slot blocked behind a committed front. |
| `PipeModel.CommitEndsWrite` | include/triSYCL/sycl_2_2/pipe_reservation/detail/pipe_reservation.hpp:175-186 | After a commit the write reservation is no longer held and every other one is held as before; the read queue, the elements and the stream do not change. |
| `PipeModel.CommitEndsRead` | include/triSYCL/sycl_2_2/pipe_reservation/detail/pipe_reservation.hpp:175-186 | The same for a read reservation; the write queue and the end of the stream do not change. |
| `PipeFifo.CommitKeepsCoupled` | include/triSYCL/sycl_2_2/pipe_reservation/detail/pipe_reservation.hpp:175-186 | A commit of an open reservation is, in the history, the closing of that reservation and nothing else. |
| `PipeModel.StepNotifies` | include/triSYCL/sycl_2_2/pipe/detail/pipe.hpp:234-281 | Slots come free only with a read_done notification, values become readable only with a write_done notification. |
| `PipeModel.NoLostWakeup` | include/triSYCL/sycl_2_2/pipe/detail/pipe.hpp:227-479 | Whatever step makes the condition of a blocked caller true also notifies the condition variable that caller sleeps on; for a caller that waits to reserve for writing, under the exact condition of the next row. |
| `PipeModel.ReserveWriteIsWokenIff` | include/triSYCL/sycl_2_2/pipe/detail/pipe.hpp:390-394 | A caller waiting to reserve n slots for writing is woken by every step that makes its condition true, in every state, if and only if capacity + n stays below 2^64 or the capacity is 2^64 - 1. |
| `PipeFifo.RunMissesWakeup` | include/triSYCL/sycl_2_2/pipe/detail/pipe.hpp:234-239 | Otherwise a run of writes from the empty pipe leads to a write that makes the condition true without waking the caller. |
| `PipeModel.WrappedSumMissesWakeup` | include/triSYCL/sycl_2_2/pipe/detail/pipe.hpp:234-239 | A concrete write that makes the sum of a waiting reserve_write wrap to 0 and notifies only readers. |
| `Pipes.Pipe.constructor` | include/triSYCL/sycl_2_2/pipe/detail/pipe.hpp:126-127 | An empty valid pipe. |
| `Pipes.Pipe.Write` | include/triSYCL/sycl_2_2/pipe/detail/pipe.hpp:222-241 | The method is the Write step, refused exactly when full. |
| `Pipes.Pipe.Read` | include/triSYCL/sycl_2_2/pipe/detail/pipe.hpp:254-283 | The method is the Read step; a refused read leaves the caller's value alone. |
| `Pipes.Pipe.ReserveRead` | include/triSYCL/sycl_2_2/pipe/detail/pipe.hpp:330-363 | The method is the ReserveRead step, refused for 0 or too few readable values. |
| `Pipes.Pipe.ReserveWrite` | include/triSYCL/sycl_2_2/pipe/detail/pipe.hpp:378-414 | Granted exactly by the wrapping room test; the push loop reaches the specified state; the pipe stays valid when the sum does not wrap. |
| `Pipes.Pipe.PopMany` | include/triSYCL/sycl_2_2/pipe/detail/pipe.hpp:444-446 | The pop loop removes exactly the n oldest elements. |
| `Pipes.Pipe.MoveReadReservationForward` | include/triSYCL/sycl_2_2/pipe/detail/pipe.hpp:420-452 | The release loop releases the longest committed prefix of the read queue. |
| `Pipes.Pipe.MoveWriteReservationForward` | include/triSYCL/sycl_2_2/pipe/detail/pipe.hpp:458-480 | The release loop releases the longest committed prefix of the write queue. |
| `Pipes.PipeReservation.constructor` | include/triSYCL/sycl_2_2/pipe_reservation/detail/pipe_reservation.hpp:81-96 | Reserves on construction, for every request; a reservation whose room test did not wrap holds an uncommitted entry of its pipe. |
| `Pipes.PipeReservation.Move` | include/triSYCL/sycl_2_2/pipe_reservation/detail/pipe_reservation.hpp:106-114 | The commit capability moves: the original can no longer commit and the pipe does not change. |
| `Pipes.PipeReservation.Commit` | include/triSYCL/sycl_2_2/pipe_reservation/detail/pipe_reservation.hpp:175-186 | Only the first commit has an effect, and it is mark plus release: afterwards the reservation is not held, every other reservation is held as before, and the other queue is the same. |
| `HeapRuns.AnyRunTilesTheHeap` | include/aie/detail/device_allocator.hpp:174-340 | After any run of malloc, realloc and free from a fresh heap: headers and sizes tile the heap exactly, no two neighbours are free, every allocation is 4-aligned and inside, and allocations are disjoint from each other and from all headers. |
| `HeapRuns.RunKeepsOk` | include/aie/detail/device_allocator.hpp:174-340 | Every run keeps a well-formed, coalesced block list between the same ends. |
| `HeapRuns.TilesTheHeap` | include/aie/detail/device_allocator.hpp:95-101 | The tiling and separation facts hold of every well-formed coalesced heap. |
| `HeapRuns.SizesTelescope` | include/aie/detail/device_allocator.hpp:95-101 | Headers plus sizes up to a block give its address. |
| `HeapRuns.AllocationsDisjoint` | include/aie/detail/device_allocator.hpp:85-92 | Two live allocations are apart by at least a header. |
| `HeapRuns.AllocationMissesHeader` | include/aie/detail/device_allocator.hpp:78-87 | No live allocation overlaps any header. |
| `HeapRuns.AllocationInside` | include/aie/detail/device_allocator.hpp:127-128 | Live allocations are aligned and inside the heap. |
| `HeapRuns.FreeEverything` | include/aie/detail/device_allocator.hpp:327-340 | Freeing all live allocations in any order gives back the initial heap of one free block. |
| `HeapRuns.NothingLiveIsFresh` | include/aie/detail/device_allocator.hpp:209-221 | A coalesced heap with nothing allocated is the initial one. |
| `HeapRuns.MallocHonoursRequestIff` | include/aie/detail/device_allocator.hpp:174-195 | A successful malloc gives at least the requested size if and only if rounding it up does not wrap. |
| `HeapRuns.HugeRequestGetsNothing` | include/aie/detail/device_allocator.hpp:174-195 | A concrete request near 2^32 that gets a block of size 0. |
| `HeapRuns.ReallocHonoursRequestIff` | include/aie/detail/device_allocator.hpp:289-315 | A successful realloc gives at least the requested size if and only if rounding it up does not wrap. |
| `HeapRuns.ReallocKeepsBytesIff` | include/aie/detail/device_allocator.hpp:289-315 | A successful realloc has room for the first min(old, requested) bytes if and only if rounding up does not wrap, or there was nothing to keep, or the block is too small to be split. |
| `HeapRuns.HugeReallocDropsData` | include/aie/detail/device_allocator.hpp:289-305 | A concrete request near 2^32 that shrinks a live block of 64 bytes to nothing and puts a header on its data. |
| `HeapModel.AlignUpIs` | include/aie/detail/utils.hpp:99-102 | Rounding up to the alignment, and the wrap to 0 above 2^32 - 4. |
| `HeapModel.MallocSpec` | include/aie/detail/device_allocator.hpp:174-195 | Fails exactly when every free block has fewer bytes than the rounded-up size, and then changes nothing; otherwise adds one allocation with less than a header and a minimal block of excess, and changes no other. |
| `HeapModel.MallocIsFirstFit` | include/aie/detail/device_allocator.hpp:179-190 | The pointer returned is behind the header of the first free block with enough bytes, an exact fit included, and the size granted is the rounded-up size if 16 bytes or more are left over, and the whole block otherwise. |
| `HeapModel.MallocKeepsOk` | include/aie/detail/device_allocator.hpp:174-195 | Malloc keeps the block list well-formed and coalesced. |
| `HeapModel.FreeSpec` | include/aie/detail/device_allocator.hpp:327-340 | Free removes exactly one allocation and keeps the heap well-formed and coalesced. |
| `HeapModel.FreeCoalesces` | include/aie/detail/device_allocator.hpp:135-154 | After freeing and merging both ways no two neighbours are free. |
| `HeapModel.ReallocSpec` | include/aie/detail/device_allocator.hpp:289-315 | Success trades the allocation for one of the rounded-up size and less than a header and a minimal block more, at the same or a new address; failure leaves it live with at least its old size; no other allocation changes. |
| `HeapModel.ReallocInPlaceIff` | include/aie/detail/device_allocator.hpp:288-311 | Realloc returns the same pointer exactly when the block, together with a free block behind it, has more bytes than the size; then the size granted follows from these bytes alone. |
| `HeapModel.ReallocFailsIff` | include/aie/detail/device_allocator.hpp:296-311 | Fails exactly when the block, together with a free block behind it, has no more bytes than the size, and no free block has it. After a failure nothing has changed, except that a block that reaches the size exactly with the free block behind it has taken that block. |
| `HeapModel.ReallocKeepsOk` | include/aie/detail/device_allocator.hpp:289-315 | Realloc keeps the block list well-formed and coalesced, whichever of its three ways it takes. |
| `HeapMemory.LinksAreInverse` | include/aie/detail/device_allocator.hpp:94-106 | In memory, exactly the final block has is_last, following next and then prev returns to the block and the other way round, and the first block has no predecessor. |
| `HeapMemory.MemoryDeterminesBlocks` | include/aie/detail/device_allocator.hpp:27-38 | The words in memory determine the block list. |
| `HeapMemory.PackInjective` | include/aie/detail/device_allocator.hpp:31-38 | The bit-field word determines its four fields. |
| `HeapMemory.HeaderWords` | include/aie/detail/device_allocator.hpp:31-38 | The size is in the low 29 bits, then in_use, is_last and is_host_allocated. |
| `HeapMemory.SplitRepresents` | include/aie/detail/device_allocator.hpp:116-133 | The header words written by split represent the split block list. |
| `HeapMemory.MergeRepresents` | include/aie/detail/device_allocator.hpp:137-145 | The header words written by a merge represent the merged block list. |
| `HeapMemory.WriteInsideKeeps` | include/aie/detail/device_allocator.hpp:83-87 | Writing inside one allocation disturbs no header and no other allocation. |
| `HeapAllocator.Tile.constructor` | include/aie/detail/device_allocator.hpp:209-221 | One free block over the whole heap. |
| `HeapAllocator.Tile.SplitInPlace` | include/aie/detail/device_allocator.hpp:116-133 | On memory words: splits the block, including the back link of the block behind, and changes no payload word. |
| `HeapAllocator.Tile.CorrectNext` | include/aie/detail/device_allocator.hpp:110-113 | Stores the back link of the following block if there is one. |
| `HeapAllocator.Tile.TryMergeNext` | include/aie/detail/device_allocator.hpp:137-145 | On memory words: merges with a free successor, and changes no payload word. |
| `HeapAllocator.Tile.TryMalloc` | include/aie/detail/device_allocator.hpp:174-195 | The in-place list walk is the abstract first-fit malloc, no live allocation changes a byte, and is_host_allocated of every block stays what it was. |
| `HeapAllocator.Tile.Free` | include/aie/detail/device_allocator.hpp:327-340 | Is the abstract free; no other allocation changes a byte. |
| `HeapAllocator.Tile.HostSplit` | include/aie/detail/device_allocator.hpp:48-74 | Works on a loaded header copy; together with the final store it writes the same words as the device split. |
| `HeapAllocator.Tile.HostTryMalloc` | include/aie/detail/device_allocator.hpp:224-252 | The host walk over loaded and stored copies is the same abstract malloc, and sets is_host_allocated of the block. |
| `HeapAllocator.HostAgreesWithDevice` | include/aie/detail/device_allocator.hpp:174-252 | From equal block lists equal requests return the same offset and leave equal block lists. |
| `HeapAllocator.Tile.CopyWords` | include/aie/detail/device_allocator.hpp:312-312 | The copy moves the words and touches nothing outside its destination. |
| `HeapAllocator.Tile.MoveBlock` | include/aie/detail/device_allocator.hpp:307-314 | The fallback copies the whole old block into the new one, or fails and keeps it. |
| `HeapAllocator.Tile.TryRealloc` | include/aie/detail/device_allocator.hpp:289-315 | Is the abstract realloc; the first min(old, granted) bytes are kept, hence the first min(old, requested) unless rounding up wraps; a failure keeps all of them, and the other allocations keep theirs. |
| `HeapAllocator.Tile.UserStore` | include/aie/detail/device_allocator.hpp:83-87 | A store by the owner of an allocation keeps the heap valid and the other allocations unchanged. |
| `HeapAllocator.Tile.HasLeak` | include/aie/detail/device_allocator.hpp:359-371 | The walk of assert_no_leak reports a leak exactly when some block in use has is_host_allocated clear. |
| `HeapAllocator.LeaksAfterMalloc` | include/aie/detail/device_allocator.hpp:174-195 | After a malloc that keeps the flags, a leak is reported exactly when one was before, or the new block had its flag clear while it was free. |
| `HeapAllocator.NewLeakIsSeenIff` | include/aie/detail/device_allocator.hpp:359-371 | With no leak before, the check sees a new device allocation that is never freed if and only if bit 31 of its header word was clear before the allocation. |
| `HeapAllocator.FirstLeakIsNotSeen` | include/aie/detail/device_allocator.hpp:206-221 | On a fresh heap, whatever the memory held, the first allocation of the device is never seen. |
| `TaskExact.AlwaysSerialIff` | include/triSYCL/command_group/detail/task.hpp:83-204 | All schedules of given command groups behave as the serial execution, for all kernels and contents over the integers, if and only if every later writer of a buffer that a command group only reads is reached from the reader by producer links. |
| `TaskExact.AlwaysAfterIffReaches` | include/triSYCL/command_group/detail/task.hpp:185-203 | A later task always runs after an earlier one if and only if producer links lead from the one to the other. |
| `TaskExact.ReaderThenWriterIsUnordered` | include/triSYCL/command_group/detail/task.hpp:185-203 | A reader followed by a writer of the same buffer: nothing orders them. |
| `TaskExact.UnorderedIsNotSerial` | include/triSYCL/command_group/detail/task.hpp:185-203 | For every pair of command groups that violates the condition there are kernels and a schedule that is not serial. |
| `TaskExact.SameContentsIff` | include/triSYCL/command_group/detail/task.hpp:83-204 | All schedules end with the buffer contents of the serial execution, for all kernels and contents over the integers, if and only if the condition holds of the readers that write some buffer. |
| `TaskExact.UnorderedChangesContents` | include/triSYCL/command_group/detail/task.hpp:185-203 | For every violating pair whose reader writes a buffer there are kernels and a schedule that ends with other contents than the serial execution. |
| `TaskSerial.EveryInterleavingIsSerial` | include/triSYCL/command_group/detail/task.hpp:83-136 | Under that condition, once all kernels are over each took the steps of the serial execution and the buffers hold what it leaves, for any kernels over any values. |
| `TaskSerial.ContentsAreSerial` | include/triSYCL/command_group/detail/task.hpp:83-136 | If the readers that write something reach the later writers of what they read, the buffers end with the contents of the serial execution, for any kernels over any values. |
| `TaskSerial.WritersRunSerially` | include/triSYCL/command_group/detail/task.hpp:83-136 | Then every task that writes took the steps of its serial turn. |
| `TaskSerial.InterleavingsAgree` | include/triSYCL/command_group/detail/task.hpp:83-136 | Two schedules of the same command groups then end with the same buffer contents. |
| `TaskSerial.SerialRunIsUnique` | include/triSYCL/command_group/detail/task.hpp:83-136 | There is one serial execution only. |
| `TaskSerial.StepIsSerial` | include/triSYCL/command_group/detail/task.hpp:87-102 | A kernel step of an independent task commutes into its place in submission order. |
| `TaskSerial.RunKeepsMem` | include/triSYCL/command_group/detail/task.hpp:83-136 | At every moment the memory is that of a serial execution cut off inside each kernel. |
| `TaskOrder.StepKeepsGraph` | include/triSYCL/command_group/detail/task.hpp:83-204 | Every step keeps: producers point to earlier submissions, the last writer of each registered buffer is a producer or has ended, a started task has only ended producers. |
| `TaskOrder.RunKeepsGraph` | include/triSYCL/command_group/detail/task.hpp:83-204 | The same over whole runs. |
| `TaskOrder.StartsAfterWriters` | include/triSYCL/command_group/detail/task.hpp:176-204 | A started task that uses a buffer runs after all earlier writers of it, so the writers of a buffer run in submission order without overlap. |
| `TaskOrder.StartsAfterAncestors` | include/triSYCL/command_group/detail/task.hpp:129-136 | A started task runs after every task from which producer links lead to it. |
| `TaskOrder.SomeTaskCanStep` | include/triSYCL/command_group/detail/task.hpp:87-136 | The oldest unfinished task can always step: no deadlock. |
| `TaskCounts.WaitsAreRight` | include/triSYCL/buffer/detail/buffer_base.hpp:99-126 | In every run the use count of a buffer and the kernel count of the queue equal the unreleased registrations and the unfinished kernels, so a buffer wait or a queue wait returns only when they are over. |
| `TaskCounts.StepKeepsCounts` | include/triSYCL/queue/detail/queue.hpp:42-77 | Every step keeps both counts exact, so neither decrement passes below zero. |
| `Tasks.Task.AddBuffer` | include/triSYCL/command_group/detail/task.hpp:176-204 | Registration on the objects is the registration of the model. |
| `Tasks.Task.ReleaseBuffers` | include/triSYCL/command_group/detail/task.hpp:140-145 | Every registration is given back once, also when one buffer was registered twice. |
| `Tasks.Task.Schedule` | include/triSYCL/command_group/detail/task.hpp:103-108 | The queue counts the kernel before its thread starts; the objects stay coupled to the model. |
| `Tasks.Task.WaitForProducers` | include/triSYCL/command_group/detail/task.hpp:130-136 | Once every producer has ended, the model allows the task to begin. |
| `Tasks.Task.RunKernel` | include/triSYCL/command_group/detail/task.hpp:92-93 | The kernel, run to its end on the buffer contents, computes what the model says. |
| `Tasks.Task.Execute` | include/triSYCL/command_group/detail/task.hpp:87-102 | The thread goes through the steps of the model in their order, coupled to it throughout: wait, kernel, release of every registration, release of the consumers, report to the queue. |
| `Tasks.ThreadIsModelRun` | include/triSYCL/command_group/detail/task.hpp:87-102 | That sequence is a run of the model from any state where the task may begin, and finishes the task with the memory its kernel computes. |
| `Tasks.Buffer.Release` | include/triSYCL/buffer/detail/buffer_base.hpp:117-126 | Waiters are notified exactly when the count reaches zero. |
| `Tasks.Buffer.SetLatestProducer` | include/triSYCL/buffer/detail/buffer_base.hpp:140-148 | Swaps in the new producer and returns the previous one unless it is gone. |
| `Tasks.Queue.KernelEnd` | include/triSYCL/queue/detail/queue.hpp:61-77 | Waiters are notified exactly when the count reaches zero. |
| `Coherence.AccessSeesLastWrites` | include/triSYCL/buffer/detail/buffer_base.hpp:190-308 | After any sequence of accesses in any contexts and modes and host synchronisations, an access in mode read, write, read_write or atomic sees, in its context, the last value written to every element that a discard has not made undefined. |
| `Coherence.StepRefines` | include/triSYCL/buffer/detail/buffer_base.hpp:208-308 | Each access or synchronisation refines one step of a single memory. |
| `Coherence.RunRefines` | include/triSYCL/buffer/detail/buffer_base.hpp:208-308 | The same over whole runs. |
| `Coherence.UpdateSpec` | include/triSYCL/buffer/detail/buffer_base.hpp:208-308 | After the update the target is fresh and cached, is the only fresh context unless the mode is read, and in the modes read, write, read_write and atomic shows what the fresh copies held; the two discarding modes transfer nothing. |
| `Coherence.ReadUpdateSpec` | include/triSYCL/buffer/detail/buffer_base.hpp:221-251 | A read shows what the fresh copies held, keeps all fresh contexts fresh and adds the target; it changes nothing if the target was fresh. |
| `Coherence.WriteUpdateSpec` | include/triSYCL/buffer/detail/buffer_base.hpp:262-307 | Any other mode leaves exactly the target fresh, with the old content in the modes write, read_write and atomic, and without a transfer in the discarding ones. |
| `Coherence.WriteKeepsUntouched` | include/triSYCL/buffer/detail/buffer_base.hpp:262-307 | After an access in mode write, read_write or atomic, every element that was not written is what the fresh copies held, and every written one is the value written. |
| `Coherence.SyncKeepsInv` | include/triSYCL/buffer/detail/buffer_base.hpp:190-201 | The host gets the common content of the fresh contexts and becomes fresh. |
| `Coherence.SourceIsADevice` | include/triSYCL/buffer/detail/buffer_base.hpp:192-198 | sync_with_host never picks the host as its source, and its source is cached. |
| `Coherence.PickDoesNotMatter` | include/triSYCL/buffer/detail/buffer_base.hpp:196-198 | The result does not depend on which fresh context comes first in the unordered set. |
| `Coherence.Buffer.constructor` | include/triSYCL/buffer/detail/buffer_base.hpp:86-87 | Only the host is fresh at first. |
| `Coherence.Buffer.SyncHost` | include/triSYCL/buffer/detail/buffer_base.hpp:190-201 | The method is the synchronisation step, whichever fresh context is picked. |
| `Coherence.Buffer.UpdateBufferState` | include/triSYCL/buffer/detail/buffer_base.hpp:208-308 | The method is the update step for every mode. |
| `ChainBarrier.BarrierHolds` | include/aie/aie.hpp:293-317 | For any chain length and number of rounds no tile leaves round k before every tile has entered it; for several rounds the two closing releases run without a switch, for one round nothing is assumed. |
| `ChainBarrierExact.BarrierHoldsIff` | include/aie/aie.hpp:293-317 | The barrier is safe in every schedule if and only if the closing releases are not separated, or there is at most one round, or at most one tile. |
| `ChainBarrierExact.TokenIsLost` | include/aie/aie.hpp:309-316 | For every chain of two or more tiles and two or more rounds, a schedule that separates the two releases and breaks the barrier. |
| `ChainBarrier.StepKeepsInv` | include/aie/detail/emulation.hpp:57-72 | Every lock operation keeps neighbours in agreement on how often the token passed and came back. |
| `ChainBarrier.RunKeepsInv` | include/aie/detail/emulation.hpp:57-72 | The same over whole runs. |
| `ChainBarrier.InvIsSafe` | include/aie/aie.hpp:293-317 | That agreement along the chain implies the barrier property. |
| `ChainBarrier.OneSleeper` | include/aie/detail/emulation.hpp:70-71 | At most one fiber sleeps on each lock, so notify_one suffices. |
| `ChainBarrier.NoDeadlock` | include/aie/aie.hpp:293-317 | While a tile has rounds left, some tile that is no further ahead can step. |
| `ChainBarrier.AllRoundsEnd` | include/aie/aie.hpp:293-317 | Every run has at most twelve lock operations per tile and round, and a run that cannot go on has led every tile through all rounds. |
| `GridBarrier.WiringIsRightIff` | include/aie/detail/hardware.hpp:71-126 | The lock a tile uses towards its successor is the successor's own if and only if the barrier runs along the column or starts on the side that the row parity gives; full_barrier uses such directions. |
| `GridBarrier.OwnSide` | include/aie/detail/hardware.hpp:71-126 | Odd rows have their own memory to the west and start their barrier there, even rows to the east; the other side is the neighbour. |
| `GridBarrier.RowIndexFollowsWiring` | include/aie/aie.hpp:223-225 | The neighbours in the barrier directions make each row one chain. |
| `FullBarrier.ColumnIsWired` | include/aie/aie.hpp:417-420 | On the locks of the tiles, the lock that a tile reaches to the north is the own lock of the next tile of its column and of no other tile; both have the first lock id. |
| `FullBarrier.RowIsWired` | include/aie/aie.hpp:422-427 | With the direction that the row parity gives, the lock that a tile reaches onwards is the own lock of the next tile of its row and of no other tile; both have the second lock id. |
| `FullBarrier.MachineStepIsGridStep` | include/aie/aie.hpp:293-317 | Each lock operation of a tile, through its directions and the two lock ids, is a step of the chain it stands in and leaves all other chains alone. |
| `FullBarrier.SameWake` | include/aie/aie.hpp:293-317 | Every step of the chains is a lock operation of a tile. |
| `FullBarrier.FullBarrierHolds` | include/aie/aie.hpp:417-432 | For any grid and two different lock ids, a tile leaves full_barrier round k only after every tile of the grid has entered it, if the closing releases are not separated, or there is at most one round, or at most one tile. |
| `FullBarrierExact.FullBarrierHoldsIff` | include/aie/aie.hpp:417-432 | That condition is exact. |
| `FullBarrierExact.LostInColumns` | include/aie/aie.hpp:309-316 | In every grid with several rows, a schedule that loses the token of the second round in all columns. |
| `FullBarrierExact.LostInRow` | include/aie/aie.hpp:309-316 | In every single row of several tiles, a schedule that loses the token of the second round. |
| `FullBarrier.FullBarrierNeverSticks` | include/aie/aie.hpp:429-432 | While a tile has rounds left, some tile of the grid can do its next lock operation. |
| `FullBarrier.FullBarriersEnd` | include/aie/aie.hpp:429-432 | Every run has at most twenty-four lock operations per tile and round, and a run that cannot go on has led every tile through all full barriers. |
| `GridBarrier.LeftMeansAllEntered` | include/aie/aie.hpp:429-432 | The row barrier carries what the column barriers established to all columns. |
| `GridBarrier.GridStepKeepsInv` | include/aie/aie.hpp:429-432 | Every step keeps the column chains, the row chains and the turn from one to the other consistent. |
| `GridBarrier.GridNoDeadlock` | include/aie/aie.hpp:429-432 | While a tile has rounds left, some chain of the grid can step. |
| `ServiceProtocol.CountersStayClose` | include/aie/detail/sync.hpp:33-96 | In every run both counters are 32-bit values and the device counter is ahead of the host counter by 0 or 1 modulo 2^32. |
| `ServiceProtocol.HostReadsStableRecord` | include/aie/detail/host_only.hpp:129-137 | The host reads a record only between the two barriers of the device, and what it reads is what the device sent. |
| `ServiceProtocol.EachRequestServedOnce` | include/aie/detail/device_only.hpp:65-88 | The log holds each request of a tile once, in order; the tile gets exactly the results that the services computed from the requests in log order. |
| `ServiceProtocol.ChainedRequestsStayTogether` | include/aie/detail/host_only.hpp:127-157 | A chained request is followed in the log by the next request of the same tile. |
| `ServiceProtocol.ReturnsWhenAllDone` | include/aie/detail/host_only.hpp:116-160 | wait_all returns only when every tile has sent its done request. |
| `ServiceProtocol.ServedTileIsNotDone` | include/aie/detail/device_only.hpp:121-125 | A tile being served has not sent its done request before, so the counter counts tiles. |
| `ServiceProgress.ProgressIff` | include/aie/detail/host_only.hpp:123-160 | Before wait_all returns, a run can go on to its return or to a step that is not a failed poll if and only if it is not stuck: some tile can step, or the host is chained to a tile that waits for it, or it is not chained and some tile waits for it or all are done. Stuck means chained to a tile that is halted or held, or all tiles halted or held. |
| `ServiceProgress.StuckStaysStuck` | include/aie/detail/host_only.hpp:129-157 | In a stuck state only failed polls are left, for ever. |
| `ServiceProgress.Settle` | include/aie/detail/host_only.hpp:123-160 | From every state some run returns or settles where the host polls in vain, with any bounds on the requests the tiles start. |
| `ServiceExact.AlwaysCanReturnIff` | include/aie/detail/host_only.hpp:123-160 | For tiles that all finish and may wait for each other between requests: wait_all can return from every reachable state, whatever the services do, if and only if in every plausible configuration of results a tile with an open chain is not done and can send its next request at once, and, with all chains closed, some tile that is not done can send one. The condition speaks of the programs only, not of runs. |
| `ServiceExact.FineProgramsReturn` | include/aie/detail/host_only.hpp:123-160 | The condition suffices for services with any kind of state. |
| `ServiceExact.BadProgramsHang` | include/aie/detail/host_only.hpp:129-157 | For every configuration that violates it there are services under which a run reaches a state without return. |
| `ServiceExact.HeldChainNeverReturns` | include/aie/detail/host_only.hpp:129-157 | A host chained to a tile that is halted or held, when nobody has a result to pick up, never returns. |
| `ServiceExact.CircleNeverReturns` | include/aie/aie.hpp:417-431 | Nor does it when some tiles wait for each other in a circle. |
| `ServiceExact.WithoutWaitsIff` | include/aie/detail/service.hpp:139-142 | When no tile waits for another one, the condition is exactly that no done request is chained, as exit_kernel sends it. |
| `ServiceExact.LogThenBarrierHangs` | include/aie/detail/service.hpp:81-84 | Two tiles, one logs with log and both meet in a barrier: no done request is chained, and wait_all cannot always return. |
| `ServiceExact.LoglnThenBarrierReturns` | include/aie/detail/service.hpp:86-94 | With an unchained last piece, as logln sends it, the condition holds. |
| `ServiceExact.ChainerHangs` | include/aie/detail/host_only.hpp:129-157 | A concrete tile that chains its done request, with which wait_all cannot always return. |
| `ServiceProgress.EffectiveStepsAreBounded` | include/aie/detail/host_only.hpp:123-160 | Whatever the schedule, a run has only a bounded number of steps that are not failed polls, if every tile sends its done request after a bounded number of requests. |
| `ServiceProgress.SweepFindsWork` | include/aie/detail/host_only.hpp:123-160 | When no tile can step and the state is not stuck, at most two sweeps of polls bring the return or a step that is not a failed poll. |
| `ServiceProtocol.RunKeepsInv` | include/aie/detail/sync.hpp:33-96 | Every access to the shared memory keeps the protocol invariant. |
| `IndexSpace.NestEnumeratesRange` | include/triSYCL/parallelism/detail/parallelism.hpp:54-69 | For any rank the loop nest visits exactly the ids of the range, in strictly increasing lexicographic order, so each once. |
| `IndexSpace.Counter.Iterate` | include/triSYCL/parallelism/detail/parallelism.hpp:54-69 | The recursive loops that set the index in place make exactly those calls. |
| `IndexSpace.NestVisitsBox` | include/triSYCL/parallelism/detail/parallelism.hpp:54-69 | Inside given outer indices the inner loops visit exactly the ids that extend them. |
| `NdRange.NdRangeVisitsOnce` | include/triSYCL/parallelism/detail/parallelism.hpp:388-448 | The nd_range loops visit exactly the box of the group range times the local range, each global id once, each with the local id that belongs to it. |
| `NdRange.GroupsAreRightIff` | include/triSYCL/nd_range.hpp:64-70 | In size_t arithmetic the group count is the global size over the local size, rounded up, if and only if their sum does not exceed 2^64. |
| `NdRange.CoversGlobalIff` | include/triSYCL/nd_range.hpp:64-70 | The visited box covers the global range if and only if no such sum exceeds 2^64. |
| `NdRange.LargestRangeHasNoGroup` | include/triSYCL/nd_range.hpp:64-70 | A concrete range that gets no group at all. |
| `NdRange.RoundedIsGlobalIff` | include/triSYCL/nd_range.hpp:64-70 | The box is the global range if and only if, besides, the local sizes divide the global sizes. |
| `NdRange.GlobalIdDecomposes` | include/triSYCL/nd_item.hpp:127-131 | Group and local id can be computed back from the global id. |
| `NdRange.RoundedBoxIsGroups` | include/triSYCL/nd_range.hpp:64-70 | An id is in the visited box if and only if its group is in the group range. |
| `NdRange.CallsMatch` | include/triSYCL/nd_item.hpp:127-131 | In call k the group that get_group computes is the group the loops are in, number k / p of the group range, and the local id is item k % p, with p items in a group. |
| `NdRange.CallIds` | include/triSYCL/nd_item.hpp:127-131 | Dimension by dimension, each call has the group id and the local id that quotient and remainder of its global id by the local range give. |
| `NdRange.CallOfGroup` | include/triSYCL/parallelism/detail/parallelism.hpp:415-448 | Call g p + i has the ids made of group g and item i. |
| `NdRange.Launcher.ParallelFor` | include/triSYCL/parallelism/detail/parallelism.hpp:388-448 | The nested loops over groups and items, on two shared indices, make exactly those calls in order. |
| `NdRange.Launcher.IterateGroups` | include/triSYCL/parallelism/detail/parallelism.hpp:440-448 | The loops over the groups run every group once. |
| `NdRange.Launcher.IterateItems` | include/triSYCL/parallelism/detail/parallelism.hpp:414-438 | The loops over the items call the kernel with the reconstructed ids and leave the group alone. |
| `LinearId.ComputeLinearId` | include/triSYCL/detail/linear_id.hpp:26-37 | The wrapping Horner loop gives the mixed-radix value modulo 2^64, and exactly when the box has at most 2^64 ids. |
| `LinearId.LinearIdIsBijection` | include/triSYCL/detail/linear_id.hpp:26-37 | Linear ids map any offset box one-to-one onto 0..size-1. |
| `LinearId.UnlinearOfLinear` | include/triSYCL/detail/linear_id.hpp:26-37 | The id can be computed back from the linear id. |
| `LinearId.LinearOfUnlinear` | include/triSYCL/detail/linear_id.hpp:26-37 | Every number below the size is the linear id of an id of the box. |
| `LinearId.LinearBelowSize` | include/triSYCL/detail/linear_id.hpp:26-37 | Linear ids stay below the size. |
| `LinearId.DimensionZeroIsFastest` | include/triSYCL/detail/linear_id.hpp:26-37 | Raising index d by one raises the linear id by the product of the ranges before d, which is 1 for dimension 0. |
| `LinearId.OriginIsZero` | include/triSYCL/detail/linear_id.hpp:26-37 | The first id of the box has linear id 0. |
| `Stream.StreamRoundTrip` | include/aie/aie.hpp:361-407 | For any objects and any block size, reading back the same sizes recovers every object and consumes exactly the blocks written. |
| `Stream.ReaderGetsWriterObjects` | include/aie/aie.hpp:361-407 | However writer and reader interleave, once the reader has the blocks of n objects it has the writer's first n objects. |
| `Stream.ObjectRoundTrip` | include/aie/aie.hpp:259-289 | One object, whatever follows it in the stream. |
| `Stream.BlockCountIsTight` | include/aie/aie.hpp:266-271 | The number of blocks is the size over the block size, rounded up. |
| `Stream.BlockIs` | include/aie/aie.hpp:266-282 | Byte i of block k is byte k f + i of the object, and zero behind its end. |
| `Stream.Channel.WriteObject` | include/aie/aie.hpp:361-371 | The loop sends the blocks of the object, the last one padded with zeros; it reports leaving the object exactly when the unsigned guard overruns. |
| `Stream.Channel.ReadObject` | include/aie/aie.hpp:373-382 | The loop fills exactly the object and takes exactly its blocks, and in any case touches no byte outside the object before it reports leaving it. |
| `Stream.GuardOverrunsIff` | include/aie/aie.hpp:264-268 | The unsigned loop guard admits a block beyond the object if and only if the blocks that cover it reach 2^32. |
| `Stream.LargeObjectOverruns` | include/aie/aie.hpp:264-268 | The smallest such size for 16-byte blocks. |

## Left out

- Pipe: blocking calls are described from their wake-up on; circular-buffer iterators are absolute stream positions and deque iterators are reservation ids; the accessor flags for exclusive use are not kept by the code and not modelled.
- Heap: addresses are offsets in the tile, without base-address bits; memory is words of 4 bytes; bit-fields are laid out from the least significant bit.
- HeapAllocator.Tile.Free: the assertion against a double free is the precondition.
- Tasks.Task.Execute: describes the thread after its waits; preludes, postludes, exceptions and the synchronous mode without threads are not modelled.
- TaskExact.SameContentsIff: a reader that writes no buffer may still see other values than in the serial execution; TaskExact.AlwaysSerialIff covers that.
- Task graph: command groups are submitted one after another and launch one kernel each; a weak pointer to a producer may be dead once its task has finished.
- Coherence: one fixed host pointer, without the copy-on-write switch of host storage; transfers are atomic copies.
- ChainBarrier.BarrierHolds: assumes unseparated closing releases for several rounds of several tiles; ChainBarrierExact.BarrierHoldsIff shows that this is needed. Locks have the semantics of the emulation; the hardware locks that stay held are not modelled.
- FullBarrier.FullBarrierHolds: makes the same assumption, shown to be needed by FullBarrierExact.FullBarrierHoldsIff, and takes two different lock ids, as the defaults are.
- Services: exit codes that end the host process, and memory ordering of the bus, are not modelled; a void service returns an ignored value; a tile stops after its done request.
- ServiceExact.AlwaysCanReturnIff: between two requests a tile waits until each other tile has some number of results, as in a barrier; a wait for any one of several tiles is not modelled. Infinite fair schedules are not modelled; that wait_all returns in them is stated in finite terms by ServiceProgress.EffectiveStepsAreBounded and ServiceProgress.SweepFindsWork.
- ServiceProtocol.ChainedRequestsStayTogether: says nothing of what a tile must send; ServiceExact.AlwaysCanReturnIff does.
- NdRange.NdRangeVisitsOnce: the loop does not add the offset of the nd_range (include/triSYCL/parallelism/detail/parallelism.hpp:421), and neither does the model.
- Index spaces: the OpenMP variants, parallel_for_global_offset and the int accumulation of range::size.
- Stream.Channel.WriteObject: stops where the source would go on with bytes behind the object.
- Stream.Channel.ReadObject: describes the read once its blocks have arrived.
- OpenCL and Boost.Compute calls, AIE register access, ELF loading, graphics, logging, vectors, math wrappers and address-space types: foreign calls or easy members.
