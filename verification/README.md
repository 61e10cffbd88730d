# Verified model of the file-to-DMA pipeline and the bundled JSON library

A Dafny model of two parts of the program, with proofs that are checked by
`dafny verify dfyconfig.toml`.

**The pipeline.** A producer issues numbered block reads, workers complete them in any
order, a ring of `16 * io_request_num` slots puts them back in order, and a listener hands
each block to a DMA channel, which queues it without copying or copies it. Blocks cycle
through a pool. `Pipeline` is this as a transition system in which any thread may run next and
a step is one access to shared state, except that reading a filled slot and an operation of the
descriptor queue, its reset included, are one step each (`RingProtocol` splits the latter further);
`PipelineProofs` holds its invariant and what all runs guarantee, `PipelineProgress` what makes it
lose a request or stand still, and `StreamingReader` is the variant with one reading thread. The
queues, the pool, the slot ring and the channel are also classes over arrays (`ByteRing`,
`DescriptorRing`, `BufferPool`, `OrderedSlots`, `DmaChannel`), each with a sequence view that its
methods are specified by. `PipelineLinks` runs the classes' methods on objects that show a state of
the pipeline, and `RingProtocol` interleaves the small steps of both lock-free rings. `ShmRing`,
`OverlappedWrites`, `CompletionPort` and `ReadPlan` are the shared-memory record ring, the
overlapped-write ring, the completion-port reader, and the cutting of files into reads.

**The JSON library.** `WideProduct` (multi-word arithmetic), `IntegerText` and
`IntegerParsing` (printing and parsing of integers), `StringEscapes` (escapes of section 7 of
RFC 8259 and the unrolled scan for the closing quote), `ContainerMeta` (container metadata in
one pass, and the iterator over members), `TokenScopes` (bracket nesting and the two searches
that count one bracket kind), `SerializerOutput` (output through doubling buffers) and
`SerializerText` (the text that nested values come out as).

`Basics`, `Bits`, `Modular`, `RingIndex` and `Tiling` hold shared types and facts about bits,
remainders, ring positions and the cutting of files into blocks.

## Conventions

- Unsigned machine integers are natural numbers with every wrap written out (`% 2^32`,
  `% 2^64`), or a subset type whose values the verifier shows not to wrap (`WideProduct.U64`).
- Atomic variables are sequentially consistent. Answers of the kernel, the device and the
  allocator are parameters, or free choices of a step.
- Loops that wait for another thread (`Acquire`, the issue guard, the capacity wait) are steps
  that are enabled only when the wait is over.
- Methods that stand for one turn of a thread take the answers of that turn as arguments.

## Where the code does not do what one would expect

Each is stated for all inputs, with the exact condition.

- A producer that reaches the issue guard after everything was delivered waits there until a
  stop is requested (`GuardBlocks`, `DrainedProducerStalls`, `StallIsReachable`).
- A read that fails or returns nothing leaves a hole in the ring: nothing behind it is ever
  delivered (`FailedReadEndsDelivery`). Before a stop the threads can come to rest in two ways, with
  all delivered or at such a hole (`StuckIff`, `StuckBehindFailedRead`).
- `SPSCMemoryQueue::Init` leaves a ring of size zero for requests above 2^31
  (`SPSCMemoryQueue.Init`).
- `AlignedBufferPool::Release` puts an already free block on the list a second time
  (`AlignedBufferPool.Release`).
- The streaming reader hands its own buffer to the ordering ring, and then frees it, if the pool
  answers an acquire with a stop and the read that follows returns data (`OnlyPoolBlocksIff`,
  `OwnStoreSucceeds`); the listener can be called with it afterwards
  (`FreedBufferIsReachable`).
- A stop of the DMA channel loses the block of a descriptor that is sent after the drain found the
  queue empty and before it resets the queue (`BlockConservation`, `ForgottenIff`,
  `LossIsReachable`). The program ends the output thread first, which avoids it
  (`NothingLostInOrder`). A reset that overlaps a put brings descriptors already taken back
  (`ResetUnderPut`).
- `DmaChannelLinux::Reset` forgets queued blocks without releasing them
  (`DmaChannelLinux.Reset`).
- A record of length 0 or above `slot_size - 4` blocks the shared-memory ring for good
  (`BadLengthBlocks`), and so does the 2^64-th commit (`PeekFindsUntilWrap`, `WrapEndsTheRing`,
  `WrapIsReachable`). If 2^64 leaves a remainder of 2 or more by `slot_count`, a record being
  read at that moment can be overwritten (`TakenInOrder`, `TornPayloadIsReachable`). An advance
  on an empty ring makes the consumer skip a record (`EmptyAdvanceSkips`).
- Every empty file costs the completion-port reader one of the reads it keeps in flight, of which
  it starts no more than the first file has blocks (`CompletionPort.InFlight`). If none is left
  the reader stalls with files unread (`StallsIff`, `ExitsIff`, `CompletionPort.StallIsReachable`;
  `LoopsForEverIff` when looping). Empty files stay in the handle table until the reader ends
  (`CompletionPort.AllRead`).
- A decimal is read as its whole part only if its digits, with those of the fraction, fit the
  type, or the whole part is zero (`ReadsWholePart`; 25.55 is read as 2 in 8 bits,
  `FractionSpoilsWhole`), and only while the 8-bit digit count does not wrap in the fraction
  (`ShiftIff`; 0.00...07 with 256 fraction digits is read as 7, `LongFractionIsWhole`).
- The least 32- and 64-bit integers do not survive printing and parsing without overflow
  (`IntegerParsing.RoundTrip`). A zero with an exponent as large as the digit count is read as
  the limit of the type (`ZeroWithExponent`); a value above the range with no more digits than
  the range wraps instead of saturating, but for two coincidences (`ExponentClamps`,
  `ScientificClamps`, with 99e1 in 8 bits as an instance in `WrapsInsteadOfSaturating`).
- `\uXXXX` at or above 0x800 is not decoded to UTF-8 (`HexBytesAreUtf8`), and control
  characters without a short escape are written raw (`EscapeRemovesControls`).
- A scope whose own bracket kind nests 65535 deep or more ends too early
  (`GoToEndOfScope`, `ScopeDepthSuffices`); a document nested 256 deep or more loses closing
  brackets (`DocumentIsWhole`).
- Ready-made literals ignore `setStyle(Compact)` and `skipDelimiter` (`LiteralIsFront`,
  `LayoutAsAsked`).

## Model

| member | source | states |
|---|---|---|
| PipelineProofs.DeliveredInOrder | common/InOutputData/InputDataFromFileUsePOSIX.cpp:508-534 | In every interleaving of the producer, any number of workers, the output thread and the DMA worker, the listener is called for requests 0, 1, 2, ... in order, once each, and sees the bytes that were read for that request. |
| PipelineProofs.OutstandingFitRing | common/InOutputData/InputDataFromFileUsePOSIX.cpp:513-527 | Requests past the issue guard and not yet delivered span at most 16 * io_request_num, so any two of them have different slots. |
| PipelineProofs.GuardWindow | common/InOutputData/InputDataFromFileUsePOSIX.cpp:521-527 | The test `slot != next output slot` lets request r through exactly when 0 < r - delivered < total slots. |
| PipelineProofs.SlotIsEmpty | common/InOutputData/OrderedDataProcessor.cpp:156-165 | A worker that has data for a request finds its slot empty: ProcessData never meets an occupied slot. |
| PipelineProofs.BlockConservation | common/utils/AlignedBufferPool.cpp:66-112 | In every reachable state each pool block is in exactly one of: free list, reader, slot, listener, descriptor queue, DMA write, lost; and it is lost if and only if a descriptor of it was sent after the channel, draining its queue at a stop, had found the queue empty, and before it reset the queue. |
| PipelineProofs.DoomedIff | pcie/DmaChannelLinux.cpp:571-579 | At every moment of every run a descriptor is forgotten, or will be by the reset that is due, exactly if it was sent after an empty look of the drain and before the reset. |
| PipelineProofs.ForgottenIff | pcie/DmaChannelLinux.cpp:571-579 | The descriptors that resets have discarded are exactly those sent between an empty look and the reset that followed it. |
| PipelineProofs.NothingLostInOrder | src/mainwindow.cpp:436-444 | Stopped in the order of the program, where the output thread has ended before the channel drains, no block is ever lost. |
| PipelineProofs.LossIsReachable | pcie/DmaChannelLinux.cpp:215-227 | Otherwise one can be: from any fresh start with a worker there is a run in which a stop of the channel during the first send loses that block. |
| PipelineProofs.FreeListDistinct | common/utils/AlignedBufferPool.cpp:99-112 | The free list never holds a block twice, so an acquired block is released at most once. |
| PipelineProofs.DeviceSeesSentData | pcie/DmaChannelLinux.cpp:389-440 | What the device got by descriptor is a prefix of what was sent by descriptor, in order, with the contents the block had when it was sent. |
| PipelineProofs.DroppedOnlyAfterQuit | src/mainwindow.cpp:455-470 | No run drops a block as long as the listener was not told to give up: a delivery is logged as dropped only after that. |
| PipelineProofs.RetriedUntilQuit | src/mainwindow.cpp:461-468 | Until then a call that Send refused is always tried again: the listener returns only with the block sent. |
| PipelineProofs.NotRetriedAfterQuit | src/mainwindow.cpp:465-468 | From then on a refused call is not tried again: the listener stands still or has returned with the block dropped. |
| PipelineProofs.PathExplained | pcie/DmaChannelLinux.cpp:274-313 | A block goes by descriptor only while the queue has room and by copy only while it has none, in a call during which the channel ran; it is dropped only after a call during which the channel did not run or the queue was full. |
| PipelineProofs.DescriptorsFit | pcie/SPSCDescriptorQueue.cpp:38-50 | In every run there are never more descriptors queued than the queue holds. |
| PipelineProofs.DescriptorLogIncreasing | pcie/DmaChannelLinux.cpp:281-313 | Requests sent by descriptor have strictly increasing indices, although copied ones are left out. |
| PipelineProofs.TasksBounded | common/InOutputData/InputDataFromFileUsePOSIX.cpp:441-448 | pending_tasks_ equals the queued plus the in-progress reads and never exceeds the soft limit, also when workers stop or fail. |
| PipelineProofs.StepInv | common/InOutputData/InputDataFromFileUsePOSIX.cpp:818-960 | Every single step of every thread keeps the whole invariant: counting, slot contents, ownership, descriptor log, bound. |
| PipelineProofs.RunInv | common/InOutputData/InputDataFromFileUsePOSIX.cpp:377-557 | The invariant holds in every state of every run from a fresh start. |
| PipelineProofs.GuardBlocks | common/InOutputData/InputDataFromFileUsePOSIX.cpp:521-527 | A request waits at the guard exactly when it is one full lap ahead or when everything before it has been delivered. |
| PipelineProofs.DrainedProducerStalls | common/InOutputData/InputDataFromFileUsePOSIX.cpp:521-527 | In the second of these cases it waits for ever: in every continuation without a stop request nothing more is issued or delivered. |
| PipelineProofs.StallIsReachable | common/InOutputData/InputDataFromFileUsePOSIX.cpp:508-534 | That case does occur: from any fresh start with a worker there is a run that delivers one block and then stalls. |
| PipelineProgress.StuckIff | common/InOutputData/InputDataFromFileUsePOSIX.cpp:508-557 | In any state of any run no thread can make a step if and only if, before a stop, every worker waits for a task and there is none, the channel has nothing to write, the next block is not there, and the producer is through or at the guard with the request that is next or a full lap ahead; and after a stop, every thread has ended or has nothing to do. So the threads never all wait for a block, or for the channel. |
| PipelineProgress.StuckBehindFailedRead | common/InOutputData/InputDataFromFileUsePOSIX.cpp:905-941 | Where a run stands still before a stop, all that was put on the read queue has been delivered if and only if the read for the next block to be delivered has not failed. |
| PipelineProgress.FailedReadEndsDelivery | common/InOutputData/InputDataFromFileUsePOSIX.cpp:905-941 | A failed read leaves its slot empty: in no continuation is that request, or any behind it, ever delivered. |
| PipelineProgress.LostOnlyByFailedRead | common/InOutputData/InputDataFromFileUsePOSIX.cpp:883-941 | Until a stop is requested a request is lost only if its read has failed. |
| PipelineProgress.NobodyLeaves | common/InOutputData/InputDataFromFileUsePOSIX.cpp:836-890 | Until then the producer abandons no request, and no worker nor the output thread ends. |
| PipelineProgress.NoBlockAfterStop | common/utils/AlignedBufferPool.cpp:70-85 | After it no worker takes another block from the pool. |
| PipelineProgress.DeliveredHaveBytes | common/InOutputData/InputDataFromFileUsePOSIX.cpp:913-937 | The listener is never called with an empty block. |
| PipelineProgress.RunsUntilFailure | pcie/DmaChannelLinux.cpp:403-408 | The channel runs until a write to the device has failed or it was stopped, and then no longer than it takes to say so. |
| PipelineProgress.NothingWrittenAfter | pcie/DmaChannelLinux.cpp:403-408 | Behind a failed write nothing more is written. |
| Pipeline.SlotIndexIsMod | common/InOutputData/InputDataFromFileUsePOSIX.cpp:515-516 | The slot of a request is its index modulo the number of slots. |
| PipelineLinks.PutIsSendDescriptor | pcie/SPSCDescriptorQueue.cpp:38-50 | On a descriptor queue that holds what the pipeline state holds, PutDescriptor succeeds exactly when the pipeline can send by descriptor, and leaves what the state after that step holds. |
| PipelineLinks.GetIsDmaTake | pcie/SPSCDescriptorQueue.cpp:52-62 | GetDescriptor succeeds exactly when the pipeline worker can take a descriptor; it gives the block and length of that step and leaves what the state after it holds. |
| PipelineLinks.AcquireIsAcquireBlock | common/utils/AlignedBufferPool.cpp:91-96 | On a pool with the free list of the state, Acquire gives a block exactly when the pipeline gives one to that worker, the same block, and leaves the same free list. |
| PipelineLinks.ReleaseIsGivenBack | common/utils/AlignedBufferPool.cpp:99-112 | Release of the block that a worker, the listener, the channel or the drain gives back leaves the free list of the state after that step. |
| PipelineLinks.FreeListMoves | common/utils/AlignedBufferPool.cpp:99-112 | Among all steps of all threads only these releases and an acquire change the free list. |
| PipelineLinks.ProcessDataIsStore | common/InOutputData/OrderedDataProcessor.cpp:156-207 | On a slot ring that shows the state, ProcessData accepts the block of a worker with data, and then shows the state after the three steps in which the worker checks, fills and marks its slot. |
| PipelineLinks.RoundIsDelivery | common/InOutputData/OrderedDataProcessor.cpp:231-302 | A round of the output thread calls the listener with the block and length that the pipeline takes from the slot, and then shows the state after clear and advance. |
| StreamingReader.StreamIsRun | common/InOutputData/InputDataFromFileUsePOSIX.cpp:644-793 | Every run of the streaming reader, with the stop seen where its loop looks at it, is a run of the pipeline that stands still while the loop is busy with its own buffer; so all that holds in every run of the pipeline holds here. |
| StreamingReader.OneThingAtATime | common/InOutputData/InputDataFromFileUsePOSIX.cpp:644-815 | In every streaming run the loop claims a request only with none in hand, has at most one on its way to be read, and leaves a request without a block of the pool only behind an acquire refused because of a stop; its buffer is freed last, and while the listener has it the output thread does nothing else. |
| StreamingReader.StreamKeepsPipeline | common/InOutputData/InputDataFromFileUsePOSIX.cpp:644-793 | In particular, in every interleaving the blocks of the pool are delivered in order with what was read for them, the device gets what was sent, and each block is in exactly one place, lost under the same exact condition. |
| StreamingReader.OnlyPoolBlocksIff | common/InOutputData/InputDataFromFileUsePOSIX.cpp:678-722 | Slots and listener get the buffer of the loop itself, in place of a pool block, exactly when a read into it returned data, and it is used exactly when an acquire was answered by the stop. |
| StreamingReader.OwnStoreSucceeds | common/InOutputData/InputDataFromFileUsePOSIX.cpp:741-762 | After such a read the slot is always empty, so the buffer always ends in it. |
| StreamingReader.FreedBufferIsReachable | common/InOutputData/InputDataFromFileUsePOSIX.cpp:800-816 | From any fresh start there is a run in which the listener is called with that buffer after the loop has freed it. |
| OrderedSlots.COrderedDataProcessor.Initialize | common/InOutputData/OrderedDataProcessor.cpp:19-61 | Usable exactly when all allocations succeed and the slot count, 16 * io_request_num in 32 bits, is not zero; the ring is then empty, and the count is exact below 2^28 requests. |
| OrderedSlots.COrderedDataProcessor.Reset | common/InOutputData/OrderedDataProcessor.cpp:75-88 | Every slot empty and the output slot back at 0. |
| OrderedSlots.COrderedDataProcessor.ProcessData | common/InOutputData/OrderedDataProcessor.cpp:156-207 | Accepts a block exactly when its slot is empty, its buffer is not null and it fits (buffer capacity or block size by mode); then that slot, and no other, holds it. |
| OrderedSlots.COrderedDataProcessor.TryProcessNextSlots | common/InOutputData/OrderedDataProcessor.cpp:231-302 | Hands the filled front of the ring to the listener in ring order, skips entries without a buffer, frees exactly those slots; an exception in the listener keeps its slot filled. |
| OrderedSlots.DeliversInRequestOrder | common/InOutputData/OrderedDataProcessor.cpp:156-302 | For any window of blocks arriving in any order, with any of them missing, the listener gets the longest complete prefix in request order. |
| OrderedSlots.Front | common/InOutputData/OrderedDataProcessor.cpp:235-243 | The longest filled stretch from the output slot on, at most as many as the rounds allowed. |
| ByteRing.IsPowerOfTwo | pcie/SPSCMemoryQueue.cpp:6 | The mask test is true exactly for powers of two. |
| ByteRing.NextPowerOfTwo | pcie/SPSCMemoryQueue.cpp:7-16 | The least power of two at or above v for v up to 2^31, and 0 for every larger v. |
| ByteRing.SmearRounds | pcie/SPSCMemoryQueue.cpp:9-15 | Five OR-shifts fill all bits below the highest, for every 32-bit value. |
| ByteRing.SPSCMemoryQueue.Init | pcie/SPSCMemoryQueue.cpp:27-56 | The ring is usable exactly for requests up to 2^31; then it is empty and its size is the least power of two that suffices. |
| ByteRing.SPSCMemoryQueue.Put | pcie/SPSCMemoryQueue.cpp:64-84 | Appends as much of the data as fits, for all index values including wrapped ones. |
| ByteRing.SPSCMemoryQueue.PutFixedLength | pcie/SPSCMemoryQueue.cpp:86-108 | Appends all of the data if it fits, and otherwise changes nothing. |
| ByteRing.SPSCMemoryQueue.Get | pcie/SPSCMemoryQueue.cpp:110-130 | Takes the oldest bytes, as many as asked for or available, into the buffer and nothing beyond them. |
| ByteRing.SPSCMemoryQueue.GetFixedLength | pcie/SPSCMemoryQueue.cpp:132-153 | Takes exactly the bytes asked for, or nothing. |
| ByteRing.SPSCMemoryQueue.GetDataSize | pcie/SPSCMemoryQueue.cpp:163-169 | The number of bytes put and not yet taken. |
| ByteRing.SPSCMemoryQueue.IsEmpty | pcie/SPSCMemoryQueue.cpp:155-161 | Equal indices mean an empty queue and nothing else. |
| ByteRing.PiecesAppended | pcie/SPSCMemoryQueue.cpp:73-81 | The two copies, to the end of the buffer and from its start, append the data to what a reader of the ring sees. |
| RingProtocol.NoOverwrite | pcie/SPSCMemoryQueue.cpp:64-108 | With the put split into load, copy and store, a producer using a stale get index never writes a byte that the consumer may still read. |
| RingProtocol.StepInv | pcie/SPSCMemoryQueue.cpp:64-153 | Every step of either side keeps the invariant between the wrapped indices, the buffer and the two histories; split into load, copies and store, a put and a get act on the queue as one step, at their store. |
| RingProtocol.ResetUnderPut | pcie/SPSCDescriptorQueue.cpp:33-50 | If both indices are reset while a put is between its load and its store, the queue afterwards seems to hold all that was ever put, and shows just the new entries only if the earlier ones make whole rounds of the index. |
| RingProtocol.LoadsSettle | pcie/SPSCDescriptorQueue.cpp:38-62 | How much a put or get moves is settled when it loads the indices, and is what there is room for, or what there is, at that moment; the descriptor queue is the case of one entry at a time. |
| RingProtocol.ConsumedIsPrefix | pcie/SPSCMemoryQueue.cpp:64-153 | In every interleaving, after any number of wraps of the 32- or 64-bit indices, what was taken is a prefix of what was put, at most a ring behind; for the byte queue and the descriptor queue. |
| RingProtocol.ContentsAreOutstanding | pcie/SPSCMemoryQueue.cpp:163-169 | In every reachable state what the class calls its contents is what was put and not yet taken. |
| RingProtocol.Backlog | pcie/SPSCMemoryQueue.cpp:69-71 | The wrapped index difference is the true number of bytes outstanding. |
| RingIndex.PositionIsMod | pcie/SPSCMemoryQueue.cpp:74-76 | Masking with size - 1 is the remainder modulo size, and the size divides both word widths. |
| RingIndex.PositionWraps | pcie/SPSCMemoryQueue.cpp:81 | Reducing an index to its word width never moves it in the ring. |
| RingIndex.Appended | pcie/SPSCMemoryQueue.cpp:73-81 | Writing the positions behind the contents appends to what a reader sees. |
| RingIndex.Dropped | pcie/SPSCMemoryQueue.cpp:119-127 | Advancing the reader index drops the oldest entries. |
| DescriptorRing.SPSCDescriptorQueue.Init | pcie/SPSCDescriptorQueue.cpp:14-31 | Terminates with a power-of-two capacity in [m, 2m) for m = max(1, hint / 64), empty. |
| DescriptorRing.SPSCDescriptorQueue.PutDescriptor | pcie/SPSCDescriptorQueue.cpp:38-50 | Appends the descriptor exactly when fewer than capacity are in the ring. |
| DescriptorRing.SPSCDescriptorQueue.GetDescriptor | pcie/SPSCDescriptorQueue.cpp:52-62 | Takes the oldest descriptor, or answers that there is none. |
| DescriptorRing.SPSCDescriptorQueue.GetDataSize | pcie/SPSCDescriptorQueue.cpp:70-74 | The count; its truncation to 32 bits loses nothing. |
| DescriptorRing.OnePut | pcie/SPSCDescriptorQueue.cpp:45-48 | Storing at the put position and publishing the index appends one entry, also where the 64-bit index wraps. |
| BufferPool.AlignedBufferPool.Initialize | common/utils/AlignedBufferPool.cpp:11-50 | All blocks free and distinct, or, if any allocation fails or a size is zero, an empty uninitialised pool. |
| BufferPool.AlignedBufferPool.Reset | common/utils/AlignedBufferPool.cpp:52-64 | Every block is free again, whoever holds it; nothing happens on an uninitialised pool. |
| BufferPool.AlignedBufferPool.Acquire | common/utils/AlignedBufferPool.cpp:66-97 | Gives the block freed last exactly when neither shutdown nor stop is set and one is free; the block leaves the free set. |
| BufferPool.AlignedBufferPool.Release | common/utils/AlignedBufferPool.cpp:99-112 | Puts back any block of the table; the free list stays free of duplicates exactly when the block was not already free. |
| BufferPool.AlignedBufferPool.Owns | common/utils/AlignedBufferPool.cpp:114-120 | True exactly for the addresses of the table. |
| BufferPool.ReleaseUndoesAcquire | common/utils/AlignedBufferPool.cpp:66-112 | Releasing an acquired block restores the free list. |
| BufferPool.ShutdownUntilReset | common/utils/AlignedBufferPool.cpp:124-128 | After a shutdown no block is given out, until a reset of an initialized pool with blocks. |
| DmaChannel.DmaChannelLinux.Send | pcie/DmaChannelLinux.cpp:281-349 | Exactly when it is accepted; refused: queues and pool unchanged and the caller still holds the block; accepted: queued by descriptor if a pool block and there is room, else copied and, if from the pool, released. |
| DmaChannel.DmaChannelLinux.TryDescriptor | pcie/DmaChannelLinux.cpp:292-301 | The zero-copy path keeps every queued block out of the free list and queued once. |
| DmaChannel.DmaChannelLinux.TryCopy | pcie/DmaChannelLinux.cpp:304-313 | The copy path copies all bytes or none, and releases the block only after copying. |
| DmaChannel.DmaChannelLinux.DescriptorRound | pcie/DmaChannelLinux.cpp:389-440 | The oldest descriptor is written and its block becomes free whatever the device answers; the byte count stays the sum of the answers. |
| DmaChannel.DmaChannelLinux.CopyRound | pcie/DmaChannelLinux.cpp:444-491 | Up to a buffer of the oldest bytes is taken and written; a failed write ends the worker. |
| DmaChannel.DmaChannelLinux.SendRound | pcie/DmaChannelLinux.cpp:371-494 | A round writes the oldest descriptor if one is queued, or else up to a buffer of the oldest bytes; an answer that is not negative is added to the 64-bit count, a negative one stops the worker. |
| DmaChannel.DmaChannelLinux.SendThreadFunc | pcie/DmaChannelLinux.cpp:367-499 | Over any sequence of answers, with bytes arriving between rounds: the log has the answers in order, the count is the sum of those that are not negative modulo 2^64, nothing is written behind the first negative one, and the worker goes on exactly while there was none; if every offer fits an empty queue, each round until then writes. |
| DmaChannel.DmaChannelLinux.DrainDescriptorQueue | pcie/DmaChannelLinux.cpp:571-579 | All queued blocks become free, each in the pool it came from, and the queue is empty. |
| DmaChannel.DmaChannelLinux.ReleaseDescriptor | pcie/DmaChannelLinux.cpp:581-595 | A block goes back to the pool its descriptor names, or to the pool of the channel if it names none and the block is one of that pool; without a block, or with a foreign one, nothing changes. |
| DmaChannel.DmaChannelLinux.Reset | pcie/DmaChannelLinux.cpp:265-279 | Both queues empty and the count zero; queued blocks are not given back. |
| DmaChannel.DmaChannelLinux.SetBufferPool | pcie/DmaChannelLinux.cpp:351-361 | Taking the pool away first returns every queued block; a new pool leaves the queue as it is, and its blocks with the pool they came from. |
| DmaChannel.DeviceSeesPrefixes | pcie/DmaChannelLinux.cpp:367-499 | Over the whole life of the channel the device has seen, in order, exactly those accepted descriptors and copied bytes that left their queue and were neither drained nor reset away: a prefix of the accepted ones up to the first that was. |
| DmaChannel.WholeWritesAddUp | pcie/DmaChannelLinux.cpp:433-488 | With a device that accepts whole writes, total_sent_ is the sum of the lengths of both paths. |
| ShmRing.StepInv | common/utils/ShmRing.cpp:127-183 | While fewer than 2^64 records were committed, every step of either side keeps the full invariant; it appends the committed record, takes the oldest, or leaves the queue alone. |
| ShmRing.AnyStepInv | common/utils/ShmRing.cpp:127-183 | Without any bound every step keeps that invariant or the one that holds from the wrap of the tail on, and moves the queue in the same way. |
| ShmRing.TakenInOrder | common/utils/ShmRing.cpp:127-183 | In every run of any length the payloads taken are those committed, in order, and at most slot_count records are in the ring; only the last payload of a ring whose tail has wrapped is excepted, and only if 2^64 leaves a remainder of 2 or more by slot_count. |
| ShmRing.SlotIsFree | common/utils/ShmRing.cpp:127-143 | The slot a producer fills is not the slot of any record still in the ring. |
| ShmRing.FullIff | common/utils/ShmRing.cpp:129-137 | The 64-bit full test is true exactly with slot_count records outstanding. |
| ShmRing.PeekLengthInv | common/utils/ShmRing.cpp:157-174 | A peek succeeds exactly when the oldest record has a length of 1 to slot_size - 4, and reads that length. |
| ShmRing.AdvanceInv | common/utils/ShmRing.cpp:176-183 | An advance after a peek takes the oldest record, with the payload that was committed. |
| ShmRing.BadLengthBlocks | common/utils/ShmRing.cpp:166-170 | A record with any other length is never passed: nothing behind it is taken in any continuation (behind the wrap, if the remainder is below 2). |
| ShmRing.PeekFailsAfterWrap | common/utils/ShmRing.cpp:157-161 | From the wrap on a peek answers empty although records are in the ring. |
| ShmRing.PeekFindsUntilWrap | common/utils/ShmRing.cpp:157-161 | In every reachable state with a record in the ring a peek finds one if and only if fewer than 2^64 records were committed. |
| ShmRing.WrapEndsTheRing | common/utils/ShmRing.cpp:157-183 | After the 2^64-th commit no peek succeeds again in any continuation; only a record that was being read may still be taken. |
| ShmRing.WrapIsReachable | common/utils/ShmRing.cpp:145-155 | Every ring can get there. |
| ShmRing.TornPayloadIsReachable | common/utils/ShmRing.cpp:127-155 | For every slot_count that leaves a remainder of 2 or more there is a run in which the consumer takes a payload that was never committed, because the slot it reads is filled again. |
| ShmRing.DecodeEncode | common/utils/ShmRing.cpp:150-151 | The four length bytes are read back as the length that was stored. |
| ShmRing.Ring.ProducerAcquire | common/utils/ShmRing.cpp:127-143 | Succeeds exactly below slot_count records, with a slot distinct from all of theirs. |
| ShmRing.Ring.ProducerCommit | common/utils/ShmRing.cpp:145-155 | Stores the length in the slot of any index and moves the tail; with the acquired index this appends the slot. |
| ShmRing.Ring.ConsumerPeek | common/utils/ShmRing.cpp:157-174 | The payload of the oldest record, or failure when there is none or its length is not valid. |
| ShmRing.Ring.ConsumerAdvance | common/utils/ShmRing.cpp:176-183 | Moves the head exactly when the index is the current one, which drops the oldest record if there is one; a stale index changes nothing. |
| ShmRing.Ring.constructor | common/utils/ShmRing.cpp:19-57 | A ring just created is empty, both counters and all bytes zero. |
| ShmRing.EmptyAdvanceSkips | common/utils/ShmRing.cpp:127-183 | An advance on an empty ring succeeds and puts the head ahead of the tail: the next record finds room and is committed, but a peek answers empty; the record after it is the one that is seen. |
| OverlappedWrites.DmaChannelAsync.Sweep | pcie/DmaChannelAsync.cpp:204-221 | The answers are asked for in order up to the first error; exactly the writes found done before it are no longer in flight, and their buffers are free. |
| OverlappedWrites.DmaChannelAsync.FindFree | pcie/DmaChannelAsync.cpp:258-260 | The search terminates, and finds the first free buffer from the current one around the ring. |
| OverlappedWrites.DmaChannelAsync.Fill | pcie/DmaChannelAsync.cpp:262-267 | Bytes go only into a buffer without a pending write; every pending buffer keeps the bytes its write was given. |
| OverlappedWrites.DmaChannelAsync.IssueWrite | pcie/DmaChannelAsync.cpp:258-287 | The next chunk in queue order is written. If the device goes on with it, its buffer is in use, with that chunk, and the next one current; if it is done at once, its bytes are counted and the buffer stays free; if it fails, the chunk is lost. No buffer of a write in flight is touched. |
| OverlappedWrites.DmaChannelAsync.Round | pcie/DmaChannelAsync.cpp:202-287 | What a round leaves of flags, current buffer, writes in flight and answers is that of the sweep and then of one write with the first free buffer, or of the sweep alone; the buffers of writes still in flight keep their bytes. |
| OverlappedWrites.DmaChannelAsync.SendData | pcie/DmaChannelAsync.cpp:197-287 | Over any sequence of sends and device answers the loop is a sequence of such rounds, one per entry, up to the first that fails: bytes taken are a prefix of bytes accepted and, with whole writes, equal those counted plus those in flight plus at most one refused chunk; the buffers flagged are those of the writes that the device was left with, each still holding its chunk; and the count is the sum of all done answers modulo 2^64. |
| Tiling.TotalIsBlocks | common/InOutputData/FileHandleManager.cpp:17-23 | The rounded-up division counts the block reads of a file of any length below 2^63. |
| CompletionPort.FileHandleManager.OpenFile | common/InOutputData/FileHandleManager.cpp:25-48 | A new id with its read count and no completions, or id 0. |
| CompletionPort.FileHandleManager.UpdateCompletedRequests | common/InOutputData/FileHandleManager.cpp:75-96 | Counts completions and closes the file when all are done. |
| CompletionPort.FileHandleManager.CloseFileHandle | common/InOutputData/FileHandleManager.cpp:98-111 | Removes the file and nothing else. |
| CompletionPort.CurrentIsOpen | common/InOutputData/InputDataFromFileUseIOCP.cpp:280-289 | While bytes remain to be read, the current file is still open: fewer reads were submitted than it has. |
| CompletionPort.Reader.SubmitNewReadRequest | common/InOutputData/InputDataFromFileUseIOCP.cpp:368-425 | Reads the current file block by block on an idle entry; each entry has at most one outstanding read, active requests stay at most io_request_num. |
| CompletionPort.Reader.StartReads | common/InOutputData/InputDataFromFileUseIOCP.cpp:178-188 | As many reads are started as the first file has blocks, at most io_request_num, and the bytes left are those behind them. |
| CompletionPort.Reader.CountCompletion | common/InOutputData/InputDataFromFileUseIOCP.cpp:231-236 | A completion belongs to an open file, which is closed exactly when it was its last one. |
| CompletionPort.Reader.OpenFile | common/InOutputData/InputDataFromFileUseIOCP.cpp:334-365 | Switching files keeps every count. A file that cannot be opened leaves the current size, one that cannot be associated its own; in both cases there is no current file and no handle more than before. |
| CompletionPort.Reader.NextFile | common/InOutputData/InputDataFromFileUseIOCP.cpp:260-268 | The next index in the list, 0 after the last when looping, or the end. |
| CompletionPort.Reader.HandleCompletion | common/InOutputData/InputDataFromFileUseIOCP.cpp:222-291 | A completion of the right length moves index, bytes left and active reads on as specified; its entry goes idle only if the list has ended or the file it opened is empty. It is an error exactly for a wrong length, a file that cannot be opened, or a read that cannot be started. |
| CompletionPort.StallsIff | common/InOutputData/InputDataFromFileUseIOCP.cpp:258-301 | A completion leaves no read in flight and the exit test false, so that nothing ever happens again, if and only if it is the last one outstanding and opens an empty file that is not the last of the list; also when looping. |
| CompletionPort.InFlight | common/InOutputData/InputDataFromFileUseIOCP.cpp:178-301 | As long as files are left, the reads in flight are those the reader started with, at most the blocks of the first file, less the empty files opened since. |
| CompletionPort.ExitsIff | common/InOutputData/InputDataFromFileUseIOCP.cpp:196-301 | Without errors, and whatever the order of completions, a reader that does not loop gets past every file and ends if and only if it starts with more reads in flight than there are empty files between the first and the last. |
| CompletionPort.StallIsReachable | common/InOutputData/InputDataFromFileUseIOCP.cpp:258-301 | With one request and an empty file between two others the reader stalls, and the third is never read. |
| CompletionPort.LoopsForEverIff | common/InOutputData/InputDataFromFileUseIOCP.cpp:260-268 | A reader told to loop goes on for ever if and only if no file of its list is empty. |
| CompletionPort.AllRead | common/InOutputData/InputDataFromFileUseIOCP.cpp:296-301 | With nothing active and nothing remaining every opened file was read to its end, and only empty files still have a handle. |
| CompletionPort.ReadsAreTiles | common/InOutputData/InputDataFromFileUseIOCP.cpp:368-425 | For any order of completions the reads submitted for a file are a prefix of the blocks it is cut into, from its start, and all of them once it is complete; every read in flight is one of them. |
| CompletionPort.RequestsInOrder | common/InOutputData/InputDataFromFileUseIOCP.cpp:176-425 | For any order of completions request k of the whole run is for slot k modulo the number of slots, counted in 64 bits, and the requests go through the files in the order of opening and forwards in each; those outstanding are among them. |
| ReadPlan.SoftLimit | common/InOutputData/InputDataFromFileUsePOSIX.cpp:377-420 | For every slack: at least io_request_num and, for 1 to 2^28 - 1 requests, at most 16 * io_request_num - 1; within these bounds the slack is added or, if none is given, half of up to 16, 8 up to 64, and an eighth of more. The same with 16 * io_request_num wrapped for other numbers. |
| Tiling.TilesPartition | common/InOutputData/InputDataFromFileUsePOSIX.cpp:502-534 | The reads of a file are contiguous from 0 to its size, none longer than a block, as many as the ceiling says. |
| Tiling.EveryByteOnce | common/InOutputData/InputDataFromFileUsePOSIX.cpp:502-534 | Every byte of the file is in exactly one read. |
| ReadPlan.EnqueueFile | common/InOutputData/InputDataFromFileUsePOSIX.cpp:489-538 | The loop enqueues a prefix of these reads, all of them unless it is stopped. |
| ReadPlan.ReadFile | common/InOutputData/InputDataFromFileUsePOSIX.cpp:644-793 | With any answers, the blocks handed on are as long as each answer and what is left allow, one behind the other; together all of the file unless a read fails or the answers end. |
| ReadPlan.ReadFiles | common/InOutputData/PreadFileDataProvider.cpp:186-234 | Over a file list the blocks of each file are handed on as its answers call for; the failures are counted. |
| ReadPlan.PrefixOfEachFile | common/InOutputData/PreadFileDataProvider.cpp:186-234 | What is handed on concatenates to a prefix of each file in list order: a proper one if the file was given up, otherwise all of it unless its answers ran out. |
| ReadPlan.IndexSkipsFailures | common/InOutputData/InputDataFromFileUsePOSIX.cpp:652-653 | The request index of a block is its place among all blocks plus the reads that failed in earlier files. |
| WideProduct.MultiplyAndShift | common/json_struct/json_struct.h:6139-6196 | floor((a * b + half) / 2^shift) modulo 2^64, half being 2^(shift-1) if rounding is asked for, for shifts below 128 that are not multiples of 64. |
| WideProduct.Multiply | common/json_struct/json_struct.h:6142-6175 | The 32-bit limb sums lose no carry: the three result limbs hold the full 192-bit product. |
| WideProduct.SumLimbs | common/json_struct/json_struct.h:6159-6175 | Every limb sum, with its carry, fits 64 bits. |
| WideProduct.Add | common/json_struct/json_struct.h:4846-4861 | Addition modulo 2^128. |
| WideProduct.DivideBy10 | common/json_struct/json_struct.h:4868-4877 | Floor division of the 128-bit number. |
| WideProduct.ShiftedProduct | common/json_struct/json_struct.h:6177-6194 | The word at the shift, with the low bits of the next one moved in, is the shifted product modulo 2^64, and the bit looked at for rounding is the highest one shifted out. |
| WideProduct.Rounding | common/json_struct/json_struct.h:6179-6195 | Adding the highest bit shifted out is rounding half up. |
| IntegerText.CountCharsIsDigits | common/json_struct/json_struct.h:5324-5349 | The binary search over powers of ten counts the decimal digits of every value of every integer width, the least value included. |
| IntegerText.LowerBounds | common/json_struct/json_struct.h:5296-5323 | The search ends on the first candidate whose bound exceeds the value. |
| IntegerText.Probe | common/json_struct/json_struct.h:5253-5276 | Every power of ten that is compared with fits the type. |
| IntegerText.StaticLog10Counts | common/json_struct/json_struct.h:5278-5294 | The compile-time count is the digit count of the largest value. |
| IntegerText.ToBuffer | common/json_struct/json_struct.h:6797-6841 | Writes the decimal text; in a short buffer its leading characters, and the number of digits dropped is reported. |
| IntegerText.TextAt | common/json_struct/json_struct.h:6828-6838 | Each character is the digit that repeated division leaves. |
| IntegerParsing.ParseNumber | common/json_struct/json_struct.h:6558-6672 | The parser on any text: sign, digits, point and exponent, its error cases and its end position, the digit count in 8 bits; and whether the int exponent overflows, which is exactly when the number is not within one. |
| IntegerParsing.ParseDecimal | common/json_struct/json_struct.h:6571-6630 | Spaces, sign, digits and fraction that fill the text parse completely, for any number of digits: the significand is the digits modulo the size of the unsigned type, the exponent the difference of two digit counts modulo 256. |
| IntegerParsing.ShiftIff | common/json_struct/json_struct.h:6586-6630 | That exponent is one negative power of ten for each fraction digit exactly if the digit count does not wrap in the fraction. |
| IntegerParsing.ReadsDecimal | common/json_struct/json_struct.h:6857-6890 | If it does not, the number read is the digits modulo the size of the unsigned type, less those of the fraction. |
| IntegerParsing.ReadsWholePart | common/json_struct/json_struct.h:6857-6890 | That is the whole part if and only if all digits together, with those of the fraction, fit the unsigned type, or the whole part is zero. |
| IntegerParsing.FractionSpoilsWhole | common/json_struct/json_struct.h:6857-6890 | So the text 25.55 read as an 8-bit unsigned integer is 2. |
| IntegerParsing.LongFractionIsWhole | common/json_struct/json_struct.h:6586-6630 | And 0.00...07 with 256 fraction digits is read as 7. |
| IntegerParsing.RoundTrip | common/json_struct/json_struct.h:6892-6909 | Parsing what was printed gives back every value of every width, except the least of the signed 32- and 64-bit types, where the negation overflows. |
| IntegerParsing.ConvertToInteger | common/json_struct/json_struct.h:6857-6890 | The conversion loops compute what the exponent calls for in the unsigned type. |
| IntegerParsing.ToInteger | common/json_struct/json_struct.h:6892-6909 | Parse and convert; zero on an error; and whether an int overflows on the way to the exponent or when it is negated. |
| IntegerParsing.ExponentExact | common/json_struct/json_struct.h:6878-6888 | With a positive exponent the result is exact whenever it is within the type. |
| IntegerParsing.ExponentClamps | common/json_struct/json_struct.h:6874-6890 | With a positive exponent the result is the number of the type closest to the one denoted if and only if the digits overrun the range, or the product is within it (for an unsigned type: and not negative), or it is one of two products that wrap onto the least value by accident: -640 in 8 bits, -5 * 2^64 in unsigned 64 bits. |
| IntegerParsing.ExponentWraps | common/json_struct/json_struct.h:6878-6890 | Whenever the digits do not overrun the range the product is taken modulo the size of the unsigned type, and no signed overflow arises. |
| IntegerParsing.ScientificClamps | common/json_struct/json_struct.h:6857-6909 | The same for every text of a decimal and an exponent that outweighs its fraction. |
| IntegerParsing.ParseScientific | common/json_struct/json_struct.h:6622-6672 | A decimal, an e or E, an optional sign and digits that fill the text parse completely, the exponent added to that of the fraction. |
| IntegerParsing.ScientificWithinInt | common/json_struct/json_struct.h:6633-6672 | For such a text no int overflows in the parser exactly if the value of the exponent digits is at most 2^31 - 1 and its sum with the exponent of the fraction is within an int. |
| IntegerParsing.ZeroWithExponent | common/json_struct/json_struct.h:6878-6882 | A zero with a positive exponent is read as zero exactly below the digit count of the type; 0e10 is read as the largest 32-bit value. |
| IntegerParsing.WrapsInsteadOfSaturating | common/json_struct/json_struct.h:6878-6888 | The text 99e1 read as an 8-bit integer is -34. |
| StringEscapes.HandleEscapesOut | common/json_struct/json_struct.h:4670-4728 | Copying stretches and escaping special characters escapes the string character by character. |
| StringEscapes.HandleEscapesIn | common/json_struct/json_struct.h:4589-4668 | Unescapes every body without a dangling backslash. |
| StringEscapes.UnescapeAt | common/json_struct/json_struct.h:4607-4664 | One escape: a letter, four hexadecimal digits, or the fallback that keeps both characters. |
| StringEscapes.RoundTrip | common/json_struct/json_struct.h:4589-4728 | Unescaping what escaping wrote gives back every byte string (section 7 of RFC 8259). |
| StringEscapes.ShortEscapes | common/json_struct/json_struct.h:4572-4587 | Each of the eight escape letters is read as its character; a backslash before any other character but u stays. |
| StringEscapes.EscapedForm | common/json_struct/json_struct.h:4676-4717 | Backspace, form feed, line feed, return, tab, quote and backslash are written with their letters, every other character as it is. |
| StringEscapes.HexDigits | common/json_struct/json_struct.h:4616-4624 | The hexadecimal digits are the ten decimal ones and a to f, small or capital, each worth its place. |
| StringEscapes.LongEscape | common/json_struct/json_struct.h:4607-4650 | A backslash, a u and four hexadecimal digits are read together, as the bytes of that code. |
| StringEscapes.StringScanner.FindStringEnd | common/json_struct/json_struct.h:990-1032 | The loop unrolled four ways answers what the plain scan answers and keeps the escape state for the next chunk. |
| StringEscapes.Resumes | common/json_struct/json_struct.h:990-1032 | Cutting the input anywhere and resuming with the carried escape state gives the same end. |
| StringEscapes.EndsAtFinalQuote | common/json_struct/json_struct.h:990-1032 | A quoted escaped string ends at its own closing quote, whatever follows. |
| StringEscapes.BodyHasNoDangling | common/json_struct/json_struct.h:1016-1030 | Bodies the scan accepts have no dangling backslash, so their unescaping cannot underflow. |
| StringEscapes.EscapeRemovesControls | common/json_struct/json_struct.h:4676-4717 | The escaped form is free of raw control characters exactly when each of them has a short escape. |
| StringEscapes.HexBytesAreUtf8 | common/json_struct/json_struct.h:4628-4648 | The decoded bytes are UTF-8 exactly for code points below 0x800; the three-byte form has the wrong lead byte. |
| StringEscapes.OnlyLeadByteDiffers | common/json_struct/json_struct.h:4628-4648 | From 0x800 on the three bytes pushed are those of UTF-8 but for the lead byte, which is 0x10 too small. |
| ContainerMeta.MetaForTokens | common/json_struct/json_struct.h:2520-2565 | One pass gives each container, in preorder, its position, tokens, containers, children, complex children and scalar flag as a recursive reading of the nested values does. |
| ContainerMeta.OneToken | common/json_struct/json_struct.h:2527-2561 | One round of the loop is one step of the specification. |
| ContainerMeta.RunTree | common/json_struct/json_struct.h:2520-2565 | Running the pass over the tokens of a value adds its metadata and its totals to all open containers. |
| ContainerMeta.AfterNode | common/json_struct/json_struct.h:2533-2561 | A container is its start token, its members and its end token. |
| ContainerMeta.It.Advance | common/json_struct/json_struct.h:8175-8190 | Incrementing passes over exactly one member, or the closing token. |
| ContainerMeta.VisitAll | common/json_struct/json_struct.h:8212-8229 | From begin() to end() the iterator visits the direct members of the root in order, then its closing token. |
| TokenScopes.Tokenizer.NextToken | common/json_struct/json_struct.h:806-833 | A token is accepted exactly when it fits the container stack; an end that does not is told apart by its kind, and leaves stack and scopes as they were. |
| TokenScopes.StackIsUnmatchedStarts | common/json_struct/json_struct.h:806-829 | The stack holds exactly the unmatched starts: what was accepted is complete values with those starts between them. |
| TokenScopes.ClosedIffComplete | common/json_struct/json_struct.h:806-829 | The stack is back where it was exactly after a sequence of complete values. |
| TokenScopes.Tokenizer.SkipArrayOrObject | common/json_struct/json_struct.h:3308-3345 | Counting only its own bracket kind it stops exactly at the matching end, and succeeds exactly when there is one before which the innermost scope, if any, is not over; its int count overflows exactly when more brackets of the kind were open at some time than an int can hold. |
| TokenScopes.Tokenizer.PushScope | common/json_struct/json_struct.h:886-891 | A container starts at depth one, anything else is over at once. |
| TokenScopes.Tokenizer.PopScope | common/json_struct/json_struct.h:893-897 | Only a scope that is over is removed. |
| TokenScopes.Tokenizer.GoToEndOfScope | common/json_struct/json_struct.h:899-907 | Stops right behind the matching end exactly when the depth in its kind stays below 2^16; otherwise before it, where the 16-bit depth wraps to zero. |
| TokenScopes.ScopeDepthSuffices | common/json_struct/json_struct.h:413-432 | That is the case exactly when the members nest fewer than 65535 brackets of the kind. |
| TokenScopes.InnerStep | common/json_struct/json_struct.h:418-431 | The count of one kind follows the stack, and reaches zero only when the bracket itself closes. |
| SerializerOutput.Serializer.Write | common/json_struct/json_struct.h:2154-2175 | However the data falls on the buffers it is appended whole. |
| SerializerOutput.Serializer.RequestBuffer | common/json_struct/json_struct.h:1676-1681 | Doubling the string and moving to its new half keeps the text so far. |
| SerializerOutput.Serializer.WriteToken | common/json_struct/json_struct.h:1976-2090 | A token adds its front, name and value; an end token at depth zero is refused. |
| SerializerOutput.Serializer.WriteFront | common/json_struct/json_struct.h:2001-2058 | The ready-made literal or the parts that the options ask for. |
| SerializerOutput.LiteralIsFront | common/json_struct/json_struct.h:2001-2031 | The literals say what the options ask for exactly in Pretty style with two spaces a level and a wanted comma. |
| SerializerOutput.Reformat | common/json_struct/json_struct.h:1665-1698 | The output for a token sequence is the same for every size of the first buffer. |
| SerializerText.RenderDocument | common/json_struct/json_struct.h:1976-2090 | The text of a document nested to less than 256 levels is what its values say: brackets around members, a comma before each but the first, names with a colon in front, quotes around strings, and in Pretty style a line break and the indentation of the level. |
| SerializerText.RenderValue | common/json_struct/json_struct.h:1976-2090 | The same for a value anywhere in a document, whatever comes behind it. |
| SerializerText.ReformatDocument | common/json_struct/json_struct.h:1665-1698 | That text is what reformat leaves, for every first buffer. |
| SerializerText.LayoutOfSetters | common/json_struct/json_struct.h:1855-1915 | Pretty style indents by two and breaks lines, Compact style does neither, and each setter changes what it is named for and nothing else; a new indentation shows from the next change of depth on. |
| SerializerText.LayoutAsAsked | common/json_struct/json_struct.h:2001-2058 | The separators are those asked for, unless the indentation is two: then lines are broken at levels 1 to 5 in Compact style too, and commas are written there though not wanted. |
| SerializerText.CompactObject | common/json_struct/json_struct.h:1976-2090 | An object with members a and b of 1 and 2 comes out as {"a":1,"b":2} in Compact style. |
| SerializerOutput.DepthOfForest | common/json_struct/json_struct.h:1913-1917 | The 8-bit depth loses no closing bracket exactly up to 255 levels. |
| SerializerOutput.DocumentIsWhole | common/json_struct/json_struct.h:1976-2090 | A nested document is written whole exactly when it nests to less than 256 levels. |

## Left out

- Weak memory: atomics are sequentially consistent, so the chosen memory orders are not judged.
- Liveness: all pipeline results are about what has happened so far, and about which steps are
  possible (`StuckIff`); none says that a thread which can make a step does.
- Wrap of the 64-bit request counter and of the 64-bit indices of the pipeline's descriptor
  log, which the transition system keeps unbounded (the classes wrap theirs).
- Exceptions inside workers, and a pool of another size than the slot ring or no pool at all:
  the transition system has one pool with a block for each slot.
- PipelineProofs.BlockConservation: a reset of the descriptor queue is one step of `Pipeline`;
  what happens if it overlaps a put is in `RingProtocol.ResetUnderPut`. A channel is not started
  again, and the pool is not taken away from it.
- StreamingReader.StreamKeepsPipeline: a pending read is counted from before its acquire on, where
  the loop counts it from after; the ring's output slot stays where the loop's own buffer was
  taken from, since nothing comes behind it; how long the reads of a file are is in `ReadPlan`.
- OrderedSlots.COrderedDataProcessor.Initialize: which of the allocations fails; after any failure
  the model has no slots.
- OrderedSlots.COrderedDataProcessor.TryProcessNextSlots: one call, run alone; its interleaving
  with workers is in `Pipeline`. The stop flag is a number of rounds.
- DmaChannel.DmaChannelLinux.Send: each method runs alone; the interleaving of its queues is in
  `RingProtocol` and `Pipeline`. Timing counters, status fields and logs are not modelled.
- DmaChannel.DmaChannelLinux.SetBufferPool: pools live on while a descriptor names them; the
  descriptor holds a plain pointer, so the last owner of a replaced pool could free it earlier.
- ShmRing.StepInv: fewer than 2^64 commits; AnyStepInv and the lemmas about the wrap say what
  happens after. Mapping and creating the shared memory is not modelled.
- OverlappedWrites.DmaChannelAsync.SendData: the waits, and the cancellation of pending writes
  after the loop, are not modelled.
- CompletionPort.ExitsIff: runs with an error, which end the loop; completions are taken one at a
  time, since the exit test can only hold behind the last of a batch.
- CompletionPort.Reader.SubmitNewReadRequest: the wait for the slot to differ from the output
  slot, which has no stop test, and the contents of the blocks are not modelled.
- ReadPlan.ReadFiles: one pass over the list; opening, prefetching, buffers and the block queue
  of the pread provider are left out, and its block ids, which count only handed-on blocks.
- WideProduct.MultiplyAndShift: shifts by a multiple of 64 or by 128 and more, which shift a
  word by its width or read an unset limb; the float variant, which has the same form.
- IntegerParsing.ParseNumber: the variant with a digit limit, used for floating point. Once an
  overflow is reported the answer is that of unbounded exponents.
- StringEscapes.HandleEscapesOut: strings of 2^31 bytes and more, whose start index overflows.
- TokenScopes.Tokenizer.NextToken: characters are already tokens; the replay of parsed tokens,
  which skips the stack, and lexical errors are not modelled.
- ContainerMeta.MetaForTokens: 32-bit counts are unbounded, and input with unmatched brackets,
  which the source only asserts against, is excluded.
- SerializerOutput.Serializer.Write: output into a fixed buffer without a callback.
- Floating-point printing and parsing, incremental metadata, template reflection, the
  interface, device access, the scanner, affinity, snapshots, and the memory and shared-memory
  input threads.
