# Models of pbzip2, Coz, the request-credit engine and word count

Dafny models of six parts of the Coz repository, with proofs about all inputs, all runs or
all interleavings.  `dafny verify dfyconfig.toml` checks everything.

Each part has the same shape.  A value-level module states what the code does as functions or
as a state machine, and lemmas prove what that promises.  Where the source changes state in
place, a class or method with the source's fields and loops is proved to do exactly that.

- **The pbzip2 stream scanner** (`Bz2Format`, `Segments`, `ScanSpec`, `ScanProofs`, `ScanBoundary`,
  `StreamScanner`; `ScanSizes`, `ScanForecast`, `JoinedStreams`):
  a single pass over a sliding buffer that cuts a file at every bzip2 header.  The cut is defined
  on the file alone; the scanner refines it for every buffer capacity and output limit.  Its
  buffers as numbers tell beforehand where every segment ends.
- **The pbzip2 queue and pipeline** (`QueueSpec`, `ChainedQueue`, `StreamDelivery`; `PipelineSpec`,
  `PipelineProofs`, `Pipeline`): a bounded queue whose entries may be chains, consumers finishing out of order, a
  circular output window and one writer.  A step is what a thread does under a mutex or between
  two; a wait is a step's guard.
- **Coz's delay protocol, thread map, sample ring and address index** (`DelaySpec`, `DelayProofs`,
  `DelayProfiler`; `StaticMapSpec`, `StaticMap`; `PerfSpec`, `PerfRing`; `IntervalSpec`,
  `IntervalIndex`).
- **The request-credit engine** (`CreditSpec`, `CreditTables`, `CreditProtocol`, `RequestCredit`):
  user space looks a record up and later writes all of it back, while the BPF side moves its cursor.
- **The gate's token refill** (`GateSpec`, `GateProofs`, `Gate`).
- **Parallel word count** (`WordSpec`, `CutSpec`, `CountSpec`, `WordCount`), end to end, and under every
  interleaving of its threads (`WordThreads`).

`ByteSeq` and `Options` are shared.  I/O is modelled by parameters: a file is a byte sequence
read as many bytes at a time as asked for, compression is an arbitrary function, the length of a
sleep, the success of a map write and the answer to a refill are arbitrary.

Where the code and its documentation disagree, the model follows the code:

- The scanner's comment says that a buffer of size 0 indicates end of file.  A segment can also be
  empty: exactly when the one before it left its stream open and a header starts right behind it
  (`ScanProofs.EmptySegment`, `ScanBoundary.EmptyExactly`).  The caller then stops with an error
  instead of delivering the rest (`StreamScanner.ProducerDecompress`).  Whether a file meets an empty
  segment depends only on the lengths of its streams and the sizes of the buffers
  (`ScanForecast.NeverEmptyExactly`).  It never does if every stream but the last is shorter than the
  output limit and the input capacity together, less nine (`ScanForecast.ShortStreamsAreWhole`); for
  no buffers can that bound be raised (`ScanForecast.BoundIsSharp`).  The only caller uses the default
  buffers of one megabyte each, with which the bound is 2,097,143 bytes and there is a file that fails
  (`ScanForecast.ShippedBuffers`).
- The global delay is bounded by leads, credits and oversleep only as long as no delay is made up
  for between pre_block and post_block; the bound proved has the exact extra term
  (`DelayProofs.GlobalDelayBound`, `DelayProofs.ProcessingWhileBlockedLeaks`).
- An empty address range, which a line table can contain, makes the index drop every later range
  around it although they share no address (`IntervalSpec.EmptyRangeClash`).
- A disabled gate can have tokens (`GateProofs.InactiveStaysEmpty`, `GateProofs.DisabledWithTokens`).
- A debug entry whose constant high_pc is taken for an address gives a range that ends before it
  begins.  Such a range can hide any address in between from a range added behind it, and no other
  kind of range can (`IntervalSpec.ReversedRangeHides`, `IntervalSpec.HarmlessIffProper`).
- The splitter is meant to cut a text into the same sections whenever it runs.  With fewer characters
  than threads no length is asked for, the search for a section's end begins at the last cut, and a
  thread may have overwritten the white space there.  How much of the text is counted then depends on
  the timing, exactly when the first section ends in a word in front of more text
  (`WordThreads.TimingMatters`, `CutSpec.SteadyCuts`).
- The macro that would make locate_field skip the read values is misspelt, so call chains behind
  read values are not found (`PerfSpec.WalkIsStart`).

## Model

| member | source | states |
|---|---|---|
| `Bz2Format.NextHeader` | benchmarks/pbzip2/BZ2StreamScanner.cpp:45-53 | the first complete stream header at or after a position: ten bytes, level 1 to 9, either magic; nothing before it is one |
| `Bz2Format.HeadersDisjoint` | benchmarks/pbzip2/BZ2StreamScanner.cpp:622-626 | two stream headers never overlap, so skipping a whole header before searching on misses none |
| `Bz2Format.StreamsPartition` | benchmarks/pbzip2/BZ2StreamScanner.cpp:562-568 | the reference split: the pieces concatenate to the file, none is empty, each but the first starts at a header and none has a header inside |
| `ScanProofs.SplitIsCutAtHeaders` | benchmarks/pbzip2/BZ2StreamScanner.cpp:569-692 | for every file that begins with a header, every input capacity and every output limit, the segments grouped by block number are the file cut at every header, in order, complete |
| `ScanProofs.FirstSearchVerdict` | benchmarks/pbzip2/BZ2StreamScanner.cpp:355-373 | the first search accepts a file exactly when it begins with a complete header, and fails otherwise |
| `ScanProofs.SearchInBuffKeeps` | benchmarks/pbzip2/BZ2StreamScanner.cpp:403-486 | searching the buffered bytes finds the first header that is complete in them, never a later one and never the stream's own |
| `ScanProofs.ReadKeeps` | benchmarks/pbzip2/BZ2StreamScanner.cpp:292-336 | refilling keeps every byte: handed out, pending and buffered bytes are together the bytes read, and no header straddling the refill is missed |
| `ScanProofs.RewindKeeps` | benchmarks/pbzip2/BZ2StreamScanner.cpp:245-281 | rewinding conserves the bytes and keeps what may be the start of a header |
| `ScanSpec.RewindFrame` | benchmarks/pbzip2/BZ2StreamScanner.cpp:245-281 | a rewind leaves at most nine bytes, so reading never meets a full buffer |
| `ScanSpec.ReadFrame` | benchmarks/pbzip2/BZ2StreamScanner.cpp:292-336 | a read fills the buffer or reaches end of file, and end of file leaves nothing to read |
| `ScanSpec.AppendFrame` | benchmarks/pbzip2/BZ2StreamScanner.cpp:171-209 | appending moves the current position no further than asked, and the output capacity covers what was copied |
| `ScanProofs.SearchEndsAtCut` | benchmarks/pbzip2/BZ2StreamScanner.cpp:510-560 | a search ends at the next cut of the file, at end of file, or with a full output and no cut passed |
| `ScanProofs.PastOwnHeader` | benchmarks/pbzip2/BZ2StreamScanner.cpp:622-626 | sliding past the current header keeps the search position before the next cut: a stream's own header is not found again |
| `ScanProofs.StepKeeps` | benchmarks/pbzip2/BZ2StreamScanner.cpp:569-692 | one call hands out the next bytes of the current stream, ends it exactly at the next cut, and numbers the segment |
| `ScanProofs.EmptySegment` | benchmarks/pbzip2/BZ2StreamScanner.cpp:562-568 | a returned segment is empty exactly when the last one left its stream open and a header starts right behind it; so size 0 does not always mean end of file, as the comment says |
| `ScanBoundary.EmptyExactly` | benchmarks/pbzip2/BZ2StreamScanner.cpp:649-674 | of all segments of a file, exactly those are empty before which the stream handed out is still open and a header comes next |
| `ScanForecast.SegmentsAreForetold` | benchmarks/pbzip2/BZ2StreamScanner.cpp:569-692 | the sizes of all segments follow from the lengths of the streams and the sizes of the buffers alone, for every stream but the last, which has no empty one |
| `ScanForecast.NeverEmptyExactly` | benchmarks/pbzip2/pbzip2.cpp:1385-1500 | so whether a file meets an empty segment is decided exactly by its stream lengths |
| `ScanForecast.CallIs` | benchmarks/pbzip2/BZ2StreamScanner.cpp:569-692 | one call does to the numbers what it does to the buffers: size of the segment, end of the stream, room and capacity hint left |
| `ScanForecast.LoopIsReads` | benchmarks/pbzip2/BZ2StreamScanner.cpp:510-560 | the read-and-search loop, likewise, for any window and output |
| `ScanForecast.ShortStreamsAreWhole` | benchmarks/pbzip2/BZ2StreamScanner.cpp:562-568 | no segment is empty where every stream but the last is shorter than the output limit and a buffer less its nine bytes together, whatever the buffers |
| `ScanForecast.BoundIsSharp` | benchmarks/pbzip2/BZ2StreamScanner.cpp:562-568 | for no buffers can that bound be raised: there is a file whose streams but the last are at most that long and which meets an empty segment |
| `ScanForecast.ShippedBuffers` | benchmarks/pbzip2/BZ2StreamScanner.h:25-26 | with the shipped buffers the bound is 2,097,143 bytes, and a file with streams of that length fails |
| `ScanForecast.EmptySegmentOccurs` | benchmarks/pbzip2/BZ2StreamScanner.cpp:562-568 | for all buffers that pass the output limit at the tenth read or later, and every file whose first stream is a chunk longer than that, the first call hands that stream out whole and open and the second an empty segment |
| `ScanSizes.ShortIsNeverEmpty` | benchmarks/pbzip2/BZ2StreamScanner.cpp:215-238 | the sizes of streams under the bound never let the output end exactly in front of the last nine bytes |
| `ScanSizes.SharpLengths` | benchmarks/pbzip2/BZ2StreamScanner.cpp:111-161 | for every chunk and limit there are stream lengths up to the bound that do |
| `JoinedStreams.FileOfLengths` | benchmarks/pbzip2/BZ2StreamScanner.cpp:45-53 | a file with streams of any given lengths of a header or more exists |
| `ScanBoundary.OneStreamIsWhole` | benchmarks/pbzip2/BZ2StreamScanner.cpp:562-568 | a file with no header but its first is never handed out in empty segments, whatever the buffers |
| `ScanBoundary.NextIsHead` | benchmarks/pbzip2/BZ2StreamScanner.cpp:569-692 | each call answers with the next of all segments, and reports the end when there is none left |
| `ScanProofs.HistoryKeeps` | benchmarks/pbzip2/BZ2StreamScanner.cpp:649-674 | over any number of calls everything handed out is a correct partial delivery and the sequence and stream numbers follow on |
| `ScanProofs.HistoryComplete` | benchmarks/pbzip2/BZ2StreamScanner.cpp:608-617 | when the scanner reports end of file, all that was returned is the complete split |
| `ScanProofs.DrainCompletes` | benchmarks/pbzip2/BZ2StreamScanner.cpp:569-692 | repeated calls reach end of file, from any point of any run |
| `ScanProofs.NothingIsLost` | benchmarks/pbzip2/BZ2StreamScanner.cpp:608-617 | between any two calls, returned, pending and buffered bytes are together the bytes read so far, and at end of file the search pointer is at the end of the buffer |
| `ScanProofs.NextIsValid` | benchmarks/pbzip2/BZ2StreamScanner.cpp:569-692 | what each of the three answers of a call means, given all calls before it |
| `Segments.StreamLookup` | benchmarks/pbzip2/BZ2StreamScanner.cpp:662-674 | block k of the output is stream k of the file |
| `Segments.AllStreamsDelivered` | benchmarks/pbzip2/BZ2StreamScanner.cpp:662-674 | a delivery that reached the end of the file has delivered every stream whole |
| `StreamScanner.FindPrefix` | benchmarks/pbzip2/BZ2StreamScanner.cpp:376-377 | the position of the first BZh prefix from a position on, or the end |
| `StreamScanner.LocateHeaderPrefix` | benchmarks/pbzip2/BZ2StreamScanner.cpp:345-394 | the first search looks only at the beginning of the buffer and fails elsewhere; later ones find the next prefix |
| `StreamScanner.SearchHeader` | benchmarks/pbzip2/BZ2StreamScanner.cpp:403-486 | the loop over prefixes stops at the first header complete in the buffer, or at its end |
| `StreamScanner.BZ2StreamScanner.constructor` | benchmarks/pbzip2/BZ2StreamScanner.cpp:41-87 | a fresh scanner, its input capacity raised to two headers |
| `StreamScanner.BZ2StreamScanner.EnsureOutBuffCapacity` | benchmarks/pbzip2/BZ2StreamScanner.cpp:111-161 | room for the new size, by the hint that grows by a tenth but not past the limit; the bytes are kept |
| `StreamScanner.BZ2StreamScanner.AppendOutBuffData` | benchmarks/pbzip2/BZ2StreamScanner.cpp:171-209 | before the first header bytes are skipped, afterwards copied; returns how many |
| `StreamScanner.BZ2StreamScanner.AppendOutBuffDataUpToLimit` | benchmarks/pbzip2/BZ2StreamScanner.cpp:215-238 | copies up to the search position, the nine-byte tail and the capacity, whichever comes first |
| `StreamScanner.BZ2StreamScanner.RewindInBuff` | benchmarks/pbzip2/BZ2StreamScanner.cpp:245-281 | the tail moves to the front of the buffer in place |
| `StreamScanner.BZ2StreamScanner.ReadData` | benchmarks/pbzip2/BZ2StreamScanner.cpp:292-336 | rewinds and reads as many bytes as fit |
| `StreamScanner.BZ2StreamScanner.SearchNextHeader` | benchmarks/pbzip2/BZ2StreamScanner.cpp:510-560 | the read-and-search loop is the specified one |
| `StreamScanner.BZ2StreamScanner.GetNextStream` | benchmarks/pbzip2/BZ2StreamScanner.cpp:569-692 | every call keeps the whole history valid and its answer has the stated meaning |
| `StreamScanner.ProducerDecompress` | benchmarks/pbzip2/pbzip2.cpp:1385-1500 | fails exactly when the file does not begin with a header; otherwise it produces the segments up to the first empty one, and reports success exactly when there is none, which the stream lengths decide; always when every stream but the last is under the bound |
| `QueueSpec.OfferedIsIn` | benchmarks/pbzip2/pbzip2.h:211-277 | what remove hands out is in the queue and has not left before: each element leaves at most once |
| `QueueSpec.AddInv` | benchmarks/pbzip2/pbzip2.h:160-202 | adding keeps the chained-queue invariant and raises the count by one |
| `QueueSpec.RemoveInv` | benchmarks/pbzip2/pbzip2.h:211-277 | removing by any consumer keeps the invariant and lowers the count exactly when it succeeds |
| `QueueSpec.PrimariesLeaveInOrder` | benchmarks/pbzip2/pbzip2.h:246-261 | when a primary leaves, all earlier primaries have left and no later one has |
| `QueueSpec.StreamHasOneConsumer` | benchmarks/pbzip2/pbzip2.h:237-248 | a chain of segments is consumed in order by exactly one consumer |
| `QueueSpec.RefusedHoldsLast` | benchmarks/pbzip2/pbzip2.h:237-249 | a consumer refused in the middle of a stream holds the last element added, and nothing is queued |
| `QueueSpec.CountSplit` | benchmarks/pbzip2/pbzip2.h:133-135 | the count is the queued primaries plus the waiting later segments |
| `QueueSpec.CountBounds` | benchmarks/pbzip2/pbzip2.h:198-202 | the count stays between 0 and the size |
| `QueueSpec.SomeoneIsServed` | benchmarks/pbzip2/pbzip2.cpp:1556-1600 | while the queue counts something, some consumer is offered an element |
| `QueueSpec.AllLeft` | benchmarks/pbzip2/pbzip2.h:264-272 | a count of zero means every added element has left |
| `QueueSpec.RunInv` | benchmarks/pbzip2/pbzip2.cpp:1548-1615 | all of this over every sequence of adds and removes by any consumers; what left stays with its consumer |
| `QueueSpec.PlainIsFifo` | benchmarks/pbzip2/pbzip2.cpp:2687-2695 | when compressing, the queue is a plain FIFO of consecutive blocks, and its count their number |
| `ChainedQueue.Queue.constructor` | benchmarks/pbzip2/pbzip2.h:144-157 | an empty queue |
| `ChainedQueue.Queue.Clear` | benchmarks/pbzip2/pbzip2.h:148-158 | the fields of the empty state |
| `ChainedQueue.Queue.Add` | benchmarks/pbzip2/pbzip2.h:160-204 | ring, links, flags and last element afterwards are those of the queue with the element added |
| `ChainedQueue.Queue.Remove` | benchmarks/pbzip2/pbzip2.h:211-277 | follows the link in the middle of a stream, else takes the ring's head; refusals change nothing |
| `ChainedQueue.Queue.NextIsOffered` | benchmarks/pbzip2/pbzip2.h:237-249 | the link of an unfinished element is set exactly when its next segment was added |
| `ChainedQueue.RingPop` | benchmarks/pbzip2/pbzip2.h:254-261 | the ring's head is the first queued primary, across the wrap |
| `StreamDelivery.StreamsReachConsumers` | benchmarks/pbzip2/pbzip2.cpp:1385-1460 | producer and queue together: of the segments the producer gets to add, what left of block k, in the order it left, is stream k of the file, and one consumer got all of it; if the producer stopped at an empty segment, the streams up to it arrive whole and nothing behind them |
| `StreamDelivery.RunLeaves` | benchmarks/pbzip2/pbzip2.h:211-277 | in every run the segments of a block leave in the order of the block |
| `PipelineProofs.StepKeepsInv` | benchmarks/pbzip2/pbzip2.cpp:2668-2704 | every step of producer, consumers and writer keeps the pipeline invariant |
| `PipelineProofs.SlotIsModulo` | benchmarks/pbzip2/pbzip2.cpp:3017-3028 | the computed position of a block in the window is the block number modulo the window |
| `PipelineProofs.SlotsDiffer` | benchmarks/pbzip2/pbzip2.cpp:3017-3028 | blocks of the window have slots of their own |
| `PipelineProofs.PutFindsEmptySlot` | benchmarks/pbzip2/pbzip2.cpp:3125-3128 | a finished block never overwrites one that is still to be written |
| `PipelineProofs.ThrottledMeansReady` | benchmarks/pbzip2/pbzip2.cpp:3095-3124 | if every consumer waits for the window, the block the writer waits for is in it |
| `PipelineProofs.NoDeadlock` | benchmarks/pbzip2/pbzip2.cpp:2737-2774 | with queue size, window and consumers at least one, every reachable state that is not final has a step |
| `PipelineProofs.OutputInOrder` | benchmarks/pbzip2/pbzip2.cpp:1908-1956 | under every interleaving the file is the compressed blocks in order, as many as were written |
| `PipelineProofs.EachStepCounts` | benchmarks/pbzip2/pbzip2.cpp:1827-1956 | every step of any thread advances the whole by exactly one |
| `PipelineProofs.EveryRunCompletes` | benchmarks/pbzip2/pbzip2.cpp:1839-1846 | every run stops, all complete runs have the same length, and a run that can go no further has written the whole file |
| `PipelineProofs.FinalFile` | benchmarks/pbzip2/pbzip2.cpp:1998-2010 | when the writer has stopped, every block is written; an empty input gives the 14-byte empty file |
| `PipelineProofs.EmptyFileIsStream` | benchmarks/pbzip2/pbzip2.cpp:310-311 | the bytes written for an empty input are one stream, by the scanner's notion of a header: a header with the magic that ends a stream, and a checksum of 0 |
| `PipelineProofs.CompressedFile` | benchmarks/pbzip2/pbzip2.cpp:2592-2715 | from input to output file: the bytes do not depend on timing, threads, queue or window, and are the compressed stretches of block-size bytes in order; cutting the output at its headers and expanding each stream gives the input back, when no block hides a further header |
| `JoinedStreams.StreamsOfBlocks` | benchmarks/pbzip2/pbzip2.cpp:1908-1956 | if the compressed blocks start with a header and their concatenation has no other, cutting it at the headers gives the blocks back |
| `PipelineProofs.Blocks` | benchmarks/pbzip2/pbzip2.cpp:2618-2661 | the producer's blocks concatenate to the file; all but the last have block-size bytes and the last at least one |
| `PipelineProofs.BlocksAreUnique` | benchmarks/pbzip2/pbzip2.cpp:2618-2661 | there is one way to cut a file like that |
| `PipelineProofs.BlockIs` | benchmarks/pbzip2/pbzip2.cpp:2618-2661 | there are as many blocks as the length divided by the block size, rounded up, and block k is what lies between its multiples of the block size |
| `Pipeline.ReadBlocks` | benchmarks/pbzip2/pbzip2.cpp:2611-2661 | the read loop queues those blocks |
| `Pipeline.OutputBuffer.constructor` | benchmarks/pbzip2/pbzip2.cpp:2983-3008 | an empty window at block 0 |
| `Pipeline.OutputBuffer.GetOutputBufferPos` | benchmarks/pbzip2/pbzip2.cpp:3017-3028 | the slot of a block inside the window, in range |
| `Pipeline.OutputBuffer.Add` | benchmarks/pbzip2/pbzip2.cpp:3091-3138 | stores the block in its slot and changes nothing else |
| `Pipeline.FileWriter.See` | benchmarks/pbzip2/pbzip2.cpp:1884-1897 | goes on to write exactly when the head slot is filled |
| `Pipeline.FileWriter.Write` | benchmarks/pbzip2/pbzip2.cpp:1915-1915 | appends the head block to the file |
| `Pipeline.FileWriter.Clear` | benchmarks/pbzip2/pbzip2.cpp:1934-1945 | empties the slot and moves the writer's own position, outside the mutex |
| `Pipeline.FileWriter.Publish` | benchmarks/pbzip2/pbzip2.cpp:1947-1953 | moves the shared window on by one block |
| `Pipeline.FileWriter.Quit` | benchmarks/pbzip2/pbzip2.cpp:1998-2010 | an empty input gets the empty-file bytes, any other nothing more |
| `DelayProofs.GlobalDelayBound` | libcoz/profiler.cpp:417-442 | under every interleaving, the read and the later addition being separate steps, the global delay never decreases and never exceeds its start plus leads, credited hits, oversleep, inherited leads and doubly skipped delay |
| `DelayProofs.RunConserves` | libcoz/profiler.cpp:425-436 | global delay plus what the threads may still publish is exactly the start value plus everything granted |
| `DelayProofs.StaleReadIsCovered` | libcoz/profiler.cpp:421-427 | a publication based on a stale read is no more than that thread's unspent budget |
| `DelayProofs.StepKeepsInv` | libcoz/profiler.cpp:417-442 | no thread ever leads, or will on an old snapshot, by more than its unspent budget |
| `DelayProofs.NothingDoubled` | libcoz/profiler.h:159-181 | if no delay is made up between pre_block and post_block, nothing is skipped twice |
| `DelayProofs.RestingBound` | libcoz/profiler.cpp:417-442 | then leads, credited hits and oversleep alone bound the global delay |
| `DelayProofs.ProcessingWhileBlockedLeaks` | libcoz/profiler.h:170-181 | a concrete run in which a sample processed while blocked makes the global delay twice the granted delay |
| `DelayProofs.DebtLedger` | libcoz/profiler.h:144-181 | the exact debt of a thread while its experiment lasts: initial debt, plus growth outside skipped blocks, minus hits, minus pauses |
| `DelayProofs.SkipAheadSettles` | libcoz/profiler.cpp:438-441 | without an experiment add_delays leaves a thread neither behind nor ahead |
| `DelayProofs.FullLedger` | libcoz/profiler.cpp:417-442 | the ledger of any run: a thread's debt is counted from its last skip ahead, where it owed nothing, or from the start |
| `DelayProofs.ChildOwes` | libcoz/profiler.cpp:319-328 | a new thread owes what its parent does when it is made, cannot take part before it starts, and can then |
| `DelayProofs.ChildLedger` | libcoz/profiler.cpp:319-328 | the ledger of a thread made during a run goes on from its parent's debt |
| `DelayProofs.BlockedOwesNothing` | libcoz/profiler.h:159-181 | after a blocked period that is skipped a thread owes what it owed before, whatever the others did; unskipped it owes the growth as well |
| `DelayProofs.CaughtUp` | libcoz/profiler.h:144-156 | when add_delays is done the thread owes nothing against the global delay it read, whatever others did meanwhile |
| `DelayProofs.AddDelaysFinishes` | libcoz/profiler.cpp:424-436 | exactly one branch of add_delays is open to a thread, whatever it read |
| `DelayProfiler.BatchIsRun` | libcoz/profiler.cpp:444-462 | a batch of samples is a run that credits the thread with delay_size for each hit and touches nothing else |
| `DelayProfiler.ThreadState.constructor` | libcoz/profiler.cpp:319-328 | a new thread starts with its parent's delay |
| `DelayProfiler.Profiler.ProcessSamples` | libcoz/profiler.cpp:444-462 | the sample loop adds delay_size for each sample in the selected line |
| `DelayProfiler.Profiler.Look` | libcoz/profiler.cpp:419-421 | the snapshot of the global delay |
| `DelayProfiler.Profiler.Settle` | libcoz/profiler.cpp:424-436 | publishes a lead, pauses for a lag, or does nothing, by the snapshot |
| `DelayProfiler.Profiler.SkipAhead` | libcoz/profiler.cpp:438-441 | outside an experiment the local delay becomes the global one, so that nothing is owed (SkipAheadSettles) |
| `DelayProfiler.Profiler.PreBlock` | libcoz/profiler.h:159-165 | remembers the global delay |
| `DelayProfiler.Profiler.PostBlock` | libcoz/profiler.h:168-181 | skips the growth since pre_block, if asked |
| `StaticMapSpec.SlotsAreExclusive` | libcoz/ccutil/static_map.h:11-57 | however single-slot steps interleave, two keys never hold one slot, and a key's tag is in its own slot and nowhere else |
| `StaticMapSpec.OwnScansSucceed` | libcoz/ccutil/static_map.h:30-57 | an owner's find returns the slot its insert got and its remove finds it; no scan runs off the end, so no tombstones are needed |
| `StaticMapSpec.SlotIsStable` | libcoz/ccutil/static_map.h:11-57 | no step of any thread moves a key that is in the table |
| `StaticMapSpec.PassedInVain` | libcoz/ccutil/static_map.h:11-28 | whatever the interleaving, an insertion passes a slot only because it was taken when probed or the swap failed there |
| `StaticMapSpec.FullMeansAllFailed` | libcoz/ccutil/static_map.h:11-28 | an insertion gives up only after it has probed every slot in vain |
| `StaticMapSpec.ScansProceed` | libcoz/ccutil/static_map.h:30-57 | each own step brings an owner's scan one nearer to its slot and nobody sets it back; a search ends with the slot, a removal with it freed |
| `StaticMapSpec.OwnersGoOn` | libcoz/ccutil/static_map.h:11-57 | after a search the slot can be searched or removed again, after a failed insertion the key can be inserted again |
| `StaticMapSpec.StepKeepsInv` | libcoz/ccutil/static_map.h:11-57 | every probe, store and compare-and-swap keeps the table invariant |
| `StaticMapSpec.ProbeReaches` | libcoz/ccutil/static_map.h:16-16 | the probes of one scan reach every slot, each exactly once |
| `StaticMap.ProbesCoverAll` | libcoz/ccutil/static_map.h:30-43 | a search that fails proves the tag is in no slot at all |
| `StaticMap.InsertFindRemove` | libcoz/ccutil/static_map.h:11-57 | alone: find gives back what insert put in, and remove restores the table, whichever free slot a failing compare-and-swap left to it |
| `StaticMap.Table.Insert` | libcoz/ccutil/static_map.h:11-28 | takes the first free slot on the key's path whose compare-and-swap does not fail |
| `StaticMap.TakenUnlessFull` | libcoz/ccutil/static_map.h:11-28 | an insert fails only if the swap failed at every free slot; if none fails it takes the first free slot |
| `StaticMap.Table.Find` | libcoz/ccutil/static_map.h:30-43 | the key's slot, or proof that it is absent |
| `StaticMap.Table.Remove` | libcoz/ccutil/static_map.h:45-57 | frees the key's slot and no other |
| `PerfSpec.CopiedIsWindow` | libcoz/perf.cpp:231-248 | one or two copies give the bytes of the ring from a position on, across the wrap |
| `PerfSpec.FirstRecord` | libcoz/perf.cpp:186-229 | the iterator sees the next record, its size and its bytes, exactly as laid out |
| `PerfSpec.AllYielded` | libcoz/perf.cpp:215-218 | all records are yielded exactly when the last one is more than a bare header; otherwise all but that one |
| `PerfSpec.WalkIsStart` | libcoz/perf.cpp:292-380 | locate_field is right exactly when the record has no identifier and, for the call chain, no read values |
| `PerfSpec.GetterReturnsField` | libcoz/perf.cpp:250-278 | for every sample type without the identifier, a getter reads the encoded bytes of its field |
| `PerfSpec.NumbersReadBack` | libcoz/perf.cpp:250-278 | ip and time come back as encoded, and pid, tid and cpu as halves of their words |
| `PerfSpec.ChainReadBack` | libcoz/perf.cpp:280-289 | the call chain comes back as encoded, for every sample type without identifier and read values |
| `PerfSpec.DecodeEncode` | libcoz/perf.cpp:253-253 | numbers survive their encoding |
| `PerfRing.CopyFromRingBuffer` | libcoz/perf.cpp:231-248 | the two-piece copy into a buffer |
| `PerfRing.Iterator.HasData` | libcoz/perf.cpp:209-229 | data exactly when more than a header is left and the record fits before the head |
| `PerfRing.Iterator.Next` | libcoz/perf.cpp:186-194 | moves on by the record's size |
| `PerfRing.Iterator.Get` | libcoz/perf.cpp:196-207 | the record at the index is in the buffer |
| `PerfRing.ReadAll` | libcoz/perf.h:173-189 | any records laid out from tail to head come back in order across the wrap, and the tail ends at the head |
| `IntervalSpec.LookupIsScan` | libcoz/inspect.cpp:550-557 | for every sequence of ranges that do not end before they begin, and every address, find_line equals a linear scan of the accepted ranges |
| `IntervalSpec.EmplaceKeeps` | libcoz/inspect.cpp:364-369 | for ranges that do not end before they begin the map stays ordered and disjoint, and one is dropped exactly when it clashes with one stored |
| `IntervalSpec.IndexIsAccepted` | libcoz/inspect.cpp:364-369 | the map holds exactly the accepted ranges, if none ends before it begins |
| `IntervalSpec.ClashIsOverlap` | libcoz/inspect.h:74-77 | for ranges that are not empty, to clash is to share an address |
| `IntervalSpec.EmptyRangeClash` | libcoz/inspect.h:74-77 | an empty range shares no address with any, yet clashes with every range around it and makes the map drop it |
| `IntervalSpec.InsertIsEmplace` | libcoz/inspect.cpp:364-369 | in a search tree of any shape the insertion puts a range where it belongs among the others, empty ranges at one address included, or drops it |
| `IntervalSpec.BuiltMapFinds` | libcoz/inspect.cpp:550-557 | after any additions of such ranges with any rotations in between, find_line equals a linear scan of the accepted ranges |
| `IntervalSpec.FindIsSound` | libcoz/inspect.cpp:550-557 | what a lookup finds holds the address, whatever the ranges and the shape of the tree |
| `IntervalSpec.ReversedRangeHides` | libcoz/inspect.cpp:424-443 | a range that ends before it begins, as a constant high_pc taken for an address gives, hides any address in between: a range added behind it for that address is stored and not found |
| `IntervalSpec.HarmlessIffProper` | libcoz/inspect.cpp:424-443 | exactly the ranges that do not end before they begin leave the map able to find what it has, whatever else of that kind is added |
| `IntervalIndex.MemoryMap.AddRange` | libcoz/inspect.cpp:364-369 | the descent adds any range as the tree insertion does; one that does not end before it begins is dropped exactly when it clashes with one stored |
| `IntervalIndex.MemoryMap.Lookup` | libcoz/inspect.cpp:550-557 | the descent finds the line of an address in any tree |
| `CreditProtocol.CreditConservation` | hostctl_cpp/request_credit.cpp:1071-1097 | under every interleaving of whole-record writes with cursor writes, with stale and duplicate events and failed writes: armed = held + spent + cleared for each source, credits are never negative, and injected delays never exceed armed credits |
| `CreditProtocol.StepKeepsInv` | hostctl_cpp/request_credit.cpp:484-521 | between a lookup and its write only the cursor can have moved |
| `CreditProtocol.StepConserves` | hostctl_cpp/request_credit.cpp:1151-1230 | each step changes a source's credits by what it armed, spent or cleared |
| `CreditProtocol.FairTurns` | hostctl_cpp/bpf/request_credit.bpf.c:182-199 | in every run in which nobody writes a victim's record, as many turns of the BPF program as there are slots to serve serve each exactly once, in cyclic order from the cursor in the record, whatever else happens in between |
| `CreditProtocol.TurnServes` | hostctl_cpp/bpf/request_credit.bpf.c:175-232 | there is a turn exactly when the victim is enabled and has a slot to serve; it queues the nearest one's source, and serves the same slot next only if there is no other |
| `CreditProtocol.EventSpends` | hostctl_cpp/request_credit.cpp:1071-1097 | a turn's event, taken up before anybody else writes, spends one credit of the slot that was served and changes nothing else in the slots |
| `CreditProtocol.EventsSpendOnce` | hostctl_cpp/request_credit.cpp:1151-1230 | over any run a source spends no more credits than there were events for it: no event spends twice |
| `CreditProtocol.CommitReleases` | hostctl_cpp/request_credit.cpp:484-526 | an operation ends whether its write succeeds or not, and a failed one leaves every record as it was |
| `CreditTables.ArmKeeps` | hostctl_cpp/request_credit.cpp:500-520 | arming adds exactly its count to its source, evicts nobody with credits, and fails only when all eight slots hold other sources' credits |
| `CreditTables.ArmPlace` | hostctl_cpp/request_credit.cpp:434-467 | the slot chosen is the source's own, else a blank one, else one without credits |
| `CreditTables.ArmDelay` | hostctl_cpp/request_credit.cpp:487-495 | after arming the source has the delay asked for; without one the largest of the victim's delays; without any the standard one |
| `CreditTables.ConsumeKeeps` | hostctl_cpp/request_credit.cpp:1071-1097 | consuming takes one credit from the named source and from no other, even for a stale event whose slot has a new owner; nothing else changes |
| `CreditTables.ArmedIsNext` | hostctl_cpp/request_credit.cpp:497-518 | a source armed with credits is the BPF program's next choice, as long as any delay is known |
| `CreditTables.ClearKeeps` | hostctl_cpp/request_credit.cpp:1002-1012 | clearing leaves nobody credits or delay and every slot its owner, and the cursor at 0 |
| `CreditTables.RoundRobin` | hostctl_cpp/bpf/request_credit.bpf.c:182-199 | with k slots to serve, any k consecutive choices serve each exactly once, in cyclic order, from any cursor; FairTurns carries it to the record's own cursor |
| `CreditTables.PicksAreDue` | hostctl_cpp/bpf/request_credit.bpf.c:182-199 | consecutive choices walk the servable slots in cyclic order |
| `RequestCredit.FindExactSlot` | hostctl_cpp/request_credit.cpp:434-442 | the first slot of a source; none for key 0 |
| `RequestCredit.FindFreeSlot` | hostctl_cpp/request_credit.cpp:444-461 | a blank slot, else one without credits, else an unowned one |
| `RequestCredit.FindSlotForSource` | hostctl_cpp/request_credit.cpp:463-467 | the source's slot, else a free one |
| `RequestCredit.MaxSlotDelay` | hostctl_cpp/request_credit.cpp:426-432 | the largest delay of the slots |
| `RequestCredit.PickSlot` | hostctl_cpp/bpf/request_credit.bpf.c:187-199 | the slot loop of the BPF program |
| `RequestCredit.RequestCreditEngine.ArmSource` | hostctl_cpp/request_credit.cpp:469-526 | a negative count, an inactive engine, no slot or a failed write change nothing; otherwise the record is the armed one |
| `RequestCredit.RequestCreditEngine.ConsumeCredit` | hostctl_cpp/request_credit.cpp:1071-1097 | spends one credit by slot hint or search, or changes nothing |
| `RequestCredit.RequestCreditEngine.ClearVictim` | hostctl_cpp/request_credit.cpp:1002-1012 | zeroes credits and delays of all slots and the cursor |
| `RequestCredit.RequestCreditEngine.ConsumeOnce` | hostctl_cpp/bpf/request_credit.bpf.c:175-232 | does to the map, and as event, what a turn of the protocol does, and nothing if there is none |
| `GateProofs.RefillBound` | scripts/mcoz_gate.go:378-394 | worker refills <= 1 + (consumed + discarded) / (target - low_water + 1), at lock granularity, with other refills and configuration changes in between |
| `GateProofs.BalanceConservation` | scripts/mcoz_gate.go:322-345 | the balance is never negative and equals tokens refilled minus consumed minus discarded |
| `GateProofs.FollowTracks` | scripts/mcoz_gate.go:357-376 | a successful worker refill needs more than target - low_water tokens to have left since the look before it |
| `GateProofs.LookAsks` | scripts/mcoz_gate.go:357-376 | a look ends in a request exactly when the gate is armable and below the low-water mark, and asks for the least that reaches the target and is a batch |
| `GateProofs.AskGoesOut` | scripts/mcoz_gate.go:322-330 | a request goes out only for a gate still armable, for what was looked up |
| `GateProofs.RoundRefills` | scripts/mcoz_gate.go:378-394 | a round with anything by others in between brings the balance to the target but for what left since the look, and adds at least a batch |
| `GateProofs.WorkerFills` | scripts/mcoz_gate.go:378-394 | left to itself with its answers accepted the worker brings an armable gate to the mark in three steps, and no further ones undo it |
| `GateProofs.ConfigureDiscards` | scripts/mcoz_gate.go:426-446 | a change of configuration takes effect, and no token bought under another one outlives it |
| `GateProofs.InactiveStaysEmpty` | scripts/mcoz_gate.go:451-467 | a step keeps a disabled gate empty unless it adds tokens to it, as a late answer does |
| `GateProofs.DisabledWithTokens` | scripts/mcoz_gate.go:332-345 | it happens: for all parameters a run that begins with enabling ends disabled with a full balance |
| `GateSpec.NormalizeIsNormal` | scripts/mcoz_gate.go:881-894 | each parameter that makes sense is kept, the others get their defaults or half the target, and doing it twice changes nothing |
| `Gate.RefillParams.Normalize` | scripts/mcoz_gate.go:881-894 | the parameters are those specified |
| `Gate.GateState.Look` | scripts/mcoz_gate.go:357-376 | the worker's need, from one consistent snapshot |
| `Gate.GateState.Ask` | scripts/mcoz_gate.go:322-330 | the request goes out only if the gate is still armable |
| `Gate.GateState.Answer` | scripts/mcoz_gate.go:332-354 | an accepted refill adds its tokens to the balance and to the total |
| `Gate.GateState.Add` | scripts/mcoz_gate.go:337-345 | a refill on enabling or after a miss adds its tokens |
| `Gate.GateState.ConsumeToken` | scripts/mcoz_gate.go:469-479 | takes a token if there is one |
| `Gate.GateState.SetArmConfig` | scripts/mcoz_gate.go:426-446 | a real change of delay or count discards the balance; negative or equal values change nothing |
| `Gate.GateState.SetArmActive` | scripts/mcoz_gate.go:448-467 | a disable discards the balance |
| `WordCount.CountWords` | benchmarks/word_count/word_count-pthread.c:120-224 | for every text and number of threads the result is strictly sorted and maps every word of the covered text to its exact number of occurrences; the covered text is determined by the text and the number of threads where the timing does not matter, and fewer than num_procs characters are left out |
| `WordThreads.CountUnderInterleaving` | benchmarks/word_count/word_count-pthread.c:120-284 | the same count for every character-by-character interleaving of the splitter and the threads it has started, with tables that hold positions in the shared text and are read from it at the end; and the same covered text |
| `WordThreads.TimingMatters` | benchmarks/word_count/word_count-pthread.c:140-163 | for every text with fewer characters than threads whose first section ends in a word in front of more text there are two complete runs that cover different texts |
| `WordThreads.CanFinish` | benchmarks/word_count/word_count-pthread.c:140-179 | from every state of every run all sections can still be cut and all threads get through, and cuts made are kept |
| `CutSpec.SteadyCuts` | benchmarks/word_count/word_count-pthread.c:151-163 | for all other texts every cut is the first white space at or after the length asked for, counted from the cut before, whatever the timing |
| `WordThreads.StepKeepsInv` | benchmarks/word_count/word_count-pthread.c:232-284 | every step of splitter or thread, the terminators written over a neighbour's first character included, keeps what all of them rely on |
| `WordThreads.CountedWordsStay` | benchmarks/word_count/word_count-pthread.c:262-263 | no step of anybody edits a word that a table points to: the strings at the entries stay what they are |
| `WordThreads.DerefAdded` | benchmarks/word_count/word_count-pthread.c:290-347 | adding a word by its position is adding it by its characters |
| `WordThreads.SomebodyGoesOn` | benchmarks/word_count/word_count-pthread.c:146-171 | until all sections are cut and all threads are through, somebody can go on |
| `WordCount.AnswerIsUnique` | benchmarks/word_count/word_count-pthread.c:181-223 | a table that is strictly sorted and counts right is the only one |
| `WordSpec.TokensAreWords` | benchmarks/word_count/word_count-pthread.c:232-283 | the two-state loop finds exactly the words of the text: each starts at a letter and is as long as possible |
| `WordSpec.CaseIsFolded` | benchmarks/word_count/word_count-pthread.c:244-270 | the case of letters makes no difference to the words |
| `WordSpec.Characters` | benchmarks/word_count/word_count-pthread.c:155-158 | which characters are letters, parts of words and white space |
| `WordSpec.TokensSplit` | benchmarks/word_count/word_count-pthread.c:155-163 | a text may be cut before any character that is no word's without changing its words |
| `WordSpec.FirstCharIrrelevant` | benchmarks/word_count/word_count-pthread.c:274-281 | the terminator a thread writes at its neighbour's first character changes none of the neighbour's words |
| `WordCount.CutSections` | benchmarks/word_count/word_count-pthread.c:140-163 | each section ends at the first white space at or after the length asked for, or at the end, even while threads already write terminators at the cuts; only with no length asked for may it be one white space further |
| `WordCount.MapSections` | benchmarks/word_count/word_count-pthread.c:140-179 | whatever the order of the threads, the tables are those of the sections of the original text |
| `WordCount.OthersIntact` | benchmarks/word_count/word_count-pthread.c:274-281 | one thread's edits leave every other section's words as they were |
| `WordCount.WordcountMap` | benchmarks/word_count/word_count-pthread.c:232-284 | a section's table counts its words; in place nothing outside it changes but at most the character behind it |
| `WordCount.WordTable.Search` | benchmarks/word_count/word_count-pthread.c:290-311 | the binary search finds the word or the place it belongs |
| `WordCount.WordTable.InsertAt` | benchmarks/word_count/word_count-pthread.c:315-341 | opens a gap and fills it |
| `WordCount.WordTable.Reduce` | benchmarks/word_count/word_count-pthread.c:290-347 | one more of a word, in sorted place, growing the array when full |
| `CountSpec.AddedKeeps` | benchmarks/word_count/word_count-pthread.c:290-347 | adding a word keeps strict order and raises that word's count and no other |
| `CountSpec.CompareIsLexicographic` | benchmarks/word_count/word_count-pthread.c:290-311 | the order of the words is the lexicographic one |
| `CountSpec.MergeSorted` | benchmarks/word_count/word_count-pthread.c:352-394 | a merge is strictly sorted, through equal words too |
| `CountSpec.MergeCounts` | benchmarks/word_count/word_count-pthread.c:352-394 | a merge adds up the counts of every word |
| `WordCount.MergeSections` | benchmarks/word_count/word_count-pthread.c:352-394 | the in-place merge of two arrays |
| `WordCount.PlayRound` | benchmarks/word_count/word_count-pthread.c:189-219 | one round merges neighbours and carries an odd table |
| `WordCount.TakeOver` | benchmarks/word_count/word_count-pthread.c:202-214 | the merged tables replace the first ones, and the odd one is read from a place none has overwritten |
| `WordCount.MergeTables` | benchmarks/word_count/word_count-pthread.c:181-223 | for any number of threads one table is left, the tournament's |
| `CountSpec.RoundKeeps` | benchmarks/word_count/word_count-pthread.c:189-219 | a round takes n tables to (n + 1) / 2 and keeps order and total counts |
| `CountSpec.TournamentKeeps` | benchmarks/word_count/word_count-pthread.c:181-223 | the last table is sorted and has everybody's counts |
| `CountSpec.TableCounts` | benchmarks/word_count/word_count-pthread.c:244-270 | the table of a list of words is sorted and counts each of them |
| `WordCount.TablesCount` | benchmarks/word_count/word_count-pthread.c:140-178 | together the sections' tables count every word of the covered text |

## Left out

- PipelineSpec.Do: one consumer step removes a block and a later one stores it, the compression between them being a function of the block; allocation failures, the terminate and last-good-block flags and lost wake-ups are not modelled.
- Pipeline.FileWriter.Write: multi-segment output, where the writer still reads a slot it has released, is not modelled; with compression every block is a single segment.
- ChainedQueue.Queue.Add: the elements' buffers are values; freeing them and the consumers' condition variables are not modelled.
- ScanSpec.Read: read errors, failed allocations and the change the scanner makes to the fourth byte of its own header templates (which is never compared) are not modelled.
- StreamScanner.BZ2StreamScanner.RewindInBuff: the search pointer, which may point before the buffer for a moment, is a local number; an absent output buffer is an empty array.
- StreamScanner.ProducerDecompress: the produced segments are returned; StreamDelivery takes them through the queue.
- DelaySpec.Enabled: whether an experiment is active is not a state; any thread may take either branch of add_delays at any time, which allows more runs than the code has.
- DelayProfiler.Profiler.Settle: size_t does not overflow; the sampler's stop and start are not modelled.
- StaticMapSpec.Do: a thread's identifier is inserted again only after its removal is done; the values stored beside the tags are not modelled.
- PerfSpec.SampleRecord: raw data, branch stacks, registers and user stacks come after all modelled fields and are arbitrary bytes; the kernel's concurrent writing and memory barriers are not modelled.
- IntervalSpec.Build: the rotations between additions are arbitrary, where the library's depend on colours; the address 2^64 - 1, whose unit range would wrap, is not modelled.
- IntervalSpec.LookupIsScan: only for ranges that do not end before they begin; with others the comparison is no order and a lookup may miss what is stored (IntervalSpec.HarmlessIffProper).
- IntervalSpec.EmplaceKeeps: the same; the insertion itself is modelled for all ranges (IntervalIndex.MemoryMap.AddRange).
- IntervalSpec.IndexIsAccepted: the same.
- CreditSpec.Armed: the source key is a number that is never 0, as the hash ensures; two sources with the same hash share a slot, as in the code.  64-bit overflow is not modelled.
- RequestCredit.RequestCreditEngine.ArmSource: reports, counters and log lines are not modelled; nor is the consume-policy map.
- GateSpec.Step: refills on enabling and after a miss appear as the arrival of any number of tokens, which allows more than the code does.
- WordCount.WordTable.Reduce: an entry holds its word; in WordThreads it holds the word's position in the shared text, as in the code.
- WordCount.CutSections: terminators arrive between the scans of two sections; WordThreads has them at any moment.
- WordCount.CountWords: the threads run whole, in any order; WordThreads.CountUnderInterleaving is the statement for every interleaving.
- WordCount.MapSections: the method runs the threads in any order, but one after the other; WordThreads has every interleaving of their characters.
- WordThreads.ReadChar: the two writes to a word's end and the search in a thread's own table are one step.
- PerfRing.Iterator.Get: a record larger than the iterator's buffer, which the code would copy past its end, is excluded by the precondition.
- WordCount.MergeTables: each pair is copied into arrays of its own before it is merged; the final sort by count is not modelled.
- The decompressing consumers, the direct decompressor, control servers, the Python gate, DWARF and ELF reading, the kernel module and the other benchmarks are not part of this model.
