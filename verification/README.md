# Direct MRAM transfer engine: a verified model

This project models the direct interface of the UPMEM SDK light repository: the code that moves data
between host buffers and the MRAMs of processing-in-memory ranks through a memory-mapped region. The 64
MRAMs of a rank are scrambled together in that region; the theorems say that the engine makes it behave
like 64 independent byte arrays, for every loop order, every schedule of the ranks and whatever the host's
cache held before.

The layers, one module each:

- `Bits`, `AddressMap`: unsigned arithmetic with explicit wrap-around, the masks-and-shifts address path and
  the arithmetic path kept beside it.
- `Memory`, `Interleave`, `Layout`: byte memories, the three AVX-512 stages with their index vectors and
  masks, and the map from (slot, MRAM byte) to region byte, which is a bijection.
- `RankMachine`, `Programs`: the cache-line actions of a rank transfer on device memory, host cache, scratch
  line and host memory, and the action sequences of the three loop orders.
- `LoopOrder`: where each loop order performs each of its actions.
- `SendProofs`, `ReceiveProofs`, `World`, `Schedules`, `History`: what any action sequence, any interleaving
  of all ranks and any run of sends, launches and receives leaves behind. `StaleCache`: what a receive
  without its first flush would hand over.
- `RankTransfers`, `Slots`, `Wram`, `Requests`, `WramRequests`, `DirectInterface`, `SymbolRoundTrip`: the loops
  themselves, as methods over arrays and a class, proved to refine the action sequences and to meet a contract
  per DPU.
- `Words`, `HostBuffers`, `ExampleDpu`, `ExampleHost`, `Launch`, `ExampleRun`, `Benchmark`, `BenchmarkRun`: the
  two application programs, up to the end-to-end statements their hosts check.

How the model is set up:

- Host memory is one byte array; a pointer is an index into it and 0 is the null pointer. Each rank's region
  is its own byte array, at least 2^33 bytes long.
- A cached line holds a copy of 64 bytes and a dirty flag. A flush writes a dirty line back and drops it; a
  load returns the cached copy if there is one; a streaming store writes device memory and drops the copy;
  the processor may evict any line at any time (the `Evict` action in schedules). Lines enter the cache
  only through loads and prefetches of the program.
- A launch may change device memory arbitrarily behind the cache.
- The assertions of the code (alignment, range inside MRAM, availability, MRAM symbol) are preconditions, as
  are the sizes of the buffer list and of host memory. A receive also needs buffers that do not overlap.
- The scratch line of a send is a freshly allocated array with unknown contents, as in the code.

Findings about the code:

- The fast and the arithmetic address path agree on exactly the DPU numbers 0..3
  (`AddressMap.FastPathIsOracleIffFirstGroup`). The comment beside the first mask names bits 31..22; the
  expression is a negative `int` and covers bits 63..22.
- The benchmark's checks hold exactly for sizes up to 6396 KB, while its size list goes to 8 MB
  (`Benchmark.ChecksHoldIffWithinRange`, `BenchmarkRun.ThroughputRepetition`, `Benchmark.EightMegabytesFail`).
- The first flush loop of a receive is needed exactly when a cached copy of an addressed line differs from the
  device on a byte received (`StaleCache.UnflushedReceive`).
- The example's pattern tells DPUs apart only by the low 16 bits of their number, and words and seeds always
  (`ExampleDpu.ExpectedValueInjective`).
- In the example, a launch with size zero leaves the error count of an earlier launch in place
  (`ExampleDpu.Dpu.Run`, `ExampleHost.ExampleEndToEnd`).
- The repository's README calls WRAM reads a fallback to the UPMEM API; the code reads WRAM itself through
  the rank's control interfaces, which is what `Wram` models.

## Model

| member | source | states |
|---|---|---|
| AddressMap.OraclePath | src/pim_interface/direct_interface.hpp:119-145 | the arithmetic specification path, with 64-bit wrap-around, returns the field sums for the bank dpu_id mod 4, plus 64 when dpu_id is at least 4 |
| AddressMap.FastPathScrambles | src/pim_interface/direct_interface.hpp:106-116 | for every 64-bit address and bank 0..3 the masks and shifts, the sign-extended first mask included, compute the field sums |
| AddressMap.FastPathIsOracleIffFirstGroup | src/pim_interface/direct_interface.hpp:106-151 | for every 64-bit address and 32-bit DPU number the two paths agree if and only if the number is below 4, so the disabled cross-check holds exactly for the calls that are made |
| AddressMap.SecondGroupOffset | src/pim_interface/direct_interface.hpp:141-154 | for DPU numbers 4..7 the specification path equals the fast path of the number minus 4, plus 0x40, the form the callers use |
| Interleave.InterleaveTransposes | src/pim_interface/direct_interface.hpp:815-848 | the permute, shuffle, permute composition moves byte 8r+c to 8c+r for every line |
| Interleave.InterleaveInvolutive | src/pim_interface/direct_interface.hpp:815-848 | interleaving twice is the identity |
| Layout.OffsetIsLine | src/pim_interface/direct_interface.hpp:253-255 | the offset computed for a bank and an 8-byte-aligned address is the start of that bank's 64-byte line |
| Layout.LineOfWord | src/pim_interface/direct_interface.hpp:381-387 | distinct (word, bank) pairs have distinct lines, all below 2^27 with bit 11 clear |
| Layout.LayoutInjective | src/pim_interface/direct_interface.hpp:339-346 | no two bytes of the 64 MRAMs share a region byte; every image is below 2^33 with bit 17 clear |
| Layout.LayoutSurjective | src/pim_interface/direct_interface.hpp:339-346 | every region offset below 2^33 with bit 17 clear is the image of an MRAM byte |
| Programs.EachLineOnce | src/pim_interface/direct_interface.hpp:231-304 | each of the three loop orders performs its step exactly once on every (bank, word) of the range and on nothing else |
| Programs.FlushOnce | src/pim_interface/direct_interface.hpp:210-219 | the flush loop flushes every line of the range exactly once and no other |
| LoopOrder.OrderOfSteps | src/pim_interface/direct_interface.hpp:231-304 | the position of every load, store and prefetch in each of the three loop orders; receiving in the Original order prefetches both lines of the word three ahead just before a word, as long as there is such a word |
| LoopOrder.BodyLength | src/pim_interface/direct_interface.hpp:231-304 | the loops perform no other actions |
| RankTransfers.MappedRank.Flush | src/pim_interface/direct_interface.hpp:215-217 | a flush writes a dirty line back and drops it |
| RankTransfers.MappedRank.Prefetch | src/pim_interface/direct_interface.hpp:246-247 | a prefetch brings a line into the cache unless it is there |
| RankTransfers.MappedRank.LoadWord | src/pim_interface/direct_interface.hpp:176-183 | an 8-byte load returns the cached copy if there is one and device memory otherwise |
| RankTransfers.MappedRank.StreamStore | src/pim_interface/direct_interface.hpp:842-845 | a streaming store writes 64 bytes of device memory and drops a cached copy |
| RankTransfers.GatherAndStore | src/pim_interface/direct_interface.hpp:332-352 | one gather-and-store is the Stream step: present lanes from their buffers, absent lanes from the scratch line, interleaved into one line |
| RankTransfers.LoadAndScatter | src/pim_interface/direct_interface.hpp:168-196 | one load-and-scatter is the Load step: the loaded line, interleaved, into the buffers of present lanes |
| RankTransfers.SendOriginal | src/pim_interface/direct_interface.hpp:371-390 | the bank-outer loop nest performs exactly its action sequence |
| RankTransfers.SendRoundRobin | src/pim_interface/direct_interface.hpp:391-408 | the word-outer loop nest performs exactly its action sequence |
| RankTransfers.SendSequential | src/pim_interface/direct_interface.hpp:409-431 | the bank-by-bank loop nest performs exactly its action sequence |
| RankTransfers.FlushRange | src/pim_interface/direct_interface.hpp:308-317 | the flush loop nest performs exactly its action sequence |
| RankTransfers.ReceiveOriginal | src/pim_interface/direct_interface.hpp:231-258 | the bank-outer receive nest, with its prefetches three words ahead, performs exactly its action sequence |
| RankTransfers.ReceiveRoundRobin | src/pim_interface/direct_interface.hpp:259-279 | the word-outer receive nest performs exactly its action sequence |
| RankTransfers.ReceiveSequential | src/pim_interface/direct_interface.hpp:280-304 | the bank-by-bank receive nest performs exactly its action sequence |
| RankTransfers.SendToRankMRAM | src/pim_interface/direct_interface.hpp:354-442 | the method refines the send program of its mode from any scratch contents; with no dirty line it meets the send contract and leaves none |
| RankTransfers.ReceiveFromRankMRAM | src/pim_interface/direct_interface.hpp:198-328 | the method refines flush, receive body of its mode, flush, on host memory, device memory and cache |
| SendProofs.SendRun | src/pim_interface/direct_interface.hpp:332-352 | after any sequence of stores and cache events every stored word of a present buffer is in its MRAM, and every other line, the host and cleanliness are kept |
| SendProofs.StreamedLane | src/pim_interface/direct_interface.hpp:332-352 | every byte of a stored line: from the buffer for a present lane, from the left-over scratch line for an absent one, which the scratch line then keeps |
| SendProofs.SendDelivers | src/pim_interface/direct_interface.hpp:354-442 | for all three modes: present slots hold their buffers in the range, no MRAM byte outside the range and no region byte outside the addressed lines changes |
| SendProofs.SendsAgree | src/pim_interface/direct_interface.hpp:371-431 | two sends of the same data agree on every present slot and outside the range, and on the whole region when no buffer is null |
| SendProofs.ModeAndScratchIndependent | src/pim_interface/direct_interface.hpp:339-346 | any two modes and any two initial scratch lines leave the same contents on present slots and outside the range |
| ReceiveProofs.ScatterDelivers | src/pim_interface/direct_interface.hpp:186-190 | each present lane reaches its buffer and no other lane overwrites it |
| ReceiveProofs.LoadsAreBracketed | src/pim_interface/direct_interface.hpp:210-318 | in every mode each loaded or prefetched line is flushed before and after, and loads lie between the two flush loops |
| ReceiveProofs.CoherentStep | src/pim_interface/direct_interface.hpp:210-318 | every action of a receive keeps: device untouched, nothing dirty, lines flushed since the start cached only with device contents, finally flushed lines not cached |
| ReceiveProofs.LoadSeesDevice | src/pim_interface/direct_interface.hpp:176-183 | whatever was cached before, a load of a receive returns device memory |
| ReceiveProofs.ScheduleProgress | src/pim_interface/direct_interface.hpp:645-658 | at every point of every interleaving all words loaded so far are in their buffers and all other host bytes are as before |
| World.OneByOneInterleaves | src/pim_interface/direct_interface.hpp:619-630 | running the ranks one after another is one of the interleavings |
| World.SwapInterleaves | src/pim_interface/direct_interface.hpp:645-658 | neighbouring actions of different ranks may happen in either order: the schedules are closed under it |
| World.EvictionAnywhere | src/pim_interface/direct_interface.hpp:645-658 | any line of any rank may be evicted at any point of a schedule |
| Schedules.AnyScheduleReceives | src/pim_interface/direct_interface.hpp:645-658 | every interleaving of the ranks, with evictions anywhere and stale clean lines at the start, fills every buffer from device memory, writes no other host byte and leaves no addressed line cached |
| Schedules.CollectedOnce | src/pim_interface/direct_interface.hpp:645-658 | the receive contract determines host memory |
| Schedules.AnyScheduleSends | src/pim_interface/direct_interface.hpp:754-767 | every interleaving leaves each rank's device memory exactly as its own program alone would, absent lanes included, and the host untouched |
| StaleCache.LoadedFromCache | src/pim_interface/direct_interface.hpp:176-183 | a load of a cached line returns the cached copy whatever the device holds; another line is fetched and kept as a clean copy |
| StaleCache.FlushedLine | src/pim_interface/direct_interface.hpp:215-217 | a flush writes back exactly a dirty line's bytes, drops the line and touches nothing else |
| StaleCache.FlushKeepsViewIff | src/pim_interface/direct_interface.hpp:210-219 | a flush changes what the host sees if and only if it drops a clean copy that differs from the device |
| StaleCache.UnflushedReceive | src/pim_interface/direct_interface.hpp:210-304 | without the first flush loop a receive hands over the host's cached view; that is the device's contents if and only if the cached copies agree with the device on every byte received |
| History.RunsNeverReadStaleLines | src/pim_interface/direct_interface.hpp:198-442 | over all runs of sends, launches, host writes and receives: no line is ever dirty, every send delivers, every receive returns the device contents of its time and keeps them, a launch replaces every rank's device memory and leaves host, caches and scratch lines, a host phase replaces host memory and leaves the ranks |
| History.ReceiveSeesLastLaunch | src/examples/host.cpp:86-115 | in every run, a receive gives each buffer what the last launch left in its MRAM range, with any receives and host computation between them and anything before |
| History.ReceiveSeesLastSend | src/pim_interface/direct_interface.hpp:198-442 | in every run, a receive gives each buffer what the last send put into the addresses that both ranges cover, for any two ranges and buffer lists |
| History.SendLaunchReceive | src/examples/host.cpp:80-115 | a send, launch, host computation, receive run exists for every outcome of launch and computation; each buffer ends as its MRAM range was left by the launch, every other host byte as it was left by the computation |
| History.ScheduledLoadSeesDevice | src/pim_interface/direct_interface.hpp:176-183 | each load at each point of each receive schedule returns device memory |
| History.ReceiveScheduleIrrelevant | src/pim_interface/direct_interface.hpp:632-658 | any two loop orders and schedules of a receive end in the same host memory |
| History.SendScheduleIrrelevant | src/pim_interface/direct_interface.hpp:754-767 | any two schedules of a send end in the same device memory |
| History.RoundTrip | src/pim_interface/direct_interface.hpp:198-442 | for all nine mode pairs and all schedules, sending, overwriting the host and receiving the same range restores every present buffer and writes no other host byte |
| Slots.NumberingIsBijective | src/pim_interface/direct_interface.hpp:688-704 | counting enabled slots in scan order is an order-preserving bijection onto 0..nr_of_dpus-1, with SlotOfDpu as inverse |
| Slots.CompactionDelivers | src/pim_interface/direct_interface.hpp:730-746 | buffer k goes to the slot of DPU k, and a slot's address is null exactly when the slot is disabled, provided no buffer address is null |
| Slots.AlignBuffers | src/pim_interface/direct_interface.hpp:730-746 | the nested scan fills every rank's window of the address table accordingly |
| Slots.RankIds | src/pim_interface/direct_interface.hpp:71-84 | the separate scan records for DPU k the rank of the slot that gets buffer k |
| Requests.TranslationRemovesMarker | src/pim_interface/direct_interface.hpp:727-728 | for an MRAM symbol the exclusive-or subtracts the marker bit; the offset is added modulo 2^32 |
| Requests.MramSymbolIffMarked | src/pim_interface/direct_interface.hpp:707 | an address is dispatched to MRAM if and only if its bit 27 is set |
| Requests.MramSymbols | src/pim_interface/direct_interface.hpp:707-728 | 0x800_0000 + a translates to a plus the offset for a below 64 MB; addresses below 0x800_0000 are not MRAM symbols |
| Requests.RequestSeparate | src/pim_interface/direct_interface.hpp:688-704 | disjoint user buffers become disjoint rank transfers |
| Requests.SentToDpu | src/pim_interface/direct_interface.hpp:720-767 | the rank contracts give the per-DPU contract: DPU k's range equals its buffer, the rest of its MRAM is kept |
| Requests.ReceivedFromDpu | src/pim_interface/direct_interface.hpp:632-658 | the rank contracts give the per-DPU contract: buffer k equals DPU k's range |
| DirectInterface.DirectPimInterface.constructor | src/pim_interface/direct_interface.hpp:57-84 | the constructed interface knows the rank of every DPU |
| DirectInterface.DirectPimInterface.DirectAvailable | src/pim_interface/direct_interface.hpp:444-456 | false for an asynchronous transfer, otherwise true if and only if every rank is in PERF mode |
| DirectInterface.DirectPimInterface.GetRankIdOfDpu | src/pim_interface/direct_interface.hpp:794-797 | returns the rank whose slot DPU k's buffer is assigned to |
| DirectInterface.DirectPimInterface.SendToPIM | src/pim_interface/direct_interface.hpp:720-787 | every DPU's MRAM becomes its old contents with the buffer at the buffer offset stored at (symbol address - 0x800_0000 + symbol offset) mod 2^32; each rank meets the send contract, the host is untouched |
| DirectInterface.DirectPimInterface.ReceiveFromPIM | src/pim_interface/direct_interface.hpp:679-718 | for an address with bit 27 set, every buffer holds its DPU's MRAM from (symbol address - 0x800_0000 + symbol offset) mod 2^32; otherwise its first 4*(length/4) bytes are the DPU's WRAM words from word ((symbol address + symbol offset) mod 2^32)/4; other host bytes and device memory are kept and no addressed line stays cached |
| SymbolRoundTrip.SendOverwriteReceive | src/pim_interface/direct_interface.hpp:679-787 | sending to a symbol, overwriting all of host memory and receiving from the same symbol restores every buffer, for any symbol offset and buffer offset, and leaves every other byte as overwritten |
| DirectInterface.DirectPimInterface.ReceiveFromMRAM | src/pim_interface/direct_interface.hpp:632-658 | every buffer receives its DPU's translated range, device memory is kept, no addressed line stays cached |
| DirectInterface.DirectPimInterface.ReceiveFromRanks | src/pim_interface/direct_interface.hpp:645-658 | the rank loop is a schedule of the ranks' programs and collects device contents |
| DirectInterface.DirectPimInterface.ReceiveFromWRAM | src/pim_interface/direct_interface.hpp:608-630 | the symbol's address and the offset are added modulo 2^32; every buffer receives the whole words of its DPU's WRAM range |
| Wram.MaskedRead | src/pim_interface/direct_interface.hpp:515-518 | a masked read fills the buffers of the selected interfaces and touches no other byte |
| Wram.ReceiveFromRankWRAM | src/pim_interface/direct_interface.hpp:465-521 | although the pointer array is never cleared, every present buffer is filled from its own DPU and no other byte changes |
| ExampleDpu.TransferSizeIsWhole | src/examples/dpu.c:36-37 | the rounded transfer size of a chunk is its byte size, at most 2048 |
| ExampleDpu.Dpu.CheckChunk | src/examples/dpu.c:40-53 | the inner loop's count is the number of positions so far whose element is not the pattern's; the chunk's elements are tagged |
| ExampleDpu.Dpu.VerifyAndModify | src/examples/dpu.c:28-58 | on any heap: element j below the size becomes (old + dpu * 2^32 + j) mod 2^64 and no other changes; the error count is the number of positions that did not hold the pattern; the loop terminates |
| ExampleDpu.Dpu.Run | src/examples/dpu.c:65-75 | with size zero nothing is checked and the error count keeps its old value, otherwise it is the number of positions that did not hold the pattern |
| ExampleDpu.NoMismatchIffPattern | src/examples/dpu.c:40-50 | no mismatch is counted if and only if the heap holds the pattern |
| ExampleDpu.MismatchesCount | src/examples/dpu.c:40-50 | the mismatch count is the size of the set of mismatching positions |
| ExampleDpu.TaggedElements | src/examples/dpu.c:51-53 | tagging adds dpu * 2^32 + j modulo 2^64 to the elements below the size only |
| ExampleDpu.ExpectedValueFields | src/examples/dpu.c:23-25 | the pattern by fields: DPU number in the top 16 bits, j * 2654435761 mod 2^64 and the seed in all |
| ExampleDpu.ExpectedValueInjective | src/examples/dpu.c:23-25 | values differing in one argument are equal exactly for equal seeds, equal indices, or DPU numbers equal modulo 2^16 |
| ExampleDpu.TagIsSum | src/examples/host.cpp:123-124 | for indices below 2^32 the DPU's or-ed tag equals the host's two additions modulo 2^64 |
| ExampleHost.TaggedPatternExpected | src/examples/host.cpp:117-133 | tagging the pattern yields exactly the values the host expects |
| ExampleHost.HostErrorsCount | src/examples/host.cpp:121-131 | the host's count is the size of the set of words that are not (pattern + dpu * 2^32 + j) mod 2^64 |
| ExampleHost.ExampleEndToEnd | src/examples/host.cpp:64-133 | after fill, send, DPU program and receive no host comparison fails; the DPU reports zero errors if the size is positive and its previous count otherwise |
| Launch.RunOnSlot | src/examples/dpu.c:28-75 | a DPU's program changes its own MRAM range as specified and no other slot's MRAM |
| HostBuffers.FillBuffers | src/examples/host.cpp:64-69 | the fill loops leave the given value in every word of every buffer |
| Words.WordIsLittleEndian | src/examples/host.cpp:66-68 | a 64-bit word of a buffer is its eight bytes, lowest first |
| HostBuffers.ClearBuffers | src/examples/host.cpp:110-113 | every buffer byte becomes 0xFF |
| HostBuffers.PoolSeparate | src/examples/host.cpp:56-62 | buffers no longer than their stride do not overlap |
| HostBuffers.PoolAcceptable | src/benchmark/host.cpp:244-255 | a pool laid out by stride satisfies what a transfer of all DPUs asks of its buffers |
| ExampleRun.LaunchAll | src/examples/host.cpp:86-87 | every DPU runs on its own range and leaves the others' alone |
| ExampleRun.CheckBuffer | src/examples/host.cpp:119-131 | the result is the number of unexpected words of one buffer |
| ExampleRun.CheckBuffers | src/examples/host.cpp:117-133 | the result is the number of DPUs whose buffer holds an unexpected word |
| ExampleRun.CountErrors | src/examples/host.cpp:98-106 | the result is the number of DPUs that report errors |
| ExampleRun.TestMRAMWithDPU | src/examples/host.cpp:50-135 | the whole test on the interface and the mapped regions: no host failure, word j of buffer k ends as (pattern + k * 2^32 + j) mod 2^64, and the DPUs with errors are none, or, for size zero, those with a stale count |
| Benchmark.MramTest | src/benchmark/dpu.c:33-38 | word j becomes (old + dpu * 2^48 + j) mod 2^64 if j is a multiple of 256 below 818688; no other word changes |
| Benchmark.TouchedWords | src/benchmark/dpu.c:33-38 | the same of the function that describes the loop |
| Benchmark.HostValueIs | src/benchmark/host.cpp:307-311 | the host expects (sent + dpu * 2^48 + j) mod 2^64 at multiples of 256 and the value sent elsewhere |
| Benchmark.CheckHoldsIff | src/benchmark/host.cpp:304-312 | the host's check of word j holds if and only if j is no multiple of 256 or below 818688 |
| Benchmark.RunOnSlot | src/benchmark/dpu.c:33-38 | the loop on a slot of a mapped region tags the range accordingly and leaves other slots alone |
| Benchmark.ChecksHoldIffWithinRange | src/benchmark/host.cpp:304-312 | whatever was sent, all host checks of a buffer hold if and only if it is no longer than the range the DPU walks |
| Benchmark.BenchmarkEndToEnd | src/benchmark/host.cpp:274-314 | after send, DPU loop and receive the host checks pass if and only if the size is at most 6396 KB |
| Benchmark.EightMegabytesFail | src/benchmark/host.cpp:420-424 | of an 8 MB buffer the multiples of 256 below word 818688 are tagged and pass, that word and every later multiple fails |
| BenchmarkRun.LaunchAll | src/benchmark/host.cpp:290 | every DPU's range is tagged by its own loop |
| BenchmarkRun.CheckReceived | src/benchmark/host.cpp:304-314 | the check loops succeed exactly when every assertion of every word holds |
| BenchmarkRun.ThroughputRepetition | src/benchmark/host.cpp:274-314 | one whole repetition on the interface and the mapped regions, for any hash: it succeeds if and only if the size is at most 6396 KB or there is no DPU, and word j of buffer k ends as the hash of k * 2^50 + j * 2^20 + repeat, tagged at multiples of 256 below 818688 |
| Benchmark.CombineIsSum | src/benchmark/host.cpp:257-262 | within the asserted ranges the or-ed shifts are a sum of disjoint fields |
| Benchmark.CombineInjective | src/benchmark/host.cpp:257-264 | within the asserted ranges different (DPU, word, repetition) triples give different hash inputs |
| BenchmarkRun.GeneratedValue | src/benchmark/host.cpp:257-265 | within the asserted ranges the value is the hash of i * 2^50 + j * 2^20 + repeat |

## Left out

- RankTransfers.MappedRank.StreamStore: write-combining buffers are not modelled, because `mfence` is taken as a full barrier and each 64-byte streaming store as atomic.
- RankTransfers.LoadAndScatter: in schedules one load-and-scatter is a single step, because its eight loads and eight stores touch one line and eight buffers that no other rank uses.
- DirectInterface.DirectPimInterface.ReceiveFromPIM: the symbol is given by its address, because symbol names and their lookup belong to the SDK; the check that an MRAM symbol is the heap pointer is therefore absent.
- Launch.RunOnSlot: what the program leaves of its own MRAM outside the checked range is stated by `ExampleDpu.Dpu.VerifyAndModify` on the heap, not again on the region.
- Benchmark.CombineInjective: the hash itself is an unknown function; only its input is modelled.
- BenchmarkRun.ThroughputRepetition: the repetition loop stops on measured time, so one repetition with an arbitrary counter is modelled.
- ExampleRun.TestMRAMWithDPU: seed, size and error count reach the DPU through WRAM symbols in the code; here they are arguments and an array, while the WRAM receive has its own contract.
- Speculative hardware prefetching, store buffering and pointer arithmetic beyond the address space.
- Prefetches of host buffers, which only hint, and all timing, sampling and statistics.
- The SDK: allocation, loading, multiplexer switching, launching, UPMEM transfers. Its transfer-matrix index is an arbitrary bijection and its masked WRAM read is modelled by `Wram.MaskedRead`.
- Launch error handling, destructors, the global singleton, the UPMEM wrapper classes and the broadcast benchmark.
- The WRAM round-trip test and the WRAM benchmark loop, which would add only easier members.
- Printing, argument parsing, CSV output, plotting and build scripts.
