# Verified models of the shared-cache builder, the 16X50 serial driver and their neighbours

This project models the parts of the repository whose correctness spans many steps or many
threads, and proves what they keep. Mutable objects of the source are classes, in-place
algorithms work on arrays, and each method is proved against a function of its inputs or of the
old state; the properties are then proved of those functions.

- **Shared-cache builder** (`Layout`, `Linker`, `RipPatch`, `TextScan`, `Uleb`, `Rebase`,
  `ChainedFixups`, `ChainPacking`, `SlideInfo`, `SlideInfoBuilder`, `CacheBuild`). Segments of many
  libraries are placed in three regions and copied; code that reaches data is patched; rebase streams and
  chained fixups are applied to pointer slots in place; at last every pointer slot becomes a link of a
  per-page delta chain. The results say that every address still refers to the byte it referred to, that
  streams and chains written down for any slots are read as those slots, and that a loader written from the format recovers the memory; put
  together, that every recorded pointer, rebased or chained, arrives at the copy of the byte it
  pointed at.
- **Serial driver** (`EventFifo`, `EventQueue`, `StateWatch`, `PortOwnership`, `FlowControl`,
  `TransmitEngine`, `BaudDivisor`). The ring of words is a FIFO with losses marked in place; threads
  that sleep on the state word or on the port miss no wakeup and are never lost; flow characters
  alternate; the chip's FIFO is never overfilled and data that may be sent is sent; the divisor chosen is the best one.
- **PS/2 controller** (`KeyStream`, `SecondChance`, `CommandByte`). Every byte of the shared port and of
  the keyboard interrupt is returned or dispatched once, or dropped on a full queue; the order of
  keyboard bytes and the effect of concurrent changes of the command byte are kept under exact
  conditions.
- **PIIX ATA driver** (`PrdTable`). The descriptor table covers exactly the requested bytes.
- **Package extractor** (`PathCache`). Extraction through the directory cache is extraction without it.

`Bits` and `Memory` hold the machine words and little-endian memory they share; `Wrappers` and
`SerialMacros` one definition each.

## Where the code falls short of a simple claim

Each of these is stated as the code has it, with the exact condition.

- A pointer equal to the shared-region base is encoded like a null pointer. The slide-info round trip
  holds exactly when no slot holds it (`SlideInfo.SlideInfoRoundTrip`, `CacheBuild.EncodePointers`).
- One code-to-data delta serves a whole library. It is right for all its data segments exactly when
  they are page-contiguous (`RipPatch.OneSlideIffContiguous`), and for one displacement exactly when
  the segment it reaches slides like the first one (`TextScan.PatchedInstructionReaches`).
- Stubs are patched without asking where they lead. A stub keeps its target exactly when the segment
  of the target slides like the first data segment (`RipPatch.PatchedStubReaches`); one that goes
  through the text segment loses it (`RipPatch.StubIntoTextBreaks`).
- Starting the transmit engine sets the busy bit without a wakeup. A watch can be slept through exactly
  when it waits for that bit to be set (`StateWatch.SleptThroughIff`).
- Losses next to each other in the input may leave adjacent markers (`EventFifo.AdjacentMarkers`). There
  is one marker per maximal run of losses exactly when no delivery falls between two losses with
  nothing accepted between them (`EventFifo.OneMarkerPerInputBurst`).
- Looking past the last event does not always give the empty code: on a ring that is not full the
  source takes the stale words there for events (`EventQueue.Queue.PeekEvent`).
- The flow control machine cannot tell a character that was cancelled from one that was sent. From idle it
  sends what it should exactly when the first want is not reversed before the transmitter runs
  (`FlowControl.FromIdle`, `FlowControl.LostXOff`).
- A divisor survives its registers exactly below 0xff00 (`BaudDivisor.ReadBack`); the chosen ones all do.
- A keyboard byte that a mouse read takes off the port overtakes those queued. Arrival order is kept
  exactly when this never happens while any is queued (`KeyStream.KeyboardOrder`, `SecondChance.OvertakingRead`).
- Stray bytes before the controller's answer can make the test-and-set store over another change, exactly
  when one of the first two is the compared value (`CommandByte.ChangeLostIff`). Over whole runs all
  updates compose exactly when no such store matters (`CommandByte.ComposedIff`).
- The table of locations for slide info is limited. All recorded pointers are slid exactly when the
  limit is kept; those beyond it come out unslid (`CacheBuild.WithinLimit`, `CacheBuild.BeyondLimit`).
- Any thread may release an acquired port. Two threads can then both believe to hold it
  (`PortOwnership.ForeignRelease`); not if only holders release (`PortOwnership.BelieversHold`).
- Physical segments that touch are not merged, so the descriptor table is smallest segment by segment
  but not over all (`PrdTable.FewestForRange`, `PrdTable.SegmentsNotMerged`).
- The high band is reported as unchanged when the level is back at the high mark; every other quiet
  report is right (`EventQueue.QuietBand`).
- The comment on the slide-info format gives the link distance in units of eight bytes; the code
  shifts it so that the unit is four bytes, like the page starts. The model follows the code.

## Model

| member | source | states |
|---|---|---|
| Linker.ReferentsPreserved | tools/build_shared_cache_real.c:886-904 | For every library, segment and source address in it: the address translated by the builder, mapped through the cache's three mappings, is the offset of the copy of the very byte it pointed at, or of a zero where the file holds none |
| Linker.Builder.AssignAddresses | tools/build_shared_cache_real.c:314-390 | Both passes: every library keeps its source description, all segments together are laid out by the plan made in the first pass, after page-rounded room for the metadata, and the new buffer is zero, holds the whole plan and after it page-rounded room for the slide info of every data page |
| Linker.MeasureRegions | tools/build_shared_cache_real.c:317-329 | First pass: the three region sizes are the sums of page-rounded segment sizes |
| Linker.PlaceLibrary | tools/build_shared_cache_real.c:363-389 | Second pass, inner loop: continues the placement of all earlier libraries' segments and keeps what comes from the source |
| Linker.PlaceAllIsPlaced | tools/build_shared_cache_real.c:363-389 | Placing all segments does not disturb what later places are computed from |
| Linker.Builder.CopySegments | tools/build_shared_cache_real.c:407-423 | The buffer becomes the old one with each segment's file contents spliced in at its place, in order, a segment that would not fit skipped |
| Linker.CopyBytes | tools/build_shared_cache_real.c:411-420 | One guarded copy |
| Linker.CopiedByte | tools/build_shared_cache_real.c:407-423 | After all copies each file byte is at its segment's place plus its offset, whatever was copied later |
| Linker.UncopiedByte | tools/build_shared_cache_real.c:407-423 | A byte in nobody's contents is untouched by all copies |
| Linker.ContentsApart | tools/build_shared_cache_real.c:407-423 | Under the layout, contents of any two segments of any libraries do not overlap |
| Linker.ZeroFill | tools/build_shared_cache_real.c:407-423 | The part of a segment's memory that its file does not cover is in nobody's contents |
| Layout.SegmentInRegion | tools/build_shared_cache_real.c:342-348 | Each segment's room lies inside its region, at the same distance from the region's start in the file and in memory |
| Layout.SegmentAligned | tools/build_shared_cache_real.c:363-389 | Every place starts on a page boundary, in the file and in memory |
| Layout.SegmentsDisjoint | tools/build_shared_cache_real.c:363-389 | No two segments share a byte of the file, nor an address if the regions fit their address gaps |
| Layout.MapsToPlace | tools/build_shared_cache_real.c:1525-1535 | Mapping an address of a segment's room through the cache's mappings gives its place in the file |
| Layout.FindUnique | tools/build_shared_cache_real.c:893-896 | With disjoint source segments the first-match search finds the segment that holds the address |
| RipPatch.OneSlideIffContiguous | tools/build_shared_cache_real.c:560-567 | The single code-to-data delta is right for all data segments of a library if and only if they are page-contiguous in the source |
| RipPatch.NextDataPlace | tools/build_shared_cache_real.c:363-389 | In the cache, consecutive data segments of a library follow each other without a gap |
| RipPatch.SlidesAgree | tools/build_shared_cache_real.c:560-567 | Page-contiguous data segments all get the same slide |
| RipPatch.PatchedReachesExactly | tools/build_shared_cache_real.c:560-567 | An adjusted displacement reaches the cache address of its old target if and only if the target's segment slides like the first data segment |
| RipPatch.PatchedReachesTarget | tools/build_shared_cache_real.c:549-567 | With one data slide every adjusted displacement into data reaches the cache address of its old target |
| RipPatch.LoadStoredDisp | tools/build_shared_cache_real.c:727-735 | A signed 32-bit displacement survives its trip through four little-endian bytes |
| RipPatch.PatchStub | tools/build_shared_cache_real.c:723-737 | One stub: a jump's displacement moves by exactly the delta, anything else stays; it aborts exactly when the sum leaves 32 bits; no byte outside changes |
| RipPatch.PatchStubs | tools/build_shared_cache_real.c:709-743 | All stubs, in place: success if and only if every original displacement still fits, then each stub is its original with the displacement moved; no byte outside the section changes |
| RipPatch.PatchLibraryStubs | tools/build_shared_cache_real.c:709-743 | A library's stubs: aborts exactly when a displacement leaves 32 bits; else each jump, from its new address, goes through the cache address of its old target if and only if the segment of that target slides like the first data segment; no byte outside the section changes |
| RipPatch.PatchedStubReaches | tools/build_shared_cache_real.c:723-737 | The same for one stub, whatever segment it goes through, since stubs are patched without asking whether they reach data |
| RipPatch.StubIntoTextBreaks | tools/build_shared_cache_real.c:723-737 | A stub that goes through its own text segment loses its target whenever the delta is not zero |
| TextScan.PatchTextSection | tools/build_shared_cache_real.c:820-848 | The in-place byte scan computes the scan function of the section's original bytes and changes nothing outside the section |
| TextScan.ClearPatch | tools/build_shared_cache_real.c:826-848 | In a scan that does not abort, a displacement that no other patch overlaps ends as its original value, plus the delta if its position is patched |
| TextScan.PatchedWhenWanted | tools/build_shared_cache_real.c:826-848 | A position is patched if and only if the scan, on reaching it, decodes a displacement into data |
| TextScan.UndisturbedPatch | tools/build_shared_cache_real.c:826-848 | Where no earlier patch touched what the decision looks at, a position is patched if and only if its original displacement reaches data |
| TextScan.DecidedByOriginal | tools/build_shared_cache_real.c:826-848 | Where no earlier patch touched the displacement or the bytes its decoding looks at, the scan decides and decodes as the original bytes say |
| TextScan.OriginalBefore | tools/build_shared_cache_real.c:826-848 | Up to such a position the scan still shows its original bytes |
| TextScan.ScanBetween | tools/build_shared_cache_real.c:826-848 | Between two positions the scan only adds patches there and touches only their bytes |
| TextScan.OtherBytesKept | tools/build_shared_cache_real.c:826-848 | Every byte outside the patched displacements is as before |
| TextScan.PatchedInstructionReaches | tools/build_shared_cache_real.c:789-849 | A patched displacement that no other patch overlaps reaches, from its new address and with the immediate length the scan decoded, the cache address of the byte its original displacement reached, if and only if that byte's segment slides like the first data segment |
| TextScan.PatchedInstructionsReach | tools/build_shared_cache_real.c:789-849 | With one data slide every patched displacement that no other patch overlaps reaches the cache address of its old target |
| Uleb.ReadUleb128 | tools/build_shared_cache_real.c:232-236 | The shift-and-or loop returns the positional value of the operand modulo 2^64 and the position after its first byte without the high bit |
| Uleb.RoundTrip | tools/build_shared_cache_real.c:232-236 | Every 64-bit value encoded as ULEB128 (section 7.6 of DWARF version 4) is read back, wherever it stands in the data |
| Rebase.ApplyRebases | tools/build_shared_cache_real.c:909-949 | Interpreting the byte stream in place is rebasing, in order, the slots that the parsed stream names, and records the data slots whose pointer was translated; for bytes that write down a list of slots by any of the opcodes, exactly the slots of that list |
| Rebase.StreamMeansExpansion | tools/build_shared_cache_real.c:923-944 | A stream names the same slots as the stream with every run-length and skipping opcode written out as single-slot opcodes |
| Rebase.OpMeans | tools/build_shared_cache_real.c:927-943 | Each opcode in closed form: the slots it names are an arithmetic progression from the current offset, and the offset it leaves behind is given, modulo 2^64 |
| Rebase.StreamReads | tools/build_shared_cache_real.c:923-944 | Bytes that spell opcodes, operands in LEB128 or in the low half of the first byte, read back as these opcodes, up to the end or a stop opcode |
| Rebase.WrittenNames | tools/build_shared_cache_real.c:923-944 | From bytes to slots: a stream that writes down a list, each item by its segment, its offset and one way to go on (runs, runs with gaps, a skip, an advance), names exactly the slots of the list, in order |
| Rebase.OneByOneNames | tools/build_shared_cache_real.c:928-935 | Any list of slots can be written slot by slot, and names that list |
| Rebase.OffsetsMean | tools/build_shared_cache_real.c:877-889 | The places touched are exactly those of the listed slots that lie inside the buffer |
| Rebase.RebasedMeans | tools/build_shared_cache_real.c:890-898 | The new value of a pointer keeps its distance from the start of the first segment that holds it |
| Rebase.RebaseAllPointwise | tools/build_shared_cache_real.c:886-907 | After the stream each named slot holds its original pointer translated once and every other byte is as before |
| Rebase.OrderAndRepetitionIrrelevant | tools/build_shared_cache_real.c:886-949 | Two streams that name the same slots leave the same memory, whatever the order and however often a slot is named |
| Rebase.RebasedTwice | tools/build_shared_cache_real.c:886-907 | Translating a translated pointer changes nothing when cache addresses are not source addresses |
| Rebase.RecordedOnce | tools/build_shared_cache_real.c:886-907 | However often a stream names a slot, its location is recorded at most once |
| Rebase.RecordedMeans | tools/build_shared_cache_real.c:886-907 | Only named slots whose original pointer is translated are recorded; a place whose slots are all in data segments is recorded exactly then |
| Rebase.DoRebase | tools/build_shared_cache_real.c:877-907 | One slot: its place is the sum, as a 64-bit word, of its segment's place and its offset; a pointer into a segment moves with the first segment that holds it, null and other pointers and slots outside the buffer are left alone, other bytes stay, and the place is recorded exactly for a translated pointer of a data segment |
| Rebase.RebaseRun | tools/build_shared_cache_real.c:933-942 | A repetition rebases its run of slots and leaves the offset after it, modulo 2^64 |
| Rebase.Perform | tools/build_shared_cache_real.c:927-943 | Each opcode's effect on memory, offset and recorded locations |
| Rebase.ReadHead | tools/build_shared_cache_real.c:924-943 | Reading an opcode and its operands agrees with the grammar |
| ChainedFixups.WalkPages | tools/build_shared_cache_real.c:1241-1312 | All pages of a segment, continuing from the segments before it |
| ChainedFixups.WalkChain | tools/build_shared_cache_real.c:1248-1312 | One chain of the walk, continuing from the chains before it |
| ChainedFixups.RebaseReachesTarget | tools/build_shared_cache_real.c:1272-1303 | A rebase slot whose target lies in a segment becomes the cache address of that target with its high byte put back |
| ChainedFixups.WalkSegments | tools/build_shared_cache_real.c:1226-1316 | All segments of a library: although every link is overwritten as it is followed, the walk visits exactly the slots of the original chains, each becomes the fixup of its original word in its segment's format, all other bytes stay, the data slots are recorded in order, and it ends |
| ChainedFixups.SitesSame | tools/build_shared_cache_real.c:1226-1316 | The chains of a library depend only on the words of their own slots |
| ChainPacking.LinkReadsBack | tools/build_shared_cache_real.c:1251-1253 | The link and the import mark of a packed word read back |
| ChainPacking.PointerReadsBack | tools/build_shared_cache_real.c:1273-1274 | The target and the high byte of a packed pointer read back |
| ChainPacking.ImportReadsBack | tools/build_shared_cache_real.c:1256-1257 | The ordinal and the signed addend of a packed import read back |
| ChainPacking.FixupIsMeant | tools/build_shared_cache_real.c:1255-1303 | A packed word becomes what its fields mean: the cache address of its target with the high byte put back, or the address its import resolves to plus the addend, or null |
| ChainPacking.AddressMeans | tools/build_shared_cache_real.c:1284-1301 | A pointer keeps its distance from the start of the segment it points into |
| ChainPacking.ChainOfLinks | tools/build_shared_cache_real.c:1248-1312 | For every ascending list of slots, a multiple of four and less than 0x4000 bytes apart, packed as a chain: the chain from the first slot runs through exactly that list |
| ChainPacking.PagesOfLinks | tools/build_shared_cache_real.c:1241-1248 | All pages of a segment, from their page starts, give exactly the slots written, page by page |
| ChainPacking.SitesOfLinks | tools/build_shared_cache_real.c:1226-1316 | All segments of a library give exactly the slots written, each with its own pointer format |
| ChainPacking.WalkWritten | tools/build_shared_cache_real.c:1226-1316 | Walking a library whose chains were written from lists of slots: each listed slot becomes what its entry means, no other byte changes, and exactly the slots in the data region are recorded |
| SlideInfo.SlotRoundTrip | tools/build_shared_cache_real.c:1442-1470 | A link decodes to the distance and the slid pointer it was made from; the shared-region base decodes to null |
| SlideInfo.RoundTripExactly | tools/build_shared_cache_real.c:1442-1470 | A slot's pointer is recovered if and only if it is not the shared-region base itself |
| SlideInfo.SlideInfoRoundTrip | tools/build_shared_cache_real.c:1387-1470 | A loader written from the format visits every slot once in order, slides each pointer and restores every other byte, for every slide, exactly when no slot held the shared-region base |
| SlideInfo.DecodeChainRun | tools/build_shared_cache_real.c:1461-1470 | A page's chain runs through exactly the slots of its page |
| SlideInfo.DecodeLink | tools/build_shared_cache_real.c:1461-1470 | Decoding one link recovers its slot and leads to the next slot of the page |
| SlideInfo.DeltaField | tools/build_shared_cache_real.c:1468 | Every distance inside a page survives the shift and the mask |
| SlideInfo.ValueField | tools/build_shared_cache_real.c:1445-1459 | A value the builder accepts is the pointer less the base and has no bit in the delta field |
| SlideInfo.Encodes | tools/build_shared_cache_real.c:1446-1459 | Every address in the terabyte from the base on can be encoded, whatever its high byte |
| SlideInfoBuilder.GenerateSlideInfo | tools/build_shared_cache_real.c:1368-1474 | Aborts exactly when some recorded pointer cannot be encoded; otherwise a loader recovers the memory before encoding, for every slide, exactly when no slot held the shared-region base; the slots are those recorded, once each |
| SlideInfoBuilder.SortLocs | tools/build_shared_cache_real.c:1375 | The recorded locations ascending, a permutation, nothing beyond touched |
| SlideInfoBuilder.Deduplicate | tools/build_shared_cache_real.c:1376-1381 | In place: one copy of each location, in order |
| SlideInfoBuilder.EncodePages | tools/build_shared_cache_real.c:1404-1474 | All pages are chained from the original contents and every page start is right, or some pointer is not encodable |
| SlideInfoBuilder.EncodePage | tools/build_shared_cache_real.c:1436-1473 | One page's links are encoded from the original contents |
| CacheBuild.EncodePointers | tools/build_shared_cache_real.c:886-1474 | All passes together, rebase streams and chains of any number of libraries in one buffer: the build succeeds exactly when every word left in a kept slot can be encoded; then a loader at any slide ends with each such word slid and every other byte as the fixups left it, exactly when none of these words is the base of the shared region |
| CacheBuild.FixLibraries | tools/build_shared_cache_real.c:886-1312 | Fixing up library after library: each place touched holds what its own library makes of the original word there, every other byte is as before, and what is recorded is recorded once |
| CacheBuild.FixLibrary | tools/build_shared_cache_real.c:886-1312 | One library's rebases and then its chains |
| CacheBuild.RecordsMean | tools/build_shared_cache_real.c:886-1308 | A library records only pointers that it translates and chain slots in the data region, and all of these whose slots are in data segments |
| CacheBuild.NeverAborts | tools/build_shared_cache_real.c:1446-1458 | With segments laid out in their regions the build never aborts, as long as chain slots hold rebases into segments |
| CacheBuild.NamedEncodes | tools/build_shared_cache_real.c:1446-1458 | Every pointer translated by a stream can be encoded |
| CacheBuild.ChainedEncodes | tools/build_shared_cache_real.c:1446-1458 | So can every chained rebase into a segment, its high byte included |
| CacheBuild.WithinLimit | tools/build_shared_cache_real.c:203-210 | Every recorded place becomes a slot if and only if there are no more of them than the table holds |
| CacheBuild.BeyondLimit | tools/build_shared_cache_real.c:207-210 | A place recorded beyond the limit comes out of the loader unslid |
| CacheBuild.ChainedPointerReachesByte | tools/build_shared_cache_real.c:1241-1474 | A chained rebase arrives as the slid cache address of its target with its high byte put back, and that address is the copy of the byte the target names |
| CacheBuild.PointerReachesByte | tools/build_shared_cache_real.c:314-1474 | A rebased pointer arrives as the slid cache address of what it pointed at, and that address is the copy of the byte there |
| EventFifo.FifoWithMarkedLosses | src/Apple16X50Serial-24/Apple16X50Queue.cpp:66-126 | Every run of enqueues and dequeues: events delivered followed by events still owed are the initial ones followed by the input, cut to size class, with one marker at the place of each burst of losses, a burst being ended by an accepted event or a delivery |
| EventFifo.OneMarkerPerInputBurst | src/Apple16X50Serial-24/Apple16X50Queue.cpp:66-126 | Over every run there is one marker per maximal run of lost input events, deliveries ignored, if and only if no delivery falls between two losses with nothing accepted between them |
| EventFifo.MarkingsAgree | src/Apple16X50Serial-24/Apple16X50Queue.cpp:66-126 | The two markings of a trace are equal exactly then; otherwise the queue's is strictly longer |
| EventFifo.StepConserves | src/Apple16X50Serial-24/Apple16X50Queue.cpp:66-126 | One operation delivers and keeps exactly what was owed plus what it added |
| EventFifo.DrainDelivers | src/Apple16X50Serial-24/Apple16X50Queue.cpp:99-126 | As many dequeues as events are owed deliver all of them in order and leave the queue empty, unless an empty queue has lost something |
| EventFifo.SeenWholeIff | src/Apple16X50Serial-24/Apple16X50Queue.cpp:79-126 | A caller gets back exactly what was queued if and only if the data was of the event's size |
| EventFifo.EnqueueKeepsValid | src/Apple16X50Serial-24/Apple16X50Queue.cpp:79-94 | The queue never holds more words than its size |
| EventFifo.DequeueKeepsValid | src/Apple16X50Serial-24/Apple16X50Queue.cpp:111-121 | There is always room for the overrun marker after a removal |
| EventFifo.ParseAllWords | src/Apple16X50Serial-24/Apple16X50Queue.cpp:79-126 | The words of queued events read back as the same events |
| EventFifo.HeadWordSplit | src/Apple16X50Serial-24/Apple16X50Queue.cpp:86-103 | The first word carries the code and the low data byte side by side |
| EventFifo.AdjacentMarkers | src/Apple16X50Serial-24/Apple16X50Queue.cpp:111-121 | A full queue on which a delivery between two losses leaves two markers side by side |
| EventQueue.Queue.constructor | src/Apple16X50Serial-24/Apple16X50Queue.cpp:247-259 | A new queue is empty, of size 0 |
| EventQueue.Queue.PushWord | src/Apple16X50Serial-24/Apple16X50Queue.cpp:41-48 | The ring's contents grow by one word at the end, across the wrap |
| EventQueue.Queue.PullWord | src/Apple16X50Serial-24/Apple16X50Queue.cpp:53-64 | The ring's contents lose their first word |
| EventQueue.Queue.EnqueueEventTry | src/Apple16X50Serial-24/Apple16X50Queue.cpp:79-94 | Accepts exactly when no loss is pending and the words of its size code fit beside those queued; then the queued events grow by it, cut to its size class |
| EventQueue.Queue.EnqueueEvent | src/Apple16X50Serial-24/Apple16X50Queue.cpp:69-73 | The ring implements the abstract enqueue; the overrun flag is up afterwards exactly when it was or the event does not fit |
| EventQueue.Queue.PullEvent | src/Apple16X50Serial-24/Apple16X50Queue.cpp:102-110 | Takes the words of exactly one event |
| EventQueue.Queue.DequeueEvent | src/Apple16X50Serial-24/Apple16X50Queue.cpp:99-126 | Removes and delivers the oldest event with its data, or the empty code; a pending loss puts its marker last |
| EventQueue.Queue.PeekEvent | src/Apple16X50Serial-24/Apple16X50Queue.cpp:132-154 | Walks the ring to the code of the event at the given depth; past the last event the empty code on a full ring and at depths of at least the word count, else the code found by walking on over stale words |
| EventQueue.HeadAt | src/Apple16X50Serial-24/Apple16X50Queue.cpp:132-154 | Event k starts right after the words of the events before it |
| EventQueue.Queue.GetState | src/Apple16X50Serial-24/Apple16X50Queue.cpp:156-188 | The band of the fill level and the thresholds that go with it |
| EventQueue.QuietBand | src/Apple16X50Serial-24/Apple16X50Queue.h:54-55 | While neither threshold fires, the band last reported is the current one, except that High is kept when the level is back at the high mark |
| EventQueue.Queue.Flush | src/Apple16X50Serial-24/Apple16X50Queue.cpp:190-199 | Empties the queue and forgets a pending loss |
| EventQueue.Queue.SetSize | src/Apple16X50Serial-24/Apple16X50Queue.cpp:201-223 | Resizes and empties; a non-zero size leaves marks with room for the biggest event on every side |
| EventQueue.Queue.SetLowWater | src/Apple16X50Serial-24/Apple16X50Queue.cpp:225-234 | Sets the low mark, pushes the high mark up, keeps the distances between marks |
| EventQueue.Queue.SetHighWater | src/Apple16X50Serial-24/Apple16X50Queue.cpp:236-245 | Sets the high mark, pulls the low mark down, establishes the distances between marks |
| StateWatch.NoLostWakeupEver | src/Apple16X50Serial-24/Apple16X50UARTSync.cpp:202-311 | Any number of threads, any interleaving of steps at the gate: every sleeping watcher's bits are registered and none of them has the value waited for, the busy bit waited for to be set excepted |
| StateWatch.StepKeeps | src/Apple16X50Serial-24/Apple16X50UARTSync.cpp:202-311 | Each step keeps that invariant |
| StateWatch.CallsKept | src/Apple16X50Serial-24/Apple16X50UARTSync.cpp:202-311 | No call is ever lost: in every run the sleeping and the awakened threads are exactly the callers that were told to sleep and have not been told anything else, none twice, each with the watch it asked for |
| StateWatch.StepAccounts | src/Apple16X50Serial-24/Apple16X50UARTSync.cpp:202-311 | Each step keeps that account |
| StateWatch.SleepEnds | src/Apple16X50Serial-24/Apple16X50UARTSync.cpp:202-311 | A thread leaves the sleepers only by running again or by being awakened, and an awakened thread stays so until it runs |
| StateWatch.MatchAwakens | src/Apple16X50Serial-24/Apple16X50UARTSync.cpp:205-212 | Publishing a change of a bit that a sleeper waits for awakens it, with its watch |
| StateWatch.PublishedMatchReturns | src/Apple16X50Serial-24/Apple16X50UARTSync.cpp:202-311 | In any run, from the published change to the return: the sleeper is awakened, stays awakened whatever others do, and when it runs on an online port goes back to sleep exactly when by then nothing it asked for holds |
| StateWatch.UnconcernedSleepOn | src/Apple16X50Serial-24/Apple16X50UARTSync.cpp:210-212 | A change that touches no registered bit awakens nobody |
| StateWatch.MaskOwnedEver | src/Apple16X50Serial-24/Apple16X50UARTSync.cpp:287-308 | While the port is not taken away, every registered bit is one that a call which has not returned asked for |
| StateWatch.TerminateAwakens | src/Apple16X50Serial-24/Apple16X50UARTSync.cpp:1036-1038 | Taking the port away awakens every caller, and each is told so |
| StateWatch.StateBits | src/Apple16X50Serial-24/Apple16X50UARTSync.cpp:205-207 | What each step does to each bit of the state word |
| StateWatch.PreparedMeans | src/Apple16X50Serial-24/Apple16X50UARTSync.cpp:265-280 | The prepared watch ends exactly when one of the caller's bits has the wanted value or the port is inactive and the caller asked for neither acquisition nor activity |
| StateWatch.SleepersDoNotMatch | src/Apple16X50Serial-24/Apple16X50UARTSync.cpp:259-311 | A watcher not waiting for busy to be set sleeps only while nothing it waits for holds |
| StateWatch.BusyWatchSleepsOn | src/Apple16X50Serial-24/Apple16X50UARTSync.cpp:1204-1212 | Every watch for the busy bit to be set can be slept through: from a state in which nothing matches, starting the transmit engine sets the bit without waking its watcher |
| StateWatch.SleptThroughIff | src/Apple16X50Serial-24/Apple16X50UARTSync.cpp:202-311 | Some run leaves a thread asleep in a watch that matches if and only if the watch waits for the busy bit to be set |
| StateWatch.PreparedEver | src/Apple16X50Serial-24/Apple16X50UARTSync.cpp:265-269 | In every run all watches kept are ones some caller asked for |
| StateWatch.SuccessMeansMatch | src/Apple16X50Serial-24/Apple16X50UARTSync.cpp:265-280 | A watch that ends with success ends because one of the caller's own bits matched |
| StateWatch.Driver.SetStateGated | src/Apple16X50Serial-24/Apple16X50UARTSync.cpp:202-217 | The new state bit by bit; the invariant kept; nobody lost; every sleeper on a changed bit awakened, and nobody if no registered bit changes |
| StateWatch.Driver.FinishInterrupt | src/Apple16X50Serial-24/Apple16X50UARTSync.cpp:1451-1464 | Publishing the interrupt handler's state: the invariant kept, nobody lost, every sleeper on a changed bit awakened, and nobody if no registered bit changes |
| StateWatch.Driver.WatchTurn | src/Apple16X50Serial-24/Apple16X50UARTSync.cpp:270-291 | One turn of the watch loop returns or registers and sleeps |
| StateWatch.Driver.WatchStateGated | src/Apple16X50Serial-24/Apple16X50UARTSync.cpp:259-290 | A watch up to its return or first sleep: inactive, success and sleep in terms of the caller's own bits, nobody else lost |
| StateWatch.Driver.ResumeWatch | src/Apple16X50Serial-24/Apple16X50UARTSync.cpp:290-311 | A resumed watch: offline, timeout and abort results, and else the verdict on what the caller asked for; nobody else lost |
| StateWatch.Driver.StartTxEngine | src/Apple16X50Serial-24/Apple16X50UARTSync.cpp:1204-1212 | Sets the busy bit unless offline, wakes nobody |
| PortOwnership.OwnedEver | src/Apple16X50Serial-24/Apple16X50UARTSync.cpp:80-172 | Any number of acquirers, every interleaving: at most one holder, and no sleeper on a free port without an awakened acquirer |
| PortOwnership.StepKeepsOwned | src/Apple16X50Serial-24/Apple16X50UARTSync.cpp:80-172 | Each step keeps that invariant |
| PortOwnership.AcquirersKept | src/Apple16X50Serial-24/Apple16X50UARTSync.cpp:80-172 | No acquirer is lost in any run: the sleeping and the awakened threads are exactly the acquirers told to sleep and not answered since, none twice |
| PortOwnership.StepAccounts | src/Apple16X50Serial-24/Apple16X50UARTSync.cpp:80-172 | Each step keeps that account |
| PortOwnership.GivingUpAwakens | src/Apple16X50Serial-24/Apple16X50UARTSync.cpp:128-166 | Releasing the port, or failing to acquire it, awakens exactly one sleeper of an online port and every one of a port that is going away |
| PortOwnership.TerminateAwakens | src/Apple16X50Serial-24/Apple16X50UARTSync.cpp:1036-1038 | Taking the port away awakens every acquirer, and each is told so |
| PortOwnership.CanHappen | src/Apple16X50Serial-24/Apple16X50UARTSync.cpp:80-172 | Nothing but the thread itself keeps an acquire, a resumption or a release from happening |
| PortOwnership.FreePortIsTaken | src/Apple16X50Serial-24/Apple16X50UARTSync.cpp:80-132 | A free port with a sleeper is never stuck: some awakened acquirer can take it |
| PortOwnership.BelieversHold | src/Apple16X50Serial-24/Apple16X50UARTSync.cpp:80-172 | If an acquired port is only released by its holder, the threads that were given the port and have not released it are its holders, at most one |
| PortOwnership.ForeignRelease | src/Apple16X50Serial-24/Apple16X50UARTSync.cpp:157-172 | A release by another thread, which the driver accepts, lets a second thread in beside the first |
| PortOwnership.Driver.AcquirePortGated | src/Apple16X50Serial-24/Apple16X50UARTSync.cpp:80-132 | The answer in every case; succeeds exactly when the port is online, free and opens, and then the caller alone holds it; sleepers and awakened threads are conserved |
| PortOwnership.Driver.ResumeAcquire | src/Apple16X50Serial-24/Apple16X50UARTSync.cpp:92-131 | A resumed acquirer takes the port, sleeps again or passes the wakeup on; the answer in every case; the other waiting threads are conserved |
| PortOwnership.Driver.ReleasePortGated | src/Apple16X50Serial-24/Apple16X50UARTSync.cpp:157-172 | The port becomes free, one sleeper is awakened, or all if the port is offline, and nobody is lost |
| FlowControl.FlowCharactersAlternate | src/Apple16X50Serial-24/Apple16X50UARTSync.cpp:1108-1149 | Over every run of fill levels and transmissions XON and XOFF strictly alternate on the wire, and the state says which was last |
| FlowControl.RefinesWantedCharacter | src/Apple16X50Serial-24/Apple16X50UARTSync.cpp:1108-1149 | The five-state machine sends exactly what remembering the wanted and the last character would |
| FlowControl.FromIdle | src/Apple16X50Serial-24/Apple16X50UARTSync.cpp:1108-1148 | From idle the machine sends what it should if and only if the first want is not reversed before the transmitter runs |
| FlowControl.LostXOff | src/Apple16X50Serial-24/Apple16X50UARTSync.cpp:1120-1139 | The failing run: the queue fills up before the first XON could be sent, and no XOFF is sent |
| FlowControl.NeedIsCancelled | src/Apple16X50Serial-24/Apple16X50UARTSync.cpp:1108-1149 | A need withdrawn before the transmitter runs is never sent |
| FlowControl.Driver.GenerateRxQState | src/Apple16X50Serial-24/Apple16X50UARTSync.cpp:1108-1149 | The fill level moves the flow state only under automatic XON/XOFF without RFR |
| FlowControl.Driver.TransmitFlowCharacter | src/Apple16X50Serial-24/Apple16X50UARTSync.cpp:1399-1402 | Sends the needed character and negates the state code |
| TransmitEngine.TransmitSafe | src/Apple16X50Serial-24/Apple16X50UARTSync.cpp:1389-1438 | Over every run of interrupt passes, drains, new events and changes of the state and flow-control words: the FIFO never overflows, data bytes written are the data events taken in order, each under words in which transmission is enabled and every signal that flow control waits for is up, no event lost or reordered unless a control event flushes |
| TransmitEngine.StepSafe | src/Apple16X50Serial-24/Apple16X50UARTSync.cpp:1389-1438 | Each step keeps those facts |
| TransmitEngine.PassFits | src/Apple16X50Serial-24/Apple16X50UARTSync.cpp:1389-1437 | A pass writes only into room that is there |
| TransmitEngine.PassFaithful | src/Apple16X50Serial-24/Apple16X50UARTSync.cpp:1399-1437 | A pass writes data in order and only with flow control up |
| TransmitEngine.BurstFits | src/Apple16X50Serial-24/Apple16X50UARTSync.cpp:1417-1425 | The inner loop stays inside the free room |
| TransmitEngine.BurstFaithful | src/Apple16X50Serial-24/Apple16X50UARTSync.cpp:1417-1425 | The inner loop sends data events in order and stops at a control event |
| TransmitEngine.PassSendsData | src/Apple16X50Serial-24/Apple16X50UARTSync.cpp:1389-1425 | A pass with data due and nothing in its way sends exactly the leading data events, as many as there is room for |
| TransmitEngine.PassSendsChar | src/Apple16X50Serial-24/Apple16X50UARTSync.cpp:1399-1402 | A pass with a flow character due sends that character alone and marks it sent |
| TransmitEngine.WritesNothingIff | src/Apple16X50Serial-24/Apple16X50UARTSync.cpp:1389-1437 | A pass writes nothing if and only if it cannot decide, or no flow character is due and no data is due or there is no room for it |
| TransmitEngine.NothingDue | src/Apple16X50Serial-24/Apple16X50UARTSync.cpp:1403-1437 | A pass that finds nothing to send gives up its room, which ends the handler's loop |
| TransmitEngine.ControlWaitsForIdle | src/Apple16X50Serial-24/Apple16X50UARTSync.cpp:1427-1436 | A control event is taken from an idle transmitter only, and then by itself |
| TransmitEngine.KeepsSending | src/Apple16X50Serial-24/Apple16X50UARTSync.cpp:1389-1438 | Progress: while flow control lets it and the transmitter keeps falling idle, each round sends a whole FIFO of the leading data until none is left |
| TransmitEngine.CharsRefine | src/Apple16X50Serial-24/Apple16X50UARTSync.cpp:1399-1402 | Over every run the flow characters written, among any data, are exactly those of the flow control machine for the run's fill levels |
| TransmitEngine.CharsAlternate | src/Apple16X50Serial-24/Apple16X50UARTSync.cpp:1399-1402 | So they strictly alternate |
| TransmitEngine.LineInOrder | src/Apple16X50Serial-24/Apple16X50UARTSync.cpp:1389-1438 | Over every run what the chip has sent followed by its FIFO is what was in the FIFO followed by what was written, in order |
| TransmitEngine.FlowInForce | src/Apple16X50Serial-24/Apple16X50UARTSync.cpp:1411 | A change of the state and flow-control words stays in force until the next one or a control event |
| TransmitEngine.Driver.SendBurst | src/Apple16X50Serial-24/Apple16X50UARTSync.cpp:1417-1425 | The loop implements the burst |
| TransmitEngine.Driver.TransmitPass | src/Apple16X50Serial-24/Apple16X50UARTSync.cpp:1389-1437 | The transmit half of the handler: when it writes nothing, when one flow character, and when which data, in terms of the FIFO, the queue and the free room |
| BaudDivisor.Choose | src/Apple16X50Serial-24/Apple16X50UARTSync.cpp:1893-1897 | Of all 16-bit divisors none comes closer to the wanted rate than the one chosen |
| BaudDivisor.BetterOfTwoIsBest | src/Apple16X50Serial-24/Apple16X50UARTSync.cpp:1894-1897 | The better of the two bracketing divisors is the best of all |
| BaudDivisor.Bracket | src/Apple16X50Serial-24/Apple16X50UARTSync.cpp:1893-1896 | The truncated quotient and its successor bracket the wanted rate |
| BaudDivisor.QuotientRange | src/Apple16X50Serial-24/Apple16X50UARTSync.cpp:1887-1893 | Every inferred clock and constrained rate give a divisor the registers can hold |
| BaudDivisor.ReadBack | src/Apple16X50Serial-24/Apple16X50UARTSync.cpp:1756-1769 | The two register bytes give the divisor back if and only if it is below 0xff00 |
| BaudDivisor.Uart.WriteReadBack | src/Apple16X50Serial-24/Apple16X50UARTSync.cpp:1749-1774 | Writing and reading back a divisor is the identity if and only if it is below 0xff00 |
| BaudDivisor.Uart.SetDivisor | src/Apple16X50Serial-24/Apple16X50UARTSync.cpp:1749-1759 | Writes the two divisor registers through the access bit and restores everything else |
| BaudDivisor.Uart.GetDivisor | src/Apple16X50Serial-24/Apple16X50UARTSync.cpp:1761-1774 | Reads the divisor and leaves every register as it was |
| BaudDivisor.Uart.ProgramDivisor | src/Apple16X50Serial-24/Apple16X50UARTSync.cpp:1887-1900 | The chosen divisor is the best one and the registers hold it, written only if it changed |
| BaudDivisor.Uart.DetermineMasterClock | src/Apple16X50Serial-24/Apple16X50UARTSync.cpp:1719-1741 | The clock comes from the middle of the sorted samples, of at least three, and is one of the five known ones |
| BaudDivisor.ClockIdentified | src/Apple16X50Serial-24/Apple16X50UARTSync.cpp:1651-1743 | For each clock, a median within seven percent of the time of a ten-bit frame at divisor 1 identifies it |
| BaudDivisor.LongerIsSlower | src/Apple16X50Serial-24/Apple16X50UARTSync.cpp:1732-1738 | A longer median never gives a faster clock |
| SerialMacros.ConstrainNearest | src/Apple16X50Serial-24/Apple16X50Serial.h:73 | The clamp is the one value of the range that comes closest |
| BaudDivisor.BubbleSort | src/Apple16X50Serial-24/Apple16X50UARTSync.cpp:1720-1729 | The samples in order, a permutation |
| PrdTable.CreateChannelCommands | src/AppleIntelPIIXATA-251.0.1/AppleIntelPIIXPATA.cpp:1344-1494 | The result code for every request; on success the descriptors cover exactly the requested bytes in order, none crosses a 64K boundary or is empty, only the last is marked last, and each segment uses exactly as many as the 64K blocks it touches |
| PrdTable.SplitSegment | src/AppleIntelPIIXATA-251.0.1/AppleIntelPIIXPATA.cpp:1431-1479 | One segment: succeeds exactly when its 64K blocks fit the table, and appends exactly its bytes |
| PrdTable.ExhaustedIff | src/AppleIntelPIIXATA-251.0.1/AppleIntelPIIXPATA.cpp:1440-1479 | Usable segments exhaust the table if and only if they touch more 64K blocks than descriptors are left |
| PrdTable.DoneIff | src/AppleIntelPIIXATA-251.0.1/AppleIntelPIIXPATA.cpp:1393-1494 | A table is built exactly for usable segments that touch no more 64K blocks than there are descriptors |
| PrdTable.FailureMeans | src/AppleIntelPIIXATA-251.0.1/AppleIntelPIIXPATA.cpp:1393-1494 | Any other outcome names the first segment that the transfer gets to and that is missing or empty, odd, or does not fit |
| PrdTable.UsableMeans | src/AppleIntelPIIXATA-251.0.1/AppleIntelPIIXPATA.cpp:1393-1430 | Usable means: every segment the transfer gets to is there, not empty and even |
| PrdTable.RequestedAt | src/AppleIntelPIIXATA-251.0.1/AppleIntelPIIXPATA.cpp:1393-1480 | Each byte of each segment is at its place in what is requested |
| PrdTable.FewestForRange | src/AppleIntelPIIXATA-251.0.1/AppleIntelPIIXPATA.cpp:1432-1470 | No table covers a range with fewer descriptors than the 64K blocks it touches |
| PrdTable.SegmentsNotMerged | src/AppleIntelPIIXATA-251.0.1/AppleIntelPIIXPATA.cpp:1393-1480 | Segments that touch are not merged: two descriptors are used where one would do |
| PrdTable.ChunkStep | src/AppleIntelPIIXATA-251.0.1/AppleIntelPIIXPATA.cpp:1432-1470 | The part up to the next boundary lies in one block, its 16-bit count tells its size, and the rest touches one block less |
| SecondChance.Controller.ReadDataPortExpecting | src/ApplePS2Controller-8/ApplePS2Controller.cpp:1073-1241 | For every interleaving of devices, interrupts and timeouts: bytes of the requested device are consumed in order, the answer and the byte passed on are those of the second-chance rule, every byte of the other device is dispatched once, in order, to its own driver; the keyboard bytes that came in are those the port showed and those the interrupt handler was given, less those dropped on a full queue; a mouse read leaves the keyboard queue to the interrupt handler, a keyboard read never overtakes it; the read ends early only for the expected byte, a second byte or the timeout |
| SecondChance.ReturnedOrPassedOn | src/ApplePS2Controller-8/ApplePS2Controller.cpp:1073-1241 | Each byte consumed is returned or passed on, once; the expected byte is returned if and only if it was among those consumed, 0 also after a timeout without data |
| SecondChance.Controller.ReadDataPort | src/ApplePS2Controller-8/ApplePS2Controller.cpp:975-1067 | The plain read: the first byte of the requested device or 0 at the timeout, with the same account of every other byte |
| SecondChance.Controller.InterruptOccurred | src/ApplePS2Controller-8/ApplePS2Controller.cpp:725-795 | The drain: the keyboard driver gets the queued bytes and then those that come in, in order, these being what the port showed and what the interrupt handler was given, less drops; the mouse driver gets its own, the queue ends empty, and nothing is overtaken |
| SecondChance.Controller.DispatchQueued | src/ApplePS2Controller-8/ApplePS2Controller.cpp:752-757 | The oldest queued byte goes to the driver |
| SecondChance.Controller.DispatchFromPort | src/ApplePS2Controller-8/ApplePS2Controller.cpp:759-780 | Two looks at the port, for a mouse byte and then for a keyboard byte; what the looks showed is what is dispatched |
| SecondChance.OvertakingRead | src/ApplePS2Controller-8/ApplePS2Controller.cpp:1230-1239 | A mouse read that meets a keyboard byte while another is queued: the driver has the later byte, the earlier one is still queued |
| SecondChance.PromptAnswer | src/ApplePS2Controller-8/ApplePS2Controller.cpp:1073-1241 | A keyboard that answers at once is heard, whatever it says |
| KeyStream.Balance | src/ApplePS2Controller-8/ApplePS2Controller.cpp:725-1241 | Over every history the bytes that came in and those dropped are, together, those taken off the port and those the interrupt handler was given |
| KeyStream.DroppedWhenFull | src/ApplePS2Controller-8/ApplePS2Controller.cpp:1398-1417 | A byte is dropped only while the queue is full |
| KeyStream.NothingOffered | src/ApplePS2Controller-8/ApplePS2Controller.cpp:975-1241 | Where the interrupt handler is given nothing, what came in is what was taken off the port |
| KeyStream.KeyboardOrder | src/ApplePS2Controller-8/ApplePS2Controller.cpp:725-1241 | Over every run, telling arrivals apart, what the keyboard driver was given and what is queued stay in arrival order if and only if no keyboard byte is taken off the port and dispatched while others are queued |
| KeyStream.StaysInOrder | src/ApplePS2Controller-8/ApplePS2Controller.cpp:725-1241 | Without such a dispatch everything, bytes held by a read included, stays in order |
| KeyStream.MouseReadBreaksOrder | src/ApplePS2Controller-8/ApplePS2Controller.cpp:1230-1239 | Any mouse read that dispatches a keyboard byte while one is queued breaks the order |
| SecondChance.Controller.NextByte | src/ApplePS2Controller-8/ApplePS2Controller.cpp:1112-1181 | One turn of the read loop: queued keyboard bytes first when the keyboard is read, else the port; keyboard bytes taken are those the looks showed, and the queue otherwise only gets what the interrupt handler adds |
| SecondChance.Controller.TakeFromPort | src/ApplePS2Controller-8/ApplePS2Controller.cpp:1124-1166 | Waits for a byte or until the counter runs out |
| SecondChance.Controller.Judge | src/ApplePS2Controller-8/ApplePS2Controller.cpp:1183-1229 | Settles the read with the expected or a second byte, else holds the first |
| SecondChance.Controller.KeyboardInterrupts | src/ApplePS2Controller-8/ApplePS2Controller.cpp:1398-1417 | Between two turns the keyboard handler queues the bytes it is given, as many as find room |
| SecondChance.Controller.DispatchDriverInterrupt | src/ApplePS2Controller-8/ApplePS2Controller.cpp:812-834 | A byte goes to its own driver only |
| SecondChance.Controller.DequeueKeyboardData | src/ApplePS2Controller-8/ApplePS2Controller.cpp:1419-1441 | Takes the oldest queued byte |
| CommandByte.NoUpdateLostEver | src/ApplePS2Keyboard-9/ApplePS2Keyboard.cpp:525-576 | Any number of callers, any interleaving of their requests, no stray bytes: the byte is the composition of the updates of the callers that finished, each exactly once |
| CommandByte.BitDecidedEver | src/ApplePS2Keyboard-9/ApplePS2Keyboard.cpp:525-576 | Over every clean run each bit of the byte is decided by the last finished caller that sets or clears it, clearing being stronger, else it is as at the start |
| CommandByte.UpdateBits | src/ApplePS2Keyboard-9/ApplePS2Keyboard.cpp:553-554 | Each bit of the new byte: cleared if it is to be cleared, else as it was or set |
| CommandByte.CallerSteps | src/ApplePS2Keyboard-9/ApplePS2Keyboard.cpp:525-576 | On a clean stream a caller reads the byte as it is, and its test-and-set finishes it exactly when the byte is still that one, and otherwise changes nothing |
| CommandByte.ReadsMean | src/ApplePS2Controller-8/ApplePS2Controller.cpp:838-942 | What the reading commands take from the stream, fill in and report, with nothing in the stream too |
| CommandByte.ComposedIff | src/ApplePS2Keyboard-9/ApplePS2Keyboard.cpp:525-576 | With stray bytes arriving at any point too: the byte is at every point of a run that composition, if and only if no test-and-set stores over a byte on which its update would have given something else |
| CommandByte.StepLogged | src/ApplePS2Keyboard-9/ApplePS2Keyboard.cpp:525-576 | One step: the composition holds after it if and only if it is not such a store |
| CommandByte.LoggedEver | src/ApplePS2Keyboard-9/ApplePS2Keyboard.cpp:525-576 | In every run each finished caller is logged exactly once |
| CommandByte.StaleNeedsStray | src/ApplePS2Keyboard-9/ApplePS2Keyboard.cpp:556-566 | Such a store happens only over stray bytes, one of the first two being the compared value |
| CommandByte.StrayBytesWin | src/ApplePS2Keyboard-9/ApplePS2Keyboard.cpp:525-576 | Two stray bytes and nobody else: the update is applied to a byte that never was |
| CommandByte.TestAndSetIsAtomic | src/ApplePS2Keyboard-9/ApplePS2Keyboard.cpp:556-566 | The four-command request completes if and only if the byte still has the tested value, and changes nothing otherwise |
| CommandByte.TestAndSetStores | src/ApplePS2Keyboard-9/ApplePS2Keyboard.cpp:556-566 | With any stray bytes before the answer the request stores if and only if one of the first two bytes of the stream is the compared value |
| CommandByte.ChangeLostIff | src/ApplePS2Keyboard-9/ApplePS2Keyboard.cpp:556-566 | A change made since the byte was read is lost if and only if one of the first two stray bytes is the compared value |
| CommandByte.OneStrayByte | src/ApplePS2Keyboard-9/ApplePS2Keyboard.cpp:556-566 | One stray byte other than the compared value does not disturb the request |
| CommandByte.ReadRequestTakesFirst | src/ApplePS2Keyboard-9/ApplePS2Keyboard.cpp:542-547 | The read request takes the first byte of the stream, stray or not |
| CommandByte.ReadRequestReads | src/ApplePS2Keyboard-9/ApplePS2Keyboard.cpp:542-547 | The two-command request returns the current byte and changes nothing |
| CommandByte.Controller.ProcessRequest | src/ApplePS2Controller-8/ApplePS2Controller.cpp:838-942 | Commands run in order; the first failure stops the request and its index becomes the count |
| CommandByte.Controller.SetCommandByte | src/ApplePS2Keyboard-9/ApplePS2Keyboard.cpp:525-576 | One caller against others' changes before and after its reads: each bit of the value the byte has right at its successful test is cleared, set or kept as asked |
| PathCache.ExtractCached | tools/pkgsrc_extract_detail_probe.c:413-493 | Extraction through one cache gives the same file system and verdict as the simple one, whichever entries fail; after a good verdict the parents of every extracted entry exist; with room in the table no directory is made twice |
| PathCache.ExtractEntry | tools/pkgsrc_extract_detail_probe.c:368-389 | One entry through the cache: parents first, then the entry, the first error of either |
| PathCache.EnsureParentDirs | tools/pkgsrc_extract_detail_probe.c:239-276 | Same result and file system as the simple form unless memory runs out, and cached directories still exist; after result 0 every proper prefix that ends before a slash exists, an error is that of making one of them, a name that is too long changes nothing, nothing else is made, and what the cache knows is not made again |
| PathCache.VisitParent | tools/pkgsrc_extract_detail_probe.c:255-272 | One parent: one the cache knows is left alone, any other is made and, if the table has room, stored; the error of making or storing it is the result |
| PathCache.MakesParents | tools/pkgsrc_extract_detail_probe.c:239-276 | The simple form, if it succeeds, leaves every proper prefix that ends before a slash behind, and never makes anything else |
| PathCache.FirstFailure | tools/pkgsrc_extract_detail_probe.c:239-276 | If it fails, the parents before the failing one were made and the result is that one's error |
| PathCache.ExtractedUnderParents | tools/pkgsrc_extract_detail_probe.c:368-389 | An entry extracted without error was extracted where all its parents existed, and they still do |
| PathCache.Cache.Contains | tools/pkgsrc_extract_detail_probe.c:150-168 | True if and only if the path was stored, whatever the hash function and however long the probe sequence |
| PathCache.Cache.Insert | tools/pkgsrc_extract_detail_probe.c:170-194 | The stored set grows by exactly the path, unless half full or out of memory; the probe ends |
| PathCache.Cache.constructor | tools/pkgsrc_extract_detail_probe.c:115-124 | A new cache is empty |
| PathCache.NotStored | tools/pkgsrc_extract_detail_probe.c:150-168 | An empty slot on the probe sequence, or its exhaustion, means the path is not stored |
| PathCache.InsertKeeps | tools/pkgsrc_extract_detail_probe.c:170-194 | Storing at the first empty probe keeps every path reachable and unique |
| PathCache.EmptySlotLeft | tools/pkgsrc_extract_detail_probe.c:170-194 | Probing cannot run past the end while a slot is empty |
| PathCache.ProbeIsModular | tools/pkgsrc_extract_detail_probe.c:155-167 | The probe sequence is addition modulo the capacity |
| PathCache.StillExist | tools/pkgsrc_extract_detail_probe.c:239-276 | What is cached still exists after another directory is made |
| PathCache.ExtractKeeps | tools/pkgsrc_extract_detail_probe.c:413-493 | What is cached still exists after an entry is extracted |

## Left out

Weaker or narrower than the source:

- Layout.SegmentsDisjoint: sizes and addresses are unbounded; wrap-around of 64-bit sums is not modelled.
- Rebase.DoRebase: a slot whose place is one of the last eight addresses passes the source's bounds test and is then outside the buffer; here it is left alone.
- Linker.ReferentsPreserved: supposes what the Mach-O format demands of its input: file contents inside the file and no longer than the memory size, disjoint segments, regions that fit their address gaps.
- RipPatch.PatchLibraryStubs: supposes stubs of at least six bytes inside the buffer.
- TextScan.PatchedInstructionReaches: speaks of displacements that no other patch overlaps; the instruction decoder is any function, its opcode tables are not modelled.
- TextScan.UndisturbedPatch: supposes a decoder that looks at the six bytes before a displacement only, and no earlier patch in those or in the displacement.
- Uleb.ReadUleb128: supposes an operand that ends inside the data within ten bytes; the source shifts past the word otherwise.
- Rebase.RebaseAllPointwise: supposes slots that do not partly overlap and cache addresses that are not source addresses.
- ChainedFixups.WalkSegments: supposes, like ChainPacking.WalkWritten, chains inside the buffer whose slots do not overlap; imports are given with the addresses they resolve to, and the count of unresolved ones is not modelled.
- SlideInfoBuilder.GenerateSlideInfo: supposes slots on four-byte boundaries that lie inside a data page and do not partly overlap; writing the header and copying the page starts into the buffer is not modelled.
- SlideInfoBuilder.SortLocs: the library's quicksort is modelled as an in-place sort; only its result matters.
- StateWatch.Driver.WatchStateGated: the life-cycle stages other than being offline, and reference counting, are not modelled.
- PortOwnership.Driver.AcquirePortGated: the life-cycle stages, reference counting and the chip reset are not modelled; whether the provider opens is an input.
- FlowControl.FlowCharactersAlternate: manual XON/XOFF and the states set while flow control is being configured are not covered.
- TransmitEngine.TransmitSafe: the line status is an input that never claims room that is not there; timers only appear as inputs; trigger levels and chips without a FIFO are not modelled.
- BaudDivisor.Uart.ProgramDivisor: clocks are those the driver infers; a clock set by hand is not covered.
- PrdTable.CreateChannelCommands: physical segments are an input; writing a descriptor in bus byte order is not modelled.
- SecondChance.Controller.ReadDataPortExpecting: a port that shows nothing more counts as idle to the timeout; a driver that is not registered, and the debugger's escape keys, are not modelled.
- CacheBuild.EncodePointers: covers rebase streams and chains, not binds, and supposes that the places two libraries touch do not overlap.
- CacheBuild.NeverAborts: chained binds resolve to given addresses, of which nothing is known; they are covered slot by slot in EncodePointers.
- CommandByte.Controller.ProcessRequest: the mouse-command commands and the form for an absent device are not modelled.
- PathCache.EnsureParentDirs: making a directory and extracting an entry are given functions that remove nothing; paths are not empty.
- PathCache.ExtractCached: memory for the cache does not run out.

Not modelled:

- Load-command rewriting, binds, symbol resolution, symbol tables and the cache header: they would add parsing of formats, not harder properties.
- The patterns of the stub helper: the same displacement arithmetic as the stubs.
- The serial driver's event execution, probing, power management and timers.
- The PIIX timing tables, the RTL8139 and PCI drivers, and the remaining tools: tables, registers and input or output.
