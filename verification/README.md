# A verified model of cwhost

cwhost runs classic Mac OS compiler plug-ins on a modern machine: it loads PEF fragments into an
emulated PowerPC, gives them a heap with relocatable handles, answers their callbacks and shows them
the host's files as two Mac volumes. This project models the parts of it that carry the hard
properties, in Dafny, and proves those properties. `dafny verify dfyconfig.toml` checks the whole
project.

## What is modelled

| modules | part of the program |
|---|---|
| `Relocation`, `RelocationMeaning`, `RelocationMachine`, `Patches`, `RelocationTheorems` | the PEF relocation interpreter: a bytecode machine (class `Machine`) proved to be a left fold over its repeat-expanded program, and the algebra of its adds |
| `RelocationAppending`, `RelocationInstructions`, `RelocationRepeats`, `RelocationOrigins` | what each instruction does behind any stream, told on its words, the section's words and the registers, and where the added values come from |
| `PatternData`, `Pef` | pattern-initialized data and section images |
| `Guest`, `Loader`, `HeaderOrder`, `LoadedSections` | guest memory, loading and relocating a fragment into it, and what the loaded sections hold |
| `HeapModel`, `FirstFitHeap` | the first-fit heap (class `GuestHeap`) and its abstract form |
| `HandleModel`, `HandleRuns`, `MemoryHandles` | the Memory Manager handles on it (class `Handles`), one step and whole runs |
| `SessionModel`, `PluginSession` | the request protocol and CWMemHandles sharing that heap (class `PluginSession`) |
| `StructLayout`, `StructCodec`, `StructMemory` | C structure layouts, packing and unpacking, in buffers and in guest memory |
| `GuestCalls` | argument decoding, `call`, scratch memory and trap slots (class `Processor`) |
| `VolumeTree`, `VolumeCache`, `VirtualVolumes` | the directory tree, cached listings and the operations that drop them (class `Volumes`) |
| `HfsPaths`, `IncludeWalk`, `IncludeSearch` | colon paths, slash include paths confined to their search roots, and the search for an include (class `Finder`) |
| `AppleDoubleFile` | AppleDouble containers (RFC 1740, appendix B) |
| `ResourceFiles`, `ResourceChains` | resource forks, string lists and the chain of open resource files (class `Chain`) |
| `Bytes`, `BigEndian`, `Alignment`, `Wrappers` | shared helpers |

The program's mutable objects are classes, and its loops are loops. Each method is proved equal to a
reference function or to a step predicate, and the theorems are about those. What the reference functions
are is stated in numbers where it can be: opcodes, addresses, bits, offsets and bytes. Errors are results; the
heap, handle, session and volume theorems hold over arbitrary runs in which calls may fail.

What the plug-in does is arbitrary: a finite list of callbacks and memory writes in `PluginSession`,
arbitrary register and memory changes, nested calls and faults in `GuestCalls`. Case folding is an
arbitrary function on names; where more is needed it is a hypothesis: that it tells "Build" from "Host" and
a name with a colon from one without (`HfsPaths.PrintResolves`), that only the empty name folds like the
empty name (`IncludeWalk.Confined`).

## Where the obvious property is false

- Relocating twice is not always relocating once by the sum. Adds to partly overlapping words do not
  commute (`Patches.OverlapDoesNotCommute`), and a stream with an odd move shows it
  (`RelocationTheorems.OverlapBreaksAdditivity`). For a list of places the law holds for all values if and
  only if no two words partly overlap (`Patches.AdditiveIffNonOverlapping`). A stream draws many adds from
  one value; there the condition is sufficient (`RelocationTheorems.RebaseAdditive`) and not necessary: a
  stream that adds one value 256 times to a word is additive although another of its adds overlaps the last
  byte of that word (`RelocationTheorems.OverlapMayStayAdditive`).
- Opcodes 3 and 4 of pattern data read a common size of 0 twice (`PatternData.ZeroCommonIsReread`,
  `PatternData.ZeroCommonIsMisread`). Such an instruction decodes rightly for all data and whatever follows
  it if and only if its common size is positive (`PatternData.BlockReadsIffPositive`,
  `PatternData.ZeroReadsIffPositive`).
- `section_image` always expands the first pattern section: another one gets its own contents if and only
  if it is that section (`Pef.OwnContentsIffFirst`, `Pef.SecondPatternIsMisread`).
- `load` starts from the unrelocated image for every relocation header, so of several headers for one
  section only the last one's result survives (`Loader.LastHeaderDecides`, `HeaderOrder.SurvivesIffLast`,
  `HeaderOrder.FirstHeaderIsLost`). The landing theorems are about that header (`LoadedSections.Decisive`).
- A failed `Handles.new` or `_alloc_cw_handle` loses its first block if and only if that block had room
  (`HeapModel.PairLeaks`, `HandleModel.NewFails`, `HandleModel.NewCanLeak`,
  `SessionModel.CwAllocFails`, `SessionModel.CwAllocCanLeak`); all invariants hold nevertheless.
- Cached listings can go stale. `VolumeCache.WriteAgrees`, `VolumeCache.DeleteAgrees` and
  `VolumeCache.RenameAgrees` give the exact conditions, and `FirstWriteGoesStale`, `RootDeletionGoesStale`
  and `DirectoryRenameGoesStale` in that module an instance of each.
- A directory on the Host volume that contains the build root lists it under an empty name, so no name finds
  it there (`IncludeWalk.NamedUnlessRoot`, `IncludeWalk.RootNotFoundByName`).
- A printed HFS path resolves to its node exactly when no name on it holds a colon and each comes first
  among its case variants (`HfsPaths.PrintResolves`, `HfsPaths.ColonIsLost`, `HfsPaths.SecondCaseIsLost`).
- Closing the resource file just opened need not bring the old current file back
  (`ResourceChains.CloseUndoesOpen`, `ResourceChains.CloseMovesCurrent`).
- `close` on a terminated session still enters the guest once, for the termination routine
  (`PluginSession.PluginSession.Close`); no request does.

## Model

| member | source | states |
|---|---|---|
| `Relocation.DecodeAssemble` | src/cwhost/pef.py:572-613 | decoding an assembled instruction, anywhere in a stream, gives the instruction back |
| `Relocation.AssembleDecode` | src/cwhost/pef.py:572-613 | assembling a decoded token gives back the words it was read from, so no field is lost (unknown long-section sub-operations aside) |
| `RelocationMeaning.FoldAppend` | src/cwhost/pef.py:572-620 | running a concatenation of operations is running the parts in turn, and stops at the first failure |
| `RelocationMeaning.RemainingStep` | src/cwhost/pef.py:572-620 | what a stream still means from a word on is that token, repeats replaced by their blocks, then the rest |
| `RelocationMachine.Machine.AddWord` | src/cwhost/pef.py:454-458 | adds to one big-endian word modulo 2^32, or fails without a change exactly when the position is out of range |
| `RelocationMachine.Machine.RunOf` | src/cwhost/pef.py:476-487 | a run instruction is the fold of its single adds, also when it fails midway |
| `RelocationMachine.Machine.Vectors` | src/cwhost/pef.py:488-500 | a transition-vector run is the fold of its C and D adds and moves |
| `RelocationMachine.Machine.Imports` | src/cwhost/pef.py:505-509 | an import run consumes consecutive imports and stops at the first missing one |
| `RelocationMachine.Machine.Load` | src/cwhost/pef.py:515-518 | C or D takes a section delta, or the index is refused |
| `RelocationMachine.Machine.SelectBlock` | src/cwhost/pef.py:535-546 | the backward scan of the history selects what the reference `Select` selects, with the same two errors |
| `RelocationMachine.Machine.ReplayTimes` | src/cwhost/pef.py:547-549 | replaying a block a number of times (none allowed) is the fold of that many copies; a repeat inside it fails |
| `RelocationMachine.Machine.ExecuteRepeat` | src/cwhost/pef.py:524-549 | a repeat does what its expansion does to the section and the four registers |
| `RelocationMachine.Machine.Execute` | src/cwhost/pef.py:470-570 | every instruction, plain or repeat, is the fold of its operations |
| `RelocationMachine.Machine.DecodeAndExecute` | src/cwhost/pef.py:573-620 | one turn of the decoding loop keeps: what is left of the program, run from here, is the whole program; the history is the tokens so far |
| `RelocationMachine.Machine.Run` | src/cwhost/pef.py:572-620 | the interpreter is a plain left fold over the fully expanded operation list, on success and on failure |
| `RelocationMachine.ApplyRelocations` | src/cwhost/pef.py:434-620 | the section bytes and the error are exactly those of the reference relocation; an odd stream changes nothing |
| `RelocationInstructions.EmptyDoes` | src/cwhost/pef.py:461-468 | an empty stream leaves the section and the registers as they start |
| `RelocationInstructions.SkipDoes` | src/cwhost/pef.py:476-482 | a skip word behind any stream: the position moves by 4 times the skip, and the next words gain D |
| `RelocationInstructions.RunCDoes` | src/cwhost/pef.py:483-487 | word 0x4000+n-1 behind any stream that relocates: the n words at the position gain C, the position moves by 4n, nothing else changes; where the section ends before, just the words it has gain C and the run fails as out of range |
| `RelocationInstructions.RunDDoes` | src/cwhost/pef.py:483-487 | word 0x4200+n-1: the same with D |
| `RelocationInstructions.TVector12Does` | src/cwhost/pef.py:488-494 | word 0x4400+n-1: n times a word gains C, the next one D, and one is passed over |
| `RelocationInstructions.TVector8Does` | src/cwhost/pef.py:495-500 | word 0x4600+n-1: n times a word gains C and the next one D |
| `RelocationInstructions.VTable8Does` | src/cwhost/pef.py:501-504 | word 0x4800+n-1: n times a word gains D and the next one is passed over |
| `RelocationInstructions.ImportRunDoes` | src/cwhost/pef.py:505-509 | word 0x4A00+n-1: the next n words gain the next n imports, the import index moves on; it stops where the imports or the section end, imports being looked at first |
| `RelocationInstructions.ImportDoes` | src/cwhost/pef.py:510-514 | the short (0x6000) and the long form (0xA400): the word at the position gains import x, and x+1 is the next import; a missing import and the end of the section are refused, in this order |
| `RelocationInstructions.SectionDoes` | src/cwhost/pef.py:519-521 | the short (0x6600) and the long form (0xB400): the word at the position gains the delta of section x, or is refused |
| `RelocationInstructions.SetCDoes` | src/cwhost/pef.py:515-516 | the short (0x6200) and the long form (0xB440): C becomes the delta of section x, or the index is refused |
| `RelocationInstructions.SetDDoes` | src/cwhost/pef.py:517-518 | the short (0x6400) and the long form (0xB480): the same for D |
| `RelocationInstructions.AdvanceDoes` | src/cwhost/pef.py:522-523 | word 0x8000+n-1 moves the position by n bytes |
| `RelocationInstructions.PositionDoes` | src/cwhost/pef.py:550-551 | the two words 0xA000+high and low set the position |
| `RelocationInstructions.SubopRefused` | src/cwhost/pef.py:557-568 | the thirteen unknown sub-operations of the long section form are refused |
| `RelocationInstructions.WordRefused` | src/cwhost/pef.py:573-617 | a word no opcode matches is refused whatever follows it, and so is a two-word form cut off at the end |
| `RelocationRepeats.RepeatWritesOut` | src/cwhost/pef.py:524-549 | a repeat, short or long, of the whole plain instructions just before it does what the same words written out that many times do |
| `RelocationRepeats.RepeatRefused` | src/cwhost/pef.py:535-546 | a repeat that reaches back before the stream is refused as having no block, one that reaches into the middle of an instruction as splitting it |
| `RelocationRepeats.RepeatNested` | src/cwhost/pef.py:524-549 | a repeat inside the replayed block is refused when its turn comes, unless something fails before it |
| `RelocationRepeats.FailureStays` | src/cwhost/pef.py:572-620 | a stream that fails fails alike with more words behind it |
| `RelocationTheorems.ListTiles` | src/cwhost/pef.py:572-620 | decoded tokens tile the words consumed, and all words exactly when decoding does not stop on an error |
| `RelocationTheorems.SelectExactly` | src/cwhost/pef.py:535-546 | a repeat fails as running off exactly when it asks for more words than precede it, as splitting exactly when its boundary falls inside an instruction, and otherwise selects a suffix of the history that tiles just those words |
| `RelocationTheorems.RepeatSelects` | src/cwhost/pef.py:524-549 | for each repeat of a stream, the selected tokens are those covering the block_words words immediately before it |
| `RelocationTheorems.UnrolledExpands` | src/cwhost/pef.py:524-549 | replacing each repeat by copies of its block gives a repeat-free token list with the same operations |
| `RelocationTheorems.RepeatsUnroll` | src/cwhost/pef.py:470-549 | repeats mean unrolling: section, position, import index, C and D are those of a left fold of the non-repeat step over the unrolled tokens; a stream that cannot be unrolled always fails |
| `Patches.AddsCommute` | src/cwhost/pef.py:454-458 | adds to non-overlapping words, or to the same word, commute |
| `Patches.OverlapDoesNotCommute` | src/cwhost/pef.py:454-458 | for every pair of partly overlapping words there are bytes and values whose two adds do not commute |
| `Patches.ApplySum` | src/cwhost/pef.py:454-458 | adding values a then values b at the same non-overlapping places is adding a+b once |
| `Patches.FinalWord` | src/cwhost/pef.py:454-458 | a word that no add partly overlaps ends as its old value plus the sum of its adds, modulo 2^32 |
| `Patches.UntouchedByte` | src/cwhost/pef.py:454-458 | a byte outside every add keeps its value |
| `Patches.AdditiveIffNonOverlapping` | src/cwhost/pef.py:454-458 | a list of places is additive for all values and bytes if and only if no two of its words partly overlap |
| `Patches.OverlapMayCancel` | src/cwhost/pef.py:454-458 | where adds share a value, overlap need not break additivity: one value added 256 times leaves the last byte of its word alone, whatever overlaps it there |
| `RelocationTheorems.SectionIsItsAdds` | src/cwhost/pef.py:454-468 | relocation changes the section by its list of adds and by nothing else, all of them in range |
| `RelocationTheorems.ShapeDecides` | src/cwhost/pef.py:454-468 | success, error, final position and the places added to depend only on the stream and the lengths of section, deltas and imports |
| `RelocationTheorems.RebaseAdditive` | src/cwhost/pef.py:434-620 | relocating with A then B equals relocating once with A+B, and the three succeed together, whenever no two adds partly overlap |
| `RelocationTheorems.RebaseUndo` | src/cwhost/pef.py:434-620 | relocating with the negated values restores the section byte for byte, whenever no two adds partly overlap |
| `RelocationTheorems.WordAlignedIsNonOverlapping` | src/cwhost/pef.py:523-523 | streams whose moves are all multiples of four never overlap their adds, so they are additive and undoable |
| `RelocationTheorems.OverlapBreaksAdditivity` | src/cwhost/pef.py:523-523 | a concrete stream with a one-byte move for which relocating twice differs from relocating once by the sum |
| `RelocationTheorems.OverlapMayStayAdditive` | src/cwhost/pef.py:434-620 | a concrete stream with a repeat whose adds partly overlap, on which relocating with A then B equals relocating once with A+B for all tables, values and section bytes |
| `PatternData.ReadVarint` | src/cwhost/pef.py:65-74 | the loop reads what the reference reads, truncation included |
| `PatternData.VarintReads` | src/cwhost/pef.py:65-74 | a varint of any length reads as the value of its base-128 digits and ends after them |
| `PatternData.Interleave` | src/cwhost/pef.py:343-364 | the interleaving loop builds the interleaved bytes, slices clipped as Python clips them |
| `PatternData.InterleaveAt` | src/cwhost/pef.py:330-364 | opcodes 3 and 4 read three sizes and build the interleaving |
| `PatternData.DecodeAt` | src/cwhost/pef.py:303-366 | one instruction is decoded as the reference decodes it, reserved opcodes and truncation included |
| `PatternData.Expand` | src/cwhost/pef.py:298-373 | the expansion loop is the reference expansion, with its length check |
| `PatternData.DecodeOne` | src/cwhost/pef.py:303-366 | decoding an instruction strictly advances the position |
| `PatternData.OneReads` | src/cwhost/pef.py:303-366 | each well-formed instruction decodes to its meaning and ends where its encoding ends |
| `PatternData.ExpandEncode` | src/cwhost/pef.py:279-373 | decoding the encoding of any list of zero, copy, repeat and interleave instructions yields the concatenation of their meanings |
| `PatternData.ZeroCommonIsReread` | src/cwhost/pef.py:330-336 | for opcodes 3 and 4 a count written out as zero shifts the sizes: the custom size is read as the common size, the repeat count as the custom size, the data as the repeat count |
| `PatternData.BlockReadsIffPositive` | src/cwhost/pef.py:330-355 | opcode 3 decodes to its meaning for all data, customs and following bytes if and only if its common size is positive |
| `PatternData.ZeroReadsIffPositive` | src/cwhost/pef.py:330-364 | the same for opcode 4 |
| `PatternData.ZeroCommonIsMisread` | src/cwhost/pef.py:330-336 | a concrete well-formed instruction with explicit common size 0 that decodes wrongly |
| `Pef.FirstPattern` | src/cwhost/pef.py:279-287 | finds the first pattern-initialized section, if there is one |
| `Pef.Fit` | src/cwhost/pef.py:390-390 | cuts to the length or pads with zeros |
| `Pef.SectionImage` | src/cwhost/pef.py:383-390 | an image has exactly its section's total size |
| `Pef.StoredSectionImage` | src/cwhost/pef.py:383-390 | a section that is not pattern-initialized is its bytes in the file, cut or zero-filled, and refused exactly when the file is too short |
| `Pef.PatternSectionImage` | src/cwhost/pef.py:279-390 | the image of any pattern section is built from the first pattern section of the container, cut and padded |
| `Pef.OnlyPatternSection` | src/cwhost/pef.py:383-390 | for the first pattern section it is that section's own expansion, zero-padded to its total size |
| `Pef.OwnContentsIffFirst` | src/cwhost/pef.py:279-390 | a pattern section gets its own contents, whatever the file holds, if and only if it is the first pattern section (given that the two lie apart, the first expands to something and the other can be expanded at all) |
| `Pef.SecondPatternIsMisread` | src/cwhost/pef.py:279-390 | a concrete container whose second pattern section holds a 7 and gets a 0 |
| `Guest.Guest.Map` | src/cwhost/guest.py:79-94 | maps whole zeroed pages, exactly when they are free and below 2^32 |
| `Guest.PagesAreWhole` | src/cwhost/guest.py:79-94 | the pages are the blocks of 4096 bytes the range touches |
| `Guest.Guest.Write` | src/cwhost/guest.py:116-117 | writes all bytes at the address modulo 2^32, or none |
| `Guest.Guest.Read` | src/cwhost/guest.py:113-114 | reads the bytes at the address modulo 2^32 |
| `Guest.LoadStored` | src/cwhost/guest.py:113-117 | what is stored is read back |
| `Guest.LoadElsewhere` | src/cwhost/guest.py:113-117 | a store leaves ranges apart from it alone |
| `Loader.PlaceSection` | src/cwhost/loader.py:98-106 | each section's image is placed at its base; the sections before it stay as placed |
| `Loader.PlaceTables` | src/cwhost/loader.py:108-122 | the container and the import descriptors are placed apart from every section |
| `Loader.ApplyHeader` | src/cwhost/loader.py:128-141 | a relocation header leaves every section holding the image its last header gives it |
| `Loader.Load` | src/cwhost/loader.py:80-147 | a load succeeds if and only if every strong import is bound, every section has an image, the pages of sections, container and descriptors are free, apart and below 2^32, and every header applies; then every section holds its final image and every descriptor its slot, the container is at 0x0F000000, and what was in memory before still is; an unbound strong import is refused before anything is mapped |
| `Loader.LastHeaderDecides` | src/cwhost/loader.py:128-141 | with several headers for one section only the last one counts, applied to the unrelocated image |
| `RelocationOrigins.AddsBear` | src/cwhost/pef.py:454-468 | each add of a stream takes the value of one table entry, or of the initial C or D, which the stream alone decides |
| `LoadedSections.HeaderRelocates` | src/cwhost/loader.py:112-141 | a header is applied with import i at 0x29000000+8*i, section s moved by 0x10000000+0x01000000*s less its default address, and the first two of these deltas, or 0, in C and D |
| `LoadedSections.HeaderAddsAre` | src/cwhost/loader.py:112-141 | the adds of a header are at the places, and of the values, that the origins of its stream have in a load |
| `LoadedSections.SecondImportLands` | src/cwhost/loader.py:112-141 | a concrete container whose stream 60 01 adds the second import: the loaded word reads 29 00 00 08 |
| `HeaderOrder.SurvivesIffLast` | src/cwhost/loader.py:128-141 | among the headers for one section the result of h survives, whatever the relocation streams say, if and only if h is the last of them (given a section that relocation can change, and streams that lie apart) |
| `HeaderOrder.FirstHeaderIsLost` | src/cwhost/loader.py:128-141 | a concrete container with two headers for one section, both of which apply, whose first one is lost |
| `LoadedSections.WordLands` | src/cwhost/loader.py:128-141 | a word added to once, and overlapped by no other add, is the image word plus that value |
| `LoadedSections.PointerLands` | src/cwhost/loader.py:95-141 | a pre-linked pointer default_address[s]+off, to which the stream adds the delta of section s exactly once (named, or from C or D), reads in guest memory as 0x10000000+0x01000000*s+off modulo 2^32 |
| `LoadedSections.ImportLands` | src/cwhost/loader.py:112-141 | a word to which the stream adds import i once (named, or as the next import) has gained 0x29000000+8*i |
| `LoadedSections.UntouchedLands` | src/cwhost/loader.py:128-141 | every byte no add touches equals the unrelocated image |
| `Alignment.AlignUpLeast` | src/cwhost/memory.py:35-37 | rounding up gives the least multiple of the alignment not below the value |
| `FirstFitHeap.FirstFitIsLowest` | src/cwhost/memory.py:53-57 | the first range that fits gives the lowest aligned address with enough consecutive free bytes |
| `FirstFitHeap.NothingFits` | src/cwhost/memory.py:53-68 | when no range fits, no aligned address has enough consecutive free bytes |
| `FirstFitHeap.Create` | src/cwhost/memory.py:19-33 | a new heap is one free range; bad sizes and ranges beyond 2^32 are refused |
| `FirstFitHeap.GuestHeap.Alloc` | src/cwhost/memory.py:49-68 | returns the least multiple of the alignment at which max(n,1) consecutive bytes are free, takes just those bytes, and fails without a change exactly when there is none |
| `FirstFitHeap.Sort` | src/cwhost/memory.py:79-79 | sorts the ranges by address, keeping the set of ranges |
| `FirstFitHeap.Merge` | src/cwhost/memory.py:80-90 | coalescing covers the same bytes with no two ranges touching |
| `FirstFitHeap.GuestHeap.InsertFree` | src/cwhost/memory.py:78-91 | the free list then covers its old bytes and the new ones, canonically |
| `FirstFitHeap.GuestHeap.Free` | src/cwhost/memory.py:93-97 | frees exactly the block's bytes; an unknown address is refused without a change |
| `FirstFitHeap.GuestHeap.Shrink` | src/cwhost/memory.py:99-103 | gives the tail back and keeps the address |
| `FirstFitHeap.GuestHeap.GrowInPlace` | src/cwhost/memory.py:105-129 | grows exactly when the bytes right after the block are free, and takes just those |
| `FirstFitHeap.AdjacentOnly` | src/cwhost/memory.py:105-129 | only the range that starts at the block's end can let it grow |
| `FirstFitHeap.GuestHeap.Realloc` | src/cwhost/memory.py:131-146 | shrinks, grows in place or moves with the old bytes copied; when it fails nothing has changed |
| `FirstFitHeap.GuestHeap.MoveBlock` | src/cwhost/memory.py:140-146 | the new block holds the old one's bytes and the old one is free |
| `FirstFitHeap.MoveStep` | src/cwhost/memory.py:140-146 | alloc, copy, free is one reallocation step of the model |
| `FirstFitHeap.GuestHeap.FreeTotal` | src/cwhost/memory.py:148-151 | the sum of the free ranges |
| `FirstFitHeap.GuestHeap.LargestFree` | src/cwhost/memory.py:153-156 | n bytes fit somewhere, unaligned, if and only if n is at most the result |
| `HeapModel.CanonicalUnique` | src/cwhost/memory.py:78-91 | sorted, positive, non-touching ranges that cover the same bytes are the same list |
| `HeapModel.LiveDeterminesFree` | src/cwhost/memory.py:78-91 | two heaps over one area with the same live blocks have identical free lists, whatever their histories |
| `HeapModel.FreeUndoesAlloc` | src/cwhost/memory.py:49-97 | freeing a block just allocated restores the free list exactly |
| `HeapModel.HeapConserved` | src/cwhost/memory.py:148-151 | free bytes plus live sizes always equal the heap's size |
| `HeapModel.PairLeaks` | src/cwhost/memory.py:184-188 | of two allocations in a row, a failure leaves the heap as it was if and only if the first had no room; otherwise exactly the first block is lost |
| `MemoryHandles.Handles.New` | src/cwhost/memory.py:184-194 | one new handle with its block, its master word and zeroed or old bytes; on failure of the second allocation the first block stays allocated |
| `MemoryHandles.Handles.Dispose` | src/cwhost/memory.py:196-201 | block and master are freed, nothing else changes |
| `MemoryHandles.Handles.Resize` | src/cwhost/memory.py:206-219 | the block changes size, moving only when the handle is not locked, and the master follows |
| `MemoryHandles.Handles.Lock` | src/cwhost/memory.py:221-222 | sets bit 7 of the state byte, keeps the other seven bits, and changes nothing else |
| `MemoryHandles.Handles.Unlock` | src/cwhost/memory.py:224-225 | clears bit 7 of the state byte, keeps the other seven bits, and changes nothing else |
| `MemoryHandles.Handles.SetState` | src/cwhost/memory.py:230-233 | sets the state byte and nothing else |
| `MemoryHandles.Handles.Block` | src/cwhost/memory.py:235-243 | returns the block of a live handle exactly when its master word holds it |
| `MemoryHandles.Handles.BlockSize` | src/cwhost/memory.py:245-250 | the requested size of the handle whose block the pointer is, refused exactly when there is none |
| `HandleModel.NewKeeps` | src/cwhost/memory.py:184-194 | a new handle keeps the invariant (its block is max(requested,1)), disturbs no other, its master holds its block, and cleared contents are zero |
| `HandleModel.NewFails` | src/cwhost/memory.py:184-188 | a failed creation changes no handle; the heap is as before if and only if the block itself had no room, otherwise exactly that block is lost |
| `HandleModel.NewCanLeak` | src/cwhost/memory.py:187-188 | a concrete heap in which a failed creation loses its block |
| `HandleModel.DisposeKeeps` | src/cwhost/memory.py:196-201 | disposing of a handle disturbs no other |
| `HandleModel.ResizeKeeps` | src/cwhost/memory.py:206-219 | resizing keeps the first min(old,new) bytes, the invariant and every other handle |
| `HandleModel.HandleUndisturbed` | src/cwhost/memory.py:184-250 | a step that only touches its own blocks leaves other handles' contents and masters alone |
| `HandleRuns.StepKeeps` | src/cwhost/memory.py:170-250 | every call, failing ones included, keeps the whole invariant |
| `HandleRuns.LockBits` | src/cwhost/memory.py:221-225 | locking leaves bit 7 set and unlocking clear, both leave the other bits and everything else alone, and both fail exactly on an unknown handle |
| `HandleRuns.UnlockedMoves` | src/cwhost/memory.py:190-225 | right after an unlock a resize succeeds or finds no room; it is never refused for a lock |
| `HandleRuns.LockedDoesNotMove` | src/cwhost/memory.py:190-225 | right after a lock a resize stays in place where it can, and is refused for the lock exactly where it would have to move |
| `HandleRuns.OthersKept` | src/cwhost/memory.py:170-250 | no call changes the contents, block or master pointer of a handle it is not about |
| `HandleRuns.CallsRefineMap` | src/cwhost/memory.py:170-250 | every call is a step of an abstract map from handle to byte string and state byte; a failed call, a failed resize among them, leaves the map unchanged |
| `HandleRuns.ProgramWrites` | src/cwhost/memory.py:235-243 | a program writing inside a handle's block changes just those bytes of that handle in the map |
| `HandleRuns.StepDetermined` | src/cwhost/memory.py:170-250 | a call that can succeed cannot fail, and leads to one state |
| `HandleRuns.RunKeeps` | src/cwhost/memory.py:170-250 | the invariant holds after any run of calls and writes |
| `HandleRuns.RunConserves` | src/cwhost/memory.py:148-151 | after any run free and live bytes add up to the heap's size |
| `HandleRuns.LockedStays` | src/cwhost/memory.py:206-233 | a locked handle's block stays where it is over any run without unlock, set_state or dispose on it |
| `HandleRuns.MastersAlwaysHold` | src/cwhost/memory.py:184-219 | over any run whose own writes spare the master words, each live master word holds its block's address |
| `HandleRuns.BlockNamesOneHandle` | src/cwhost/memory.py:245-250 | a live block pointer names exactly one handle, and is no master pointer |
| `SessionModel.MemoryCallKeeps` | src/cwhost/session.py:168-206 | Memory Manager calls leave every CWMemHandle record and block as they were |
| `SessionModel.CwAllocKeeps` | src/cwhost/session.py:168-177 | a new CWMemHandle keeps the invariant, holds its data and disturbs no handle of either kind |
| `SessionModel.CwAllocFails` | src/cwhost/session.py:168-177 | a failed creation disturbs nothing; the heap is as before if and only if the record itself had no room, otherwise exactly the record is lost |
| `SessionModel.CwAllocCanLeak` | src/cwhost/session.py:170-171 | a concrete heap in which a failed creation loses its record, whatever the data |
| `SessionModel.CwFreeKeeps` | src/cwhost/session.py:201-206 | freeing a CWMemHandle disturbs no other handle of either kind |
| `SessionModel.BlockIsNoRecord` | src/cwhost/memory.py:245-250 | the block of a Memory Manager handle is never a CWMemHandle record or block, so block_size cannot take one for the other |
| `PluginSession.PluginSession.DoneRequest` | src/cwhost/session.py:160-166 | the first completion is recorded, a second one refused |
| `PluginSession.PluginSession.AllocCwHandle` | src/cwhost/session.py:168-177 | record and data block are allocated and written as the model step says |
| `PluginSession.PluginSession.FreeCwHandle` | src/cwhost/session.py:201-206 | frees exactly the record and the block |
| `PluginSession.PluginSession.FreeRequestHandles` | src/cwhost/session.py:208-211 | frees exactly the records and blocks of the request-scoped handles, the rest stays |
| `PluginSession.ReleaseKeepsHandles` | src/cwhost/session.py:208-211 | that release disturbs no Memory Manager handle and no other CWMemHandle |
| `PluginSession.GivenInRequest` | src/cwhost/session.py:168-211 | of the CWMemHandles given out during a request and not freed by the plug-in, those for preferences are gone when it has returned, the others are still there |
| `PluginSession.CallbackDetermined` | src/cwhost/session.py:160-211 | a callback that can succeed cannot fail, and leads to one session |
| `PluginSession.TraceKeeps` | src/cwhost/session.py:160-211 | the session invariant holds after every callback of a request |
| `PluginSession.LockedStaysInRequest` | src/cwhost/memory.py:206-233 | a locked handle's block stays where it is over all callbacks of a request, CWMemHandle callbacks on the same heap included, that do not unlock, set the state of or dispose it |
| `PluginSession.PluginSession.RunCallback` | src/cwhost/session.py:160-211 | each kind of callback is one step of the session model |
| `PluginSession.PluginSession.CallGuest` | src/cwhost/session.py:479-479 | running any finite list of callbacks keeps the session invariant and counts the completions in it |
| `PluginSession.PluginSession.Request` | src/cwhost/session.py:471-491 | a request returns if and only if the session is loaded and not terminated, the guest does not fault, every callback can run and exactly one of them is a completion; it then returns that completion's value, leaves no request-scoped handle and frees just theirs; after a completed terminate request the guest is never entered |
| `PluginSession.PluginSession.Close` | src/cwhost/session.py:493-509 | terminates an initialized session once, runs the termination routine once, and is idempotent; it succeeds exactly when the terminate request returns and the routine comes back with 0 |
| `StructLayout.Build` | src/cwhost/abi.py:39-59 | the moving cursor gives every field the offset of the recursive layout, and a repeated name is refused exactly when there is one |
| `StructLayout.LayoutIsLegal` | src/cwhost/abi.py:39-59 | for every nested declaration fields are aligned, in bounds and disjoint, and the size is the least multiple of the packing |
| `StructLayout.OffsetLeast` | src/cwhost/abi.py:53-55 | each field stands at the least aligned offset after the one before it |
| `StructLayout.ScalarLayout` | src/cwhost/abi.py:11-23 | size of every scalar kind, and its alignment under either packing, in numbers |
| `StructLayout.CompoundLayout` | src/cwhost/abi.py:67-91 | an array aligns as its element and takes count times its room; a nested structure aligns by its own packing |
| `StructLayout.FieldStands` | src/cwhost/abi.py:48-56 | a field wider than a byte stands at the end of the one before it rounded up to even under mac68k, to a multiple of 2 or 4 under power; a nested one as its own packing asks |
| `StructLayout.SizeStands` | src/cwhost/abi.py:60-61 | the size is the end of the last field rounded up to even, or to a multiple of 4 |
| `StructLayout.FSSpecLayout` | src/cwhost/abi.py:228-230 | FSSpec: offsets 0, 2 and 6, size 70 |
| `StructLayout.DropInFlagsLayout` | src/cwhost/abi.py:343-354 | DropInFlags: offsets 0, 2, 6, 8, 12 and 16, size 18 |
| `StructCodec.ScalarRoundTrip` | src/cwhost/abi.py:94-137 | every scalar in range decodes to itself, signed ones in two's complement |
| `StructCodec.ScalarTakes` | src/cwhost/abi.py:94-113 | a Boolean field takes anything, for its truth; any other scalar a number in its range, an OSType four bytes as well; the rest is refused |
| `StructCodec.ScalarRanges` | src/cwhost/abi.py:94-113 | what each integer kind holds, in numbers |
| `StructCodec.RoundTrip` | src/cwhost/abi.py:94-191 | any nested value in normal form packs, and unpacks to itself with the fields left out as zero |
| `StructCodec.UnpackPack` | src/cwhost/abi.py:171-191 | the same for a whole structure |
| `StructCodec.DefaultIsZero` | src/cwhost/abi.py:211-216 | a field left out is packed as zero bytes |
| `StructCodec.Repack` | src/cwhost/abi.py:94-191 | packing what was unpacked changes only padding, to zero, and Booleans, to 0 or 1 |
| `StructCodec.PackUnpack` | src/cwhost/abi.py:171-191 | the same for a whole structure |
| `StructCodec.WriteFieldIsRepack` | src/cwhost/abi.py:201-204 | replacing a field's bytes in a packed record is packing with that field changed |
| `StructMemory.EncodeField` | src/cwhost/abi.py:153-162 | encodes a scalar, an array or a nested structure |
| `StructMemory.PackBytes` | src/cwhost/abi.py:171-181 | the slice-writing loop builds the packed record, and refuses exactly what the reference refuses |
| `StructMemory.DecodeField` | src/cwhost/abi.py:164-169 | decodes a scalar, an array or a nested structure |
| `StructMemory.UnpackBytes` | src/cwhost/abi.py:183-191 | the loop fills the dictionary of the reference, and refuses exactly short input |
| `StructMemory.PackAt` | src/cwhost/abi.py:193-196 | the record is stored in guest memory, or nothing is |
| `StructMemory.UnpackAt` | src/cwhost/abi.py:198-199 | the record is read from guest memory |
| `StructMemory.WriteField` | src/cwhost/abi.py:201-204 | only the named field's bytes are stored; an unknown name or a value that does not fit stores nothing |
| `StructMemory.FieldWriteRepacks` | src/cwhost/abi.py:201-204 | where memory holds a packed record, that store leaves it packed with the field changed |
| `GuestCalls.Processor.ArgumentWord` | src/cwhost/guest.py:273-277 | word k is GPR 3+k for k<8, otherwise memory at r1+24+4k |
| `GuestCalls.Processor.ReadArgument` | src/cwhost/guest.py:251-291 | each kind of argument is cut off the word stream, a 64-bit one across word 7 included |
| `GuestCalls.Processor.Args` | src/cwhost/guest.py:242-291 | decoding a signature equals decoding the flat word stream, errors included |
| `GuestCalls.ArgsAre` | src/cwhost/guest.py:242-291 | args gives each argument by itself: from GPR 3 on and then the frame at r1+56, wide ones counting twice, doubles from FPR 1 on; it fails exactly when one of them does |
| `GuestCalls.DecodesHeld` | src/cwhost/guest.py:242-291 | decoding inverts placing, both ways: values come back if and only if they are in range and the stream holds them in the bits each type looks at |
| `GuestCalls.PlacedHolds` | src/cwhost/guest.py:242-291 | a stream laid out by a caller, shadow words of doubles left open, holds the arguments |
| `GuestCalls.PlacedIsRead` | src/cwhost/guest.py:242-291 | arguments laid out in registers, stack and FPRs are what args returns, for every signature |
| `GuestCalls.CallIsRead` | src/cwhost/guest.py:407-423 | what call places is read back, 64-bit values given as two words included |
| `GuestCalls.Processor.PlaceArguments` | src/cwhost/guest.py:420-421 | argument i is in GPR 3+i modulo 2^32 |
| `GuestCalls.Processor.Enter` | src/cwhost/guest.py:409-427 | r1 is moved down and aligned with the old r1 stored at it, r2, r12, pc and lr are set, the arguments are placed |
| `GuestCalls.Processor.Call` | src/cwhost/guest.py:407-433 | whatever the routine does, nested calls and errors included, registers and descriptor stack are restored; it returns the GPR 3 the routine leaves, exactly when there are at most eight arguments, descriptor, frame and return slot are there, and the routine finishes |
| `GuestCalls.Processor.Perform` | src/cwhost/guest.py:407-433 | a routine finishes exactly when nothing in it raises, stores where nothing is mapped or makes a call that fails; it leaves the registers of its last emulation outside its own calls |
| `GuestCalls.Processor.Alloc` | src/cwhost/guest.py:171-179 | least aligned address not below the scratch cursor, refused exactly when it does not fit |
| `GuestCalls.Processor.AllocTrapSlot` | src/cwhost/guest.py:181-192 | one slot per name, always the same, different from every other name's |
| `VolumeTree.WriteNames` | src/cwhost/vfs.py:150-158 | a write adds to each directory above the file the next name on the way to it, and no other name |
| `VolumeTree.WriteSucceeds` | src/cwhost/vfs.py:150-158 | a file can be written exactly where no directory is and nothing above is a file |
| `VolumeTree.DeleteNames` | src/cwhost/vfs.py:160-168 | a deletion removes one name from one directory |
| `VolumeTree.DeleteIs` | src/cwhost/vfs.py:160-168 | it takes exactly a file or an empty directory away, and leaves every other entry |
| `VolumeTree.RenameNames` | src/cwhost/vfs.py:170-184 | which names every directory has after a rename |
| `VolumeCache.ListingUnique` | src/cwhost/vfs.py:285-287 | a set of names has one listing order |
| `VolumeCache.LessIs` | src/cwhost/vfs.py:285-287 | names and folded names compare character by character: the first difference decides, a prefix comes first |
| `VolumeCache.FreshIsUnique` | src/cwhost/vfs.py:276-299 | two truthful listings of a directory are the same nodes in the same order |
| `VolumeCache.WriteAgrees` | src/cwhost/vfs.py:150-158 | after a write the cache is right if and only if, for a file on the Build volume, the cached directories above the build root already had the next name towards it |
| `VolumeCache.DeleteAgrees` | src/cwhost/vfs.py:160-168 | after a deletion the cache is right if and only if it was not the build root that went while the directory above it was cached |
| `VolumeCache.RenameAgrees` | src/cwhost/vfs.py:170-184 | after a rename of a file or directory the cache is right if and only if nothing non-empty is cached below what moves, nothing is cached below the destination that now has children, and the build root itself did not come or go under a cached directory not above both ends |
| `VolumeCache.FirstWriteGoesStale` | src/cwhost/vfs.py:150-158 | a concrete write that creates the build root and leaves the listing above it wrong |
| `VolumeCache.RootDeletionGoesStale` | src/cwhost/vfs.py:160-168 | a concrete deletion of the build root that leaves the listing above it wrong |
| `VolumeCache.DirectoryRenameGoesStale` | src/cwhost/vfs.py:170-184 | a concrete directory rename after which a cached listing is wrong |
| `VirtualVolumes.SortNames` | src/cwhost/vfs.py:285-287 | the sorted listing of a set of names |
| `VirtualVolumes.BuildIndex` | src/cwhost/vfs.py:291-298 | the dictionary holds, under each folded name, just the matching nodes in listing order |
| `VirtualVolumes.Volumes.NodeAt` | src/cwhost/vfs.py:334-352 | one node and one id for each path, for ever |
| `VirtualVolumes.Volumes.Children` | src/cwhost/vfs.py:276-299 | the cached listing, or a fresh one that is then cached |
| `VirtualVolumes.Volumes.ChildrenNamed` | src/cwhost/vfs.py:301-306 | filtering the listing by folded name |
| `VirtualVolumes.Volumes.InvalidatePath` | src/cwhost/vfs.py:354-371 | drops exactly the cached listings from the path up to its volume's root |
| `VirtualVolumes.Volumes.WriteDataFork` | src/cwhost/vfs.py:150-158 | one write step, and the exact condition under which the cache still agrees |
| `VirtualVolumes.Volumes.DeleteNode` | src/cwhost/vfs.py:160-168 | one deletion step, and the exact condition under which the cache still agrees |
| `VirtualVolumes.Volumes.RenameNode` | src/cwhost/vfs.py:170-184 | one rename step, and the exact condition under which the cache still agrees |
| `VirtualVolumes.StepKeepsSound` | src/cwhost/vfs.py:276-371 | each request that leaves the build root alone, renames of files only, keeps cache and file system in agreement |
| `VirtualVolumes.RunAgrees` | src/cwhost/vfs.py:276-371 | over any run of such requests every cached listing equals a fresh one |
| `HfsPaths.SplitJoin` | src/cwhost/vfs.py:391-391 | splitting joined colon-free names gives them back |
| `HfsPaths.FilterMembers` | src/cwhost/vfs.py:301-306 | children_named returns exactly the listed nodes whose name folds alike |
| `HfsPaths.NamedIsMatch` | src/cwhost/vfs.py:408-411 | the first hit is the first child in listing order that matches, and no hit means there is none |
| `HfsPaths.WalkFinds` | src/cwhost/vfs.py:398-412 | walking a path's own names (none empty, . or ..) leads to it if and only if each comes first among its case variants |
| `HfsPaths.PrintResolves` | src/cwhost/vfs.py:379-413 | resolve_hfs(hfs_path(n)) is n if and only if no name on its path holds a colon and each comes first, in listing order, among the names that fold like it (folding keeps colons, and no directory entry is named empty, . or ..) |
| `HfsPaths.WalkReaches` | src/cwhost/vfs.py:398-412 | components without a colon never lead to a name that holds one |
| `HfsPaths.SecondCaseIsLost` | src/cwhost/vfs.py:408-411 | a concrete tree with two names that fold alike, in which the path printed for one leads to the other |
| `HfsPaths.ColonIsLost` | src/cwhost/vfs.py:391-391 | a concrete tree whose only file has a colon in its name, and whose printed path does not lead to it |
| `HfsPaths.UniqueResolves` | src/cwhost/vfs.py:379-413 | in particular an existing path with case-unique names resolves to itself if and only if no name on it holds a colon |
| `HfsPaths.VolumeResolves` | src/cwhost/vfs.py:392-396 | a volume name, in any case, leads to its root; any other first component is refused |
| `HfsPaths.ComponentResolves` | src/cwhost/vfs.py:398-412 | an absolute path and one component more: nothing and . stay, .. leads up but not above the volume root, a name leads to the first child it cannot be told from by case, or nowhere |
| `HfsPaths.RelativeResolves` | src/cwhost/vfs.py:379-390 | a path with n leading colons climbs n-1 levels from the current directory, at most to the volume root |
| `HfsPaths.RelativeFinds` | src/cwhost/vfs.py:379-412 | up n-1 levels and down again, it leads to a node exactly when each of the names comes first among its case variants |
| `HfsPaths.ParentOf` | src/cwhost/vfs.py:115-122 | the parent node on the same volume, none at a volume root |
| `HfsPaths.HfsPath` | src/cwhost/vfs.py:461-469 | the climbing loop prints the volume and the names below its root |
| `HfsPaths.ResolveHfs` | src/cwhost/vfs.py:379-413 | with a truthful cache the loop returns the one interned node where the reference resolution leads, and its errors |
| `IncludeWalk.Confined` | src/cwhost/session.py:275-309 | a route that arrives ends at something that exists inside its search root, whatever the path says |
| `IncludeWalk.ComponentFollows` | src/cwhost/session.py:275-309 | one component more: nothing and . stay, .. leads up but not out of the root, a name leads from a directory to its first match |
| `IncludeWalk.GivenIsInside` | src/cwhost/session.py:275-309 | what a root gives is an existing non-directory strictly inside that root |
| `IncludeWalk.NamedUnlessRoot` | src/cwhost/vfs.py:109-112 | every child answers to its own name except the build root seen from above |
| `IncludeWalk.RootNotFoundByName` | src/cwhost/vfs.py:109-112 | no name leads from the directory above to the build root |
| `IncludeWalk.IsUnder` | src/cwhost/session.py:267-273 | the climb by node ids decides whether a node is at or below a root on the same volume |
| `IncludeWalk.FollowFrom` | src/cwhost/session.py:280-304 | the component loop goes where the reference goes |
| `IncludeWalk.WalkSlashInclude` | src/cwhost/session.py:275-309 | returns what the first search root that gives a file gives, and nothing exactly when no root gives one |
| `IncludeSearch.AnswerIsOne` | src/cwhost/session.py:328-333 | what one search root answers to a plain name is unique |
| `IncludeSearch.AnswerIsFile` | src/cwhost/session.py:328-333 | a file found by plain name exists, is no directory and lies directly in the directory that was searched |
| `IncludeSearch.ListedAnswer` | src/cwhost/session.py:329-333 | the first non-directory among children_named is the first matching file in listing order |
| `IncludeSearch.Finder.SearchRoots` | src/cwhost/session.py:242-265 | the directory of the including file (by index, else loaded last, else first), unless a full search is asked for, then user and system directories in order |
| `IncludeSearch.Finder.SearchByName` | src/cwhost/session.py:328-334 | the first root that has an answer decides, and the file found is the one loaded last |
| `IncludeSearch.Finder.FindFile` | src/cwhost/session.py:311-334 | a colon path is resolved first and falls back to the search roots only when nothing is there; slash paths and plain names take the first root that answers; only the latter move the file loaded last |
| `AppleDoubleFile.Write` | src/cwhost/appledouble.py:51-72 | writes the encoding, and refuses exactly what a 16-bit count and 32-bit ids, offsets and lengths cannot hold |
| `AppleDoubleFile.HeaderBytes` | src/cwhost/appledouble.py:51-60 | the header: 00 05 16 07, 00 02 00 00, sixteen zeros and the count |
| `AppleDoubleFile.OneEntryFile` | src/cwhost/appledouble.py:51-72 | a concrete file: header, descriptor and data of one entry |
| `AppleDoubleFile.Read` | src/cwhost/appledouble.py:24-49 | the loop reads what the reference reads, with all its refusals |
| `AppleDoubleFile.EntryReads` | src/cwhost/appledouble.py:61-70 | each descriptor of a written file names its entry and points at the entry's bytes |
| `AppleDoubleFile.ReadWrite` | src/cwhost/appledouble.py:24-72 | reading what was written gives every entry back, in order |
| `AppleDoubleFile.RewriteKeepsRest` | src/cwhost/vfs.py:207-214 | changing one entry and rewriting leaves every other entry as it was |
| `ResourceFiles.StringsDecode` | src/cwhost/resources.py:108-126 | a list decodes to given strings if and only if the bytes start with those strings, in order |
| `ResourceFiles.StrList` | src/cwhost/resources.py:108-126 | the loop reads the string list, truncation refused |
| `ResourceFiles.StringListDecodes` | src/cwhost/resources.py:109-126 | a payload is a list of strings exactly when it is their count in two bytes and then the strings, each behind its length |
| `ResourceFiles.Parse` | src/cwhost/resources.py:38-97 | succeeds if and only if every reference is readable and no two share type and id; the dictionary is then just those references' data |
| `ResourceFiles.SampleParses` | src/cwhost/resources.py:38-97 | a concrete fork, byte by byte, which parses to its one resource |
| `ResourceChains.FreeNumber` | src/cwhost/resources.py:140-142 | the least unused number, at most one more than the open files |
| `ResourceChains.OpenKeeps` | src/cwhost/resources.py:137-147 | opening keeps the order free of repeats and the current file in it |
| `ResourceChains.CloseKeeps` | src/cwhost/resources.py:153-158 | closing keeps the order free of repeats and the current file in it |
| `ResourceChains.CloseUndoesOpen` | src/cwhost/resources.py:137-158 | closing the file just opened restores files and order; the current file comes back if and only if it was the last one |
| `ResourceChains.CloseMovesCurrent` | src/cwhost/resources.py:137-158 | a concrete chain in which closing the file just opened makes another file current |
| `ResourceChains.GetIsOne` | src/cwhost/resources.py:171-179 | what get may return is unique |
| `ResourceChains.Chain.Open` | src/cwhost/resources.py:137-147 | opens under the least free number exactly when the node belongs here and its fork parses, otherwise nothing changes |
| `ResourceChains.Chain.Use` | src/cwhost/resources.py:149-151 | makes an open file current, refuses others |
| `ResourceChains.Chain.Close` | src/cwhost/resources.py:153-158 | removes the file; the last of the order becomes current |
| `ResourceChains.Chain.Get` | src/cwhost/resources.py:171-179 | the resource of the latest file, from the current one back, that has it |
| `ResourceChains.IndexedIs` | src/cwhost/resources.py:181-197 | the string at an index is the one the payload spells there, counted from 1 |
| `ResourceChains.Chain.GetIndString` | src/cwhost/resources.py:181-197 | the string at the index of the list that get finds, with the same refusals |

## Left out

- Parsing of the PEF container, loader header, import and export tables: index and table reading without a hard property; the tables are data of the model.
- Emulation, hooks, timeouts and tracing: the guest is an arbitrary sequence of actions. Page permissions are not modelled.
- `GuestCalls.Processor.Call`: a callback's effect on trap slots beyond nested calls is not modelled, nor is what the run loop does to r12 and LR at a trap; floating-point registers are 64-bit patterns.
- `Guest.Guest.Map`: that the emulator refuses overlapping maps and maps beyond 2^32 is part of the model, not derived.
- `RelocationTheorems.RebaseAdditive`: a sufficient condition for streams; `RelocationTheorems.OverlapMayStayAdditive` shows that it is not necessary, and the exact one, which depends on how often each value is added where, is not stated.
- `PatternData.ExpandEncode`: lists of instructions with positive common sizes, which are exactly the ones that decode rightly in every context.
- `StructCodec.RoundTrip`: character strings, which the codec encodes as MacRoman, and `int()` of byte strings are not values of the model; `None` and floats neither.
- `StructMemory.PackBytes`: the layout table is rebuilt from the declaration instead of being kept in the object.
- `MemoryHandles.Handles.New`: handle records are map values, so aliasing of the record objects is not captured; nothing in the program aliases them.
- `VirtualVolumes.RunAgrees`: changes made to the directory tree behind the program's back, symbolic links, permissions and listing errors are not modelled; extended attributes and sidecar writes neither.
- `HfsPaths.ResolveHfs`: says where it leads only while the cache is truthful, as `VirtualVolumes.RunAgrees` shows it to be.
- `AppleDoubleFile.Write`: files are byte strings; reading and writing them on disk is not modelled.
- `ResourceChains.Chain.Get`: resource types are byte strings; text types converted through MacRoman are left out.
- `fsspec` and `node_from_fsspec`: the same steps as the walks above.
- `decode_fsref` across several volume sets, `cli/`, `panels.py`, `api.py`, `pluginlib.py` and the `carbon/` shims: flag tables and thin wrappers.
- MacRoman and UTF-16 codecs, Unicode case folding, date formatting, export hashing: no property spanning operations.
