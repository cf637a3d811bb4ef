# A verified model of the MeetixOS core

This project models the parts of MeetixOS whose correctness is hardest to see from the code, and proves what they
promise:

- **the heap allocator** of the C library (`Libs/LibC/malloc.c`, dlmalloc 2.8.6 in the configuration of
  `Libs/LibC/MallocConfig.hh`: 32-bit words, no mmap, no footers);
- **SHA-256, SHA-384 and SHA-512** (`Libs/LibUtils/SHA2.cc`) against FIPS 180-4;
- **getopt with argv permutation** and the sharing out of positional arguments (`Libs/LibC/OptionsParser.cc`,
  `Libs/LibUtils/ArgsParser.cc`);
- **rounding of floating-point numbers** on their bit fields (`Libs/LibMath/math.cc`);
- **the kernel's sbrk** (`Kernel/Kernel/calls/SyscallHandlerMemory.cpp`), which supplies the allocator with memory;
- **the boot loader's search for free memory** (`Kernel/Loader/loader.cpp`).

`dafny verify dfyconfig.toml` checks the whole project.

## The allocator

Memory is a map from word addresses to words of 32 bits. Headers, feet, list links, child pointers, bin headers and
segment records are words in it, read and written where the C code does. `Malloc.MallocState` has the fields of
`malloc_state`; its methods follow the branches of the C functions. Beside the real state it carries a ghost one: the
chunks with their sizes and kinds (`c`), and the contents of the bins (`h`), the trees as values of the datatype
`Tries.Tree`. The invariant `Valid()` ties the two together. It says that

- the chunks tile each segment, no two free chunks are adjacent, every header gives the size and both in-use bits, and
  every free chunk except top repeats its size at its end (`Chunks.Shape`);
- the 32 small bins are circular lists through the free chunks themselves, the 32 tree bins are digital trees whose
  paths spell the sizes, chunks of one size form a ring with one member in the tree, and the two maps have exactly the
  bits of the bins in use (`Bins.BinsOk`);
- every free chunk has one home: top, the designated victim, or the one bin its size selects (`Steps.Owned`);
- segments do not overlap, each has its record or holds top, and the footprint is the sum of their sizes
  (`Heaps.SegsOk`, `Heaps.SegWords`, `Steps.Accounts`).

Every operation preserves the invariant, every run-time check (`RTCHECK`) is asserted where the code makes it and so
never fails, and blocks of other callers keep address, size and contents (`Heaps.Keeps`). On top of that the results
say *which* chunk serves a request (best fit, the oldest of equal ones in a tree), *where* what is left of it goes,
*how much* memory is asked of the system or given back, and when; *when* a request may fail; and what a whole run of
calls looks like to its callers: a set of independent stores, with no call that fails without reason (`Runs.Run`).

The state before and after an operation is compared as a `View` (chunks, bins, designated victim, top) and `Dealings`
(segments, break, refusals, footprint, trim threshold): `Effects.FromBin`, `FromVictim` and `FromTop` say what serving a
request leaves behind, `Effects.Coalescing` what a free does, `Effects.Fitted` what a new size does, and
`NewMemory.FromSystem`, `Enlarged` and `GivenBack` what passes between allocator and system.

## The rest

The hash functions have the specification of FIPS 180-4 as functions on sequences (padding, message schedule, rounds,
chaining), and the C code as methods on arrays, with the schedule kept in the sixteen words of the context buffer, also
when that buffer is the block being hashed. The functions on words are characterised bit by bit, the constants as
fractions of roots of primes, and the digests of "abc" are proved to be the published ones. getopt is specified by one function that reads a whole command line
(`Options.Read`); the parser object, which keeps its place between calls and rotates argv, is proved to deliver that
reading step by step. Floating-point numbers are triples of sign, exponent and mantissa with a real value. The break of
a process is proved together with the page table, the reference counts and the free pages of physical memory.

## Where the code falls short

Some properties turn out to be false of the code as it is. Each has an input that breaks it and an exact condition:

- `ialloc` computes the total size in 32 bits (`Bulk.ElementsWrap`); it is right exactly when the true size fits
  (`Bulk.CodeSizeExact`).
- `memalign` looks for a power of two by doubling (`Aligning.NeverAligned`); the loop ends exactly for alignments up to
  2^31 (`Aligning.DoublingEnds`).
- memory that does not end on a word makes new top pass for a chunk in use, or lets fenceposts leave the segment
  (`System.ForeignBreak`); both are in order exactly when it does (`System.EndExact`). The first memory does from any
  break (`Malloc.MallocState.FirstSpace`); later memory does not when other code has left the break elsewhere.
- positional arguments are shared out wrong when their least numbers add up to 2^32 or more (`Positionals.WrappedSum`)
  or exceed the greatest (`Positionals.CrossedBounds`), and only then (`Positionals.CountPositionals`).
- `ceil` of plus zero and `floor` of minus zero give one and minus one, and they are right for everything else
  (`Rounding.Ceil`, `Rounding.Floor`). `nearbyint` takes a half away from zero where it should go to the even neighbour
  (`Rounding.HalfToOne`), exactly above even magnitudes (`Rounding.Nearbyint`).
- `sbrk` unmaps pages below the heap (`Sbrk.BelowTheHeap`), exactly when the break goes more than a page below its start
  (`Sbrk.Process.Shrink`, `Sbrk.Process.Sbrk`, `Sbrk.Run`).
- getopt reads outside the declarations for a short option that is not declared (`Getopt.Undeclared`), exactly then
  (`Getopt.LookupShortOption`); with a leading plus, an option behind a lone dash is reported twice
  (`Getopt.ReportedTwice`), and a command line is parsed right exactly without either
  (`Getopt.OptionsParser.ParseOptions`). An option is refused although it is declared (`Getopt.QuestionRefused`) exactly
  if its code is the question mark (`Getopt.ReportedUnlessQuestion`).
- the loader does not see a module in the last page of the address space (`Loader.LastByte`), exactly these
  (`Loader.LastPageUnseen`).

## Model

| member | source | states |
|---|---|---|
| BinMaps.LeftMarked | Libs/LibC/malloc.c:2909-2913 | masking a map with the bits to the left of a bit keeps exactly the marks of higher bins |
| BinMaps.LeastMarked | Libs/LibC/malloc.c:2915-2927 | isolating the least bit and turning it into an index finds the lowest mark of any nonzero map |
| BinMaps.LowPair | Libs/LibC/malloc.c:4521-4525 | the test of the two low bits of the shifted map is exactly a test of the request's own bin and the next one |
| BinMaps.NextSmall | Libs/LibC/malloc.c:4536-4546 | when the own bin is empty and bits remain, the computed index is the lowest marked bin above it |
| BinMaps.NoBits | Libs/LibC/malloc.c:4521-4537 | no bits left means no small bin from the request's own on holds anything |
| TreeIndex.IndexRange | Libs/LibC/malloc.c:2819-2832 | for every large size the computed tree index is below 32 and the size lies in the interval of that tree |
| TreeIndex.IndexMono | Libs/LibC/malloc.c:2819-2832 | sizes in a lower-numbered tree are smaller than all sizes in a higher-numbered one |
| TreeIndex.KeyStart | Libs/LibC/malloc.c:2880-2893 | the shifted size starts at the first bit that tells sizes of its tree apart |
| TreeIndex.KeyStep | Libs/LibC/malloc.c:3634-3640 | the top bit of the key says which half of the interval the size lies in, and shifting moves on to that half |
| Tries.LookupHas | Libs/LibC/malloc.c:3282-3328 | following the bits of a size leads to a node exactly when the tree holds the size, and then to the node of that size |
| Tries.InsertTree | Libs/LibC/malloc.c:3619-3665 | insertion keeps the digital-tree order, adds the one chunk at the young end of the ring of its size, and changes no other ring |
| Tries.RemoveTree | Libs/LibC/malloc.c:3684-3745 | removal keeps the digital-tree order, takes the one chunk off its ring, and changes no other ring |
| LargeChunks.FindPlace | Libs/LibC/malloc.c:3632-3651 | the search of an insertion ends at the chunk of the same size, or at the empty child word the size belongs to |
| LargeChunks.InsertLargeChunk | Libs/LibC/malloc.c:3619-3665 | the words written turn pointers and map of the trees into those of the trees with the chunk inserted; nothing outside free chunks and tree roots changes; no check fails |
| LargeChunks.FindLeaf | Libs/LibC/malloc.c:3698-3708 | the walk to a leaf below a chunk finds the rightmost leaf and the child word that holds it, or that there is none |
| LargeChunks.TakeOff | Libs/LibC/malloc.c:3687-3710 | the chunk is taken off its ring, or a leaf is cut off to replace it, and the pieces are what relinking needs |
| LargeChunks.RelinkReady | Libs/LibC/malloc.c:3711-3744 | the parent and root checks made before relinking are met by every well-linked tree |
| LargeChunks.Relink | Libs/LibC/malloc.c:3711-3744 | the replacement gets the place, parent and children of the chunk; the map bit goes exactly when the root goes |
| LargeChunks.Neighbours | Libs/LibC/malloc.c:3688-3696 | the neighbours on a ring are large free chunks that point back, so the ring check never fails |
| LargeChunks.UnlinkLargeChunk | Libs/LibC/malloc.c:3684-3745 | pointers and map become those of the trees without the one chunk, in every case: ring member, leaf, inner node, root |
| BestFit.FollowKey | Libs/LibC/malloc.c:4381-4403 | the first path leaves the best fit among the sizes seen, and all other candidates in the one subtree remembered |
| BestFit.LeftmostPath | Libs/LibC/malloc.c:4414-4421 | the leftmost path of a subtree finds the smallest size in it, so the best fit of the whole tree is known |
| BestFit.SearchLarge | Libs/LibC/malloc.c:4375-4421 | among all tree chunks of at least the size asked for, one of minimum size, the oldest of its size; none exactly when no tree chunk fits |
| BestFit.SearchSmall | Libs/LibC/malloc.c:4446-4461 | the smallest chunk in all the trees, the oldest of its size |
| SmallBins.InsertSmallChunk | Libs/LibC/malloc.c:3543-3560 | the list of the bin gets the chunk in front, the map bit is set, links elsewhere stay; no check fails |
| SmallBins.UnlinkSmallChunk | Libs/LibC/malloc.c:3563-3582 | the list loses the one chunk, wherever it is in it; the bit is cleared exactly when the list is then empty |
| SmallBins.UnlinkFirstSmall | Libs/LibC/malloc.c:3586-3600 | a marked bin yields the chunk put in last, and the bin keeps the others |
| Bins.InsertChunk | Libs/LibC/malloc.c:3749-3754 | the chunk goes to the one bin its size selects, all others stay where they are |
| Bins.UnlinkChunk | Libs/LibC/malloc.c:3756-3761 | the chunk leaves the bin its size selects, all others stay where they are |
| Bins.TakeFirst | Libs/LibC/malloc.c:4523-4534 | taking the first chunk of a marked small bin keeps all bins in order |
| Effects.LineBinned | Libs/LibC/malloc.c:3543-3665 | a chunk that is binned comes first among small ones of its size and last among large ones; the order of all other sizes stays |
| Effects.LineUnbinned | Libs/LibC/malloc.c:3563-3745 | a chunk that leaves its bin leaves the order of the others as it is |
| Effects.NextAfterBinning | Libs/LibC/malloc.c:3543-3665 | a small chunk just binned is the next of its size to serve, a large one only if it is the only one of its size |
| Steps.BinnedMark | Libs/LibC/malloc.c:2898-2907 | a chunk in a bin shows in the map, so a clear map means that no binned chunk fits |
| Steps.LowestBin | Libs/LibC/malloc.c:4523-4546 | the lowest marked bin from the request's own on gives the smallest binned chunk of all, trees included |
| System.RequestFacts | Libs/LibC/malloc.c:2224-2227 | the padded request is sixteen for up to twelve bytes, and otherwise the least multiple of eight that holds the bytes and the header; requests from 2^32 - 64 bytes on are too large |
| System.AsizeFacts | Libs/LibC/malloc.c:4013-4015 | the wrap-around test lets through exactly sizes that were computed without wrapping |
| System.InitBins | Libs/LibC/malloc.c:3875-3884 | every small bin becomes an empty circular list and nothing else is written |
| System.TopReadsFree | Libs/LibC/malloc.c:3860-3872 | for any memory the system returns, the header of new top reads as free exactly if bit 1 of its end is clear |
| System.ForeignBreak | Libs/LibC/malloc.c:3860-3872 | a break two bytes above a page gives a top that passes for a chunk in use |
| System.EndExact | Libs/LibC/malloc.c:3860-3993 | top reads as free and fenceposts stay inside the segment if and only if the memory ends on a word |
| System.RecordSpot | Libs/LibC/malloc.c:3945-3953 | the address of the segment record, computed from the end, is the one that leaves a minimal chunk or nothing before it |
| System.ExtraFacts | Libs/LibC/malloc.c:4251-4254 | what trim asks back is whole pages, less than the excess, and leaves at most a page of it |
| Growth.ResizeTop | Libs/LibC/malloc.c:4161-4162 | writing one header keeps the whole invariant when top and its segment grow or shrink at the end |
| Growth.AfterTop | Libs/LibC/malloc.c:2707-2713 | top is the last chunk of its segment, for every state in order |
| Growth.Fence | Libs/LibC/malloc.c:3971-3982 | fencepost words fill the space from the record to the end of the segment, at least two, and no other word changes |
| Growth.AddDone | Libs/LibC/malloc.c:3943-3993 | record, fenceposts and remainder of the old segment and top of the new one keep the invariant and all live blocks |
| Growth.PrependDone | Libs/LibC/malloc.c:3904-3940 | a block and a free chunk in front of a segment keep the invariant and all live blocks |
| Malloc.MallocState.constructor | Libs/LibC/malloc.c:4132-4143 | before any call the invariant holds with nothing owned |
| Malloc.MallocState.Unlink | Libs/LibC/malloc.c:3756-3761 | a binned chunk comes out of its bin and waits for a new home; the other chunks of the bins stay as they are, in their order |
| Malloc.MallocState.Insert | Libs/LibC/malloc.c:3749-3754 | a chunk waiting for a home goes to its bin; the other chunks of the bins stay as they are, in their order |
| Malloc.MallocState.GatherBack | Libs/LibC/malloc.c:4311-4335 | a free predecessor, which the chunk before it in memory is if the header says so, is joined and leaves its bin, unless it is the designated victim |
| Malloc.MallocState.Dispose | Libs/LibC/malloc.c:4310-4370 | the chunk and its free neighbours, on both sides, become one: top from the first of them on if top follows, otherwise the designated victim if one of them was, otherwise a chunk in the bin of their joint size; the bins lose those neighbours and nothing else; all other chunks and blocks stay |
| Malloc.MallocState.FreeForward | Libs/LibC/malloc.c:4337-4366 | the same, of the part after the predecessor has been joined |
| Malloc.MallocState.FreeToBin | Libs/LibC/malloc.c:4353-4366 | a binned successor leaves its bin; the whole goes to the bin of its size, unless it is the designated victim |
| Malloc.MallocState.ReplaceDv | Libs/LibC/malloc.c:3604-3614 | the new designated victim is in place and the old one, if any, in a bin |
| Malloc.MallocState.Carve | Libs/LibC/malloc.c:4424-4438 | a binned chunk serves a request whole if less than a minimal chunk would remain, or is split at exactly the request with the rest waiting for a home |
| Malloc.MallocState.TmallocSmall | Libs/LibC/malloc.c:4446-4481 | the smallest tree chunk, oldest of its size, serves a small request; if at least sixteen bytes remain they are the new designated victim and the old one is in its bin, otherwise victim and other bins are as before; top stays |
| Malloc.MallocState.TmallocLarge | Libs/LibC/malloc.c:4375-4443 | the smallest fitting tree chunk, oldest of its size; what remains, if at least sixteen bytes, is in the bin of its size, and the designated victim and top are as before; 0, with nothing changed, exactly if none fits or the designated victim fits as tightly |
| Malloc.MallocState.AllocSmall | Libs/LibC/malloc.c:4516-4567 | a small request gets the smallest binned chunk unless the designated victim comes first, and what remains becomes the victim, the old one going to its bin; 0 only if the victim comes first or nothing binned fits |
| Malloc.MallocState.SplitFirst | Libs/LibC/malloc.c:4537-4561 | the first chunk of a larger bin serves the request; the rest is the designated victim and the old one is in its bin |
| Malloc.MallocState.UseFrontOfTop | Libs/LibC/malloc.c:4597-4606 | top serves: it starts behind the block and has lost exactly the request; bins and designated victim stay |
| Malloc.MallocState.UseFrontOfDv | Libs/LibC/malloc.c:4581-4585 | the designated victim serves and is now the rest behind the block; bins and top stay |
| Malloc.MallocState.AllocRest | Libs/LibC/malloc.c:4578-4609 | designated victim, top, system, in that order, and 0 only if all of them fail; the victim shrinks to the rest behind the block or is gone if less than sixteen bytes are left, top shrinks by the request, and the system is asked only if neither suffices |
| Malloc.MallocState.Malloc | Libs/LibC/malloc.c:4485-4617 | an aligned block that was free, large enough with less than a minimal chunk to spare, from the chunk the placement order names; where the rest goes is determined: after a binned chunk as for `AllocSmall` and `TmallocLarge`, otherwise behind the block as victim or top; memory comes from the system only if no free chunk fits, and its amount is that of `SysAlloc`; other blocks keep their contents; 0 only if the request is too large, or no free chunk fits and no memory is got, and then nothing changed |
| Malloc.MallocState.Free | Libs/LibC/malloc.c:4621-4721 | exactly the one block stops being live, joined with its neighbours as `Dispose` says; the system is involved if and only if it joined top and top, with the chunk and a free one before it, exceeds the trim threshold, and then as `SysTrim` says; otherwise break, segments and threshold stay, which is so whenever the footprint is at most two megabytes |
| Malloc.MallocState.FreeChunk | Libs/LibC/malloc.c:4640-4710 | the part of it before trimming: the size of top afterwards is known from the heap before |
| Malloc.MallocState.InitTop | Libs/LibC/malloc.c:3860-3872 | address, size and header of top, the word at the end of the segment and the trim threshold, for any address and size |
| Malloc.MallocState.AddSegment | Libs/LibC/malloc.c:3943-3993 | the invariant holds with the new segment in front and top in it; the old segment ends with its record as far back as two fenceposts need, what is left of old top is in the bin of its size unless it makes no chunk; all other chunks stay |
| Malloc.MallocState.EndSegment | Libs/LibC/malloc.c:3962-3990 | the old segment ends with its description, fenceposts and a free chunk of what was left of top |
| Malloc.MallocState.PrependAlloc | Libs/LibC/malloc.c:3904-3940 | the request is served at the start of the space in front of the segment; the rest joins top, the designated victim or a binned first chunk, which changes bins, or is binned by itself; everything else stays |
| Malloc.MallocState.Morecore | Libs/LibC/malloc.c:366-372 | the contract of sbrk the allocator relies on: the old break, which moves by the amount, or a refusal that changes nothing; what is granted is new and ends on a word |
| Malloc.MallocState.SegmentHolding | Libs/LibC/malloc.c:2680-2689 | the walk from the current segment through the records of the older ones finds the first that holds the address, or that none does |
| Malloc.MallocState.Older | Libs/LibC/malloc.c:2680-2689 | the words of a record describe the next older segment and lead to the one after it |
| Malloc.MallocState.EndingAt | Libs/LibC/malloc.c:4154-4158 | the walk finds the first segment that ends where new memory starts, or that none does |
| Malloc.MallocState.StartingAt | Libs/LibC/malloc.c:4166-4168 | the walk finds the first segment that starts where new memory ends, or that none does |
| Malloc.MallocState.FirstSpace | Libs/LibC/malloc.c:4050-4064 | from any break the first memory starts there, ends on a page boundary, and suffices for the request with less than a page too much, or nothing was taken; without a limit it fails only if the system refuses |
| Malloc.MallocState.MoreSpace | Libs/LibC/malloc.c:4065-4074 | the memory asked for is the least number of pages that makes top suffice, and whether it extends top |
| Malloc.MallocState.Salvage | Libs/LibC/malloc.c:4076-4096 | memory that does not extend top is made to suffice by itself, with less than a page too much, or is given back |
| Malloc.MallocState.FindSpace | Libs/LibC/malloc.c:4044-4126 | memory that suffices, by whichever way, and how much: less than a page more than the request and its overhead, two pages the first time; without refusals it starts at the break, and if it extends top it is the pages top lacks; failure only if the last way was refused or the size is beyond it |
| Malloc.MallocState.Contiguous | Libs/LibC/malloc.c:4044-4099 | memory at the break, and no more of it than needed; if there is none, the break is not relied upon again |
| Malloc.MallocState.Anywhere | Libs/LibC/malloc.c:4110-4126 | memory at the break, exactly the size asked for, or one refusal of that size |
| Malloc.MallocState.FirstSegment | Libs/LibC/malloc.c:4132-4143 | the first memory becomes the one segment, all of it top, and the trim threshold is set |
| Malloc.MallocState.SizeTop | Libs/LibC/malloc.c:4161-4162 | top and its segment get a new size, all other chunks stay, and the trim threshold is set |
| Malloc.MallocState.Append | Libs/LibC/malloc.c:4153-4162 | memory behind the current segment lengthens it and top by exactly its size |
| Malloc.MallocState.PlaceApart | Libs/LibC/malloc.c:4163-4178 | other memory goes in front of the segment that starts where it ends, with the request served, if there is one, and otherwise makes a segment whose top suffices; trim threshold and chunks accordingly |
| Malloc.MallocState.Integrate | Libs/LibC/malloc.c:4128-4178 | footprint and its maximum grow by exactly the memory got; it extends top if it follows it, goes in front of a segment it borders, or makes a segment, in that order; afterwards top suffices unless the request is already served |
| Malloc.MallocState.SysAlloc | Libs/LibC/malloc.c:3998-4194 | once memory is got the request succeeds, at top or at the start of the new memory; the footprint grows by what `FindSpace` says, and top, victim, bins and segments by what `Integrate` says; 0 only for a size that wraps, a footprint limit, or a refusal, with nothing changed |
| Malloc.MallocState.MeetWith | Libs/LibC/malloc.c:4128-4189 | the same, of the part after memory has been got |
| Malloc.MallocState.Shrink | Libs/LibC/malloc.c:4287-4292 | top, segment and footprint lose the same bytes, other chunks stay, the trim threshold is set |
| Malloc.MallocState.SysTrim | Libs/LibC/malloc.c:4245-4305 | what goes back to the system is the whole pages that leave top more than the padding, at most a page more; the break, the end of the segment and the footprint go down by them; nothing goes back if and only if there is too little, the break is elsewhere, or the system refuses just these pages, and then trimming is switched off if top exceeds the threshold |
| Malloc.MallocState.Release | Libs/LibC/malloc.c:4272-4283 | the bytes before the break are given back if and only if the break is where the segment ends and the system takes them |
| Malloc.MallocState.GrowIntoTop | Libs/LibC/malloc.c:4758-4768 | the block grows in place with its contents to exactly the size asked for; top starts behind it |
| Malloc.MallocState.GrowIntoDv | Libs/LibC/malloc.c:4769-4788 | the block grows in place with its contents; the designated victim starts behind it, or is gone if less than sixteen bytes would remain |
| Malloc.MallocState.GrowIntoFree | Libs/LibC/malloc.c:4789-4805 | the block grows in place with its contents over a binned neighbour; what is left is in the bin of its size, unless it makes no chunk |
| Malloc.MallocState.SplitUsed | Libs/LibC/malloc.c:4750-4756 | the block keeps its first bytes; the rest, with what is free behind it, is top, the designated victim or in a bin |
| Malloc.MallocState.TryRealloc | Libs/LibC/malloc.c:4742-4810 | the block is resized in place with its contents, and what is left over, or what is left of the neighbour, has the home it should; it fails, with nothing changed, only if what follows is in use or too small |
| Malloc.MallocState.Realloc | Libs/LibC/malloc.c:5090-5131 | the first bytes up to the smaller size survive, in place or moved; in place as `TryRealloc` says, without the system; it moves only if it is stuck, to where malloc would put a new block, and the old one is freed; on failure nothing changed; failure has the same causes as for malloc |
| Malloc.MallocState.Calloc | Libs/LibC/malloc.c:4723-4735 | all bytes asked for are zero, in the block malloc would give for the product; a product that wraps fails instead of giving a small block |
| Malloc.MallocState.AlignBlock | Libs/LibC/malloc.c:4834-4873 | the block stays if it is aligned; otherwise it moves to the first aligned place that leaves room for a chunk before it; leader and tail are given back |
| Malloc.MallocState.Memalign | Libs/LibC/malloc.c:4812-4881 | the block is aligned to the least power of two, from sixteen on, that is no less than asked for, large enough, and at the first suitable place of the block malloc gives for the request with room to align; failure has the same causes as for malloc |
| Malloc.MallocState.Merge | Libs/LibC/malloc.c:5029-5032 | two adjacent blocks become one and no other block changes |
| Malloc.MallocState.BulkFree | Libs/LibC/malloc.c:5008-5046 | exactly the blocks listed stop being live, although neighbours are merged first; the array is zeroed; top ends where it did, and the system is involved, as `SysTrim` says, if and only if top exceeds the trim threshold; never while the footprint is at most two megabytes |
| Malloc.MallocState.BulkOne | Libs/LibC/malloc.c:5014-5039 | one entry: its block is merged with the next entry that follows it in memory, or freed |
| Malloc.MallocState.TrimLarge | Libs/LibC/malloc.c:5041-5042 | top is trimmed if and only if it exceeds the threshold |
| Malloc.MallocState.CutElements | Libs/LibC/malloc.c:4965-4980 | one chunk is cut into adjacent live blocks of the sizes asked for, the last with all that is left, and the pointers are stored; no other word of the elements changes but their headers |
| Malloc.MallocState.Ialloc | Libs/LibC/malloc.c:4890-4999 | all elements are new live blocks of their own, in a row, of exactly the padded sizes but for what is left over at the end, with pointers in the array, which follows them unless it is given; they start at the block malloc gives for the total, and are zero if that is asked for; failure has the same causes as for malloc |
| Malloc.MallocState.ClearElements | Libs/LibC/malloc.c:4951-4953 | all bytes the elements will have are zero |
| Malloc.MallocState.NoElements | Libs/LibC/malloc.c:4905-4914 | without elements, the block malloc gives for an empty request, or nothing if an array is given |
| Malloc.MallocState.Store | Libs/LibC/malloc.c:2115-2150 | a caller's store inside a live block keeps the invariant and all other blocks |
| Malloc.MallocState.MoveBreak | Libs/LibC/malloc.c:4066-4074 | other users of sbrk may leave the break anywhere between calls |
| Resizing.CopyWords | Libs/LibC/malloc.c:5123-5124 | the bytes are copied, no more of the last word than asked for, and nothing else is written |
| Resizing.ClearWords | Libs/LibC/malloc.c:4732-4733 | the bytes are zeroed, no more of the last word than asked for, and nothing else is written |
| Resizing.CallocFacts | Libs/LibC/malloc.c:4725-4730 | the overflow test of calloc is exact: the product, or the impossible size if and only if it does not fit a word |
| Aligning.RoundAlignment | Libs/LibC/malloc.c:4814-4821 | the least power of two that is no less than the alignment and sixteen |
| Aligning.DoublingEnds | Libs/LibC/malloc.c:4816-4821 | the doubling loop comes to a large enough value if and only if the alignment is at most 2^31 |
| Aligning.NeverAligned | Libs/LibC/malloc.c:4816-4821 | for 2^31 + 1 the loop never ends |
| Aligning.SpotFacts | Libs/LibC/malloc.c:4834-4859 | there is always an aligned spot after a leader of at least a minimal chunk, with room for the request |
| Aligning.SpotNear | Libs/LibC/malloc.c:4834-4848 | it is the first such spot |
| Bulk.Contents | Libs/LibC/malloc.c:4918-4929 | the total computed, by multiplication or by adding up, is the sum of the padded sizes modulo 2^32 |
| Bulk.CodeSizeExact | Libs/LibC/malloc.c:4904-4938 | the size asked for is the true size if and only if the true size fits a word |
| Bulk.ElementsWrap | Libs/LibC/malloc.c:4915-4938 | for 2^30 + 1 elements of twelve bytes the code asks for 32 bytes |
| Bulk.SameTiling | Libs/LibC/malloc.c:5008-5046 | the tiling of given segments is determined by the live chunks alone |
| Bulk.FreedBoth | Libs/LibC/malloc.c:5008-5046 | two ways of freeing the same blocks, from heaps with the same live blocks, end in the same tiling |
| Releases.FreeEach | Libs/LibC/malloc.c:4621-4721 | a loop of single frees in any order leaves exactly the other blocks, and the footprint is smaller or nothing of the segments changed |
| Releases.FreeBothWays | Libs/LibC/malloc.c:5008-5046 | bulk_free on one heap and single frees, in any order, on another free exactly the same blocks; both end with the same chunks, unless one of them gave memory back |
| Checks.TilesExactly | Libs/LibC/malloc.c:3401-3427 | every address of a segment up to the end of its last chunk is in exactly one chunk |
| Checks.SizesSpan | Libs/LibC/malloc.c:3401-3427 | walking from chunk to chunk adds up to the length of the rest of the segment |
| Checks.TraversalTotal | Libs/LibC/malloc.c:3401-3456 | all chunks and top's overhead add up to no more than the footprint, which is no more than its maximum |
| Checks.FootprintBound | Libs/LibC/malloc.c:3447-3456 | segments do not overlap, so the footprint cannot wrap around |
| Checks.InuseChecks | Libs/LibC/malloc.c:3235-3244 | the checks of a chunk in use hold in every valid state, read from the words |
| Checks.FreeChecks | Libs/LibC/malloc.c:3246-3265 | the checks of a free chunk hold: both in-use bits, the foot, in-use neighbours on both sides, and back links on its list or ring |
| Checks.BackLinks | Libs/LibC/malloc.c:3260-3261 | the neighbours of every binned chunk on its list or ring point back at it |
| Checks.TopChecks | Libs/LibC/malloc.c:3207-3219 | the checks of top hold, with its size and the end of its segment |
| Checks.OneHome | Libs/LibC/malloc.c:3331-3398 | every free chunk has exactly one home, a chunk in use has none, and being in a bin means being free and of the size of the bin |
| Checks.SmallMapExact | Libs/LibC/malloc.c:3342-3363 | a bit of the small map is set if and only if there is a binned chunk of that size |
| Checks.TreeMapExact | Libs/LibC/malloc.c:3331-3339 | a bit of the tree map is set if and only if there is a binned chunk with that tree index |
| Runs.Step | Libs/LibC/malloc.c:4485-5131 | each call changes the blocks the callers see as it should, whatever it does to the heap, fails only for a bad argument, a request too large, or want of memory, and takes from the system or gives back only what `Run` says |
| Runs.Run | Libs/LibC/malloc.c:4485-5131 | over every run of calls, stores and foreign breaks the invariant holds before every call, the blocks behave as independent stores with their words and alignments, and no call fails but for a bad argument, a request too large, or because no free chunk fits and no memory is got; memory comes from the system only if no free chunk fits, less than 8256 bytes more than was asked for, and none goes back on a free while the footprint is at most two megabytes |
| Streams.AbsorbMore | Libs/LibUtils/SHA2.cc:455-501 | hashing a message in two parts only needs the state and the bytes left over from the first |
| Streams.PadOne | Libs/LibUtils/SHA2.cc:517-545 | when mark and length fit, padding and the last block are one transform of the padded message |
| Streams.PadTwo | Libs/LibUtils/SHA2.cc:517-545 | when they do not, the length comes in a second block, and the two transforms are those of the padded message |
| Streams.BigEndianHalves | Libs/LibUtils/SHA2.cc:851-852 | the two halves of the counter, each stored most significant byte first, are the bytes of the whole number |
| Streams.ReversedNumber | Libs/LibUtils/SHA2.cc:132-138 | a number reversed by REVERSE64 and stored in host order is its bytes, most significant first |
| Sha256.ReadWord | Libs/LibUtils/SHA2.cc:394-399 | a word of the block is read most significant byte first and kept in the buffer, also when the block is the buffer |
| Sha256.NextWord | Libs/LibUtils/SHA2.cc:418-425 | the word computed in place is the word of the full message schedule of section 6.2.2 of FIPS 180-4 |
| Sha256.Step | Libs/LibUtils/SHA2.cc:404-412 | a round of the loop is a round of section 6.2.2 of FIPS 180-4 |
| Sha256.RoundMacro | Libs/LibUtils/SHA2.cc:291-316 | changing two variables and renaming the rest is the same round |
| Sha256.Transform | Libs/LibUtils/SHA2.cc:376-451 | the looped transform computes the compression function of section 6.2.2, for every state and block, also in place |
| Sha256.TransformUnrolled | Libs/LibUtils/SHA2.cc:318-372 | the unrolled transform computes the same function, so the two agree |
| Sha256.LeastPadding | Libs/LibUtils/SHA2.cc:517-545 | the padding is that of section 5.1.1 of FIPS 180-4, with the least number of zero bits |
| Sha256.StoreReversed | Libs/LibUtils/SHA2.cc:125-131 | a reversed word stored in host order is the word, most significant byte first |
| Sha256.Context.constructor | Libs/LibUtils/SHA2.cc:276-283 | a new context has hashed the empty message |
| Sha256.Context.UsedSpace | Libs/LibUtils/SHA2.cc:466 | the counter of bits gives the number of bytes in the buffer |
| Sha256.Context.Update | Libs/LibUtils/SHA2.cc:455-501 | any bytes, however full the buffer is, are appended to the message hashed |
| Sha256.Context.Last | Libs/LibUtils/SHA2.cc:510-545 | after padding, the state is the hash of the whole message |
| Sha256.Context.Output | Libs/LibUtils/SHA2.cc:547-558 | the digest has the words of the state, most significant byte first |
| Sha256.Context.Final | Libs/LibUtils/SHA2.cc:503-564 | the digest is that of section 6.2 for all bytes given, and nothing of the message stays in the context |
| Sha256.Feed | Libs/LibUtils/SHA2.cc:455-501 | any list of pieces makes their concatenation the message |
| Sha256.DigestOf | Libs/LibUtils/SHA2.cc:276-564 | however a message is cut into calls, the digest is that of the whole message |
| Sha256.Digest256 | Libs/LibUtils/SHA2.cc:276-564 | SHA-256 as section 6.2 of FIPS 180-4 has it, from its initial value to its 32 bytes, however the message is cut; `Sha256Bits` and `Sha256Constants` say what its functions and constants are |
| Sha512.ReadWord | Libs/LibUtils/SHA2.cc:708-713 | as for SHA-256, with words of eight bytes |
| Sha512.NextWord | Libs/LibUtils/SHA2.cc:732-739 | the word computed in place is the word of the full message schedule of section 6.4.2 of FIPS 180-4 |
| Sha512.Step | Libs/LibUtils/SHA2.cc:718-726 | a round of the loop is a round of section 6.4.2 of FIPS 180-4 |
| Sha512.RoundMacro | Libs/LibUtils/SHA2.cc:610-635 | changing two variables and renaming the rest is the same round |
| Sha512.Transform | Libs/LibUtils/SHA2.cc:692-765 | the looped transform computes the compression function of section 6.4.2, for every state and block, also in place |
| Sha512.TransformUnrolled | Libs/LibUtils/SHA2.cc:637-688 | the unrolled transform computes the same function |
| Sha512.LeastPadding | Libs/LibUtils/SHA2.cc:817-856 | the padding is that of section 5.1.2 of FIPS 180-4, with the least number of zero bits |
| Sha512.StoreReversed | Libs/LibUtils/SHA2.cc:132-139 | a reversed word stored in host order is the word, most significant byte first |
| Sha512.Context.constructor | Libs/LibUtils/SHA2.cc:598-605 | a new context has hashed the empty message |
| Sha512.Context.AddBits | Libs/LibUtils/SHA2.cc:146-152 | the carry is exact: two words count up to 2^128 |
| Sha512.Context.UsedSpace | Libs/LibUtils/SHA2.cc:780 | the low word of the counter gives the number of bytes in the buffer |
| Sha512.Context.Update | Libs/LibUtils/SHA2.cc:769-815 | any bytes, however full the buffer is, are appended to the message hashed |
| Sha512.Context.Last | Libs/LibUtils/SHA2.cc:817-856 | after padding, the state is the hash of the whole message |
| Sha512.Context.Output | Libs/LibUtils/SHA2.cc:869-880 | the digest has the first words of the state, most significant byte first |
| Sha512.Context.Final | Libs/LibUtils/SHA2.cc:858-885 | the digest is the first words of the hash of all bytes given, and nothing of the message stays in the context |
| Sha512.Feed | Libs/LibUtils/SHA2.cc:769-815 | any list of pieces makes their concatenation the message |
| Sha512.DigestOf | Libs/LibUtils/SHA2.cc:598-959 | however a message is cut into calls, the digest is that of the whole message, for any initial value and number of words |
| Sha512.Digest512 | Libs/LibUtils/SHA2.cc:598-885 | SHA-512 as section 6.4 has it, from its initial value to its 64 bytes, however the message is cut; `Sha512Bits` and `Sha512Constants` say what its functions and constants are |
| Sha512.Digest384 | Libs/LibUtils/SHA2.cc:919-959 | SHA-384 as section 6.5 has it, from its own initial value to its 48 bytes, however the message is cut |
| Sha256Bits.RotrBit | Libs/LibUtils/SHA2.cc:193 | a bit of the rotated word is the bit so many places further left, around the end |
| Sha256Bits.ChBit | Libs/LibUtils/SHA2.cc:198 | each bit is chosen from the second or third word by the bit of the first |
| Sha256Bits.MajBit | Libs/LibUtils/SHA2.cc:199 | each bit is the majority of the three |
| Sha256Bits.BigSigma0Bit | Libs/LibUtils/SHA2.cc:202 | each bit is the parity of the bits 2, 13 and 22 places further left, as section 4.1.2 of FIPS 180-4 has it |
| Sha256Bits.BigSigma1Bit | Libs/LibUtils/SHA2.cc:203 | each bit is the parity of the bits 6, 11 and 25 places further left, as section 4.1.2 of FIPS 180-4 has it |
| Sha256Bits.SmallSigma0Bit | Libs/LibUtils/SHA2.cc:204 | each bit is the parity of the bits 7 and 18 places, and 3 without those shifted in further left, as section 4.1.2 of FIPS 180-4 has it |
| Sha256Bits.SmallSigma1Bit | Libs/LibUtils/SHA2.cc:205 | each bit is the parity of the bits 17 and 19 places, and 10 without those shifted in further left, as section 4.1.2 of FIPS 180-4 has it |
| Sha256Bits.PlusBit | Libs/LibUtils/SHA2.cc:404-412 | addition of words is addition with carry, bit by bit |
| Sha256Constants.KRoots | Libs/LibUtils/SHA2.cc:224-233 | every round constant is the first 32 bits of the fraction of the cube root of the prime of its number |
| Sha256Constants.InitialRoots | Libs/LibUtils/SHA2.cc:236-237 | the initial value is the first 32 bits of the fractions of the square roots of the first eight primes |
| Sha256Example.AbcDigest | Libs/LibUtils/SHA2.cc:276-564 | the digest of the three bytes "abc", as published with the standard |
| Sha512Bits.RotrBit | Libs/LibUtils/SHA2.cc:195 | a bit of the rotated word is the bit so many places further left, around the end |
| Sha512Bits.ChBit | Libs/LibUtils/SHA2.cc:198 | each bit is chosen from the second or third word by the bit of the first |
| Sha512Bits.MajBit | Libs/LibUtils/SHA2.cc:199 | each bit is the majority of the three |
| Sha512Bits.BigSigma0Bit | Libs/LibUtils/SHA2.cc:208 | each bit is the parity of the bits 28, 34 and 39 places further left, as section 4.1.3 of FIPS 180-4 has it |
| Sha512Bits.BigSigma1Bit | Libs/LibUtils/SHA2.cc:209 | each bit is the parity of the bits 14, 18 and 41 places further left, as section 4.1.3 of FIPS 180-4 has it |
| Sha512Bits.SmallSigma0Bit | Libs/LibUtils/SHA2.cc:210 | each bit is the parity of the bits 1 and 8 places, and 7 without those shifted in further left, as section 4.1.3 of FIPS 180-4 has it |
| Sha512Bits.SmallSigma1Bit | Libs/LibUtils/SHA2.cc:211 | each bit is the parity of the bits 19 and 61 places, and 6 without those shifted in further left, as section 4.1.3 of FIPS 180-4 has it |
| Sha512Bits.PlusBit | Libs/LibUtils/SHA2.cc:718-726 | addition of words is addition with carry, bit by bit |
| Sha512Constants.KRoots | Libs/LibUtils/SHA2.cc:240-257 | every round constant is the first 64 bits of the fraction of the cube root of the prime of its number |
| Sha512Constants.InitialRoots | Libs/LibUtils/SHA2.cc:265-267 | the initial value is the first 64 bits of the fractions of the square roots of the first eight primes |
| Sha512Constants.Initial384Roots | Libs/LibUtils/SHA2.cc:260-262 | the initial value of SHA-384 is from the square roots of the ninth to sixteenth primes |
| Sha512Example.AbcDigest | Libs/LibUtils/SHA2.cc:598-885 | the digest of the three bytes "abc", as published with the standard |
| Options.ReadShuffle | Libs/LibC/OptionsParser.cc:52-83 | reading a command line loses no argument and keeps the order of the options and of the others |
| Options.OptionsFirst | Libs/LibC/OptionsParser.cc:77-82 | the options of a reading, moved to the front, are read as before |
| Options.Reread | Libs/LibC/OptionsParser.cc:77-82 | reading the permuted command line gives the same reading again |
| Options.ReadOn | Libs/LibC/OptionsParser.cc:52-83 | more arguments are read as if by themselves, if those before have been read to the end and, with a leading plus, were all options |
| Options.AfterDashes | Libs/LibC/OptionsParser.cc:100-102 | whatever stands behind a double dash is left as it is |
| Options.AfterPlain | Libs/LibC/OptionsParser.cc:89-95 | with a leading plus, so is everything from the first argument on that is no option |
| Options.ClusterOnce | Libs/LibC/OptionsParser.cc:162-210 | for every cluster, from any place in it: each option is reported once, in order, with the code it is declared by; only the last can have a value, which is what follows it in the cluster or, if it needs one, the next argument; where the reading breaks off it does so at the first option it must |
| Options.LongOnce | Libs/LibC/OptionsParser.cc:110-160 | a long option is read as the first declared one that is the argument, or the argument up to an equals sign; its value is exactly what stands behind the sign, or the next argument if it needs one; it is refused exactly if none is spelled so, its code is the question mark, or the value is missing or not allowed |
| Options.NeedIs | Libs/LibC/OptionsParser.cc:253-267 | what an option needs, from the two characters behind its first occurrence in the declarations |
| Options.OthersDashless | Libs/LibC/OptionsParser.cc:85-108 | what a reading leaves as arguments is not an option |
| Getopt.SplitShortOptions | Libs/LibC/OptionsParser.cc:269-286 | the parts are what stands between the occurrences of the character |
| Getopt.LookupShortOption | Libs/LibC/OptionsParser.cc:253-267 | the option is found if and only if it is declared, with what the colons behind its first occurrence say it needs; a part that does not exist is read if and only if options are declared but not this one |
| Getopt.SplitTwo | Libs/LibC/OptionsParser.cc:258-261 | the declarations have a second part if and only if the character occurs in them |
| Getopt.Undeclared | Libs/LibC/OptionsParser.cc:253-267 | with one option declared, looking up another reads a part that does not exist |
| Getopt.OptionsParser.FindNextOption | Libs/LibC/OptionsParser.cc:85-108 | the first option not yet dealt with, or where the search stops |
| Getopt.OptionsParser.LookupLongOption | Libs/LibC/OptionsParser.cc:225-251 | the first declared option that is the argument itself, with no value, or that with an equals sign behind it begins the argument, with exactly the rest as the value; none if and only if no option does |
| Getopt.OptionsParser.HandleLongOption | Libs/LibC/OptionsParser.cc:110-160 | a long option is reported with its code, the value it has a right to and the flag it stores, and its index is kept; it is refused exactly if no option is spelled so or the value is missing or not allowed |
| Getopt.OptionsParser.HandleShortOption | Libs/LibC/OptionsParser.cc:162-210 | the next option of a cluster is reported with its value, as the reading says, unless it is undeclared |
| Getopt.OptionsParser.ShiftArgv | Libs/LibC/OptionsParser.cc:212-223 | the arguments taken are rotated in front of those passed over, in order |
| Getopt.OptionsParser.NextOption | Libs/LibC/OptionsParser.cc:52-83 | one call delivers the head of the reading and leaves its tail to be read, refuses with argv unchanged, or ends with the partition complete; it ends so if and only if it is not misled by a lone dash after a leading plus; it reads outside the declarations if and only if it comes to an undeclared option |
| Getopt.OptionsParser.GetoptLong | Libs/LibC/getopt.cc:31-38 | the same from the state the globals are in, after the reset at the start of a call, the misled case included; optopt names the short option at fault |
| Getopt.OptionsParser.ParseOptions | Libs/LibUtils/ArgsParser.cc:333-369 | repeated calls end; every option was reported once, in order, and argv is a stable partition (options with their values, the double dash, all others, with the index at the first of them) if and only if the command line has no undeclared short option and no lone dash misleads |
| Getopt.ReportedUnlessQuestion | Libs/LibC/OptionsParser.cc:64-75 | a declared option with the value it needs, long or at any place of a cluster, is the next report if and only if its code is not the question mark; otherwise the reading is refused there |
| Getopt.QuestionRefused | Libs/LibC/OptionsParser.cc:72-74 | an option named by a question mark is refused although it is declared |
| Getopt.ReportedTwice | Libs/LibC/OptionsParser.cc:77-82 | with a leading plus, an option behind a lone dash is reported twice |
| Positionals.Distribute | Libs/LibUtils/ArgsParser.cc:386-400 | the extra arguments are used up if and only if they are no more than the 32-bit differences of greatest and least numbers add up to; with declarations in order, earlier positionals are filled first |
| Positionals.CountPositionals | Libs/LibUtils/ArgsParser.cc:371-407 | the 32-bit count succeeds exactly in the interval it computes, and the shares are then right if and only if every least number is no more than its greatest and the least numbers do not wrap around |
| Positionals.SharedWhen | Libs/LibUtils/ArgsParser.cc:371-407 | without wrapping the interval is from the sum of the least to the sum of the greatest numbers |
| Positionals.WrappedSum | Libs/LibUtils/ArgsParser.cc:374-384 | two positionals of 2^31 values each are content with none |
| Positionals.CrossedBounds | Libs/LibUtils/ArgsParser.cc:391-397 | a positional with at least one value and at most none takes any number of them |
| Positionals.SharedOnly | Libs/LibUtils/ArgsParser.cc:386-406 | filling earlier positionals first is possible in only one way, and only for a number of arguments between the sums |
| Positionals.Accept | Libs/LibUtils/ArgsParser.cc:76-88 | the positionals are handed exactly the remaining arguments, in order, up to the first refused |
| Positionals.Parse | Libs/LibUtils/ArgsParser.cc:40-89 | unless the command line has an undeclared option or misleads, a parse that succeeds has reported the options and handed every other argument, in order, to the positional it belongs to; one that fails has a reason |
| Floats.Encode | Libs/LibMath/math.cc:135-162 | a magnitude that fits the format has fields with exactly that value |
| Floats.EncodeFields | Libs/LibMath/math.cc:135-162 | fields and value determine each other |
| Floats.Add | Libs/LibMath/math.cc:217-223 | a sum that is a number of the format comes out exactly, with the sign IEEE 754 gives it |
| Rounding.ToInteger | Libs/LibMath/math.cc:164-225 | every finite number comes out as the integer the mode asks for, with its sign, if and only if it is not a zero rounded away from itself, which comes out as one |
| Rounding.DirectedIs | Libs/LibMath/math.cc:1378-1400 | down and up are the greatest integer not above and the least not below |
| Rounding.NearestIs | Libs/LibMath/math.cc:1438-1444 | the mode used by round gives the nearest integer, halves away from zero, as section 7.12.9.6 of C11 asks |
| Rounding.Nearbyint | Libs/LibMath/math.cc:1478-1484 | in every mode of the environment, the integer the mode asks for if and only if the number is not a zero rounded away from itself and, to even, not a half above an even magnitude; such a half goes away from zero |
| Rounding.HalfToOne | Libs/LibMath/math.cc:1478-1484 | nearbyint of one half gives one, where the even neighbour is zero |
| Rounding.Ceil | Libs/LibMath/math.cc:1378-1384 | the least integer not below, if and only if the number is not plus zero |
| Rounding.Floor | Libs/LibMath/math.cc:1390-1396 | the greatest integer not above, if and only if the number is not minus zero |
| Rounding.Round | Libs/LibMath/math.cc:1438-1444 | the nearest integer for every finite number |
| Rounding.Modf | Libs/LibMath/math.cc:308-316 | integer and fraction add up exactly, both with the sign of the number, the fraction below one |
| Sbrk.PagesFit | Kernel/Kernel/calls/SyscallHandlerMemory.cpp:319-338 | the two loops end with the nearest number of pages that fits the break, and change nothing if the number fits already |
| Sbrk.NoneLost | Kernel/Kernel/calls/SyscallHandlerMemory.cpp:319-338 | held and free physical pages make up all there are |
| Sbrk.Process.constructor | Kernel/Kernel/calls/SyscallHandlerMemory.cpp:289-304 | a process before its first call has no heap |
| Sbrk.Process.Extend | Kernel/Kernel/calls/SyscallHandlerMemory.cpp:323-326 | one more page is mapped and backed by a page that was free; no other mapping changes |
| Sbrk.Process.Retract | Kernel/Kernel/calls/SyscallHandlerMemory.cpp:333-337 | one more page is unmapped; while the heap has pages it is its last, and its physical page is free when nobody else has it |
| Sbrk.Process.Initialize | Kernel/Kernel/calls/SyscallHandlerMemory.cpp:289-304 | the first call, and only it, gives the heap its first page |
| Sbrk.Process.Expand | Kernel/Kernel/calls/SyscallHandlerMemory.cpp:320-327 | exactly the pages missing up to the new break are added, one free page each, if and only if there are so many |
| Sbrk.Process.Shrink | Kernel/Kernel/calls/SyscallHandlerMemory.cpp:329-338 | for every break, exactly the pages from the new count to the old are unmapped; the count stays at zero or above if and only if the break is no more than a page below the start of the heap |
| Sbrk.Process.Resize | Kernel/Kernel/calls/SyscallHandlerMemory.cpp:319-338 | the two loops come to the pages the break needs if and only if there are enough free ones; a break further below takes the page under the heap |
| Sbrk.Process.Sbrk | Kernel/Kernel/calls/SyscallHandlerMemory.cpp:285-343 | enough physical pages if and only if as many are free as the new break needs; then the call succeeds exactly within the user's part, returns the break there was, and the break is exactly the amount above it, or fails with -1 and the break unchanged; the heap is in order if and only if the break is no more than a page below it: heap pages are exactly the mapped ones, free and held pages keep their sum, mappings below stay |
| Sbrk.Run | Kernel/Kernel/calls/SyscallHandlerMemory.cpp:285-343 | a run goes well if and only if the break never is more than a page below the heap and there are always pages enough; then each call returns the break the call before it left and moves it by its own amount, or fails and leaves it, the pages are as many as the breaks say, and no physical page is lost |
| Supply.LibrarySbrk | Libs/LibC/unistd/sbrk.cc:17-25 | the kernel's answer, as the library passes it on, is what the allocator assumes of sbrk: the old break, moved by exactly the increment, or a failure that leaves it, exactly outside the user's part; all memory between the start of the heap and the break is mapped |
| Sbrk.BelowTheHeap | Kernel/Kernel/calls/SyscallHandlerMemory.cpp:329-338 | a heap of one page, two pages down: the page of the image below the heap is unmapped |
| Loader.StretchClear | Kernel/Loader/loader.cpp:159-178 | looking at one address per page suffices to know that a stretch has nothing of a module |
| Loader.LastPageUnseen | Kernel/Loader/loader.cpp:168-172 | a module that is not empty is seen at some position if and only if it has nothing in the last page of the address space |
| Loader.LastByte | Kernel/Loader/loader.cpp:168-172 | a module is seen that ends where the last page starts, and not if it is a byte longer |
| Loader.Covering | Kernel/Loader/loader.cpp:164-177 | whether a module covers a position, and where it ends |
| Loader.Scan | Kernel/Loader/loader.cpp:156-178 | either all pages are outside all modules, or the location has moved up, although it moves in the middle of the scan |
| Loader.FindFreeMemory | Kernel/Loader/loader.cpp:151-192 | the search ends and returns pages at or above the start that overlap no module; it stays at the start or goes to the second page behind a module, and the only clear stretches it passes over start right behind one |
| Loader.Initialize | Kernel/Loader/loader.cpp:66-88 | loader, descriptor table and bitmap are apart from each other and from all modules |

## Left out

- Ialloc: proved under the exact condition of `Bulk.CodeSizeExact`, that the true size fits 32 bits; for other sizes the code cuts more than it got.
- Memalign: proved for alignments up to 2^31, the exact condition of `Aligning.DoublingEnds`; above it the code does not end.
- RoundAlignment: the same condition as for memalign.
- Morecore: the system is taken never to hand out memory the allocator still holds, sbrk(0) not to fail, and memory granted to end on a word, the exact condition of `System.EndExact`; refusals are arbitrary.
- AddSegment: writes to different words within add_segment and prepend_alloc are ordered as the proof needs them. Fencepost words and the word behind top are written but not part of the invariant.
- TopChecks: the previous-in-use bit of the word behind top is not looked at, because that word is not part of the invariant.
- Parse: option values are taken as accepted; version and help requests, messages and conversions are not modelled. Declarations whose least numbers add up to 2^32 or exceed the greatest are covered by `Positionals.CountPositionals`.
- ParseOptions: what the code does after it has read outside the declarations is not modelled. No long option has the code -1, which means the end of the options.
- FindNextOption: behind the last argument, argv is taken to read as an empty argument.
- Sbrk: what the code does when there is no physical page is not modelled; the conditions for it are exact. References to pages below the heap are followed as far as the model knows them.
- FindFreeMemory: addresses do not wrap around, so the panic at the end of memory is not reached.
- Add: only sums that are numbers of the format are modelled, which all sums in `to_integer` and `modf` are.
- Nearbyint: rint, which is one instruction of the processor, is not modelled.
- malloc.c: code the configuration does not compile (mmap, mspaces, footers, Win32), the lock (a call is one step), release_unused_segments and its counter (no effect without mmap), mallopt, mallinfo, statistics and a change of the footprint limit between calls.
- malloc.c: abort after a failed check, which is proved not to be reached.
- SHA2.cc: hexadecimal output (End, Data) and the assertions on null contexts.
- OptionsParser.cc and ArgsParser.cc: error messages, usage text, construction of the option tables.
- math.cc: long double, the x87 versions of trunc, nextafter, scalbn and all transcendental functions.
- loader.cpp and the other memory calls of the kernel: everything after the placement of table and bitmap, and handlers that rest on classes outside this model.
- Graphics, input, tasking, file system and the thin system call wrappers are not modelled.
