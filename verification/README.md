# BrewOS memory managers: a verified model

This project models the two memory managers of BrewOS and the containers built on them, and proves
what they are meant to keep.

* The page-table and frame manager of the x86-64 kernel: a four-level page table edited through a
  recursive self-map in slot 510, a stack of free frames that lives at a virtual address which is
  itself mapped on demand, and a count of present children hidden in bits 52 to 60 of each
  upper-level entry.
* The best-fit heap allocator of the C library: headers in one memory with the payloads, splitting,
  merging, growth in place and moving.
* The growable array, the interrupt callback lists kept in it, and the overlap-safe copy.

`dafny verify dfyconfig.toml` checks everything.

## How the files hang together

Page tables and frames:

* `Words.dfy`: the bit expressions of the kernel on 64-bit words, and what they mean as numbers.
* `Paging.dfy`: physical memory and the hardware walk (Intel SDM Vol. 3A, section 4.5); the
  self-map theorem.
* `Frames.dfy`: the manager without its memory, as a state machine on the tree of tables, the stack
  of free frames and the frames still to come. Ownership, isolation and the round trip are proved
  here for all runs.
* `Tables.dfy`, `Machine.dfy`: how memory represents that state, and what each kind of write does.
* `Supply.dfy`: the frames that the memory map supplies.
* `Boot.dfy`: the page tables of the kernel image.
* `MemoryManager.dfy`: the static variables and functions of the source as a class. Every table and
  every stack slot is read and written through a virtual address that is translated by the walk at
  that moment. Each method is proved to move exactly like the state machine of `Frames.dfy`.

Heap:

* `Bytes.dfy`: little-endian fields in a byte memory, the block header, its field stores.
* `Blocks.dfy`: the heap as a list of blocks; splitting, merging, best fit.
* `Allocator.dfy`: `malloc`, `free` and `realloc` on that list and their contracts. What the backward loop of
  `free` finds is an argument.
* `Requests.dfy`: whole runs of calls against what their client knows.
* `Chains.dfy`: the list as a chain of headers in memory; which bytes change.
* `Heap.dfy`: the allocator on an array of bytes, proved to do what `Allocator.dfy` says.
* `Clients.dfy`: runs on bytes, in which calls alternate with the client's own stores.
* `Departures.dfy`: heaps, reached by calls, on which the code departs from its intent.
* `Repaired.dfy`: the allocator with the backward merge and the back links as evidently meant.

Containers: `Copy.dfy`, `Vectors.dfy`, `Callbacks.dfy`. `Options.dfy` holds the option type,
`Sums.dfy` the sum of a sequence.

## Which reading is proved

Page tables and frames:

* The recursive window works for upper-half addresses only; `WindowNeedsUpperHalf` shows that exactly
  those have a canonical window. Callers name pages in slots 256 to 509 of the top table: 510 is the
  window, 511 the kernel image and the frame stack.
* Frames are page-aligned and below 2 GiB, because `UnmapPage` masks with `0x7FFFF000`;
  `UnmapMaskExact` shows that this is exactly what the mask needs.
* Kernel accesses run in supervisor mode with CR0.WP set (`boot/arch/x86_64/stage2.s:133-135`): a read
  needs a present page, a write needs the write flag in every entry of the walk as well. So a table made
  by `Allocate` without the write request cannot be cleared through its window, and the `memset` faults.
  `Allocate` faults exactly when the page asks for no write, its P1 table is missing and a frame is there
  (`Frames.Completes`); `FirstReadOnlyFaults` is the failing family. `PageFaultHandler`
  is empty, so the store faults again and again; nothing is said of the state after a fault.
* `Free` faults exactly when its address has no P1 table: its first read goes through the window of that table.
* `Initialize` does not reset the frame address when it moves to the next memory-map entry. The supply
  is proved for the code as written: consecutive pages from the base of the first entry. They all lie in
  available regions exactly when those cover the pages from the first one handed out to the last, which a
  look at the first page and at the page where each region ends can tell (`SupplyIsAvailable`).
  `HoleIsHandedOut` is a map on which a reserved page is handed out.
* Counts are exact modulo 512. A full table's count spills into bit 61 (`FullTableSpills`); bits 0 to 51
  are never touched.
* The no-execute request of `Allocate` is lost, because `flags` is an `int` (`NoExecuteIsLost`).
* The construction loop of `Initialize` runs on the boot loader's mapping; the model writes to the
  physical addresses directly.
* The four blocks of `MapPage` and of `UnmapPage` are alike up to the level; each is the method
  `MapLevel` or `UnmapLevel`. `Initialize` is split into `BuildTables` and `FillStack`.

Heap:

* Addresses are numbers, 0 is the null pointer, sizes and addresses are below 2^64. `32 + size` must not
  wrap. In `free` the added sizes wrap like `size_t`.
* `defrag_blocks` merges backwards by adding the size of the block its stored back link leads to, but
  leaves that block in the chain; and no merge or split updates the back link of the block behind. So
  the stored link may be stale and may even lead into a payload.
  * The loop reads headers in memory. A forward merge takes a block out of the chain but leaves its header
    bytes, still valid and free, and a stale link may lead to them. So the list of blocks alone does not say
    what the loop adds: on lists `Free`, `Resize` and `Realloc` take what it found as an argument (`Back`), and
    on bytes it is what lies along the addresses that the loop visits, a ghost argument of `Heaps.Heap.Free`
    and `Realloc` (`BackAlong`).
  * In these terms the heap stays tiled exactly when the sizes added come to nothing modulo 2^64
    (`FreeContract`, `ResizeContract`, `PerformKeeps`, `Heaps.Heap.Free`, `Realloc`), and over a whole run it
    is valid in every snapshot exactly when that is so for every block freed (`RunKeeps`, `TraceKeeps`). No
    back link that leads to a valid free header is the case of empty walks (`QuietRun`).
  * Two conditions on the list alone say what the loop finds, for every memory that shows the list. Where the
    link is null or leads to a block in use, it finds nothing (`AnchoredWalk`, `AnchoredMove`, `AnchoredWalks`,
    `AnchoredRunKeeps`); where every link leads to a listed block, it finds the sizes of those blocks
    (`ListedWalk`, `ListedAdds`).
  * `Departures.FreeInOrder` breaks a fresh heap with four calls, by a link to the free block in front.
    `Departures.FreeBehindTakenIn` breaks one with six calls, by a link to the header of a block that was taken
    in. `Departures.StaleLink` is a run of seven calls, each freeing a block whose link is null or leads to a
    block in use, after which `malloc` followed by `free` breaks the tiling.
  * `Repaired.RunPacks` is about all runs of the repaired code.
* A moving `realloc` copies `old_size` bytes, header included. `CopyFitsWhen` says exactly when they stay
  inside the new block; `CopyTooLong` is a heap of two calls where they do not. `Heaps.Heap.Realloc`
  requires `CopyFits` where it moves.
* That copy also reads up to 32 bytes behind the old block, so memory must go on for 32 bytes behind the
  heap; `Heaps.Heap` requires it.
* `realloc` of a block that is free returns its address and leaves it free (`ReallocOfFreed`); the run
  theorem lets a client pass to `realloc` only null or an address it holds.
* `free` and `realloc` may be given null, the payload of a block, or an address in front of which no
  header signature stands.
* `expand_block` returns null for a following free block without a signature; in a chain there is none,
  so that exit is not taken.

Containers:

* `Vector::Remove` moves one element too many and so reads the slot behind the last; the model's array
  has one more word than the capacity, with any contents. The visible sequence is right.
* Whether `realloc` finds memory for `Expand` is an argument of the operation. `Shrink` asks for less
  than the block holds, so it always succeeds (`Allocator.ReallocFails`).

## Model

| member | source | states |
|---|---|---|
| Words.WindowPaths | kernel/arch/x86_64/memory.cpp:431-492 | the four window addresses of any address lead through slot 510 four, three, two and one times and then along the address's own slots |
| Words.WindowNeedsUpperHalf | kernel/arch/x86_64/memory.cpp:431-444 | for a canonical address the window is canonical exactly in the upper half |
| Words.PathInjective | kernel/arch/x86_64/memory.cpp:494-516 | in the upper half the four 9-bit indices determine the page |
| Words.PathDeterminesPage | kernel/arch/x86_64/memory.cpp:494-516 | over all canonical addresses, both halves, the four indices determine the page |
| Words.TopSlotIsUpper | kernel/arch/x86_64/memory.cpp:494-498 | slot 511 of the top table belongs to the upper half |
| Words.EntryAddressMeaning | kernel/arch/x86_64/memory.cpp:53-55 | the address of entry i of a page-aligned table lies in the same page, at word i |
| Words.GoodAddress | kernel/arch/x86_64/memory.cpp:241-243 | the address of a frame is its page number times 4096 |
| Words.AlignMeaning | kernel/arch/x86_64/memory.cpp:41 | ALIGN rounds up: page-aligned, not below x and less than a page above it, for every x whose rounding does not wrap |
| Words.BeforeEnd | kernel/arch/x86_64/memory.cpp:120-167 | a frame starts below the physical end of the kernel exactly when its page number is below that of the rounded end, for an end inside the last GiB |
| Words.NewEntryMeaning | kernel/arch/x86_64/memory.cpp:276-326 | an entry made from a frame below 2 GiB and flags leads the hardware and UnmapPage to that frame, with count 0 and no large page |
| Words.NewEntryWritable | kernel/arch/x86_64/memory.cpp:276-326 | an entry may be written through exactly when its flags have the write bit |
| Words.NewEntryGrants | kernel/arch/x86_64/memory.cpp:276-326 | an entry grants writing and user mode exactly as its flags do and never forbids execution |
| Words.UnmapMaskExact | kernel/arch/x86_64/memory.cpp:348 | UnmapPage's mask recovers the frame of an entry if and only if the frame lies below 2 GiB |
| Words.IncEntryCountMeaning | kernel/arch/x86_64/memory.cpp:518-528 | counting up is exact modulo 512 and keeps bits 0 to 51 |
| Words.DecEntryCountMeaning | kernel/arch/x86_64/memory.cpp:530-540 | counting down is exact modulo 512 and keeps bits 0 to 51 |
| Words.HasEntriesMeaning | kernel/arch/x86_64/memory.cpp:542-546 | HasEntries holds exactly when the count is not 0 |
| Words.FullTableSpills | kernel/arch/x86_64/memory.cpp:518-540 | the 512th increment sets bit 61 and shows count 0; the decrement after it sets bits 61 to 63 and shows 511 |
| Words.IncKeepsRights | kernel/arch/x86_64/memory.cpp:518-528 | counting up changes none of the write, user and no-execute bits |
| Words.LevelFlagsOk | kernel/arch/x86_64/memory.cpp:275-309 | the flags left for an upper level never ask for a large page |
| Words.LevelFlagsGrant | kernel/arch/x86_64/memory.cpp:275-309 | the flags left for an upper level have the write and the user bit exactly when the flags of the call have them |
| Words.LevelFlagsKeep | kernel/arch/x86_64/memory.cpp:275-309 | only the page-size bit, and at the top level the global bit, are taken away; every other bit stays |
| Words.PointerDigits | kernel/arch/x86_64/memory.cpp:494-516 | the number of a word in the last 2 GiB is made of the slots and the word of its address |
| Words.PointerAdvance | kernel/arch/x86_64/memory.cpp:216 | moving the stack pointer up moves to the next word |
| Words.PointerBelow | kernel/arch/x86_64/memory.cpp:222-225 | below a pointer above the bottom lies the word with the number before |
| Words.PointerOrder | kernel/arch/x86_64/memory.cpp:222 | comparing stack pointers compares word numbers |
| Words.FrameSlots | kernel/arch/x86_64/memory.cpp:138-149 | page n below 1 GiB belongs in slot n mod 512 of table n / 512 |
| Words.CodeEntryMeaning | kernel/arch/x86_64/memory.cpp:150-153 | the entry of a code page leads to its frame, is not writable, may be executed and is closed to user mode |
| Words.DataEntryMeaning | kernel/arch/x86_64/memory.cpp:154-157 | the entry of any other page leads to its frame, is writable, may not be executed and is closed to user mode |
| Words.TableEntryMeaning | kernel/arch/x86_64/memory.cpp:130-142 | the entry of a boot table leads to it and takes away no right but that of user mode |
| Paging.SelfMap | kernel/arch/x86_64/memory.cpp:130 | with the self entry in place, entering once more through slot 510 finds the same tables and entries for every path |
| Paging.SelfMapRights | kernel/arch/x86_64/memory.cpp:130 | and it takes away no right to write |
| Paging.WindowTheorem | kernel/arch/x86_64/memory.cpp:431-492 | for every upper-half address the walk of its P4, P3, P2 and P1 window addresses reaches exactly the frame the walk of the address uses at that level |
| Paging.WindowRights | kernel/arch/x86_64/memory.cpp:431-492 | each window may be written exactly when every entry on the way to its table is writable |
| Tables.TranslateIsTree | kernel/arch/x86_64/memory.cpp:258-334 | for every canonical address outside the window the hardware translates exactly the pages that the tree holds, to the frames it holds |
| Tables.TableMayBeWritten | kernel/arch/x86_64/memory.cpp:276-297 | no entry on the way to a table of the tree is read-only |
| Tables.PageMayBeWritten | kernel/arch/x86_64/memory.cpp:326 | a page may be written exactly when its own entry says so |
| Tables.SetEntryMeaning | kernel/arch/x86_64/memory.cpp:276 | writing one entry changes no other entry of the tree, since every table has one parent |
| Tables.LinkAndCount | kernel/arch/x86_64/memory.cpp:282-297 | linking a frame, clearing it as a table and counting it leaves memory representing the tree with that node, counts included |
| Tables.LinkOnly | kernel/arch/x86_64/memory.cpp:266-279 | the same for the top level, where nothing is counted |
| Tables.UnlinkAndCount | kernel/arch/x86_64/memory.cpp:351-362 | clearing an entry and counting down leaves memory representing the tree without that node |
| Tables.ParentCount | kernel/arch/x86_64/memory.cpp:361-367 | after the decrement the count is the number of entries left and HasEntries is false exactly when the table is empty |
| Tables.PageWriteKeeps | kernel/arch/x86_64/memory.cpp:216 | writing a stack slot changes no table |
| Machine.EntryThroughWindow | kernel/arch/x86_64/memory.cpp:261-267 | an entry may be read and written through its window address, and that reads and writes this entry and nothing else |
| Machine.WindowMayBeWritten | kernel/arch/x86_64/memory.cpp:276-297 | the window of every table of the tree may be written |
| Machine.SoundLevel | kernel/arch/x86_64/memory.cpp:281-297 | one level of MapPage keeps tables, stacked frames and ownership consistent |
| Machine.SoundPush | kernel/arch/x86_64/memory.cpp:215-216 | storing a frame in the next stack slot keeps them consistent |
| Machine.SoundTake | kernel/arch/x86_64/memory.cpp:219-256 | taking a frame from either source keeps them consistent and yields a usable frame |
| Machine.SoundClear | kernel/arch/x86_64/memory.cpp:347-352 | clearing an entry keeps them consistent |
| Machine.SoundRecount | kernel/arch/x86_64/memory.cpp:361-362 | lowering a count keeps them consistent |
| Frames.TakeMeaning | kernel/arch/x86_64/memory.cpp:219-256 | a taken frame is in no other place, and none is taken only when the source is empty |
| Frames.EstablishMeaning | kernel/arch/x86_64/memory.cpp:258-334 | MapPage conserves frames, adds only nodes on the way to its page, keeps all others, and fails only when its source is empty |
| Frames.EstablishSteady | kernel/arch/x86_64/memory.cpp:258-334 | a caller's MapPage keeps the running system's invariant, whether it succeeds or not |
| Frames.EstablishGivesLastPopped | kernel/arch/x86_64/memory.cpp:318-326 | a newly mapped page gets the last frame popped |
| Frames.EstablishLeavesNoEmptyTable | kernel/arch/x86_64/memory.cpp:258-334 | a successful MapPage leaves no table empty that was not empty before |
| Frames.PushIsAppend | kernel/arch/x86_64/memory.cpp:207-217 | after start-up a push never drops its frame: the stack never rises above the slots already mapped |
| Frames.ReleaseMeaning | kernel/arch/x86_64/memory.cpp:336-424 | UnmapPage conserves frames, removes its page and only tables on the way to it, and gives back at least one frame |
| Frames.ReleaseLeavesNoEmptyTable | kernel/arch/x86_64/memory.cpp:364-424 | tables are given back exactly when their last entry goes |
| Frames.StepKeeps | kernel/arch/x86_64/memory.cpp:181-205 | one Allocate or Free that does not fault keeps the invariant and all frames, and changes no other page |
| Frames.RunLast | kernel/arch/x86_64/memory.cpp:181-205 | a run is its calls one after the other |
| Frames.RunKeeps | kernel/arch/x86_64/memory.cpp:181-205 | the same over every run without a fault, failed calls included: no frame is lost |
| Frames.FirstReadOnlyFaults | kernel/arch/x86_64/memory.cpp:281-291 | as long as callers have no tables, every Allocate without the write request faults while there is a free frame |
| Frames.RunIsolates | kernel/arch/x86_64/memory.cpp:181-205 | a page that no call of a run names keeps its frame |
| Frames.ExactlyOnePlace | kernel/arch/x86_64/memory.cpp:207-256 | in every such state each frame is in exactly one place: one node of the tree or one slot of the stack |
| Frames.RoundTrip | kernel/arch/x86_64/memory.cpp:258-424 | Allocate then Free of an unmapped page restores the whole state, stack order included, if and only if the lowest table already there is not empty |
| Frames.AllocateThenFree | kernel/arch/x86_64/memory.cpp:181-205 | and in any case every page has its old translation again |
| Frames.PushWhileBooting | kernel/arch/x86_64/memory.cpp:176-178 | one turn of the filling loop stacks the frame, or the memory map has run dry |
| Frames.FillMeaning | kernel/arch/x86_64/memory.cpp:174-178 | the filling loop ends in the running system's invariant with at most one frame lost |
| Frames.FillGrows | kernel/arch/x86_64/memory.cpp:174-178 | filling the stack takes nothing out of the tree |
| Supply.RemainingIsConsecutive | kernel/arch/x86_64/memory.cpp:231-256 | the frames still to come are consecutive pages from the current address, as many as the available entries hold, without those below the limit |
| Supply.PagesLeftIsSum | kernel/arch/x86_64/memory.cpp:231-256 | the number of frames still to come is the size of the current entry divided by 4096, if it is available and holds a page, and the same of exactly the later available entries before the one that ends the map |
| Supply.ConsecutiveNumbers | kernel/arch/x86_64/memory.cpp:241-243 | the k-th of these pages has the k-th number after the first |
| Supply.SupplyIncreases | kernel/arch/x86_64/memory.cpp:231-256 | they come in increasing order, aligned, and never below the end of the boot tables |
| Supply.NoneBelowBase | kernel/arch/x86_64/memory.cpp:172-174 | no frame of the supply starts below the base of the first entry |
| Supply.SupplyIsAvailable | kernel/arch/x86_64/memory.cpp:231-256 | the frames still to come lie in available regions, every byte of them, if and only if the first page handed out does and, before the last, every page in which an available region ends |
| Supply.GaplessCovers | kernel/arch/x86_64/memory.cpp:231-256 | those pages are enough: then every page in between lies in an available region |
| Supply.HoleIsHandedOut | kernel/arch/x86_64/memory.cpp:245-252 | a memory map with a hole, whose reserved page is handed out and whose last available page never is |
| Boot.LeafEntryMeaning | kernel/arch/x86_64/memory.cpp:150-157 | a page of the image is writable exactly when it is not executable |
| Boot.CodeMeaning | kernel/arch/x86_64/memory.cpp:150 | a page is code exactly when it starts at or behind the physical start of the kernel and before that of its data |
| Boot.Start | kernel/arch/x86_64/memory.cpp:122-135 | after the first writes memory represents the three boot tables with their counts |
| Boot.TablePresent | kernel/arch/x86_64/memory.cpp:139-140 | the P2 entry is present exactly when its P1 table has been made |
| Boot.TableBlock | kernel/arch/x86_64/memory.cpp:140-147 | making a P1 table keeps the construction invariant |
| Boot.PageBlock | kernel/arch/x86_64/memory.cpp:149-160 | mapping a page of the image keeps the construction invariant |
| Boot.DirectMap | kernel/arch/x86_64/memory.cpp:137-161 | for every address outside the window, in both halves, exactly the pages of the image are mapped, each to its own frame; code pages are read-only and executable, all others writable and not executable, and none is open to user mode |
| MemoryManager.LevelThroughWindow | kernel/arch/x86_64/memory.cpp:276-296 | the three writes of a MapPage block are permitted, and made through virtual addresses they have the effect of one level, the still dirty new table included |
| MemoryManager.NewTableWindow | kernel/arch/x86_64/memory.cpp:276-279 | the window of a new table may be written if and only if the entry stored for it is writable |
| MemoryManager.ReadOnlyTable | kernel/arch/x86_64/memory.cpp:276-279 | so the memset of a table made without the write flag faults |
| MemoryManager.LowerThroughWindow | kernel/arch/x86_64/memory.cpp:357-364 | lowering the count above through the window restores all counts and tells whether the table is empty |
| MemoryManager.UnmapCounts | kernel/arch/x86_64/memory.cpp:351-367 | the same when a frame was stacked in between |
| MemoryManager.OthersKept | kernel/arch/x86_64/memory.cpp:258-424 | one call changes the hardware translation of no other canonical address outside the window |
| MemoryManager.AllocateTranslates | kernel/arch/x86_64/memory.cpp:181-199 | what Allocate does to all translations outside the window |
| MemoryManager.FreeTranslates | kernel/arch/x86_64/memory.cpp:201-205 | what Free does to all translations outside the window |
| MemoryManager.CallerStore | kernel/arch/x86_64/memory.cpp:181-205 | a store of a caller's in a page it was given keeps the invariant of the running system and every other page |
| MemoryManager.AllocateRights | kernel/arch/x86_64/memory.cpp:181-199 | a new page's entry is writable exactly when asked, open to user mode exactly when asked, and never forbids execution |
| MemoryManager.IsReached | kernel/arch/x86_64/memory.cpp:181-199 | the walk to a new page may be written exactly when asked, and is open to user mode exactly when that was asked and every table already on the way is open |
| MemoryManager.NoExecuteIsLost | kernel/arch/x86_64/memory.cpp:184-188 | the flags are the same with and without the no-execute request |
| MemoryManager.ImageStays | kernel/arch/x86_64/memory.cpp:166-178 | every page that starts below the physical end of the kernel is still mapped to its own frame after the stack has been filled: code read-only and executable, the rest writable and not executable, all closed to user mode |
| MemoryManager.ImageContents | kernel/arch/x86_64/memory.cpp:166-178 | and filling the stack changes no byte of the image |
| Machine.LevelledRights | kernel/arch/x86_64/memory.cpp:281-297 | one level of MapPage changes the rights of no entry that was there, the counted one included |
| Machine.LevelledNew | kernel/arch/x86_64/memory.cpp:275-309 | the entry that one level of MapPage makes grants writing and user mode exactly as the flags of the call do |
| Machine.RightsFollow | kernel/arch/x86_64/memory.cpp:258-334 | so the walk to every page that was there grants the same rights |
| Machine.RightsAsked | kernel/arch/x86_64/memory.cpp:258-334 | the walk to a page that was not there grants exactly what the call asked for and the walk to the lowest table already there lets through |
| Machine.LevelledPagesKept | kernel/arch/x86_64/memory.cpp:281-297 | one level of MapPage changes the contents of no page that was mapped |
| Machine.ClientOffStack | kernel/arch/x86_64/memory.cpp:336-424 | no page of a caller is a page of the frame stack, so what is kept off the stack is kept for all callers |
| Machine.KernelRightsFollow | kernel/arch/x86_64/memory.cpp:336-424 | and UnmapPage changes no entry of the kernel's own part of the tree, so its pages keep their rights |
| MemoryManager.SupplyBacked | kernel/arch/x86_64/memory.cpp:174-178 | the frames supplied behind the boot tables have RAM when the map says so for those pages |
| MemoryManager.FillStep | kernel/arch/x86_64/memory.cpp:176-178 | one turn of the filling loop |
| MemoryManager.Manager.StartTables | kernel/arch/x86_64/memory.cpp:120-135 | P4, P3 and P2 behind the kernel image, cleared, linked and counted; nothing below is touched |
| MemoryManager.Manager.MakeTable | kernel/arch/x86_64/memory.cpp:138-147 | a P1 table for a page of the image when it has none yet |
| MemoryManager.Manager.MapLeaf | kernel/arch/x86_64/memory.cpp:149-160 | the entry of the page and the count above it |
| MemoryManager.Manager.MapImagePage | kernel/arch/x86_64/memory.cpp:138-161 | the body of the construction loop |
| MemoryManager.Manager.BuildTables | kernel/arch/x86_64/memory.cpp:118-164 | outside the window, in both halves, the hardware walk finds exactly the pages that start below the physical end of the kernel, each at its own frame, with write xor execute and closed to user mode; no frame that starts below that end changes |
| MemoryManager.Manager.FillStack | kernel/arch/x86_64/memory.cpp:166-178 | terminates in the running system with at most one frame lost |
| MemoryManager.Manager.Initialize | kernel/arch/x86_64/memory.cpp:117-179 | from a bootable image and memory map to the running system: exact supply, no frame of it below the base of the first entry, all frames but at most one in place; every page that starts below the physical end of the kernel is mapped to its own frame with write xor execute and closed to user mode, and keeps its contents |
| MemoryManager.Manager.PopMemMapFrame | kernel/arch/x86_64/memory.cpp:231-256 | terminates, returns the next frame of the supply, and 0 forever once it is empty; how many frames there are is the sum of PagesLeftIsSum |
| MemoryManager.Manager.PopStackFrame | kernel/arch/x86_64/memory.cpp:219-229 | returns the top of the stack, or 0 when it is empty |
| MemoryManager.Manager.MapLevel | kernel/arch/x86_64/memory.cpp:281-297 | one block of MapPage takes one level of the state machine, with the flags asked for, and keeps all counts; it faults exactly when it makes a table without the write flag |
| MemoryManager.Manager.MapPage | kernel/arch/x86_64/memory.cpp:258-334 | does exactly what the state machine's Establish does, or faults where it has to make a table without the write flag and a frame is there; every entry that was not there before is open to writing and to user mode exactly as the flags ask; no entry that was there changes its rights and no mapped page its contents; a page already mapped changes nothing |
| MemoryManager.Manager.PushStackFrame | kernel/arch/x86_64/memory.cpp:207-217 | does exactly what the state machine's Push does, the mapping of the slot included, and changes no page's rights and no contents but those of the stack |
| MemoryManager.Manager.ClearLevel | kernel/arch/x86_64/memory.cpp:347-355 | the entry is cleared and its frame stacked, nothing else changes |
| MemoryManager.Manager.UnmapLevel | kernel/arch/x86_64/memory.cpp:357-377 | one block of UnmapPage; true exactly when the table above is left empty |
| MemoryManager.Manager.UnmapPage | kernel/arch/x86_64/memory.cpp:336-424 | does exactly what the state machine's Unmap does, and faults exactly when there is no P1 table; on an unmapped page nothing changes at all; no page left mapped changes its contents, the frame stack aside |
| MemoryManager.Manager.Allocate | kernel/arch/x86_64/memory.cpp:181-199 | faults if and only if the write request is missing, the P1 table too, and a frame is there; otherwise succeeds exactly when the page is mapped afterwards; a new page gets the last frame popped; its walk may be written exactly when asked, and is open to user mode exactly when asked and every table already on the way is; a call without memory leaves the stack empty; no other translation outside the window changes, in either half, and no page that was mapped changes its rights or its contents |
| MemoryManager.Manager.Free | kernel/arch/x86_64/memory.cpp:201-205 | faults if and only if there is no P1 table; otherwise the page is unmapped, no other translation outside the window changes, in either half, the kernel's own pages keep their rights, every page left keeps its contents, the frame stack aside, and the system keeps running; on an unmapped page neither state nor memory changes |
| Bytes.FieldOfEncode | lib/stdlib/heap.c:12-18 | a number stored in n little-endian bytes reads back |
| Bytes.EncodeDigit | lib/stdlib/heap.c:12-18 | byte k of a stored number is its k-th digit to the base 256, the least significant first |
| Bytes.FieldChanged | lib/stdlib/heap.c:12-18 | storing one header field leaves the others as they were |
| Bytes.SetHeader | lib/stdlib/heap.c:211 | the header reads back and no other byte changed |
| Blocks.MergeLengthens | lib/stdlib/heap.c:270-274 | merging forwards takes in free blocks only, keeps the tiling and leaves no free block behind the first |
| Blocks.MergeExact | lib/stdlib/heap.c:270-274 | merging forwards takes in exactly the free blocks up to the next block in use, all in one with their sizes added |
| Blocks.AbsorbLengthens | lib/stdlib/heap.c:157-166 | so does the growth loop, which stops early only when there is room |
| Blocks.AbsorbExact | lib/stdlib/heap.c:157-166 | the growth loop takes in as many free blocks as it needs and no more |
| Blocks.SplitMeaning | lib/stdlib/heap.c:202-218 | a split keeps the tiling and the blocks in use, and wastes less than a header |
| Blocks.SplitExact | lib/stdlib/heap.c:202-218 | a block is cut exactly when another header fits behind: then it has just the size asked for, and a free block follows whose back link is that block |
| Blocks.BestFitMeaning | lib/stdlib/heap.c:235-260 | the block found is the lowest of the smallest free blocks that fit; none is found exactly when none fits |
| Blocks.SizesSum | lib/stdlib/heap.c:12-18 | block sizes sum to the size of the heap |
| Blocks.ClaimMeaning | lib/stdlib/heap.c:106-110 | the chosen block is handed out where it is, large enough and with less than a header wasted; everything else in use is untouched |
| Blocks.ReleaseMeaning | lib/stdlib/heap.c:270-274 | the forward half of free: the block takes in the free blocks behind it and goes out of use |
| Blocks.FreedMeaning | lib/stdlib/heap.c:270-280 | free with both halves: the freed block goes out of use in any case, and the heap stays tiled if and only if the sizes added along the back links come to nothing modulo 2^64 |
| Blocks.GrowMeaning | lib/stdlib/heap.c:157-166 | a block grows in place over free space only |
| Blocks.ShrinkMeaning | lib/stdlib/heap.c:189-219 | a block shrinks in place, down to less than a header above the size asked for |
| Blocks.FreedLeavesNoPair | lib/stdlib/heap.c:262-281 | free leaves two free neighbours if and only if the block in front is free, whatever the backward half adds |
| Blocks.ClaimLeavesNoPair | lib/stdlib/heap.c:106-110 | handing a block out leaves no two free neighbours |
| Allocator.MallocContract | lib/stdlib/heap.c:92-111 | null exactly when no free block holds the size and a header; otherwise a block inside the heap, apart from all in use, none of which moved, with less than a header wasted |
| Allocator.MallocIsBest | lib/stdlib/heap.c:92-111 | the block handed out is the lowest of the smallest free blocks that hold the size and a header |
| Allocator.FreeContract | lib/stdlib/heap.c:67-90 | exactly the named block goes out of use, any other address is ignored, and the heap stays tiled if and only if the sizes that the backward loop added come to nothing |
| Allocator.FreeLeavesNoPair | lib/stdlib/heap.c:67-90 | two free neighbours are left if and only if the block in front of the freed one is free |
| Allocator.ResizeContract | lib/stdlib/heap.c:113-187 | realloc of a block in use ends with that block in place and trimmed, with another block apart from all others, or with null and the block still in use and no smaller; the heap stays tiled if and only if it does not move the block or the loop added nothing |
| Allocator.MovesElsewhere | lib/stdlib/heap.c:173-186 | a realloc that moves returns another address |
| Allocator.ReallocFails | lib/stdlib/heap.c:154-178 | it returns null if and only if the block with the free space behind it is too small and no free block fits |
| Allocator.ReallocStays | lib/stdlib/heap.c:154-170 | it returns the old address if and only if the block with the free space behind it is large enough |
| Allocator.MoveIsBest | lib/stdlib/heap.c:173-186 | a realloc that moves takes the best fit among the free blocks there were before the call |
| Requests.PerformKeeps | lib/stdlib/heap.c:67-187 | one call keeps the agreement of heap and client, and the tiling if and only if the loop adds nothing to a block that the call frees |
| Requests.PerformAnswers | lib/stdlib/heap.c:67-187 | malloc gives null exactly when no free block fits and the best fit otherwise; realloc of a held address gives null exactly when neither the space behind nor any free block is enough, the old address exactly when that space is, and the best fit otherwise; the block at the result holds what was asked; free gives the block back |
| Requests.RunLast | lib/stdlib/heap.c:67-187 | a run is its calls one after the other |
| Requests.RunKeeps | lib/stdlib/heap.c:67-187 | over every run the heap is tiled at every point if and only if the loop never adds anything to a block freed; then sizes sum to its size and the blocks in use are exactly those a client holds, each with room for what it asked |
| Requests.AnchoredRunKeeps | lib/stdlib/heap.c:67-187 | that is so in a run in which each block freed has a back link that is null or leads to a block in use, and then every back link leads backwards all along |
| Requests.PerformLinksBack | lib/stdlib/heap.c:113-219 | no call makes a back link lead forwards as long as the loop does not |
| Requests.HeldApart | lib/stdlib/heap.c:92-187 | two addresses a client holds never overlap and lie in the heap |
| Allocator.MallocFreeRoundTrip | lib/stdlib/heap.c:67-111 | malloc then free restores the list of blocks if and only if the block behind the chosen one is not free and the loop adds nothing and stops where it began |
| Allocator.ListedAdds | lib/stdlib/heap.c:276-280 | where every link leads to a listed block, the sizes along them are those of different blocks below, so they add less than the heap, and nothing exactly when the first link leads to no free block |
| Departures.CopyFitsWhen | lib/stdlib/heap.c:173-181 | the moving copy stays inside the new block if and only if the new size is no smaller than the old block, or the block chosen has room for it and is too small to be cut |
| Departures.MovedRoom | lib/stdlib/heap.c:181 | the copied bytes always fit the new block with its header, so the copy overruns by less than a header |
| Departures.CopyTooLong | lib/stdlib/heap.c:181 | malloc of 40 and of 8 on a fresh heap of 192 bytes, then realloc of the first to 48: the copy overruns the new block |
| Departures.ReallocOfFreed | lib/stdlib/heap.c:149-152 | realloc of a free block returns its address and leaves it free |
| Departures.StaleLink | lib/stdlib/heap.c:262-281 | seven calls on a fresh heap, each block freed having a back link that is null or leads to a block in use, that leave no two free neighbours and a heap on which malloc followed by free breaks the tiling |
| Departures.FreeInOrder | lib/stdlib/heap.c:67-111 | two blocks of any sizes from a fresh heap, freed in the order they were handed out, leave a heap that is not tiled |
| Departures.LinkedWalk | lib/stdlib/heap.c:276-280 | a back link to the free block in front adds the size of that block |
| Departures.FreeBehindTakenIn | lib/stdlib/heap.c:67-111 | three blocks from a fresh heap, the second freed, then the first, then the third, leave a heap that is not tiled, although no listed free block is at any of their back links |
| Departures.StaleHeaderWalk | lib/stdlib/heap.c:270-280 | the header of a block that was taken in is still followed by the backward loop |
| Chains.ChainCons | lib/stdlib/heap.c:209-216 | a header written in front of a chain extends it |
| Chains.PayloadKept | lib/stdlib/heap.c:67-219 | when only headers of the blocks were written, the payload of every block is as it was |
| Chains.BackWalkMeaning | lib/stdlib/heap.c:276-280 | the backward loop goes from link to link as long as each leads to a valid free header, and no further |
| Chains.WalkTotals | lib/stdlib/heap.c:276-280 | it adds the size of every header that it visits, and stops at the link of the last one |
| Chains.BackWalkSame | lib/stdlib/heap.c:276-280 | writing the freed block's header does not disturb the backward walk |
| Heaps.PayloadWrites | lib/stdlib/heap.c:283-301 | whatever a client writes in a payload, the chain of headers stays |
| Heaps.Heap.GetFirstBlock | lib/stdlib/heap.c:221-233 | an untouched heap becomes one free block that spans it |
| Heaps.Heap.FindBestFit | lib/stdlib/heap.c:235-260 | terminates and returns the address of the best fit, or null |
| Heaps.Heap.ShrinkBlock | lib/stdlib/heap.c:189-219 | the headers show the split list, and only headers were written |
| Heaps.Heap.DefragBlocks | lib/stdlib/heap.c:262-281 | the headers show the forward merge, with the sizes along the backward walk added; only the freed block's header was written |
| Heaps.Heap.MergeBack | lib/stdlib/heap.c:276-280 | the backward loop adds exactly the sizes along its walk, in size_t arithmetic |
| Heaps.Heap.Malloc | lib/stdlib/heap.c:92-111 | does what Allocator.Malloc does, writing only headers |
| Heaps.Heap.Free | lib/stdlib/heap.c:67-90 | does what Allocator.Free does with what lies along the backward walk; only the freed header is written; the heap stays valid if and only if the sizes along the walk add nothing |
| Heaps.AnchoredWalk | lib/stdlib/heap.c:276-280 | a back link that is null or leads to a block in use stops the backward loop at once, whatever else is in memory |
| Heaps.ListedWalk | lib/stdlib/heap.c:276-280 | where every link leads to a listed block, the loop visits listed blocks only and finds what ListedBack says |
| Heaps.AnchoredMove | lib/stdlib/heap.c:173-186 | the same for the block a moving realloc frees, seen before the move |
| Heaps.WalkAroundStays | lib/stdlib/heap.c:173-184 | a walk that keeps clear of the chosen block and the moved header is the same after the copy |
| Heaps.MallocThenFree | lib/stdlib/heap.c:67-111 | on bytes, malloc then free restores the list if and only if the block behind the chosen one is in use and its stored link adds nothing and ends where it began; the heap stays valid if and only if it adds nothing |
| Heaps.Heap.AbsorbFollowing | lib/stdlib/heap.c:157-166 | the growth loop terminates with the grown list |
| Heaps.Heap.ExpandBlock | lib/stdlib/heap.c:141-187 | in place or moved, with the old payload at the start of the new block; after a move the heap stays valid if and only if the walk of the old block adds nothing |
| Heaps.Heap.MoveBlock | lib/stdlib/heap.c:173-186 | the new block starts with the old payload, the old block is free with the sizes along its walk added, every other payload is as it was; on null nothing but headers changed |
| Heaps.Heap.Realloc | lib/stdlib/heap.c:113-139 | does what Allocator.Realloc does with what lies along the walk of the block it frees; the heap stays valid if and only if the sizes along it add nothing; in place only headers are written, so the first min(old, new) bytes stay |
| Heaps.ReallocPayload | lib/stdlib/heap.c:113-187 | wherever realloc leaves the block, its payload starts with the old one up to the smaller size; on null the old payload is untouched; every other payload in use is as it was |
| Clients.Serve | lib/stdlib/heap.c:67-139 | every request is served on bytes as the functions on lists say, with what lies along the walk of the block it frees; the heap stays valid if and only if that adds nothing |
| Clients.AnchoredWalks | lib/stdlib/heap.c:262-281 | the walk is empty, in every memory that shows the list, when the freed block has a back link that is null or leads to a block in use |
| Clients.ServeKeeps | lib/stdlib/heap.c:67-187 | a call keeps the heap valid if and only if the loop adds nothing to a block it frees, and then each payload the client still holds has the bytes it stored there, up to the smaller size after realloc |
| Clients.AfterMeaning | lib/stdlib/heap.c:67-187 | what a client is to find after a call: a new payload with unknown bytes, nothing at an address given back, the old bytes up to the smaller size at the address realloc returns, all else unchanged |
| Clients.StoreKeeps | lib/stdlib/heap.c:283-301 | a store inside a payload changes no header and no other payload |
| Clients.Begins | lib/stdlib/heap.c:221-233 | a run may begin on a heap whose first block has just been set up, with nothing held |
| Clients.TraceGrows | lib/stdlib/heap.c:67-187 | a run goes on with any event that may happen in its last snapshot |
| Clients.TraceKeeps | lib/stdlib/heap.c:67-187 | over every run of calls and stores the heap is valid in every snapshot if and only if the sizes along the walk of each block freed add nothing; then the blocks in use are the client's, and every payload has the bytes the client stored, carried along by realloc |
| Clients.QuietRun | lib/stdlib/heap.c:276-280 | that is so in every run in which no freed block's back link leads to a valid free header |
| Repaired.LinkFindsNeighbour | lib/stdlib/heap.c:277 | with links up to date, the stored back link leads to a free block exactly when the neighbour in front is free, and to that one |
| Repaired.LinkedMerge | lib/stdlib/heap.c:270-274 | a merge that tells the block behind keeps every link up to date |
| Repaired.LinkedSplit | lib/stdlib/heap.c:209-216 | so does a split |
| Repaired.BackJoins | lib/stdlib/heap.c:276-280 | the backward loop along stored links joins the freed block with the one in front, if that is free, keeps every link and stops there |
| Repaired.FreePacks | lib/stdlib/heap.c:67-90 | free along stored links keeps tiling, links and ledger and leaves no two free neighbours |
| Repaired.ResizeMeaning | lib/stdlib/heap.c:113-187 | realloc of a block in use gives null exactly when neither the space behind it nor any free block is enough, the old address exactly when that space is, the best fit otherwise, and the block at the result holds the size |
| Repaired.PerformPacks | lib/stdlib/heap.c:67-187 | one call of the repaired code keeps tiling, links and ledger, and gives the client the same answers as `PerformAnswers` |
| Repaired.RunLast | lib/stdlib/heap.c:67-187 | a run of the repaired code is its requests one after the other |
| Repaired.RunPacks | lib/stdlib/heap.c:67-219 | over all runs of the repaired code: tiling, sizes, no two free neighbours, every stored link that of the block in front, and the blocks in use are exactly those a client holds |
| Repaired.MallocThenFree | lib/stdlib/heap.c:67-111 | malloc then free restores every list a run can leave, links included |
| Copy.ForwardMoves | lib/string/memcpy.c:4-13 | a forward copy moves when the destination is not inside the source |
| Copy.ForwardMovesIff | lib/string/memcpy.c:4-13 | exactly when a forward copy moves: destination at or below the source, or a source that repeats with their distance |
| Copy.MemCpy | lib/string/memcpy.c:4-13 | the loop is the forward copy, for every overlap |
| Copy.MovedBytes | lib/string/memmove.c:3-17 | a memory is the moved one if and only if each byte of the destination is the old one at its place in the source and every other byte is as it was |
| Copy.MemMove | lib/string/memmove.c:3-17 | for every overlap and count, each byte of the destination is the old one at its place in the source and every other byte is as it was |
| Vectors.ApplySound | kernel/include/vector.hpp:40-102 | every operation keeps 1 <= cap and cnt <= cap and costs at most 2 against the potential |
| Vectors.RunLast | kernel/include/vector.hpp:40-102 | a run is its operations one after the other |
| Vectors.AmortisedResizing | kernel/include/vector.hpp:145-172 | over any n operations on a new vector resizing moves at most 2n + max(c, 1) / 2 elements |
| Vectors.Vector.constructor | kernel/include/vector.hpp:20-33 | a new vector is empty with capacity max(c, 1) |
| Vectors.Vector.Push | kernel/include/vector.hpp:40-48 | element by element: all items stay, the new one is behind them; without memory a full vector is unchanged |
| Vectors.Vector.Pop | kernel/include/vector.hpp:50-62 | element by element: all items but the last stay, and the last is returned; the default of an empty vector |
| Vectors.Vector.Insert | kernel/include/vector.hpp:64-81 | element by element: the item is at the index, the elements below stay and those from the index on move up by one; out of bounds or without memory nothing changes |
| Vectors.Vector.Remove | kernel/include/vector.hpp:83-102 | element by element: the element at the index is returned, the elements below stay and those above move down by one; out of bounds nothing changes |
| Vectors.Vector.Get | kernel/include/vector.hpp:114-122 | returns the element at the index, or the default out of bounds |
| Vectors.Vector.Expand | kernel/include/vector.hpp:145-164 | doubles the capacity and keeps the elements; without memory nothing changes |
| Vectors.Vector.Shrink | kernel/include/vector.hpp:166-172 | halves the capacity and keeps the elements |
| Callbacks.WithoutMeaning | kernel/arch/x86_64/interrupts.cpp:83-90 | the filtered list is what is left when exactly the items equal to the callback are struck out, in the old order |
| Callbacks.RemoveFrom | kernel/arch/x86_64/interrupts.cpp:83-90 | the loop that removes while it walks terminates with the order-preserving filter |
| Callbacks.Interrupts.AddCallback | kernel/arch/x86_64/interrupts.cpp:62-74 | the callback is added at the end of its own list; no other list changes |
| Callbacks.Interrupts.RemoveCallback | kernel/arch/x86_64/interrupts.cpp:76-91 | exactly the other callbacks of that vector are left, in order; no other list changes |
| Callbacks.Interrupts.Dispatch | kernel/arch/x86_64/interrupts.cpp:98-103 | every callback of the vector is called once, in order |

## Left out

- TLB behaviour, `flush_page` and `load_pml4`: the walk reads memory directly.
- `PageFaultHandler`, `calloc`, system calls and `mmap`: stubs.
- Large pages: the manager never makes one, and the walk of the model reports a large upper entry as no table.
- Lower-half addresses and slots 510 and 511 as targets of `Allocate` and `Free`: outside the domain of the recursive window.
- MemoryManager.Manager.Allocate: what memory holds after a fault is not said; the run theorems are about calls that do not fault.
- Rights of callers' other pages after `Free`: the entry of a full table gets the no-execute bit when its count goes down (Words.FullTableSpills), so the rights are proved to stay for the kernel's own pages only.
- MemoryManager.Manager.Initialize: requires the kernel to end below 1 GiB, RAM for the image, the boot tables and the frames supplied, and a supply below 2 GiB.
- Heaps.Heap.Free: takes the addresses that the backward loop visits, because a stale link into a payload may make that loop run for ever or overlap the freed header.
- Heaps.Heap.Realloc: where it moves a block, the walk along the back links must keep clear of the chosen block, except that it may end at its header, because the copy overwrites the rest.
- Heaps.Heap.ExpandBlock: as Heaps.Heap.Realloc, where it moves.
- Heaps.Heap.MoveBlock: requires that the copy fits where it moves; what an overrun would overwrite is not modelled.
- Clients.Serve: requires a heap whose first block is set up, sizes that fit a word, and copies and walks as Heaps.Heap.Realloc does.
- Heaps.MallocThenFree: the walk along the chosen block's back links must keep clear of that block's own bytes, which are split and written.
- Repaired: the repaired merges and the upkeep of the links are proved on lists; the code has no such steps to model on bytes.
- Vectors.Vector.constructor: takes the first allocation to succeed.
- `Vector::Set` and callbacks that edit the list they are called from.
- `Pointer`, `String`, the `str` functions, I/O, boot code and the file system.
