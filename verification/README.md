# kinOS, verified

A Dafny model of the parts of kinOS that hold state over many steps, with proofs of what each of
them keeps. One module per source component; every module names its source file in its first line.

- **Frames and page tables** (`Words`, `MemoryManager`, `FrameRuns`, `PageEntry`, `PageTree`,
  `PageOwnership`, `PageSharing`, `PageContents`, `KernelHalf`, `FrameCounts`, `Paging`,
  `AppFrames`, `Actions`, `System`, `PageBytes`, `Segments`, `Images`, `Execution`). Physical memory
  is a map from frames to tables of 512 entries; `Paging.Machine` changes it in place, slot by slot,
  over the bitmap allocator. A ghost map from table frames to index paths makes "this memory is a
  four-level tree" (`Space.Tree`) a statement about the entries themselves. An application owns its
  tables and exactly the pages mapped writable (`Owned`), and that is what cleaning frees. `Actions`
  is what an application and its system calls do in a run, at any address, with the faults that come
  of it. The main theorem is `Execution.ExecuteApp`, the whole call from the first root to the last:
  how it ends is decided by what can be known before it and by the run; afterwards the frames held
  are those held before, those of the image's tree, which is never given back, those a store to the
  kernel's half took, and, if the launch stopped half-way or the kernel halted, those of the
  application's tree; the application starts with what its segments and arguments say; and the
  frames of others change exactly where an action writes to them.
- **The FAT32 server** (`FatChains`, `FatNames`, `FatDirectory`, `FileSystem`, `FatCreation`,
  `FatFiles`, `FileServer`, `NewFiles`). `FileSystemServer` reads and writes the table through a one-sector buffer
  and directories and files through a one-cluster buffer. On top of it are the write, read and
  image-copy handlers, the application manager's open file, and round trips: what was created is
  found, what was written is read back, and both in a row for a new file. Microsoft FAT Specification, sections 4 and 6.
- **xHCI rings and ports** (`Rings`, `Ports`). A producer and a consumer interleave single dword
  accesses to one ring (xHCI specification, sections 4.9.2 to 4.9.4 and 6.4.4.1); ports are brought up
  one at a time by asynchronous events (section 4.3).
- **Scheduler, mailboxes, timers** (`Tasks`, `Timers`). Transition systems over the operations, and
  the classes whose methods are proved to take exactly those transitions.
- **Launch protocol and pipe** (`Launch`, `Pipe`). Servers, kernel and applications as processes that
  send messages in any order. The file server copies a program cluster by cluster along its chain, so
  what is launched is stated in terms of clusters, chain and size (`Launch.LaunchExact`).
- **USB pool** (`UsbMemory`). The bump allocator over true powers of two.

`Arithmetic` and `Options` hold stock facts and types.

A class method is tied to a specification function or relation (`Grown`, `Pruned`, `Shared`,
`Wrote`, `Forced`, `Next`, ...), and the properties are proved of those over all inputs and all runs.

## Where the code does less than it seems to

The model follows the code. These are the places where it falls short of what its surroundings
suggest; each is stated as the exact condition under which the code does what it should.

- `LoadApp` builds the image under a root of its own (`kernel/system.cpp:152-180`), and nothing ever
  gives that root, its tables or its pages back: every call that gets as far as a first root keeps
  at least that frame, and a successful one the whole tree of the image. `Execution.ExecuteApp`:
  what is held afterwards is what was held before if and only if there was no frame at all.
- A bad header, an image that does not fit in memory (`kernel/system.cpp:158-168`) and a launch that
  runs out of frames after the second root (`kernel/system.cpp:174-180, 243-264`) return without
  cleaning up: `Execution.EndingOf` says which of them it is, from the number of free frames, the
  header and the segments. (The branch for arguments that do not fit, `kernel/system.cpp:253-255`,
  is in the model too, but two strings of 32 bytes fit 32 slots and 3840 bytes.)
- `CopyLoadSegments` counts a segment's pages as if it began with one (`kernel/system.cpp:93`).
  Every byte lies in a page mapped for it if and only if the offset of its address and its size
  together are no more than that (`Segments.EveryByteMapped`); `Segments.TailMissing` is a segment
  of which that is not so. The copy then finds the page behind only if it was mapped for a segment
  before; if not, the fault comes from the kernel, and the kernel halts (`Segments.Loads`,
  `Images.CopyLoadSegments`, and the ending `LoadHalted` of `Execution.ExecuteApp`).
- System calls use the application's pointers unchecked, with write protection off
  (`kernel/paging.cpp:33`, `kernel/syscall.cpp:124-195, 250-258`), and every root maps physical
  memory one to one. A write to a page that is still shared goes into the image's frame, and one to
  a low address into whatever frame has it (`Actions.PointerToFrame`). `Actions.RunIsolated`: the
  frames of others stay as they are in a run if and only if no action changes a word of them, in one
  of these ways or in the next. `Actions.OnlyImagePages`: those that are no pages of the image and
  that nobody aims at through the kernel's half stay as they are in any case.
- A store of the application itself to a mapped address of the kernel's half, as in
  `apps/fault/fault.cpp`, is served as a copy-on-write (`kernel/paging.cpp:128-151, 216-217`). The
  walk takes a 2 MiB page for a table and overwrites a word of its first frame
  (`KernelHalf.WalkedInKernel`); the store faults again, until no frame is free
  (`Actions.DrainFrames`), and those frames are never given back (`Actions.WriteToKernel`).
  `Execution.ExecuteApp`: once the application has ended, the frames held are those before and the
  image's if and only if the run does not end at such a store with a frame free (`Actions.LeakOf`).
- A system call whose pointer finds no page makes the kernel fault, `KillApp` returns at once and
  the kernel halts for ever (`kernel/interrupt.cpp:59-81`): `Actions.FateIs` says exactly when, and
  the application's frames then stay (`System.RunImage`).
- The last entry of a producer ring is its link, so a ring of B slots takes B - 2 outstanding
  entries, not B - 1. A consumer that stands at the link when one more comes does not move as long
  as nothing is written (`Rings.OneTooMany`, `Rings.PushExact`); once the producer has gone round
  again it follows the link, and goes on behind the 2 B - 2 entries that were outstanding
  (`Rings.LapLost`).
- A read that starts inside a cluster takes the rest of that cluster from the cluster's start
  (`servers/fs/serverstate.cpp:410-430`): `FatFiles.ReadExact`.
- A write chunk that straddles two clusters also copies bytes behind it
  (`servers/fs/serverstate.cpp:506`): `FatFiles.ChunkExact`. Up to its end it is right
  (`FatFiles.ChunkInPlace`), so sequential writes still read back, which is why
  `FileServer.WriteThenRead` needs no alignment.
- A program whose chain has clusters to spare, as it has after a shorter write, is launched with its last
  part taken from the last of them (`servers/fs/serverstate.cpp:176-190`): `FatFiles.ImageExact` for the
  copy, `Launch.LaunchExact` for the launch, `Launch.StartsBroken` for the run in which it happens.
- `CreateFile` clears neither the attribute nor the first cluster of the slot it takes
  (`servers/fs/fs.cpp:229-234`). What it makes is an empty file if and only if the slot was new or
  gave no first cluster and no directory's attribute (`NewFiles.CreatedEmpty`); a deleted entry of a
  long name is a slot that does not (`NewFiles.LongNameSlot`).
- The kernel takes requests to expand a buffer or start a task, and copies into buffers, from any
  task (`kernel/main.cpp:89-109`). `Launch.LaunchSafety` holds as long as no other task makes one;
  `Launch.MeddledLaunch`: one copy is enough to break it.
- A doubled slash restarts a lookup at the root, while `CreateFile` enters the name in the directory
  before it: `FatCreation.CreatedIsFound`, `FatCreation.DoubledSlashLost`.
- `FindFile` compares the address of a name with zero where it means its first byte
  (`servers/fs/fs.cpp:172`), so a directory is always searched to its end; the model does the same.
- `AllocateClusterChain(0)` takes one cluster (`FileSystem.FileSystemServer.AllocateClusterChain`).
- `WaitFinish` goes to sleep without looking at the mailbox, as does a bare `Sleep`
  (`kernel/task.cpp:291-304`): `Tasks.NextDelivers`.
- The scan for the next port gives up at the first waiting port if that one was unplugged
  (`kernel/usb/xhci/xhci.cpp:257-266`): `Ports.NoneLeftExactly`.
- A `read` of no bytes from a pipe leaves an end mark behind that the next call takes for its own, and
  that call then copies more than it was asked for: `Pipe.ReadInOrderExactly`,
  `Pipe.ReadForNothingOverruns`.

## Model

| member | source | states |
|---|---|---|
| Words.TestRaised | kernel/memory_manager.cpp:76-78 | raising one bit of a word makes that bit one and leaves the other 63 as they were |
| Words.TestCleared | kernel/memory_manager.cpp:79-80 | clearing one bit of a word makes that bit zero and leaves the other 63 as they were |
| MemoryManager.BitmapMemoryManager.GetBit | kernel/memory_manager.cpp:64-70 | the stored bit of a frame is set exactly when the frame is in the set of held frames: words and bits refine a set |
| MemoryManager.BitmapMemoryManager.SetBit | kernel/memory_manager.cpp:72-81 | the held set gains or loses exactly the one frame |
| MemoryManager.BitmapMemoryManager.MarkAllocated | kernel/memory_manager.cpp:42-47 | the held set gains exactly the run of frames |
| MemoryManager.BitmapMemoryManager.Free | kernel/memory_manager.cpp:35-40 | the held set loses exactly the run of frames |
| MemoryManager.BitmapMemoryManager.Allocate | kernel/memory_manager.cpp:12-33 | hands out the lowest-starting free run of the asked length within range and nothing else; fails, changing nothing, exactly when there is none, although the search jumps over runs it has seen blocked |
| MemoryManager.InitializeMemoryManager | kernel/memory_manager.cpp:104-137 | after sorted descriptors the clear bits below the range end are exactly the frames of available memory, less the heap; the heap is the lowest run of such frames that is long enough, and missing exactly if there is none; the range ends at the end of the last available descriptor |
| FrameRuns.ServeAll | kernel/memory_manager.cpp:12-47 | over any run of allocations and releases, each answer follows from the memory map and the blocks that are out alone: a taker gets the lowest run that is neither reserved nor out, or nothing exactly if there is none, and a release takes out the block named; blocks that are out never overlap, lie in range and hold no reserved and no heap frame, the heap is the lowest usable run, and the held set is exactly reserved, heap and what is out |
| PageEntry.EntryOfData | kernel/paging.hpp:65-91 | taking the 64-bit word of an entry apart again gives the entry: the bit fields lose nothing |
| PageEntry.DataOfEntry | kernel/paging.hpp:65-91 | every 64-bit word is the word of the entry read from it |
| PageEntry.AddressViews | kernel/paging.hpp:15-25 | the value of a linear address and its parts determine each other, both ways, for all 64-bit values |
| PageTree.PathOf | kernel/paging.hpp:27-42 | the four parts of an address, as an index path, have the address's page number as their rank in base 512 |
| PageTree.RankInjective | kernel/paging.hpp:15-42 | different index paths are different pages |
| PageTree.PartAfterSet | kernel/paging.hpp:44-62 | setting one part reduces it to nine bits and leaves every other part |
| PageTree.LinkTable | kernel/paging.cpp:42-56 | hanging a fresh blank table below an absent slot keeps the tree and changes no translation |
| PageTree.LinkPage | kernel/paging.cpp:70-90 | pointing an absent last-level slot to a fresh frame maps that page, zeroed, and no other, and keeps the tree |
| PageTree.GrownTrans | kernel/paging.cpp:58-96 | mapping two adjacent ranges in a row is mapping the joined range: the step behind both loop and recursion |
| Paging.Machine.SetNewPageMapIfNotPresent | kernel/paging.cpp:42-56 | a present entry is left alone; an absent one gets a blank frame nobody held; without a free frame nothing changes |
| Paging.Machine.NewPageMap | kernel/paging.cpp:155-164 | the frame was free, is held now, and is blank |
| Paging.Machine.NextSlot | kernel/paging.cpp:83-92 | advancing a part and zeroing the lower ones moves to exactly the first page behind what the current slot covers, and the room left shrinks by that much |
| Paging.Machine.SetupPageMap | kernel/paging.cpp:58-96 | maps precisely the consecutive pages from the address, as many as fit the table: each becomes user with the asked writable bit, new ones are zeroed and owned frames, every other translation and page is unchanged; what is left over is returned; on failure the pages done so far are a shorter range of the same kind, every frame taken hangs in the tree, and the allocator is exhausted |
| Paging.Machine.SetupPageMaps | kernel/paging.cpp:171-175 | the same from the root: on success all pages asked for that lie below the end of the address space are mapped |
| Paging.Machine.SetupOwnPages | kernel/system.cpp:247-264 | writable pages set up where nothing was mapped become the application's own, and nobody else's frame or table changes |
| Paging.Machine.CleanPageMap | kernel/paging.cpp:98-126 | with the lower parts zero: below the table, from the slot of the address on, nothing is mapped afterwards; exactly the tables and owned pages there were freed, each once, and every shared page and everything outside is as it was |
| Paging.Machine.CopyPageMaps | kernel/paging.cpp:182-209 | each slot of the source from the start index on appears in the copy, last-level ones read-only and to the same frame, interior ones through fresh tables of the copy's own; the source's tables are untouched and no table is in both trees; on failure what is there is part of that and the allocator is exhausted |
| KernelHalf.KernelStays | kernel/paging.cpp:21-30 | whoever leaves the kernel's tables and the kernel's half of a root alone leaves the one-to-one map as it was set up, below any root with that half |
| KernelHalf.FrameInKernel | kernel/paging.cpp:21-30 | through that map the processor finds behind an address of the kernel's half the frame of its page number, below 64 GiB, and nothing elsewhere |
| KernelHalf.WalkedInApp | kernel/paging.cpp:128-140 | following the entries of a mapped address of the application's half changes only its last-level entry: to the given frame, writable; the kernel's half stays |
| KernelHalf.WalkedInKernel | kernel/paging.cpp:128-140 | following them in the kernel's half overwrites one word, of the first frame of the 2 MiB region, at the place the page has in it |
| Paging.Machine.CopyOnePage | kernel/paging.cpp:142-151 | copy-on-write: the page moves to the lowest free frame, with the same contents and writable, and no other translation, no page of the tree and no frame of anybody else changes; in the kernel's half a word of the region's first frame is made to point to that frame instead; without a free frame nothing changes at all |
| Paging.Machine.HandlePageFault | kernel/paging.cpp:211-227 | at any address: which of the four results, by the error-code bits, the demand range and the number of free frames; a fault on an absent page is served if and only if there is a frame for it and for each table missing on the way, a write fault of user mode on a present one if and only if there is a frame; in the application's half that is one copy or one zeroed own page, and ownership is kept; in the kernel's it is the one word overwritten; every other outcome changes nothing |
| PageOwnership.Unlink | kernel/paging.cpp:110-121 | freeing what an empty slot points to and clearing the slot removes exactly the paths through the slot from tree and ownership |
| PageSharing.SharedOwned | kernel/paging.cpp:182-209 | a read-only copy owns its tables and none of the pages it shares: the writable bit decides |
| PageSharing.SharedTrans | kernel/paging.cpp:182-209 | copies of disjoint sets of slots compose into the copy of their union |
| PageContents.ShareSees | kernel/paging.cpp:182-209 | through a whole copy every page shows what the source shows |
| PageContents.GrowSees | kernel/paging.cpp:58-96 | mapping a range shows zeroed pages where there were none and changes no page that was there |
| PageContents.CopySees | kernel/paging.cpp:142-151 | a copy-on-write shows no difference in any page |
| System.SetupPML4 | kernel/system.cpp:120-133 | a new root with the kernel's half of the current one and a blank application half, every frame held before unchanged; without a frame nothing changes |
| System.FreePML4 | kernel/system.cpp:135-142 | gives back exactly the root frame and returns to the kernel's root |
| System.TreeIntact | kernel/system.cpp:174-180 | a tree whose frames other than its pages are unchanged is a tree still with every translation; with its pages unchanged too, it shows what it showed: what frames left alone mean for the image |
| System.LoadImage | kernel/system.cpp:174-180 | the second root shows the pages of the image, shares no table with it and owns no page; all frames held before are untouched; on failure the outcome says how far it got |
| System.LaunchApp | kernel/system.cpp:174-267 | on success, with arguments that fit, the application sees the image, its argument page and a zeroed stack, and nothing else changed; on failure what was taken is accounted for by tables and pages at known paths, the argument page among them if the arguments do not fit |
| System.RetireApp | kernel/system.cpp:273-277 | cleaning and freeing the root leaves held exactly the frames that were neither the application's tables nor its own pages, unchanged, with no free of a frame that was not held |
| Actions.Touch | kernel/paging.cpp:211-227 | an access to the application's half with its fault: it succeeds if and only if the page is there, for a write writable or with a frame for the copy, or lies in the demand area with a frame for it and each missing table; the application sees what it saw, but for a zeroed page where there was none |
| Actions.DrainFrames | kernel/paging.cpp:128-151 | an application's store to a mapped address of the kernel's half: all free frames are taken, a word of the region's first frame points to the last of them, and no other frame that was held changes; unless that word is one of a table, after which nothing more is said |
| Actions.FateIs | kernel/interrupt.cpp:59-81 | whether the application goes on, is killed or takes the kernel with it, for a load, a store or an access of a system call at any address: the kernel halts exactly at an access of a system call that finds no page |
| Actions.Perform | kernel/syscall.cpp:124-258 | one action at any address, the application's own or a system call's, with whatever faults it causes: what becomes of the application, what it sees, and that the frames of others change in at most the one word the action writes there |
| Actions.RunActions | kernel/system.cpp:269-271 | the same along any run: each view follows from the one before by the action; the run ends early exactly at an action the application does not go on after; the frames that are neither its tables nor its pages are those of others and what a store to the kernel's half took |
| Actions.RunIsolated | kernel/syscall.cpp:124-258 | in every run, the frames of others are what they were in every view if and only if no action changes a word of them: a system call through a page still shared or through the kernel's half, or the handler of a store to the kernel's half |
| Actions.OnlyImagePages | kernel/syscall.cpp:124-258 | in every run, a frame of others that is no page of the image and that no action aims at through the kernel's half is what it was |
| Actions.PointerToFrame | kernel/syscall.cpp:250-258 | for every frame of others below 64 GiB: a system call given its physical address writes to it |
| Actions.WriteToKernel | apps/fault/fault.cpp:15-17 | the program's store to 0x100 kills it, takes every free frame for good and leaves a word of frame 0 pointing to the last of them |
| System.RunImage | kernel/system.cpp:174-278 | from the second root to the end: how far the launch gets is decided by the free frames and the arguments; an application that ended gave everything back but what a store to the kernel's half took; where the launch stopped or the kernel halted its tree stays; no frame is freed twice; isolation exactly as in RunIsolated |
| PageBytes.ByteOfBytes | kernel/system.cpp:99-102 | the bytes put into a page are the bytes read from it, through words and entries |
| PageBytes.LaidTwice | kernel/system.cpp:99-102 | laying two pieces over a page one behind the other is laying their concatenation over it |
| Segments.EveryByteMapped | kernel/system.cpp:93-102 | every byte of a segment lies in a page that is mapped for it if and only if it has none, or the offset of its address and its size fit into its pages |
| Segments.TailMissing | kernel/system.cpp:93-102 | a segment of 32 bytes, 16 of them in a page that is not mapped for it |
| Segments.ImageBytes | kernel/system.cpp:99-102 | once all segments are loaded, every byte of every page is that of the last segment that has one there, and zero where none has |
| Segments.InImage | kernel/system.cpp:84-105 | the pages of an image are exactly those mapped for some segment |
| Images.WriteBytes | kernel/system.cpp:99-102 | a copy or a clearing of memory through linear addresses: it ends if and only if every byte has a page; then the pages hold the bytes, and all others what they held |
| Images.LoadSegment | kernel/system.cpp:87-102 | one segment at any address: its pages are mapped read-only through fresh frames, and its bytes laid over them and the rest cleared, if and only if each byte has a page, be it one mapped before; when frames run out a page of the segment is missing |
| Images.CopyLoadSegments | kernel/system.cpp:84-105 | for any segments, unaligned and overlapping ones included: the tree shows at every page what the segments make of it in their order and nothing anywhere else, all of it read-only, with a frame for each table and page of the image; or it stopped at the first segment that does not load, with all pages up to its own mapped; or the frames ran out with a page still missing |
| Images.BuiltCount | kernel/system.cpp:84-105 | a tree being built took exactly one frame for each of its tables and each of its pages |
| Execution.BuildImage | kernel/system.cpp:152-168 | which way the first half of a load ends, by the free frames, the header and the segments; the frames it took, all in the image's tree, and their number |
| Execution.ExecuteApp | kernel/system.cpp:232-278 | the whole call, for every memory, header, list of segments, arguments and run of the application and its system calls: how far it gets is decided by the free frames, the header, the segments and whether the arguments fit; the frames held afterwards are those before, the image's tree, what a store to the kernel's half took and, after a launch that stopped half-way or a halt of the kernel, the application's tree; no frame is freed twice; what was held before keeps its contents but for frames somebody aims at through the kernel's half; the application's first view is what segments and arguments say; and all frames of others stay as they were exactly if no action changes a word of them |
| Execution.NextPageHigh | kernel/system.cpp:265-267 | the demand area of an application that is started begins in the application's half |
| FrameCounts.TakenCount | kernel/system.cpp:243-267 | an address space took exactly one frame for each of its tables and each page it owns |
| FrameCounts.PageTaken | kernel/paging.cpp:58-96 | mapping one absent page succeeds if and only if as many frames are free as it and the tables missing on the way to it take |
| AppFrames.NeedIs | kernel/system.cpp:243-267 | what a launch needs, in numbers: the image's tables and those of the stack, and seventeen pages, or one page if the arguments do not fit |
| AppFrames.EnoughFrames | kernel/system.cpp:243-267 | a launch that got as far as its argument page or its stack found at least the frames it needs |
| AppFrames.TooFewFrames | kernel/system.cpp:243-267 | one that ran out of frames found some, but fewer than it needs |
| AppFrames.AppAddresses | kernel/system.cpp:247-264 | the argument page is the last page, the stack the sixteen before it, and both fit below the end of the address space |
| FatChains.ChainDistinct | servers/fs/fs.cpp:85-93 | a chain that ends never meets itself: following it terminates |
| FatChains.ChainUnique | servers/fs/fs.cpp:85-93 | the first cluster determines the chain |
| FatChains.GrownNew | servers/fs/fs.cpp:259-305 | clusters a chain grew by were free, come in increasing order behind it, and the free count dropped by their number |
| FatChains.OtherChainKept | servers/fs/fs.cpp:259-305 | a chain that shares no cluster with the one that grew is what it was and still shares none |
| FatChains.ForestGrown | servers/fs/fs.cpp:259-305 | growing one chain, or adding one, keeps the whole forest of chains ended, acyclic and pairwise disjoint, and still covering all used clusters if it did |
| FileSystem.FileSystemServer.GetFAT | servers/fs/fs.cpp:64-75 | the index into the sector buffer where the entry of the flat table is |
| FileSystem.FileSystemServer.UpdateFAT | servers/fs/fs.cpp:77-83 | writing the changed sector back changes exactly that entry of the flat table |
| FileSystem.FlatUpdate | servers/fs/fs.cpp:64-83 | changing one entry of one sector is changing one entry of the flat table |
| FileSystem.FileSystemServer.NextCluster | servers/fs/fs.cpp:85-93 | the successor in the flat table, every end mark read as the one end mark |
| FileSystem.FileSystemServer.ExtendCluster | servers/fs/fs.cpp:259-288 | from any cluster of a chain: the chain becomes itself and the n lowest free clusters in increasing order, every other table entry is unchanged, and the last new cluster is returned |
| FileSystem.FileSystemServer.AllocateClusterChain | servers/fs/fs.cpp:290-305 | a new chain of the n lowest free clusters (one for n = 0), nothing else changed |
| FileSystem.FileSystemServer.ReadCluster | servers/fs/fs.cpp:95-109 | buffer and remembered number are those of the cluster |
| FileSystem.FileSystemServer.UpdateCluster | servers/fs/fs.cpp:111-121 | the buffer lands on the named cluster, or for 0 on the one read last, and on no other |
| FatNames.NameIsEqual | servers/fs/fs.cpp:123-137 | true exactly when the entry's eleven bytes are those the path element expands to |
| FatNames.SetFileName | servers/fs/fs.cpp:307-322 | in place: base up to the last dot and extension behind it, upper-cased, cut and padded; the rest of the buffer kept |
| FatNames.StoredIsName83 | servers/fs/fs.cpp:123-137 | for a valid 8.3 name what is compared is what is stored, though one cuts at the last dot and the other jumps at every dot |
| FatNames.NamesAgree | servers/fs/fs.cpp:123-137 | the entry built for one valid name answers to another exactly when the two agree up to case |
| FatNames.ReadName | servers/fs/fs.cpp:191-202 | the two parts without their trailing spaces |
| FatNames.NameReadsBack | servers/fs/fs.cpp:191-202 | what is read back from a stored valid name is its upper-cased base and extension |
| FatDirectory.FirstClusterSet | servers/fs/serverstate.cpp:464-467 | a first cluster written into an entry is read back, through the split high and low halves, and size, name and attributes stay |
| FatDirectory.FileSizeSet | servers/fs/serverstate.cpp:471-476 | a size written into an entry is read back, and first cluster, name and attributes stay |
| FileSystem.FileSystemServer.FindFile | servers/fs/fs.cpp:153-189 | through the buffers and the table it returns what the pure resolution of the path over directory chains gives, and leaves the cluster of the entry in the buffer |
| FileSystem.FileSystemServer.AllocateEntry | servers/fs/fs.cpp:237-257 | the first free entry along the directory's chain, or the head of a blanked new cluster behind it when there is none; all directories stay disjoint ended chains |
| FileSystem.FileSystemServer.CreateFile | servers/fs/fs.cpp:204-235 | which error or which parent, from the path; on success exactly one entry of the parent was made, otherwise nothing changed |
| FatDirectory.EnteredFound | servers/fs/fs.cpp:204-257 | after an entry was made for an absent name the directory finds that name there and every other name where it was, also when its chain grew |
| FatDirectory.EnteredElsewhere | servers/fs/fs.cpp:204-257 | other directories find what they found |
| FatCreation.LookupSplit | servers/fs/fs.cpp:139-189 | resolving a path is resolving its front and going on from there, unless the front is a file or ends in a slash; then it is the file, or starts over at the root |
| FatCreation.LookupKept | servers/fs/fs.cpp:153-257 | creating a file changes the resolution of no path that was found and of none that does not mention the new name |
| FatCreation.CreatedIsFound | servers/fs/fs.cpp:139-235 | the created entry is found under its path if and only if the path leads to its parent: the parent entry is a directory and no doubled slash in front of the name sends the search to the root |
| FatCreation.DoubledSlashLost | servers/fs/fs.cpp:139-235 | a//b created in a directory other than the root is not found again |
| FatCreation.CreateThenFind | servers/fs/fs.cpp:153-235 | the two calls in a row on the server's state: found is created exactly under that condition, all other lookups are unchanged, and the directories stay sound |
| NewFiles.CreatedEmpty | servers/fs/fs.cpp:204-257 | what was created is an empty file under its path if and only if the path leads to its parent and the slot that was taken is new, or gave no first cluster and no directory's attribute |
| NewFiles.LongNameSlot | servers/fs/fs.cpp:229-234 | a deleted entry of a long name as the slot: the new file begins with a cluster number made of two of its characters |
| NewFiles.CreateWriteRead | servers/fs/fs.cpp:204-235 | create, write and read of a new file in a row, through the server's buffers and messages: what is read is what was written, the size says so, and every other lookup is unchanged |
| FatFiles.FlattenSplice | servers/fs/serverstate.cpp:493-512 | laying bytes over one cluster of a chain lays them over the file's contents at that cluster's position |
| FatFiles.ChunkInPlace | servers/fs/serverstate.cpp:493-512 | up to its end a written chunk is in place, whatever else the copy hit |
| FatFiles.ChunkExact | servers/fs/serverstate.cpp:493-512 | nothing behind a chunk is overwritten, for all contents, if and only if the chunk stays inside one cluster |
| FatFiles.ReadExact | servers/fs/serverstate.cpp:396-450 | a read streams the bytes from its offset on, for all contents, if and only if the offset is a multiple of the cluster size or there is nothing to stream |
| FatFiles.ImageExact | servers/fs/serverstate.cpp:170-193 | a task's buffer holds the image, for all contents, if and only if the chain has exactly the clusters the size fills, or more of them and the size is a multiple of the cluster size |
| FileServer.NextOrExtend | servers/fs/serverstate.cpp:485-490 | one step along a chain, growing it by one free cluster at its end and only there |
| FileServer.Seek | servers/fs/serverstate.cpp:481-491 | the n-th cluster of the chain, grown just enough to have one |
| FileServer.PutBytes | servers/fs/serverstate.cpp:493-512 | the chunk lies over the contents from its offset on; a straddling one takes more of its message along, as the code does; the chain grew just enough |
| FileServer.NameChain | servers/fs/serverstate.cpp:452-468 | an entry without a chain gets one of the length the count fills, recorded in the entry; one that has a chain keeps it |
| FileServer.HandleWrite | servers/fs/serverstate.cpp:452-515 | one write message: the resulting length of the chain, entry and contents, and that nothing else of the volume changed |
| FileServer.WroteKeepsDirectories | servers/fs/serverstate.cpp:452-515 | writing to a file leaves every lookup and every other directory entry as it was, and the directories sound |
| FileServer.OtherFileKept | servers/fs/serverstate.cpp:452-515 | every other file keeps its entry, its chain and all its bytes |
| FileServer.HandleChunk | servers/am/filedescriptor.cpp:80-115 | a run of messages so far: the bytes sent so far are in place from the offset on |
| FileServer.HandleLast | servers/fs/serverstate.cpp:469-476 | the empty message that ends a run sets the size to the end of what was written |
| FileServer.StreamCluster | servers/fs/serverstate.cpp:410-430 | the inner loop: each byte goes out once, in messages of sixteen, from the position the code takes it from |
| FileServer.HandleRead | servers/fs/serverstate.cpp:396-450 | for every offset and count: the messages are full but for the last and carry exactly the stream that size, chain and count allow |
| FileServer.FatFileDescriptor.Write | servers/am/filedescriptor.cpp:80-115 | one write of at least a byte: the bytes are in the file from the write offset on, the bytes in front of it are kept, the size is the new offset, the chain is long enough and no longer than needed, the rest of the volume is kept |
| FileServer.FatFileDescriptor.Read | servers/am/filedescriptor.cpp:49-78 | one read returns the stream from the read offset and moves the offset by what it got |
| FileServer.WriteThenRead | servers/fs/serverstate.cpp:396-515 | round trip, for any write offset and any data: reading from the start gives back what was in front of the offset and then exactly the bytes written, and the size says so |
| FileServer.CopyImage | servers/fs/serverstate.cpp:170-193 | the task's buffer becomes what the copy loop makes of the chain, for every chain length and size |
| Rings.ProducerRing.CopyToLast | kernel/usb/xhci/ring.cpp:30-37 | one slot becomes the entry with the ring's cycle bit |
| Rings.ProducerRing.Push | kernel/usb/xhci/ring.cpp:39-54 | a push on the array is the program of single stores of the interleaving model, link and wrap included |
| Rings.EventRing.HasFront | kernel/usb/xhci/ring.hpp:82-88 | there is a front exactly when an entry is outstanding |
| Rings.EventRing.TakeEvent | kernel/usb/xhci/ring.cpp:101-114 | front and pop take the oldest outstanding event, complete, exactly once |
| Rings.AcceptedInOrder | kernel/usb/xhci/ring.cpp:30-54 | under every interleaving of the dword accesses of both sides, over any number of laps, what was accepted is a prefix of what was pushed |
| Rings.AcceptedAll | kernel/usb/xhci/ring.cpp:30-54 | when no push is under way and the consumer finds nothing in its slot, it has accepted every entry pushed |
| Rings.AcceptsNext | kernel/usb/xhci/ring.cpp:30-54 | while an entry is outstanding, four more reads, or eight across the link, accept exactly the next one |
| Rings.Visible | kernel/usb/xhci/ring.hpp:82-88 | the cycle bit in the consumer's slot matches exactly when an entry is outstanding, in every reachable state |
| Rings.PushExact | kernel/usb/xhci/ring.cpp:39-54 | the consumer can go on after a push, in any state, if and only if the push left the slot the consumer stands at alone or for this lap |
| Rings.OneTooMany | kernel/usb/xhci/ring.cpp:39-54 | for every ring of three slots or more there is a run with size - 2 outstanding after which one more push makes the consumer stand still as long as nothing is written |
| Rings.LapLost | kernel/usb/xhci/ring.cpp:39-54 | on every such ring, after that push and one more lap of them the consumer follows the link, and what it accepts next is what is pushed after that, past 2 * size - 2 outstanding entries |
| Tasks.NextKeeps | kernel/task.cpp:82-150 | every operation keeps: each queue holds exactly the running tasks of its level, once; the current queue is not empty; no finished task is in a queue; a level change is pending or nothing is queued above the current level |
| Tasks.RunningOnce | kernel/task.cpp:105-150 | a live task is marked running if and only if it occurs exactly once in all queues together |
| Tasks.HighestLevelRuns | kernel/task.cpp:306-328 | in every run, after a timer interrupt the current task has the highest level of all runnable tasks |
| Tasks.NextDelivers | kernel/task.cpp:105-150 | from a state in which no sleeping task has mail, a step leads to another such state if and only if it is not a sleep outside the receive calls, or a wait for an end, of a task with mail |
| Tasks.NoLostWakeup | kernel/syscall.cpp:124-214 | in every run of sends, receives and the other operations, a live task that is in no queue has an empty mailbox |
| Tasks.MailInOrder | kernel/task.cpp:59-72 | in every run, what was sent to a task is what it took and then what is in its mailbox, in order |
| Tasks.BoundedWaiting | kernel/task.cpp:306-328 | a task at place k of the current queue runs after at most k scheduling points, whatever sleeps and wakeups at no higher level happen in between |
| Tasks.ReturnedOrAnswered | kernel/syscall.cpp:154-195 | every message a closed receive dequeues is returned or answered with one retry error to its sender, never both |
| Tasks.ClosedReceive | kernel/syscall.cpp:154-195 | returns exactly the messages of the awaited sender among those it dequeued, in order, answers the others, leaves the rest in the mailbox, and stops when full or when it has something and the mailbox is empty |
| Tasks.TaskManager.NewTask | kernel/task.cpp:91-94 | a task with an id never used before |
| Tasks.TaskManager.RotateCurrentRunQueue | kernel/task.cpp:306-328 | the front task goes to the back or out, and the current level becomes the highest one with a task if a change was pending or the queue is empty |
| Tasks.TaskManager.Sleep | kernel/task.cpp:105-119 | takes a running task out of its queue, and keeps the scheduler invariant |
| Tasks.TaskManager.Wakeup | kernel/task.cpp:132-150 | puts a task in the queue of its level once, noting a level change when that is above the current one, and keeps the invariant |
| Tasks.TaskManager.ChangeLevelRunning | kernel/task.cpp:263-289 | moves a running task between levels; the current task goes in front and takes the level along |
| Tasks.TaskManager.SendMessage | kernel/task.cpp:163-174 | delivers and wakes, or reports that there is no such task |
| Tasks.TaskManager.ReceiveRound | kernel/syscall.cpp:124-152 | one round of a receive loop takes the oldest message, or sleeps exactly when there is none |
| Tasks.TaskManager.Finish | kernel/task.cpp:243-261 | removes the current task from tasks and queues, records its exit code and wakes who waits for it, keeping the invariant |
| Timers.TimerManager.CreateTimer | kernel/syscall.cpp:39-59 | what deadline a request gets in 64-bit arithmetic, which requests are refused, and that a user value never looks like the preemption timer's |
| Timers.TimerManager.ArmTaskTimer | kernel/task.cpp:332-339 | armed once, the preemption timer is there beside all user timers, none of which it disturbs |
| Timers.TimerManager.DrainQueue | kernel/timer.cpp:62-80 | the loop ends; what is left lies in the future; what came out are the user timers that were due, in deadline order, and the preemption timer is there again once, two ticks on if it was due |
| Timers.TimerManager.Tick | kernel/timer.cpp:59-84 | the drain loop ends; out goes each user timer that is due, as often as it was added, in deadline order; every timer left lies in the future; preemption is reported exactly when the preemption timer was due |
| Timers.FiresOnceWhenDue | kernel/timer.cpp:59-84 | in every run, at each tick exactly those timers fire whose deadline, or the tick after they were added if that is later, is this tick: each once |
| Timers.EverySecondTick | kernel/timer.cpp:69-75 | once armed, preemption is reported at every second tick and at no other |
| Ports.NextKeeps | kernel/usb/xhci/xhci.cpp:91-284 | every handler keeps: a port is resetting, enabling its slot or addressing if and only if it is the addressed port and that is not 0; and no port's phase moves backward |
| Ports.OneAtATime | kernel/usb/xhci/xhci.cpp:91-284 | in every run of events two ports in these phases are the same port |
| Ports.ForwardOnly | kernel/usb/xhci/xhci.cpp:91-284 | along every run each port only moves forward |
| Ports.NoneLeftExactly | kernel/usb/xhci/xhci.cpp:242-268 | a step leaves no port waiting for nobody, if and only if it is not the end of an addressing whose first waiting port was unplugged |
| Ports.NoneLeftBehind | kernel/usb/xhci/xhci.cpp:242-268 | in every run in which waiting ports stay plugged in, none is left waiting while no port is being brought up |
| Ports.PortConfig.ResetPort | kernel/usb/xhci/xhci.cpp:91-113 | an unconnected port is left alone, a connected one waits or starts, and the wrong phase is reported |
| Ports.PortConfig.ConfigurePort | kernel/usb/xhci/xhci.cpp:440-445 | starts only a port that was never started |
| Ports.PortConfig.OnPortStatusChange | kernel/usb/xhci/xhci.cpp:197-210 | a status change moves a new port to reset and a reset port to its slot, and reports any other phase |
| Ports.PortConfig.OnAddressed | kernel/usb/xhci/xhci.cpp:242-268 | only the addressed port in its phase moves on, and its turn passes to the next waiting port |
| Ports.PortConfig.OnSlotEnabled | kernel/usb/xhci/xhci.cpp:236-241 | only the addressed port, and only from its slot phase, goes on to be addressed |
| Ports.PortConfig.OnEndpointsConfigured | kernel/usb/xhci/xhci.cpp:269-281 | only a port whose endpoints are being configured becomes configured |
| Ports.PortConfig.OnTransfer | kernel/usb/xhci/xhci.cpp:212-228 | a finished descriptor transfer moves on only a device in its initializing phase |
| Launch.LaunchSafety | servers/am/serverstate.cpp:65-266 | in every interleaving of manager, file server, kernel and other senders, as long as no other task asks the kernel to expand a buffer or start a task or copies into a buffer, on every volume: when the start message is due the new task's buffer holds what the cluster loop makes of the file at its path, chain and size as they are now, and no message between the servers is under way; and every start message in the kernel's mailbox is for a task whose buffer is still that |
| Launch.MeddledLaunch | kernel/task.cpp:206-221 | on every volume, for every file with a byte: a run in which one copy of another task makes the start message due for a buffer that is not the copy of the file |
| Launch.LaunchRecorded | servers/am/serverstate.cpp:183-224 | a task is started once, by the manager's start step, with the image of the file at the requested path as it was then |
| Launch.LaunchExact | servers/fs/serverstate.cpp:170-193 | for every file: in all runs on all volumes, with no such meddling, a task started from it holds the whole file, byte for byte, if and only if its chain has exactly the clusters its size fills, or more of them and the size is a multiple of the cluster size |
| Launch.StartsBroken | servers/fs/serverstate.cpp:176-190 | for every file whose chain does not fit its size: a volume and a run from booting to the start message after which the task's buffer is not the file |
| Launch.ImageIsFile | servers/fs/serverstate.cpp:170-193 | where the chain fits the size, the copy is the file's contents and has its size |
| Launch.NextKeeps | servers/fs/serverstate.cpp:61-198 | every step of every process keeps the phase relation between the two servers, their mailboxes, the volume and the buffers, the copy of each single cluster, redirect path, created files and retry errors included |
| Launch.AmTurnsAway | servers/am/serverstate.cpp:97-124 | no message that the manager answers with a retry error comes from a server it is waiting for |
| Launch.FsTurnsAway | servers/fs/serverstate.cpp:109-168 | no message that the file server answers with a retry error comes from a server it is waiting for |
| Pipe.ReaderGetsPrefix | servers/am/filedescriptor.cpp:120-201 | in every run, whatever the chunk and read sizes, retries and the moment of closing: the reader's bytes are a prefix of the writer's, bytes taken are bytes given out and the slot, and every nonempty chunk is acknowledged once, when its last byte is out |
| Pipe.WriterAheadOfNobody | libs/kinos/common/newlib_support.c:163-221 | when the writer may go on, everything it wrote was given out |
| Pipe.ReadFitsBuffer | libs/kinos/common/newlib_support.c:123-161 | no read copies more than it was asked for, in every run in which no read asks for nothing |
| Pipe.ReadInOrderExactly | libs/kinos/common/newlib_support.c:123-161 | a read between others leaves the replies in step with the calls if and only if it asks for something |
| Pipe.ReadForNothingOverruns | libs/kinos/common/newlib_support.c:123-161 | a run with two reads of nothing after which a read has copied more than it was asked for |
| Pipe.PipeFileDescriptor.Write | servers/am/filedescriptor.cpp:167-192 | an empty slot takes the chunk, a full one answers retry and keeps what it holds |
| Pipe.PipeFileDescriptor.Read | servers/am/filedescriptor.cpp:120-165 | what is sent to the reader and the writer and what stays in the slot, for every count |
| Pipe.PipeFileDescriptor.Close | servers/am/filedescriptor.cpp:194-201 | the slot is kept and the writer is told once |
| UsbMemory.AndMask | kernel/usb/memory.cpp:12-14 | a bitwise and with a mask of high bits clears exactly the low ones |
| UsbMemory.CeilRoundsUp | kernel/usb/memory.cpp:6-10 | the mask form gives the least multiple of the alignment that is not below the value |
| UsbMemory.Pool.AllocMem | kernel/usb/memory.cpp:21-40 | over any run of calls every block lies in the pool behind all earlier ones, is aligned, and crosses no multiple of its boundary if it is no larger; a refused call hands out nothing |

## Left out

- Booting, ACPI, PCI, segments, interrupts, TLB and the CR3 register itself: `cr3` is a field holding the current root frame.
- Consoles, graphics, fonts, mouse, keyboard, HID and descriptor parsing.
- xHCI registers, doorbells, device contexts and scratchpads: the controller is an environment that reads entries and posts events; a link TRB always points to slot 0.
- The directory-listing branch of `ReadState`, FAT mirrors, timestamps, long names, `servers/init/init.cpp`, and the second launch path for servers (`ExecuteServer`), which repeats what is modelled for applications.
- Physical memory and the volume image are fields of value type that methods reassign entry by entry; tasks are values in the manager's map, named by id. Aliasing between C++ objects of those kinds is not modelled.
- `bytes_per_sector` is 512, the sector size of the volume system calls.
- Path elements longer than the 13-byte buffer of `NextPathElement`.
- ENOSPC of `CreateFile`: the free-cluster search has no end test, so the code never returns it; the methods require enough free clusters instead.
- Address spaces are related to each other one application at a time: two applications running at once share the image in the same way but are not interleaved.
- Paging.Machine.SetupOwnPages: `writable` is overwritten on pages that are already present, so ownership needs the range to be unmapped; `SetupPageMap` itself is stated for any range.
- Actions.Perform: after a store that overwrites a word of one of the application's or the kernel's tables (the fate Astray) nothing is said of the rest of the run; the run up to and with that store is covered. A store is one aligned word, and a longer access of a system call is a row of them. Instruction fetches are loads, and faults other than page faults and those of addresses that are not canonical are left out.
- MemoryManager.InitializeMemoryManager: descriptors that end above 128 GiB, the 33554432 frames of the bitmap; the code accepts them and marks bits behind its array. FrameRuns.ServeAll takes the same maps.
- Execution.ExecuteApp: every segment lies in the application's half below the stack and has no more bytes in the file than in memory, as in every linked application; the code checks the first load address only. `header` stands for the magic number and the type in the header; `args` is what `MakeArgVector` makes of the argument page. The task has no demand area yet, since it runs one application; and the frame of the kernel's root and its tables are held.
- System.RunImage: the image must leave the last seventeen pages unmapped, which Execution.ExecuteApp derives from its segments.
- FileSystem.FileSystemServer.constructor: as many table entries as clusters; on a volume whose last table sector has entries behind the last cluster the code's search for free clusters would hand those out too.
- FileSystem.FileSystemServer.FindFile: every entry with a directory's attribute, a deleted one included, leads to a known directory.
- FileSystem.FileSystemServer.CreateFile: the parent entry must lead to a known directory chain; the code does not check that it is a directory.
- FatCreation.CreateThenFind: paths without the bytes 0 and 0xe5, which no C string and no live entry begins with, and valid 8.3 names; a reused entry keeps its old attributes and first cluster, as in the code.
- FileServer.HandleWrite: the path must name a file in a sound directory tree (`FileAt`), since the code does not check that `FindFile` found one; offsets below 2^32, the width of the size field.
- FileServer.FatFileDescriptor.Write: a write of no bytes makes the application manager wait for an answer that never comes, and is not modelled.
- FileServer.OtherFileKept: files whose chains are disjoint, which is what the forest invariant keeps.
- Tasks.BoundedWaiting: level changes of other tasks and wakeups above the current level are excluded, as in the statement itself.
- Tasks.NextKeeps: idle never sleeps, ends or changes level; a task that is itself registered as waiting does not end. When two tasks wait for one id the first is forgotten, as in the code.
- Tasks.ClosedReceive: messages that arrive while the call sleeps come as a list of arrivals.
- Timers.TimerManager.Tick: timers with equal deadlines may come out in any order, as from the priority queue; ticks stay below the largest 64-bit value.
- Launch.LaunchSafety: read requests to the manager are not served during a launch in the model; `CreateNewTask` always succeeds; the volume changes through write messages and through files that are created when opened, in any way that keeps it sound and, when opened, the other files as they are.
- Pipe.ReaderGetsPrefix: one writer and one reader.
- UsbMemory.Pool.AllocMem: sizes for which the pointer does not wrap around 64 bits.
