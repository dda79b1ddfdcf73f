# A verified model of the EGOS/GRASS teaching operating system

This project models the core of the system in Dafny and proves what its parts are for. Nothing was
executed: the model follows the C code by reading it.

**The tree block store** (`Radix`, `Layout`, `FreeList`, `TreeSteps`, `TreeSpace`, `TreeGrowth`,
`TreeLevels`, `TreeWalk`, `TreeFree`, `TreeDisk`, `TreeCreate`, `TreeRuns`, `TreeWipe`, and the
checker in `TreeCheck`). Many files of blocks live on one array of blocks: one radix tree per inode,
with holes, whose height grows with the file, and a free list whose nodes are free blocks themselves.
`Layout.Inv` says that every block of the disk has exactly one owner (the fixed part, a place in one
file's tree, a place in the free list, or nobody, if a full disk has lost it). `TreeDisk` is the code,
on a disk of words it writes block by block; `TreeRuns.Plain` is the simple form it refines: a list of
files, each a sequence of blocks, and a number of free blocks.

**The TLSF allocator** (`Bits`, `TlsfMap`, `TlsfLists`, `TlsfHeap`, `TlsfSteps`, `TlsfAreas`,
`TlsfAlloc`, `TlsfRuns`). Blocks with boundary tags tile each area of memory; free ones are on lists
by size class, with two levels of bitmaps. `TlsfHeap.HeapInv` ties the words in memory to a set of
blocks: headers agree with neighbours on both sides, no two neighbours are free, the lists hold exactly
the free blocks of their class, and the bitmaps are exact. The simple form is a map from pointers to
what their owners stored.

**The kernel's processes, messages and paging** (`Processes`, `Messaging`, `Killing`, `Scheduling`,
`Calls`, `Kernel`, `KernelSteps`, `Ledger`, `Accounts`, `Histories`, `KernelRuns`; `Paging`, `MmuFrames`, `Images`,
`Mmu`, `MmuRuns`; `Machine`). The first group is the
scheduler with its mailboxes, RPC, timeouts, termination and shutdown; a process that gives up the CPU
in the middle of a call leaves a continuation behind. `Ledger` says, apart from the code, what may become of
each process while others run, by a log of the messages sent and the processes ended; `Accounts` says so for each
call, and `Histories` for whole runs. The second is the page fault handler with the
software TLB, which copies frames into and out of one virtual address range; its simple form says for
each process what bytes it has written and which pages it has touched. `Machine` runs both together: a
process that dies in a call, by a kill, an interrupt or a bad access, gives its frames back.

**The inode store** (`UnixLayout`, `UnixDisk`, `UnixRuns`), the older form of the tree store: direct,
single and double indirect references, and a free list whose nodes record 254 blocks each. The free
blocks are a stack; `UnixLayout.Inv` says that every data block is a place on that stack or a place of
one file, and that the one reference to it is where the code looks for it. While a file grows, the code
holds images of indirect blocks in memory; the ghost field `v` is the disk as it will be.

**The CLOCK cache** (`ClockDisk`): slots with reference and dirty marks over a store of files; its simple
form is that store, as if there were no cache.

**Byte files** (`ByteFiles`, `ByteRuns`): the block file server, which keeps files of bytes in files of
1024-byte blocks; its simple form is a sequence of bytes per file, with zeros in gaps.

**Arithmetic and memory kernels**: `Fmod` (remainders of doubles, on their bits), `MemMove` (overlapping
copies by words), `Sha256`, `ShaConstants`, `ShaBits` and `ShaContext` (the streaming hash, in 64-bit words, against FIPS 180-2), and
`Numerals` (printing numbers to a memory channel, and parsing them).

Each operation of the code is a method over mutable state, proved against a function or relation on
the state before it; the lemmas prove what the source promises about these. Ghost parameters and
fields (owners of blocks, the set of heap blocks, holders of frames) appear in no computed value.

## Model

| member | source | states |
|---|---|---|
| TreeDisks.TreeDisk.Read | src/block/treedisk.c:301-359 | succeeds exactly for an inode and offset in range, and gives that block of the file's sequence |
| TreeDisks.TreeDisk.Write | src/block/treedisk.c:361-473 | replaces one block of one file and extends it with zero blocks as needed, whatever levels that adds; panics exactly if the new levels and the places missing on the path are more than the free blocks, takes exactly that many otherwise, and on a panic loses or changes no block of any file |
| TreeSpace.NoneNeeded | src/block/treedisk.c:436-470 | a write inside the file needs no free block if and only if its data block is there already |
| TreeDisks.TreeDisk.GetSize | src/block/treedisk.c:259-267 | gives the number of blocks of a file, and an error for an inode out of range |
| TreeDisks.TreeDisk.SetSize | src/block/treedisk.c:271-297 | emptying a file returns exactly its blocks to the free list and touches nothing else, unless its root is a hole while blocks are free; then the superblock's number of inode blocks has changed |
| FreeLists.AllocCore | src/block/treedisk.c:100-146 | allocation fails exactly if no block is free; else it takes one block out of the free list, the rest of the disk stays partitioned, and the last block of all is a zero block |
| FreeLists.FreeCore | src/block/treedisk.c:148-198 | a freed block joins the free list, as an entry or as a node; every other block keeps its owner and contents |
| FreeLists.FreeHole | src/block/treedisk.c:148-198 | "freeing" block 0 changes nothing if the free list is empty, and otherwise always changes the number of inode blocks |
| TreeFree.CapacitySearchEnds | src/block/treedisk.c:237-242 | the search for the number of levels by 32-bit multiplication ends if and only if the size is at most the largest power of the branching factor below 2^32 |
| TreeFree.CapacityExample | src/block/treedisk.c:237-242 | with 256 references in a block, it does not end for a file of 2^24 + 1 blocks |
| TreeDisks.TreeDisk.LevelsBySearch | src/block/treedisk.c:237-242 | where it ends, it finds the levels that reads and writes find by shifting |
| TreeCreate.Create | src/block/treedisk.c:524-599 | which of four results depends on the old disk alone; an initialized disk is partitioned, with empty files and every other block free |
| TreeRuns.Run | src/block/treedisk.c:261-473 | any number of reads, writes and truncations answers as the plain files do, up to the first write with too little room, which is refused exactly when the plain count says so and leaves that file extended at most, or to emptying a file for which the search for its levels does not end |
| TreeRuns.CreateAndRun | src/block/treedisk.c:487-599 | the same from any uninitialized disk, as a store of that many free blocks |
| TreeRuns.SpaceConserved | src/block/treedisk.c:100-245 | along any run, free blocks and the blocks of all files add up to the same number |
| TreeRuns.RootedIffOwns | src/block/treedisk.c:401-431 | a nonempty file has a hole for a root if and only if it owns no block at all |
| TreeWipes.WipeFull | src/block/treedisk.c:222-297 | on any full disk: a write to an empty file fails, and after emptying another file that empty one can no longer be emptied safely |
| TreeWipes.WipeExample | src/block/treedisk.c:222-297 | four blocks and two files: create, write, failed write, truncate, truncate ends with another number of inode blocks |
| TreeCheck.Check | src/block/treedisk_chk.c:81-197 | ends on any disk, even with a cyclic free list, and accepts exactly the disks on which, of all places the scan comes to, no two refer to one block and none refers off the disk, and the free list ends |
| TreeCheck.AcceptedIsSound | src/block/treedisk_chk.c:81-197 | such a disk is sound: no block is reached twice from files and free list, no reference leads off the disk, the list ends |
| TreeCheck.OwnDisks | src/block/treedisk_chk.c:81-197 | every disk the store has written is such a disk |
| TreeCheck.SoundIsAccepted | src/block/treedisk_chk.c:33-79 | if the bits of a reference's index divide 32, or no file is larger than the largest power of the branching factor up to 2^32, the checker accepts exactly the sound disks |
| TreeCheck.CleanIsAccepted | src/block/treedisk_chk.c:33-79 | in any case it accepts a sound disk whose larger files have no references past their end |
| TreeCheck.RefusedExample | src/block/treedisk_chk.c:33-79 | a sound disk that it refuses: the 32-bit offset wraps, and the scan goes on past the end of a file of 2^32 - 1 blocks |
| Bits.LsBitIsLowest | src/lib/tlsf.c:296-303 | the table search finds the lowest set bit of every 32-bit word, and -1 for zero |
| Bits.HighBitIsLog | src/lib/tlsf.c:305-312 | the table search finds the highest set bit |
| TlsfMap.GoodFit | src/lib/tlsf.c:324-355 | a block's class is the searched one or later if and only if the block is at least the rounded request |
| TlsfMap.RoundedTwice | src/lib/tlsf.c:324-342 | rounding a request again changes neither size nor class, as the second search in malloc_ex needs |
| TlsfLists.FindFirst | src/lib/tlsf.c:357-373 | the bitmap search finds the first nonempty list from the class on, and none exactly if all are empty |
| TlsfAllocator.FindFits | src/lib/tlsf.c:324-373 | in a heap in order, the search finds a block if and only if some free block is at least the rounded request, and finds one that is |
| TlsfAllocator.Tlsf.Malloc | src/lib/tlsf.c:744-802 | gives a block no user holds, large enough and at most a 32nd and 64 bytes larger; fails exactly if no free block fits and no memory is left for an area; takes an area only if no free block fits; the heap stays in order and users' data stays |
| TlsfAllocator.Tlsf.Free | src/lib/tlsf.c:805-841 | exactly that block leaves the users', neighbours are merged, the heap stays in order, all other data stays |
| TlsfAllocator.Tlsf.Realloc | src/lib/tlsf.c:844-928 | fails exactly if the block can neither stay nor move, and then changes nothing; else keeps the first min(old, new) bytes and every other user's data, in a block as tight as malloc_ex gives |
| TlsfAllocator.Tlsf.AddNewArea | src/lib/tlsf.c:537-612 | a new area becomes one free block, joined with the areas it touches; the result is how far that block reaches from the new area on; the heap is in order afterwards if and only if the area does not lie between two areas of which the lower is visited first and ends in a free block |
| TlsfAreas.UnmergedIsWrong | src/lib/tlsf.c:537-612 | what is left otherwise is not the memory of any heap in order that has that block, however its lists and blocks are read |
| TlsfRuns.ClobberExample | src/lib/tlsf.c:537-612 | a heap in order and an area for which this happens |
| TlsfAllocator.BelowBreak | src/lib/tlsf.c:418-437 | an area at the break never is such an area, so malloc_ex keeps the heap in order |
| TlsfRuns.UsersDisjoint | src/lib/tlsf.c:744-802 | users' blocks do not overlap |
| TlsfRuns.Run | src/lib/tlsf.c:744-928 | any calls from a fresh allocator: users hold exactly the blocks given and not freed, each with what was stored in it, and a request is refused exactly if, at that moment, no free block is large enough and the memory left is too little for an area |
| KernelRuns.RunQueueExact | src/grass/process.c:566-673 | every runnable process but the current one is on the run queue exactly once, otherwise only zombies are, the current one never |
| KernelRuns.RpcSafe | src/grass/procsys.c:57-77 | whoever waits for a reply waits for a process that is alive and not itself |
| KernelRuns.OneReply | src/grass/process.c:191-307 | the reply mailbox never holds more than one message, and one only of the server named |
| Calls.ReplyExactly | src/grass/process.c:247-307 | a reply is delivered exactly if its destination waits for one from that sender |
| Killing.TermOk | src/grass/process.c:329-364 | the end of a process leaves the tables in order: counts exact, its clients awake, nobody waiting for it |
| Ledgers.TermWent | src/grass/process.c:329-364 | what the end of a process does to all others: first its owner, if alive, gets one event with its pid and status; clients that wait for its reply run again; nobody else is touched |
| Ledgers.ZapWent | src/grass/process.c:385-409 | a kill ends that process and no other; it is refused exactly to a user who is neither the superuser nor the owner of the process |
| Ledgers.KillAllWent | src/grass/process.c:413-447 | a kill of all interruptable processes ends those that its sender may end, all of them, and no others |
| Ledgers.YieldWent | src/grass/process.c:566-673 | what happens while a process has given up the CPU: whoever lives has got all that devices sent, in order, and death notes only for deaths; a process that waited runs only because a message came to that mailbox, its server died or its time was up, and nobody waits on when a process resumes after its time; processes are ended at a shutdown, or by users there are, of their own; nobody moves back on the run queue; the CPU is kept only if nobody else can run |
| Accounts.CallAccount | src/grass/procsys.c:20-92 | every call is accounted for: what its caller sends, to whom, with its own pid and uid, and whether that is accepted; a mailbox gives its oldest message; a process waits for that mailbox, until the time of the call plus the limit, or without limit; whom a kill or an exit ends; what a new process starts with |
| Histories.RunInOrder | src/grass/process.c:191-307 | along any run, for each mailbox of each process, what it has got, in order, followed by what is still there, is what was there followed by all that has arrived, in order: no message is lost, doubled or overtaken |
| Histories.TimedReceive | src/grass/process.c:191-243 | along any run, a receive that has to wait ends with a message for that mailbox or with none, and with none only if it has a limit and a suspension ended no sooner than that after the call |
| Histories.RpcReturns | src/grass/procsys.c:57-77 | along any run, an RPC to a process that is alive ends with a reply from that process, or with none, and then that process is dead |
| Histories.TurnComes | src/grass/process.c:593-655 | along any run, a process at place j of the run queue that lives is passed over by at most j turns before it runs |
| Histories.ShutdownEnds | src/grass/process.c:575-626 | after a shutdown, once its caller gives up the CPU no process runs again, and the kernel waits for no event past 3000 milliseconds |
| KernelRuns.Run | src/grass/process.c:191-673 | any calls with any interrupts, timeouts, kills and shutdown keep the tables in order; every step is accounted for as above, every mailbox is first in, first out over the whole run, and every RPC ends with a reply of the server named or after that server died |
| KernelRuns.Boot | src/grass/process.c:972-1015 | the same from the start: all that has arrived in a mailbox since is what its process has got, followed by what is there |
| Paging.FlushOk | src/earth/tlb.c:247-255 | flushing the TLB leaves nothing mapped, and every process sees what it saw |
| Paging.UnmapOk | src/earth/tlb.c:125-134 | so does unmapping a page |
| Paging.MapOk | src/earth/tlb.c:163-245 | and mapping a page over any old entry |
| Paging.StartExactly | src/grass/process.c:451-459 | starting a new process without a flush is in order if and only if nothing was mapped; otherwise it can read a page it never touched, with what the process before it holds there |
| Mmus.Mmu.EnterProcess | src/grass/process.c:451-459 | what ctx_entry does to the memory: the new process can read such a page if and only if an entry of the TLB is in use |
| MmuRuns.StartExample | src/grass/process.c:451-459 | two processes, one frame: the new one reads 7 where it should read 0 |
| Images.ImageInOrder | src/grass/process.c:696-737 | if no page is in two segments, the pages of the segments hold consecutive pages of the file: the first block of the first segment that has any is at the offset of the header, each block is followed by the next of its segment or by the first of the next segment that has any; the rest of each segment and all other pages are zeros |
| Mmus.Mmu.FrameInit | src/grass/process.c:696-737 | a frame is filled with the page of the file that this order gives, or with zeros |
| MmuRuns.FirstBytes | src/grass/process.c:696-737 | so a byte never written reads as that byte of the file, or as 0 |
| Images.ReadOnlyExactly | src/grass/process.c:764-772 | a page may not be written by its process exactly if it is in a segment that says so |
| Mmus.Rights | src/grass/process.c:774-876 | a fault grants reading always, writing if that is wanted or the page was mapped already, and execution exactly if not writing and a segment of the page says so |
| Mmus.Mmu.PageFault | src/grass/process.c:741-878 | kills exactly if the page is out of range or the guessed access is refused, panics exactly if a frame is needed and none is free, and otherwise gives that page and no other, and changes what nobody sees |
| Mmus.Mmu.Load | src/grass/process.c:741-878 | a read of a byte, with its faults: the byte last written, or that of the file in the order of its segments, one frame at most |
| Mmus.Mmu.Store | src/grass/process.c:741-878 | a write of a byte, with one or two faults: no other byte of any process changes; it is killed only in a segment that may not be written or out of range |
| Mmus.Mmu.CopyToUser | src/grass/procsys.c:102-132 | all bytes are written, or the exact reason why not: too few frames for the pages lacking, or a last byte out of range |
| Mmus.Mmu.CopyFromUser | src/grass/procsys.c:102-132 | the same for reading |
| Mmus.Mmu.EndProcess | src/grass/process.c:366-380 | every frame of the process is free again, exactly as many as it had pages; others see what they saw |
| MmuRuns.Run | src/grass/process.c:451-878 | every operation of any interleaving is answered, until memory runs out or a process starts that can read a page of the one before it: each read gives what that process last wrote there or what its executable holds, and kills and the lack of memory come exactly when the pages touched so far say so; no process starts like that after one that has touched nothing since it was switched to |
| MmuRuns.Boot | src/grass/process.c:972-1015 | the same from one process and all frames free |
| Machines.CallStays | src/grass/process.c:103-447 | any call leaves every process in its slot with its pid, and brings nobody to life but a process it creates, in a free slot |
| Machines.OneHolder | src/grass/process.c:366-380 | every frame is on the free list, once, or has exactly one page of one process that is alive in the process table |
| Machines.Machine.Access | src/grass/process.c:741-878 | an access ends as MmuRuns says; if it is not allowed, the kernel ends that process, with all that sys_exit does |
| Machines.Run | src/grass/process.c:247-878 | any calls and accesses, with interrupts, kills and shutdown, and new processes that start without a flush: at every moment, those alive in the process table are those with an address space, each keeps its own as long as it lives, and the one that runs has the memory; it ends early only when nobody goes on, or when a new process can read a page of the one that made it, which must have touched memory; with a flush at the start, the latter never happens |
| Machines.Boot | src/grass/process.c:972-1015 | the same from the start |
| UnixLayout.PopsTop | src/block/unixdisk.c:288-328 | popfree takes the top off the stack of free blocks, also when that is a node, and with the block recorded in a file everything else is where it was |
| UnixLayout.PushesTop | src/block/unixdisk.c:335-380 | pushfree puts a block on top, as an entry or as a new node; the two are last in, first out |
| UnixDisks.UnixDisk.Alloc | src/block/unixdisk.c:381-545 | for every offset, the disk is in order with the file grown, whatever its free list and references are taken to be, if and only if there are enough free blocks and the double indirect block leads there; then the file gets exactly the blocks and indirect blocks its new size needs, those it has and other files are not touched, and the new blocks are popped in order; without enough, direct blocks and those of the single indirect block are recorded as none |
| UnixDisks.UnixDisk.AllocTriple | src/block/unixdisk.c:471-536 | past the double indirect block, allocation overwrites that block's own first entry |
| UnixDisks.UnixDisk.Traverse | src/block/unixdisk.c:192-280 | the walk through direct, single and double references finds the block of that file and offset, and the last block of inodes where none is recorded |
| UnixDisks.UnixDisk.FreeFile | src/block/unixdisk.c:547-682 | every data block and indirect block of the file is free again, exactly as many as it had; the others keep theirs and their contents |
| UnixDisks.UnixDisk.Write | src/block/unixdisk.c:686-718 | replaces or adds that block, keeps every other block of every file, leaves in a gap what was in the free blocks, in the order of the stack, and takes exactly the blocks the new size needs; the disk is in order afterwards if and only if these are there and the double indirect block leads to the offset; if not, a direct block, or one whose single indirect block can be had, is written over the last block of inodes |
| UnixDisks.UnixDisk.Read | src/block/unixdisk.c:722-750 | succeeds exactly in range, with that block |
| UnixDisks.UnixDisk.SetSize | src/block/unixdisk.c:781-799 | empties a file or leaves it as it is; the space comes back |
| UnixRuns.Create | src/block/unixdisk.c:89-186 | a blank disk whose head of the free list can hold its entries becomes one with empty files, at least as many as asked for and less than a block of inodes more, and all data blocks on the stack, head first; an old disk stays |
| UnixRuns.HeadFits | src/block/unixdisk.c:128-133 | the head can hold its entries if and only if the number of data blocks is no multiple of 255; otherwise there would be 2^32 - 1 of them |
| UnixRuns.Run | src/block/unixdisk.c:547-799 | any operations answer as plain files do, up to the first write for which there is too little room or no reference; at every moment the free blocks and those of all files add up to the data blocks of the disk |
| UnixRuns.CreateAndRun | src/block/unixdisk.c:89-799 | the same from a blank disk, which then has room for the files asked for |
| UnixRuns.LastWrite | src/block/unixdisk.c:686-750 | along any run, a read gives the block last written at that inode and offset |
| UnixDisks.Counted | src/block/unixdisk.c:288-682 | on every disk in order, superblock, inode blocks, free blocks and the blocks its files need for their sizes add up to the disk: none is lost |
| UnixDisks.NotInOrder | src/block/unixdisk.c:381-545 | so a file cannot grow past the free blocks by any allocation that leaves the disk in order |
| UnixRuns.FullExample | src/block/unixdisk.c:381-402 | a disk of three blocks whose second write wipes the inodes |
| ClockDisks.Clock.CacheUpdate | src/block/clockdisk.c:84-107 | ends on any nonempty cache; the block is in one slot, that of the first old or empty slot from the hand on once new ones have aged; the slot's dirty block is written back first, and the store's contents change by that block only |
| ClockDisks.Clock.Read | src/block/clockdisk.c:109-135 | gives the block last written, from the cache or from below, and changes no contents |
| ClockDisks.Clock.Write | src/block/clockdisk.c:137-161 | changes that block of the store's contents and no other |
| ClockDisks.Clock.Sync | src/block/clockdisk.c:163-177 | the store below then holds the contents of that file, or of all |
| ClockDisks.Clock.SetSize | src/block/clockdisk.c:68-82 | cuts the file if the store below does; if that refuses, the blocks past the new end go back to what is below |
| ClockDisks.RefusedLoses | src/block/clockdisk.c:68-82 | a refused change of size loses something if and only if it drops a dirty slot of that file past the new end whose block is not the one below |
| ClockDisks.ResizeExample | src/block/clockdisk.c:68-82 | a refused change of size that undoes a write |
| ClockDisks.Run | src/block/clockdisk.c:84-232 | any run, also with changes of size that are refused, answers by the contents, which change as the operations say; after it, the store below holds the contents; if nothing is lost by a refused change of size, all is as for the plain store |
| ByteFiles.Server.Put | src/apps/bfs.c:398-453 | what a write makes of the blocks, in any state; it fails exactly if its first block should be there and is not |
| ByteFiles.PutPlain | src/apps/bfs.c:398-453 | if the blocks fit the size and are zero past the end, they do so afterwards, and the bytes are the old ones, zeros in the gap and the new ones |
| ByteFiles.ModeSays | src/apps/bfs.c:619-647 | reading takes the owner's or the others' bit for reading and depends on no other bit, writing those for writing; the superuser may do both |
| ByteFiles.Server.DoRead | src/apps/bfs.c:324-396 | the superuser, the owner if the bit for the owner to read is set, and others if theirs is, get those bytes of the file that are asked for, the rest of the file counted modulo 2^32; to them it fails exactly if a block is missing, and to all others always |
| ByteFiles.Server.DoWrite | src/apps/bfs.c:458-486 | the superuser, the owner if the bit for the owner to write is set, and others if theirs is, write all the bytes, and nobody else changes anything |
| ByteRuns.Granted | src/apps/bfs.c:619-647 | of plain files: which reads, writes, cuts and deletions are granted, by the bits of the mode |
| ByteRuns.DefaultRights | src/h/egos/file.h:16-21 | a new file is the first free one and empty; with the default mode whoever created it reads and writes it, and another user reads it but cannot write it |
| ByteFiles.CountExact | src/apps/bfs.c:360-364 | a read gets all it should if and only if the rest of the file is under 2^32 bytes, or is modulo 2^32 no less than what is asked for |
| ByteFiles.CutSound | src/apps/bfs.c:532-564 | after a file is cut, blocks and bytes are in step if and only if it was cut to nothing, or within its last block and only zeros fell away |
| ByteRuns.Serve | src/apps/bfs.c:201-564 | one request does to files of bytes what it should, and the reply is right, if and only if it is no other cut, creates no file where a nonempty one was deleted, and reads no more than the count modulo 2^32 allows |
| ByteRuns.Run | src/apps/bfs.c:201-564 | any requests: up to the first that is not so, all replies are those of plain files |
| ByteRuns.StaleExample | src/apps/bfs.c:532-564 | a byte cut off shows again when the file grows, instead of a zero |
| ByteRuns.RecreateExample | src/apps/bfs.c:201-226 | a file created in the place of a deleted one has its size, and cannot be read |
| ByteRuns.ShortExample | src/apps/bfs.c:360-364 | after a byte is written at offset 2^32, a read of two bytes at 0 gives one |
| Fmods.Fmod | src/lib/math.c:414-520 | for finite x and finite nonzero y, subnormal or not, the exact remainder of the magnitudes with the sign of x; x itself for infinite y; not a number otherwise |
| Fmods.MagUnique | src/lib/math.c:414-520 | a magnitude determines the bits, so the result is the only double that is right |
| Fmods.Reduce | src/lib/math.c:478-490 | the shift-and-subtract loop over two words gives the scaled significand modulo the other |
| MemMoves.MemMove | src/lib/string.c:71-142 | for every overlap, alignment and length, memory is as if all bytes had been copied at once, and the same elsewhere |
| ShaConstants.FirstPrimes | src/lib/sha256.c:112-177 | the 64 numbers the constants of the rounds belong to are the first 64 primes, in order |
| ShaConstants.RoundConstants | src/lib/sha256.c:112-177 | each constant is the first 32 bits of the fraction of the cube root of its prime |
| ShaConstants.StartConstants | src/lib/sha256.c:41-54 | the words the hash starts with are those of the square roots of the first eight primes |
| ShaBits.RotrBit | src/lib/sha256.c:78-79 | bit by bit, a rotation moves each bit n places, around the end |
| ShaBits.BigSigma0Bit | src/lib/sha256.c:84 | and each bit of this sum is odd exactly if an odd number of the bits 2, 13 and 22 places on is set |
| ShaBits.BigSigma1Bit | src/lib/sha256.c:85 | the same for 6, 11 and 25 |
| ShaBits.Sigma0Bit | src/lib/sha256.c:81 | the same for 7 and 18, and 3 without going around |
| ShaBits.Sigma1Bit | src/lib/sha256.c:82 | the same for 17 and 19, and 10 without going around |
| ShaBits.ChBit | src/lib/sha256.c:88 | each bit is chosen by x from y and z |
| ShaBits.MajBit | src/lib/sha256.c:87 | each bit is what at least two of the three are |
| ShaContexts.Context.Process | src/lib/sha256.c:56-185 | one block compressed in 64-bit words is, in the low halves, the FIPS 180-2 compression in 32-bit words |
| ShaContexts.Context.Update | src/lib/sha256.c:187-224 | the message hashed so far is longer by the piece, wherever it ends in the buffer; its length is counted right unless the piece and what precedes it in the low count make 2^33 bytes or more |
| ShaContexts.Context.Finish | src/lib/sha256.c:234-261 | the digest is that of the whole message, padded as FIPS 180-2 asks with the length counted |
| ShaContexts.HashPieces | src/lib/sha256.c:41-261 | any pieces give the hash of their concatenation, padded with the length counted, and so the standard's if each is under 2^32 bytes |
| ShaContexts.LengthRight | src/lib/sha256.c:234-250 | the padding is the standard's if and only if what the count lacks is a multiple of 2^29 times 2^32 bytes |
| ShaContexts.LongPieceExample | src/lib/sha256.c:187-224 | for one piece of 2^33 bytes it is not |
| Sha256s.LowSigmas | src/lib/sha256.c:81-101 | the rotations and shifts of a 64-bit word agree with the 32-bit ones in its low half |
| Numerals.MemChan.Put | src/lib/memchan.c:42-52 | the channel grows as it must, and only appends |
| Numerals.MemChan.PutSigned | src/lib/memchan.c:94-126 | appends sign or flag and digits, in any base from 2 to 16, of any number but the most negative |
| Numerals.StrToUL | src/lib/string.c:363-421 | the value modulo 2^64 of blanks, sign, prefix and digits, and where they end |
| Numerals.StrToL | src/lib/string.c:314-361 | the same in two's complement |
| Numerals.UnsignedParsed | src/lib/memchan.c:71-89 | what was printed parses to the number printed, all of it, in the base printed or, for base 10, in base 0 |
| Numerals.SignedParsed | src/lib/memchan.c:94-126 | the same for signed numbers with any flags |
| Numerals.PrefixedParsed | src/lib/string.c:314-421 | blanks of any kind, a sign and "0x" or "0" are passed, in base 0 and in base 16 or 8, and the digits after them give the number in that base |
| Numerals.PrintAndParse | src/lib/string.c:314-421 | printing, then parsing by either function, changes no signed number |
| Numerals.PrintAndParseUnsigned | src/lib/memchan.c:71-89 | printing, then parsing, changes no unsigned number |

## Findings

Ten properties that one would expect are false of the code. Each has its condition and an input; for the
triple indirect block that is any file of the largest size that is in order.

- **Emptying a file can wipe the superblock.** A write that finds the disk full may leave a one-block
  file with a hole for a root. `treedisk_setsize(ino, 0)` then frees block 0. This is harmless if and
  only if the free list is empty (`FreeLists.FreeHole`, `TreeDisks.TreeDisk.SetSize`,
  `TreeDisks.Emptiable`); `TreeWipes.WipeFull` gets there from every full disk with an empty and a
  nonempty file, `TreeWipes.WipeExample` from four blocks. No run without a failed write gets there
  (`TreeRuns.Run` keeps every nonempty file's root).
- **The search for the number of levels need not end.** In `treedisk_free_file`, the 32-bit product
  reaches zero for sizes above the largest power of the branching factor below 2^32
  (`TreeFree.CapacitySearchEnds`), for example 2^24 + 1 blocks with 256 references per block
  (`TreeFree.CapacityExample`). The methods that free files require the condition; `TreeRuns.Run` ends before
  such a file is emptied.
- **add_new_area can lose that a neighbour is free.** If the new area lies right between two areas, the
  lower comes first in the list, and its last block is free, merging with the upper one rewrites a
  header without its "previous is free" bit (`src/lib/tlsf.c:570-572`), and two free blocks stay side
  by side. `TlsfAllocator.Tlsf.AddNewArea` gives the condition both ways, `TlsfRuns.ClobberExample` an
  input. Areas that only ever come from the break, as in GRASS, are safe (`TlsfAllocator.BelowBreak`).
- **A new process starts with the TLB of the one before.** `ctx_entry` does not flush, unlike
  `proc_after_switch` (`Paging.StartExactly`, `Mmus.Mmu.EnterProcess`, `MmuRuns.StartExample`). The runs of
  `MmuRuns` and `Machine` follow the code up to the first process that starts with a page mapped, which they
  detect; `Machine` can also run with a flush there, and then goes on.
- **A change of size that the store below refuses can undo writes.** `clockdisk_setsize` drops cached
  blocks before it asks. Something is lost if and only if a dropped slot is dirty and differs from what is below
  (`ClockDisks.Clock.SetSize`, `ClockDisks.RefusedLoses`, `ClockDisks.ResizeExample`).
- **A sound disk can be refused by the checker.** Offsets in a file wrap at 2^32, so the scan of a large file can
  go on past its end (`TreeCheck.RefusedExample`). `TreeCheck.Check` gives exactly what is accepted; all sound
  disks are if the number of bits of an index divides 32, as it does for 256 references
  (`TreeCheck.SoundIsAccepted`).
- **A cut file is not always zero where it grows again, and a file created anew is not always empty.** The
  block file server keeps the size of a deleted file, and takes a new size although its store refuses it,
  with two replies to one request (`ByteRuns.Serve`, `ByteFiles.CutSound`, `ByteRuns.StaleExample`,
  `ByteRuns.RecreateExample`). A read counts the rest of the file modulo 2^32 and may come short
  (`ByteFiles.CountExact`, `ByteRuns.ShortExample`).
- **On a full disk, the inode store writes over its inodes.** A block that popfree does not find is recorded
  as 2^32 - 1, and 1 + the number of inode blocks + that wraps to the last block of inodes. A write leaves the
  disk in order if and only if the blocks it needs are free (`UnixDisks.UnixDisk.Write`, by the count in
  `UnixDisks.Counted`); `UnixRuns.FullExample` loses all files that way. Also, a disk whose number of data
  blocks is a multiple of 255 cannot be made: the head of its free list would be filled with 2^32 - 1 entries
  (`UnixRuns.HeadFits`).
- **A file of the inode store cannot grow into its triple indirect block.** The code for it reads and writes the
  double indirect block (`src/block/unixdisk.c:252`, `src/block/unixdisk.c:481`), and so destroys that block or
  its first entry (`UnixDisks.UnixDisk.AllocTriple`, `UnixDisks.UnixDisk.Write`): the disk stays in order only
  for offsets below 12 + 256 + 256^2.
- **The hash of a very long piece is wrong.** With 64-bit words, `sha256_update` carries once into the upper count
  for a piece of 2^32 bytes or more. The count is right if and only if such a piece and the low count make less
  than 2^33 (`ShaContexts.Context.Update`, `ShaContexts.LengthRight`, `ShaContexts.LongPieceExample`).

Where code and comments differ, the model follows the code: for instance, a read-only page becomes
writable for its process once the kernel has copied data to it (`src/grass/procsys.c:117-126`), until
its entry is dropped; the simple form of `MmuRuns` allows for that.

## Left out

- TreeDisks.TreeDisk.Write: offset 2^32 - 1 is excluded, because the size, one more, wraps to 0 there (src/block/treedisk.c:389).
- TreeDisks.TreeDisk.SetSize: an inode number out of range is excluded, because the code goes on with a snapshot it never read (src/block/treedisk.c:274-275).
- TreeRuns.CreateAndRun: 2^32 inodes or more after rounding are excluded, because their number wraps (src/block/treedisk.c:253).
- TreeCheck.Check: a superblock that claims 2^32 - 1 inode blocks is excluded, because 1 + that number wraps to 0 (src/block/treedisk_chk.c:104).
- TlsfAllocator.Tlsf.Malloc: requests whose rounded size is 2^30 or more, for which the first-level index leaves the matrix, are excluded, and the heap lies in a window of that size; `limit` stands for where sbrk or mmap would fail, while GRASS's get_new_area never does.
- TlsfAllocator.Tlsf.AddNewArea: areas are a sequence instead of a list in memory, and memory is a map from addresses to words of 8 bytes.
- MmuRuns.Run: whether a store to a page of a read-only segment the kernel has written to succeeds depends on whether its entry is still in the TLB, which the simple form does not know; it then allows both outcomes.
- UnixDisks.UnixDisk.Write: where too few blocks are free past the blocks of the single indirect block, it says that the disk is not in order, and not where the block goes; past the double indirect block, it says what is destroyed if the write succeeds.
- UnixRuns.Run: what is in the gap before a block written past the end is not said there, but in UnixDisk.Write.
- UnixDisks.UnixDisk.SetSize: an inode number out of range is excluded, because the code goes on with a snapshot it never read (src/block/unixdisk.c:786).
- UnixRuns.Create: the uninitialized parts of free-list nodes are a parameter, and a head that cannot hold its entries is excluded, because the code then writes past it.
- ClockDisks.Clock.SetSize: the store below has files of fixed sizes that it can perhaps cut, and never fails in range.
- ByteFiles.Server.Put: bytes are below (2^32 - 1) * 1024, past which block numbers wrap; file 0, which holds the server's own table, and the writing of that table are not part of this model, nor are owners' and modes' changes and times.
- Fmods.Fmod: shifts of negative words are taken to wrap, and the sign and kind of a result that is not a number are not said.
- MemMoves.MemMove: addresses do not wrap around; memory is bytes in one array, and a word is 4 of them.
- ShaContexts.Context.Update: words have 64 bits, as on x86_64, and pieces are shorter than 2^64 bytes.
- Numerals.MemChan.Put: contents of 2^32 characters or more are excluded, because the 32-bit sizes wrap there and the code writes outside its buffer.
- Numerals.MemChan.PutUnsigned: 64 binary digits do not fit the buffer of the code and are excluded; formats, widths and floating point are not part of this model.
- Numerals.StrToL: sums that overflow, which C leaves open, are taken to wrap around.
- Accounts.CallAccount: a receiver's buffer, to whose size sys_recv cuts a message, is not part of this model.
- Machines.Machine.Call: frames are given back at the end of the call in which their process dies, and the memory is switched then; nobody looks at memory in between.
- File reads that fail or come up short in frame_init, and block stores below that fail.
- Crashes between two writes to the disk other than the panic on a full disk.
- Locks, statistics, calloc and the repeated initialization of a memory pool.
- Contents of messages are sequences of numbers; the copying of message buffers and their size limits are not modelled.
- Devices, interrupts and signal contexts: what interrupt handlers do is a list of messages and kills given to each step.
- The other block layers (raid, partitions and the thin ones), malloc.c, qsort, maps, time, ELF conversion, the rest of the C library, and all other applications.
