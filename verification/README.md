# Drivers and IPC: a verified model

This project models the stateful parts of a collection of kernel and C teaching code and proves what
they are for: System V shared memory, the memory-mapped packet ring, the buffered printer driver, the
scull family of character devices, the snull network pair, a semaphore-guarded buffer and four kinds of
linked list.  Code that changes state in place is modelled by classes and heap nodes whose methods are
proved against functions on values; code that runs concurrently is also modelled as a state machine
whose steps are the stretches the locks make atomic, and the main results hold in every state of every
run, for any number of processes and any interleaving.

## What is proved

- **Shared memory** (`Shm`, `ShmProtocol`, `ShmDetach`).  `shm_nattch` is exactly the number of mapped
  areas plus the `shmat` calls inside their unlocked window, so no `BUG_ON` fires, no mapped segment is
  destroyed, `shm_tot` is exact and within its limit, keys are unique and a marked segment is always still
  attached.  A segment leaves the table in exactly two ways.  `shmdt` is proved against the list of areas
  that survive and the list of areas it closes.
- **Printer** (`ShortPrint`, `ShortPrintProtocol`, `ShortPrintWakeups`).  A writer and a bottom half that
  share no lock, with the writer's two reads of the tail as separate steps: bytes printed followed by bytes
  buffered are the bytes accepted, output is never stranded, and from every state with active output the
  consumer side alone prints everything.
- **Packet socket** (`PacketRing`, `PacketRingProtocol`, `PacketQueue`, `McList`).  Frames are disjoint and
  inside their blocks; `packet_set_ring`, step by step beside other calls of itself, leaks and double-frees
  nothing; the ring is a bounded FIFO seen from both sides; the multicast list is a multiset of
  memberships with exact device references.
- **Scull** (`Geometry`, `ScullStore`, `ScullDevice`, `ScullFile`, `ScullGeometry`, `ScullProtocol`,
  `ScullpMmap`, `ScullpProtocol`, `ScullPipe`, `ScullPipeProtocol`, `AccessControl`).  In the hands of one
  process the quantum-set store is a flat file, down to the round trip of a string through partial writes
  and reads, and every block is freed exactly once; with many processes, whose calls copy the geometry
  before they lock, both hold exactly as long as their copies fit.  Page faults and reads agree and mapped
  pages stay; the pipe is a FIFO of capacity buffersize - 1 in
  every interleaving, releases its mutex on every path and strands no sleeper; the access-controlled opens
  admit whom they should and leave no waiter behind.
- **snull** (`Snull`).  Packets are conserved in both delivery modes, and the pool is found empty only
  after one particular overtaking.
- **Threads and lists** (`BoundedBuffer`, `SortedLists`, `SinglyLinked`, `DoublyLinked`).  For any number of
  threads the over- and underflow branches and the failing re-checks are unreachable, values are
  conserved, schedules end, and with balanced totals they end with every thread done.  Sorted insertion
  and in-place reversal are proved on heap nodes for all four list shapes.

`Basics` and `Totals` hold what the models share.

## Where the code falls short

Each item comes with an input, a reachable state or a run that shows it (named first) and with the exact
condition under which the promise holds (named second).

- A writer of the printer can sleep for ever on an empty buffer: between its two reads of the tail the last
  byte leaves and the tail wraps onto a head at the start of the buffer (`WriterSleepsForever`,
  `SleepIsSoundIff`).
- `add_timer` can be called on a pending timer, namely after a leftover work item has strobed a byte of a
  device that the writer has yet to activate (`PendingTimerIsAdded`, `PendingTimerIff`).
- `shmdt` leaves a fragment that reaches past the end of the segment, and only such
  (`GrownFragmentStays`, `FragmentGoes`).
- `frames_per_block` is written, and read again, before any lock is taken.  A concurrent call can leave a
  mapped ring with the wrong layout (`LayoutRace`), get a ring of too many frames installed (`UnfitRing`;
  both `LaidOutIff`), and let a header loop run past its block (`HeaderStrays`, `HeadersInsideIff`).
- The product of blocks and frames per block is taken in 32 bits; the ring covers all frames exactly when
  it does not exceed 2^32, and stays inside its blocks in any case (`WrappingRequest`, `RingStaysInBlocks`).
- Statistics that cannot be copied to the user, or whose reader asks for fewer than four bytes, are lost
  (`ReportLost` and `ShortReadLoses`, `ReportsCompleteIff`).
- `scullp_mmap` takes no lock: a trim between its test of the order and its count of the mapping, or an mmap
  between a trim's test of the count and its store of the order, gives a mapped device another order
  (`MappedAtOtherOrder` and `TrimmedWhileMapped`, `OrderKeptIff`).
- `scull_read` and `scull_write` copy quantum and set size, one after the other, before they take the mutex,
  and writes allocate by their copy.  A copy may be one the device never had (`TornCopy`,
  `TransferLandsIff`); even a transfer with a current copy can leave a quantum that an older copy allocated
  (`CurrentTransferOutside`), and a trim can run past an array (`TrimRunsPast`; both `SoundIff`).  The same
  holds for the set size in scullp (`TrimRunsPast`, `StraysIff`).
- A handle opened on the pipe for neither reading nor writing is not counted, so the buffer can go while it
  is open (`BufferGoneWhileOpen`, `ReleaseKeepsBufferIff`).  Every open, not only the first, empties the pipe.
- `snull_release_buffer` looks at the packet's link after it has released the lock; the packet may be in
  flight again by then, and the transmit queue is woken with an empty pool (`PoolFoundEmpty`,
  `DryIsStoppedIff`).  A release that nothing interrupts is safe (`WholeReleasesAreSafe`).
- scullsingle can refuse a free device while failed openers have yet to undo their decrement
  (`FreeDeviceRefused`, `OpenSucceedsIff`).

`IPC_RMID` on an attached segment makes its key unusable at once (`MarkedNotFound`); the comment at
kernel-user-space/shm.c:670-679 announces this as a deviation.

## Assumptions

- Machine integers do not overflow, except where the model says so: the 32-bit ring arithmetic and the
  64-bit subtraction in `shmdt`.  Pages have 4096 bytes.
- The unseen `ipc_*` helpers are a finite map from id to segment; a new id is one not in use.  Outcomes of
  permission checks, of allocations, of copies to and from the user, and of `rand()` are parameters.
- `TPACKET_HDRLEN` is 52 and the alignment 16, as in linux/if_packet.h, which is not part of the repository.
  `CONFIG_PACKET_MMAP` is defined.  `tpacket_rcv` is one step, and frames are released in order.
- Interface numbers are not used again after a device is unregistered.
- Interrupt handler, work function and timeout handler of the printer are single steps, except that the work
  function is dequeued in one step and runs its body in another.
- Quantum, set size and pipe buffer size are positive, the latter at least 2 and unchanged while the device is
  open; allocation in `scullp_follow` succeeds; `scullp_read` and `scullp_write` are modelled at order 0, and in
  `ScullpProtocol` a page stands for the block it begins at any other order.
- `dev->vmas++` and `dev->vmas--`, which scullp does without a lock, are atomic.
- In `ScullProtocol` and `ScullpProtocol`, and there only, a use of memory past the end of a block is followed:
  from then on anything may happen.
- `snull_release_buffer`'s test of the queue, its look at the link and the wake-up are one step, after the lock.
- A test that a waiting call makes without its lock (`spacefree` and the pointers of the pipe,
  `scull_w_available`) is one step; sleepers are woken by wake-ups and signals only, and the credentials of a
  waiting call do not change.
- `copy_from_user` that stops early clears the rest of its destination.
- `node_t`, which linklist.c does not declare, is read as `node_ts`; the default variants without `TRAVERSE` and
  `TWOSTEPS` are taken.
- Two snull devices exchange packets, and transmission is serialised per device by its caller.

## Model

| member | source | states |
|---|---|---|
| `ShmProtocol.EveryRunSafe` | kernel-user-space/shm.c:153-225 | In every interleaving of get, three-step attach, fork, detach and control, attach counts equal holders, no BUG_ON fires, the page total is the sum over live segments and within its limit, keys are unique, and marked segments are attached and private |
| `ShmProtocol.Fate` | kernel-user-space/shm.c:80-89 | A live segment leaves the table exactly on a permitted removal with no holder, or on the last release of a marked one; otherwise it keeps its size and its mark |
| `ShmProtocol.MappedSegmentStays` | kernel-user-space/shm.c:203-225 | While an area stays mapped through a run its segment is never destroyed and keeps its size |
| `ShmProtocol.HeldIsLive` | kernel-user-space/shm.c:153-163 | Whoever maps or pins a segment keeps it in the table with a positive count |
| `ShmProtocol.QuiescentIsClean` | kernel-user-space/shm.c:203-225 | With nothing mapped and no shmat under way every count is zero and no marked segment is left |
| `ShmProtocol.MarkedNotFound` | kernel-user-space/shm.c:668-707 | A removed but attached segment is never answered by shmget again |
| `Shm.MarkSurvives` | kernel-user-space/shm.c:740-744 | Neither IPC_SET nor locking changes the destroy mark, for any mode bits |
| `ShmProtocol.StepKeepsInv` | kernel-user-space/shm.c:772-886 | Each step keeps exact counts, budget, unique keys and held marks |
| `Shm.CreateKeeps` | kernel-user-space/shm.c:270-343 | Creation under a fresh id and an unused key keeps the table invariant, refused or not |
| `Shm.DetachKeeps` | kernel-user-space/shm.c:203-225 | The last detach of a marked segment destroys it, so no marked segment is left unattached |
| `Shm.RmidKeeps` | kernel-user-space/shm.c:80-89 | Removal destroys or marks, keeping budget, keys and marks |
| `Shm.DestroyKeeps` | kernel-user-space/shm.c:182-195 | Destruction gives back exactly the segment's pages |
| `ShmProtocol.PinStep` | kernel-user-space/shm.c:823-848 | Pinning in do_shmat keeps the counts exact |
| `ShmProtocol.MapStep` | kernel-user-space/shm.c:849-868 | Mapping in the unlocked window adds one area and one count |
| `ShmProtocol.ForkStep` | kernel-user-space/shm.c:168-172 | Copying an area in fork adds one area and one count |
| `ShmProtocol.ReleaseStep` | kernel-user-space/shm.c:869-878 | Unmapping and unpinning take one holder and one count away |
| `ShmProtocol.ControlStep` | kernel-user-space/shm.c:621-745 | Remove, set and lock keep the whole invariant |
| `Shm.IpcNamespace.ShmInc` | kernel-user-space/shm.c:153-163 | One more attach; budget, unique keys and held marks are kept |
| `Shm.IpcNamespace.ShmClose` | kernel-user-space/shm.c:203-225 | The segment goes exactly if this was the last attach of a marked one; budget, unique keys and held marks are kept, so no marked segment is left unattached |
| `Shm.IpcNamespace.ShmDestroy` | kernel-user-space/shm.c:182-195 | The page total stays the sum over the segments left, and every other segment is untouched |
| `Shm.IpcNamespace.DoShmRmid` | kernel-user-space/shm.c:80-89 | The segment stays exactly if it is attached, then marked, private and with the same attaches; the table invariant is kept |
| `Shm.IpcNamespace.Newseg` | kernel-user-space/shm.c:270-351 | -EINVAL for size 0 or above the limit, -ENOSPC over the page budget or without a slot, -ENOMEM; otherwise an entry with the key, the size, the nine permission bits asked for and no attach, its pages counted and every other entry kept; the table invariant is kept |
| `Shm.IpcNamespace.SysShmget` | kernel-user-space/shm.c:353-389 | Private, missing, existing, exclusive, too small and forbidden keys |
| `Shm.CreateOutcome` | kernel-user-space/shm.c:270-351 | What a creation leaves in the table and why it is refused, in plain arithmetic |
| `Shm.ExistingAnswer` | kernel-user-space/shm.c:366-384 | For a key that names a segment: -EEXIST if exclusive, -EINVAL if it is too small, else its id or -EACCES; the table stays |
| `Shm.MissingAnswer` | kernel-user-space/shm.c:360-365 | For a key that names none: -ENOENT, or what a creation gives |
| `Shm.CreateThenGet` | kernel-user-space/shm.c:353-389 | The next shmget of a key under which a segment was just created finds that segment and creates none |
| `Shm.IpcNamespace.CreateAndFind` | kernel-user-space/shm.c:353-389 | The same for two calls in a row |
| `Shm.PagesHold` | kernel-user-space/shm.c:273-273 | The pages counted for a size are the least number that holds it |
| `Shm.PermissionBits` | kernel-user-space/shm.c:740-744 | IPC_SET replaces the nine permission bits by those asked for and keeps the others |
| `Shm.LockBits` | kernel-user-space/shm.c:651-664 | Locking sets the lock bit and unlocking clears it; all other bits stay |
| `Shm.IpcNamespace.DoShmatPin` | kernel-user-space/shm.c:823-848 | Pins exactly an existing segment the caller may attach |
| `Shm.IpcNamespace.DoShmat` | kernel-user-space/shm.c:823-878 | Pin, map and unpin in a row: a failed call leaves no trace and a successful one attaches exactly once |
| `Shm.PinAndRelease` | kernel-user-space/shm.c:823-878 | A pin that is released is the identity, unless it was the last hold on a removed segment |
| `Shm.PinMapRelease` | kernel-user-space/shm.c:823-878 | Two attaches and a detach come to one attach |
| `Shm.IpcNamespace.ShmctlRmid` | kernel-user-space/shm.c:668-707 | Removes exactly an existing segment the caller may remove; the table invariant is kept |
| `Shm.IpcNamespace.ShmctlSet` | kernel-user-space/shm.c:709-745 | Replaces the permission bits alone: the destroy mark and the table invariant are kept |
| `Shm.IpcNamespace.ShmctlLock` | kernel-user-space/shm.c:621-667 | Sets or clears the lock bit, unless the page lock fails: the destroy mark and the table invariant are kept |
| `ShmDetach.AddressSpace.SysShmdt` | kernel-user-space/shm.c:904-985 | Returns 0 exactly when an area is attached at the address; afterwards the list is the survivors, in order, and the closed areas are the fragments, in order |
| `ShmDetach.AddressSpace.SecondLoop` | kernel-user-space/shm.c:971-981 | Removes every fragment inside the segment although it stops at the first area past it |
| `ShmDetach.AddressSpace.FindVma` | kernel-user-space/shm.c:937-937 | The first area that ends above the address |
| `ShmDetach.AddressSpace.IsFragment` | kernel-user-space/shm.c:947-948 | The test in wrapping arithmetic is true exactly of the areas attached at the address |
| `ShmDetach.MatchIsExact` | kernel-user-space/shm.c:947-948 | On every area that ends above an aligned address, wrapped subtraction and shift decide attachment exactly |
| `ShmDetach.EarlyStop` | kernel-user-space/shm.c:966-981 | In a sorted disjoint list nothing to remove follows the area where the loop stops |
| `ShmDetach.SurvivorMember` | kernel-user-space/shm.c:937-984 | An area survives exactly if it is not doomed: attached there, and first or inside the segment |
| `ShmDetach.OthersUntouched` | kernel-user-space/shm.c:937-984 | No area attached elsewhere is removed, and only areas attached there are closed |
| `ShmDetach.SurvivorsAndUnmapped` | kernel-user-space/shm.c:937-984 | Kept and closed areas together are the areas there were, each once |
| `ShmDetach.FragmentGoes` | kernel-user-space/shm.c:966-981 | A fragment of the segment found is removed exactly if it is the first or its last page begins before the segment's end |
| `ShmDetach.GrownFragmentStays` | kernel-user-space/shm.c:966-981 | A list in which a fragment of the segment found, grown past its end, survives |
| `ShmDetach.PartialPageGoes` | kernel-user-space/shm.c:971-981 | Both pieces of a segment of 5000 bytes go |
| `ShmDetach.AlignedUp` | kernel-user-space/shm.c:971-971 | The size is rounded up to whole pages |
| `ShortPrintProtocol.EveryRun` | ldd4/shortprint/shortprint.c:286-349 | In every interleaving: printed bytes then buffered bytes are the accepted bytes, nothing unread is overwritten, a non-empty buffer is active or about to be, active output has a timer or work, and sleepers are accounted for |
| `ShortPrintProtocol.StepKeepsInv` | ldd4/shortprint/shortprint.c:286-400 | Each step of writer, bottom half, interrupt and timeout keeps that invariant |
| `ShortPrintProtocol.SpaceStaysSafe` | ldd4/shortprint/shortprint.c:286-304 | A space value read earlier stays usable after any consumer step, and free space only grows |
| `ShortPrintProtocol.InactiveIsFlushed` | ldd4/shortprint/shortprint.c:162-168 | Inactive output with no writer about to start it means that all accepted bytes are printed |
| `ShortPrintProtocol.CallAccepts` | ldd4/shortprint/shortprint.c:286-317 | A call of write has always accepted a prefix of its data in order and holds the rest, and at its end has accepted all of it |
| `ShortPrintProtocol.ChunkIs` | ldd4/shortprint/shortprint.c:295-297 | A chunk is the lesser of what is left and the space found |
| `ShortPrintProtocol.OutputDrains` | ldd4/shortprint/shortprint.c:325-400 | From every state with active output, timeouts and work alone print all that was accepted and deactivate |
| `ShortPrintProtocol.EveryConsumptionDrains` | ldd4/shortprint/shortprint.c:325-400 | In every run without a writer's step, whatever interrupts and timeouts come, one run of the work function more than there are bytes has printed all that was accepted and deactivated output |
| `ShortPrintProtocol.EveryConsumptionWakes` | ldd4/shortprint/shortprint.c:343-348 | In every such run a writer asleep on a buffer at least half full is woken by the very run of the work function that takes it below half |
| `ShortPrintProtocol.ConsumptionCounts` | ldd4/shortprint/shortprint.c:325-349 | In every such run each run of the work function takes one byte out, and the first to find none deactivates |
| `ShortPrintWakeups.SleeperIsWoken` | ldd4/shortprint/shortprint.c:343-348 | A writer asleep on a buffer at least half full is woken by the consumer side before the buffer drains |
| `ShortPrintWakeups.SleepIsSoundIff` | ldd4/shortprint/shortprint.c:289-293 | Going to sleep is on a buffer at least half full exactly when head and tail are not both at the start |
| `ShortPrintWakeups.SleeperIsStranded` | ldd4/shortprint/shortprint.c:346-348 | In the other case no step but a signal ever wakes the writer |
| `ShortPrintWakeups.WriterSleepsForever` | ldd4/shortprint/shortprint.c:119-126 | Such a state is reachable, with nothing left that could change it |
| `ShortPrintWakeups.PendingTimerIff` | ldd4/shortprint/shortprint.c:253-265 | In every run, a start adds a pending timer exactly when a work item has strobed a byte of the inactive device and no start, timeout or work on an empty buffer has come since |
| `ShortPrintWakeups.ArmedIff` | ldd4/shortprint/shortprint.c:231-265 | At every point of a run the timer of an inactive device is pending exactly after such a strobe |
| `ShortPrintWakeups.StrobeBeforeStart` | ldd4/shortprint/shortprint.c:301-310 | From that strobe on, the writer stands between advancing the head and taking the lock |
| `ShortPrintWakeups.PendingTimerIsAdded` | ldd4/shortprint/shortprint.c:231-265 | A run in which shortp_start_output adds a timer that is pending |
| `ShortPrint.SpaceIsContiguousFree` | ldd4/shortprint/shortprint.c:119-126 | Read unbroken, the space is exactly the free bytes up to the end of the buffer |
| `ShortPrint.TornSpaceIsSafe` | ldd4/shortprint/shortprint.c:119-126 | Read while the tail moves, it never overstates them |
| `ShortPrint.FillKeepsContents` | ldd4/shortprint/shortprint.c:295-300 | Copying into free space changes no unread byte |
| `ShortPrint.AdvanceAppends` | ldd4/shortprint/shortprint.c:128-134 | Moving the head appends the copied bytes to the contents |
| `ShortPrint.StrobeTakesFirst` | ldd4/shortprint/shortprint.c:231-247 | A strobe prints the oldest byte and keeps the rest in order |
| `ShortPrint.WakeRange` | ldd4/shortprint/shortprint.c:346-348 | The wake-up test holds exactly on the non-empty lengths below half a page |
| `ShortPrint.Printer.OutSpace` | ldd4/shortprint/shortprint.c:119-126 | Computes that space from head and tail |
| `ShortPrint.Printer.CopyIn` | ldd4/shortprint/shortprint.c:295-300 | Stores a chunk behind the head and nowhere else |
| `ShortPrint.Printer.AdvanceHead` | ldd4/shortprint/shortprint.c:128-134 | Within the space found, printed then buffered bytes grow by exactly the bytes behind the head |
| `ShortPrint.Printer.StartOutput` | ldd4/shortprint/shortprint.c:253-265 | Output is active afterwards; timer and work are added exactly if it was not before; no byte is lost |
| `ShortPrint.Printer.DoWrite` | ldd4/shortprint/shortprint.c:231-247 | One byte goes from the buffer to the printer, in order, and the timer is pending |
| `ShortPrint.Printer.DoWork` | ldd4/shortprint/shortprint.c:325-349 | Printed then buffered bytes stay the same; output that stays active has a timer and one byte fewer to go; writers are woken exactly on non-empty lengths below half a page |
| `ShortPrint.Printer.Interrupt` | ldd4/shortprint/shortprint.c:363-372 | Work is queued exactly for active output; no byte moves |
| `ShortPrint.Printer.Timeout` | ldd4/shortprint/shortprint.c:379-400 | The timer is added again exactly on a busy printer with active output, and work is queued exactly on one that is not busy; no byte moves |
| `ShortPrint.Printer.Drain` | ldd4/shortprint/shortprint.c:325-349 | The bottom half, repeated, prints everything buffered and deactivates |
| `ShortPrint.Printer.Print` | ldd4/shortprint/shortprint.c:271-317 | The writer's loop with the bottom half prints all earlier bytes and then the data, in order |
| `BoundedBuffer.EverySchedule` | c/thread/semaphore_problem.c:43-134 | For any threads, size and interleaving: no overflow or underflow, no failed re-check, exact semaphores and mutex, produced values are those consumed and those buffered, and balanced totals stay balanced |
| `BoundedBuffer.NoDeadlock` | c/thread/semaphore_problem.c:100-134 | With balanced totals and room for one value, a state in which no thread can move is one in which all have finished and the buffer is empty |
| `BoundedBuffer.SchedulesEnd` | c/thread/semaphore_problem_solu.c:78-122 | The length of every schedule is bounded by the work its threads start with, re-checks included |
| `BoundedBuffer.NoRace` | c/thread/semaphore_problem.c:43-98 | Inside the critical section a producer finds room and a consumer a value, whatever ran since the semaphore was passed |
| `BoundedBuffer.StepKeepsInv` | c/thread/semaphore_problem_solu.c:78-122 | Each step of either variant keeps the semaphore, mutex and value invariants |
| `BoundedBuffer.StepKeepsBalance` | c/thread/semaphore_problem.c:100-134 | Insertions to come plus buffered values stay equal to removals to come |
| `BoundedBuffer.Stack.InsertBuffer` | c/thread/semaphore_problem.c:43-49 | Pushes, or reports overflow and changes nothing |
| `BoundedBuffer.Stack.DequeueBuffer` | c/thread/semaphore_problem.c:51-58 | Pops the last value, or reports underflow |
| `BoundedBuffer.StackLaws` | c/thread/semaphore_problem.c:43-58 | Removal undoes insertion and the other way round; overflow and underflow are reported exactly at the ends |
| `BoundedBuffer.ValuesMoved` | c/thread/semaphore_problem.c:60-98 | A producer inserts the value it has drawn, a consumer takes the newest |
| `ScullFile.RoundTrip` | ldd4/scull/main.c:286-382 | A string written piece by piece is read back unchanged after a seek, across quanta and items |
| `ScullFile.TwoStrings` | ldd4/scull/main.c:286-382 | A string stays readable as it was after another has been written past it |
| `ScullFile.SeekLaws` | ldd4/scull/main.c:518-543 | Relative seeks are absolute ones from the position or the size; a seek before 0 or of an unknown kind fails and moves nothing |
| `ScullFile.WriteAll` | ldd4/scull/main.c:330-382 | Repeated writes overwrite the flat file with the string and change no other written byte; they stop early only without memory |
| `ScullFile.ReadAll` | ldd4/scull/main.c:286-328 | Repeated reads return the file's bytes up to the first hole or the end, and change none |
| `ScullFile.WritesChain` | ldd4/scull/main.c:330-382 | Two adjoining partial writes are one write of the concatenation |
| `ScullFile.ReadsBack` | ldd4/scull/main.c:286-328 | A file that holds a string at a position can only be read back as that string |
| `ScullDevice.Scull.Write` | ldd4/scull/main.c:330-382 | Exact return value from memory, fault and quantum end, failing only when memory is used up by live blocks; the bytes at the position change, cleared where the copy stopped, and no other written byte does |
| `ScullDevice.Scull.Read` | ldd4/scull/main.c:286-328 | Exact length and bytes; extending the list changes no contents |
| `ScullDevice.Scull.Follow` | ldd4/scull/main.c:256-280 | Extends the list by just the missing items, fails exactly without memory, changes no contents |
| `ScullDevice.Scull.Trim` | ldd4/scull/main.c:205-226 | Frees every block while it is live and leaves none; the geometry is set on an empty device |
| `ScullDevice.Scull.FreeQuanta` | ldd4/scull/main.c:211-218 | The inner loop frees the quanta of one item and nothing else |
| `ScullDevice.Scull.PutBytes` | ldd4/scull/main.c:349-372 | Writes at item, index and offset, or runs out of memory and changes no byte |
| `ScullDevice.Scull.MakeQuantum` | ldd4/scull/main.c:353-363 | Array and quantum are allocated if missing; every other byte stays |
| `ScullDevice.WroteThere` | ldd4/scull/main.c:343-372 | A write at item, index and offset is a write at the position of the flat file |
| `ScullStore.PokeWrites` | ldd4/scull/main.c:365-372 | Bytes stored in one quantum appear there and change nothing else |
| `ScullStore.AddNodeKeeps` | ldd4/scull/main.c:256-280 | A new list item keeps the store well formed and its bytes |
| `ScullStore.AddArrayKeeps` | ldd4/scull/main.c:353-358 | A new pointer array keeps the store well formed and its bytes |
| `ScullStore.AddQuantumKeeps` | ldd4/scull/main.c:359-363 | A new quantum keeps every byte elsewhere |
| `Geometry.SplitPosition` | ldd4/scull/main.c:303-306 | Dividing by the item size and then by the quantum finds the same place as dividing by the quantum and then by the set size |
| `Geometry.SpanInQuantum` | ldd4/scull/main.c:303-306 | A position is in a span inside one quantum exactly if it shares item and index and its offset is in the span's |
| `ScullProtocol.TransferLandsIff` | ldd4/scull/main.c:330-346 | In every run of transfers and trims, a transfer goes where the device's geometry says, for every position and count, exactly when neither quantum nor set size was changed between the call's read of it and its lock |
| `ScullGeometry.InsideIff` | ldd4/scull/main.c:286-328 | Under a copied geometry all transfers stay inside blocks of one geometry exactly when the copy is not larger in either direction |
| `ScullGeometry.LandsIff` | ldd4/scull/main.c:286-328 | They reach the right places and amounts exactly when it is the device's geometry |
| `ScullGeometry.PlaceIs` | ldd4/scull/main.c:303-318 | Item, index, offset and amount of a transfer in terms of the flat position |
| `ScullProtocol.SoundIff` | ldd4/scull/main.c:205-226 | Throughout a run all transfers stay in their arrays and quanta and every trim frees exactly all blocks, exactly when no transfer goes past, and no trim falls short of or past, what earlier writes allocated by their own copies |
| `ScullProtocol.UniformIff` | ldd4/scull/main.c:353-363 | All blocks have the device's geometry throughout a run exactly when no write allocates by another copy |
| `ScullProtocol.WriteHasBlock` | ldd4/scull/main.c:350-372 | With memory at hand a write that stays inside ends with a block that holds it |
| `ScullProtocol.UndisturbedIsSound` | ldd4/scull/main.c:286-382 | When no store of the geometry falls between a call's reads and its lock, all blocks have the device's geometry, all transfers stay inside and all trims are exact |
| `ScullProtocol.StaleIff` | ldd4/scull/main.c:335-340 | A call's copy of quantum or set size is not the device's exactly when a store since its read has changed it |
| `ScullProtocol.CurrentTransferOutside` | ldd4/scull/main.c:359-372 | A reachable state in which a transfer with a current copy leaves a quantum allocated under an older one |
| `ScullProtocol.TrimRunsPast` | ldd4/scull/main.c:211-216 | A reachable state in which the next trim runs past an array |
| `ScullProtocol.TornCopy` | ldd4/scull/main.c:335-335 | A reachable state with a copied geometry that the device never had |
| `ScullpMmap.FaultAgreesWithRead` | ldd4/scullp/mmap.c:69-91 | At order 0, page and set arithmetic of the fault handler reaches the slot and offset that the read path computes |
| `ScullpMmap.FaultThenRead` | ldd4/scullp/main.c:167-211 | Below the size, fault and read find the same hole or the same byte of the same page |
| `ScullpMmap.WriteThenRead` | ldd4/scullp/main.c:167-267 | What has been written within a page is what is read |
| `ScullpMmap.WalkEnds` | ldd4/scullp/mmap.c:77-83 | The subtracting walk ends at quotient and remainder or past the list |
| `ScullpProtocol.MappedPagesLive` | ldd4/scullp/main.c:491-519 | In every run of mappings, faults, transfers and trims a mapped page is allocated, as long as nobody has used a slot past a pointer array |
| `ScullpProtocol.MappedPageStays` | ldd4/scullp/main.c:491-519 | As long as a page stays mapped through a run it stays allocated, at its item and index, under the same set size |
| `ScullpProtocol.OrderKeptIff` | ldd4/scullp/mmap.c:107-120 | A mapped device has order 0 throughout a run exactly when no mmap counts its mapping after another order was stored behind its test, and no trim stores another order while mappings counted since its own test are open |
| `ScullpProtocol.OrderAtCount` | ldd4/scullp/mmap.c:112-118 | An mmap about to count its mapping finds another order exactly if one was stored since its test |
| `ScullpProtocol.MappedAtOtherOrder` | ldd4/scullp/mmap.c:107-120 | A reachable state mapped at order 1, by a trim between an mmap's test and count |
| `ScullpProtocol.MappedAtStore` | ldd4/scullp/main.c:497-516 | A trim about to store its order finds the device mapped exactly if more mappings were counted than closed since its test |
| `ScullpProtocol.CountedBetween` | ldd4/scullp/main.c:497-516 | Then an mmap has counted its mapping between the two |
| `ScullpProtocol.TrimmedWhileMapped` | ldd4/scullp/main.c:497-516 | A reachable state mapped at order 1, by an mmap between a trim's test and store |
| `ScullpProtocol.StraysIff` | ldd4/scullp/main.c:215-245 | Nobody uses a slot past a pointer array in a run exactly when no fault, transfer or trim uses one at or past the set size that the write which made the array had copied |
| `ScullpProtocol.CurrentNeverStrays` | ldd4/scullp/main.c:215-245 | When every transfer takes the mutex with a set size still the device's, nobody does, and all arrays have that size |
| `ScullpProtocol.TrimRunsPast` | ldd4/scullp/main.c:501-507 | A reachable state in which the next trim reads past an array |
| `ScullpMmap.Scullp.Nopage` | ldd4/scullp/mmap.c:60-96 | Page of the offset, SIGBUS on a hole, nothing past the size |
| `ScullpMmap.Scullp.Follow` | ldd4/scullp/main.c:150-161 | Extends the list to the item and moves no page |
| `ScullpMmap.Scullp.Read` | ldd4/scullp/main.c:167-211 | By its own division: bytes of the page at the position, up to its end and the size, a hole as nothing |
| `ScullpMmap.Scullp.Write` | ldd4/scullp/main.c:215-267 | The bytes written are those of the page at the position afterwards, and no other page changes; fails for want of memory only on a hole; a copy that stops early is cleared to its end |
| `ScullpMmap.Scullp.Trim` | ldd4/scullp/main.c:491-519 | Refused while mapped; otherwise frees every page, each while allocated |
| `ScullPipeProtocol.EveryRunIsFifo` | ldd4/scull/pipe.c:119-233 | In every interleaving of any number of readers and writers, delivered bytes followed by contents are the accepted bytes, within capacity; the mutex is held exactly between the steps that take and release it; no sleeper is stranded |
| `ScullPipeProtocol.NoReturnWithMutex` | ldd4/scull/pipe.c:119-233 | With each exit and each unlock a step of its own: no call returns holding the mutex, and scull_getwritespace returns holding it exactly when it succeeds |
| `ScullPipeProtocol.SleepersAreServed` | ldd4/scull/pipe.c:134-181 | A sleeper that has not been woken finds the pipe empty (full), or a call that moved its pointer is still to wake it |
| `ScullPipeProtocol.MutexKept` | ldd4/scull/pipe.c:119-233 | Every step of a call keeps the mutex with exactly the call that took and has not released it |
| `ScullPipeProtocol.ReadyMeansPending` | ldd4/scull/pipe.c:149-156 | The pipe turns ready for one side only by a transfer of the other, whose wake-up is then to come |
| `ScullPipeProtocol.ReadKeepsFifo` | ldd4/scull/pipe.c:141-159 | A read delivers the oldest bytes and returns their number, or faults and delivers none |
| `ScullPipeProtocol.WriteKeepsFifo` | ldd4/scull/pipe.c:209-233 | A write appends the bytes it reports, or faults and appends none |
| `ScullPipeProtocol.ReadDelivers` | ldd4/scull/pipe.c:141-159 | A read step delivers the prefix of the contents of just that length, or faults |
| `ScullPipeProtocol.WriteAccepts` | ldd4/scull/pipe.c:209-233 | A write step has the prefix of its data of just that length accepted, or faults |
| `ScullPipeProtocol.ReturnsWhatMoved` | ldd4/scull/pipe.c:119-233 | In every run a call returns the number of bytes that its one copy has moved |
| `ScullPipeProtocol.OnlyOthersWait` | ldd4/scull/pipe.c:127-137 | In every run a non-blocking call never waits, and no other is sent away with -EAGAIN |
| `ScullPipeProtocol.EveryOpening` | ldd4/scull/pipe.c:62-112 | Reader and writer counts are the open handles of each kind, and the buffer goes with them |
| `ScullPipeProtocol.BufferWhileOpen` | ldd4/scull/pipe.c:62-112 | The buffer exists while a handle for reading or writing is open, and never with none open |
| `ScullPipeProtocol.ReleaseKeepsBufferIff` | ldd4/scull/pipe.c:95-112 | A release keeps the buffer exactly if another handle for reading or writing remains |
| `ScullPipeProtocol.BufferGoneWhileOpen` | ldd4/scull/pipe.c:83-109 | A run in which a handle of neither kind is left without buffer |
| `ScullPipe.SpaceIsCapacityMinusLength` | ldd4/scull/pipe.c:188-193 | Free space is the buffer size less one less the contents |
| `ScullPipe.ReadSplits` | ldd4/scull/pipe.c:141-153 | Bytes read followed by the new contents are the old contents; a non-empty request makes progress |
| `ScullPipe.WriteAppends` | ldd4/scull/pipe.c:209-223 | The new contents are the old ones followed by the bytes written |
| `ScullPipe.StoreHidden` | ldd4/scull/pipe.c:209-219 | Bytes copied before the pointer moves are not yet contents |
| `ScullPipe.WriteFits` | ldd4/scull/pipe.c:209-214 | The amount chosen fits, does not wrap, and makes progress |
| `ScullPipe.ReadAmount` | ldd4/scull/pipe.c:142-145 | A read takes the least of the count, the contents and the way to the end of the buffer |
| `ScullPipe.WriteAmount` | ldd4/scull/pipe.c:210-214 | A write takes the least of the count, the free space and the way to the end of the buffer |
| `ScullPipe.PipeDevice.Open` | ldd4/scull/pipe.c:62-92 | Allocates once, empties the pipe on every open, counts by mode |
| `ScullPipe.PipeDevice.SpaceFree` | ldd4/scull/pipe.c:188-193 | Returns capacity less length |
| `ScullPipe.PipeDevice.Read` | ldd4/scull/pipe.c:141-159 | Takes the oldest bytes, just as many as are asked for, are there and lie before the end of the buffer, or faults without effect |
| `ScullPipe.PipeDevice.Write` | ldd4/scull/pipe.c:209-233 | Appends just as much of the data as fits and lies before the end of the buffer, or faults without visible effect |
| `PacketRing.FramesDisjoint` | kernel-user-space/ana_packet.c:133-144 | Different frame positions of an accepted geometry are disjoint ranges |
| `PacketRing.FrameInsideBlock` | kernel-user-space/ana_packet.c:133-144 | Each frame lies inside its block |
| `PacketRing.RingStaysInBlocks` | kernel-user-space/ana_packet.c:1621-1626 | The positions used exist even when the 32-bit product wraps, and are all of them exactly when it is at most 2^32 |
| `PacketRing.WrappingRequest` | kernel-user-space/ana_packet.c:1621-1626 | A request that is accepted with a wrapped product |
| `PacketRing.CopyStaysInFrame` | kernel-user-space/ana_packet.c:513-537 | After clamping, the copied bytes lie behind the header and inside the frame, whatever the packet |
| `PacketRing.ClampIs` | kernel-user-space/ana_packet.c:521-537 | Exactly as much is copied as there is and fits behind the offset |
| `PacketRing.OffsetsAre` | kernel-user-space/ana_packet.c:513-519 | Where the link-layer and network headers stand in a frame |
| `PacketRing.GetOrder` | kernel-user-space/ana_packet.c:1628-1630 | The least order whose block holds the size |
| `PacketRing.PacketSock.SetRing` | kernel-user-space/ana_packet.c:1596-1706 | A request for blocks succeeds exactly without a ring, with sizes, quotient and 32-bit product as they must be, memory for it, and unmapped or closing; on every exit the allocated blocks are those of the ring, unchanged on error, released under their own order and length; all frames of a new ring are initialised |
| `PacketRing.RefusalIs` | kernel-user-space/ana_packet.c:1609-1632 | Each error of a request by its own arithmetic condition |
| `PacketRing.FirstRing` | kernel-user-space/ana_packet.c:1596-1706 | A fresh socket gets a ring of one page with two frames |
| `PacketRing.PacketSock.AllocPgVec` | kernel-user-space/ana_packet.c:1571-1594 | All blocks or none, with what was allocated given back |
| `PacketRing.PacketSock.FreePgVec` | kernel-user-space/ana_packet.c:1554-1563 | Frees exactly the blocks of the vector and the vector |
| `PacketRing.PacketSock.Prepare` | kernel-user-space/ana_packet.c:1604-1650 | The same tests, with allocation and headers or nothing, and frames_per_block written even if a later test refuses |
| `PacketRing.PacketSock.Commit` | kernel-user-space/ana_packet.c:1652-1703 | Exchanges the vectors or not, and releases the one left over |
| `PacketRing.PacketSock.InitHeaders` | kernel-user-space/ana_packet.c:1634-1645 | The addresses initialised, by the shared frames_per_block, are those of all frame positions it gives, in order |
| `PacketRingProtocol.EveryRunConserves` | kernel-user-space/ana_packet.c:1596-1706 | With any number of calls interleaved step by step, live blocks are those of the ring and of calls under way, each owned once |
| `PacketRingProtocol.MappedBlocksStay` | kernel-user-space/ana_packet.c:1668-1689 | While it stays mapped and the socket open through a run, the ring stays the same with all its blocks allocated |
| `PacketRingProtocol.LaidOutIff` | kernel-user-space/ana_packet.c:1604-1689 | frames_per_block and frame count fit the ring throughout a run exactly when no ring is installed after another call's division or for a request its own quotient does not fit, and no call divides otherwise after a ring is installed |
| `PacketRingProtocol.UnfitWasOvertaken` | kernel-user-space/ana_packet.c:1621-1626 | A ring that does not fit its blocks, quotient 0 included, was let in by another call's division before one of its two tests |
| `PacketRingProtocol.HeadersInsideIff` | kernel-user-space/ana_packet.c:1634-1645 | Headers stay inside the frames of their block exactly when no header loop at the end of a block finds the bound raised by another call |
| `PacketRingProtocol.OneCallAtATime` | kernel-user-space/ana_packet.c:1604-1689 | Layout and headers are right in every run in which calls do not overlap |
| `PacketRingProtocol.LayoutRace` | kernel-user-space/ana_packet.c:1609-1621 | A reachable state with a mapped ring and the wrong frames_per_block, written after the ring was mapped |
| `PacketRingProtocol.UnfitRing` | kernel-user-space/ana_packet.c:1621-1626 | A reachable state with a ring of twice the frames its block holds |
| `PacketRingProtocol.HeaderStrays` | kernel-user-space/ana_packet.c:1634-1645 | A reachable state in which a header was written past its block |
| `PacketQueue.EveryRun` | kernel-user-space/ana_packet.c:540-605 | In every run the unread frames are one cyclic run up to head, packets are taken in arrival order without loss, and each packet past the filter is counted once |
| `PacketQueue.ReportsCompleteIff` | kernel-user-space/ana_packet.c:1346-1388 | Reports plus current counters are the packets past the filter exactly when every accepted read with something to report asked for at least four bytes and did not fail |
| `PacketQueue.CountersAre` | kernel-user-space/ana_packet.c:577-605 | The counters are the packets taken and the packets that found the ring full since the last accepted statistics read |
| `PacketQueue.MarkedLosing` | kernel-user-space/ana_packet.c:540-551 | A packet is marked as losing exactly if one was dropped since then |
| `PacketQueue.ReportLost` | kernel-user-space/ana_packet.c:1361-1375 | A run in which a counted packet is never reported |
| `PacketQueue.ShortReadLoses` | kernel-user-space/ana_packet.c:1353-1375 | A run in which a read of length 0 succeeds and the report is lost |
| `PacketQueue.ReceiveEnqueues` | kernel-user-space/ana_packet.c:540-551 | The frame at head is free exactly when the queue has room; a packet goes to its end or is dropped |
| `PacketQueue.ReleaseDequeues` | kernel-user-space/ana_packet.c:540-551 | The frame released is the oldest unread one |
| `PacketQueue.QueueUnique` | kernel-user-space/ana_packet.c:540-551 | A ring shows one queue only |
| `PacketQueue.TpacketRing.TpacketRcv` | kernel-user-space/ana_packet.c:540-605 | Whatever queue the ring holds, it holds that queue with the packet at its end afterwards, or the same one if it was full; losses are marked and counted |
| `PacketQueue.TpacketRing.GetStatistics` | kernel-user-space/ana_packet.c:1346-1388 | Refuses a negative length with the counters kept; otherwise clears them, with drops in the total, copies at most the length asked for, and says exactly when it fails |
| `McList.EveryRun` | kernel-user-space/ana_packet.c:1103-1229 | In every run the list has one entry per key, each count is adds minus drops, and device references are those of the entries of registered devices |
| `McList.FlushReleasesAll` | kernel-user-space/ana_packet.c:1209-1229 | After a flush the list is empty and no reference is left |
| `McList.EntryIsServed` | kernel-user-space/ana_packet.c:1103-1178 | In every run the registered device of an entry is asked for what the membership means |
| `McList.AddedRepresents` | kernel-user-space/ana_packet.c:1130-1178 | An add is one more membership of its key |
| `McList.DroppedRepresents` | kernel-user-space/ana_packet.c:1180-1207 | A drop succeeds exactly for a member and is one membership fewer |
| `McList.RecordedIsCount` | kernel-user-space/ana_packet.c:1151-1162 | With unique keys, the first entry found carries the whole count |
| `McList.DeviceCall` | kernel-user-space/ana_packet.c:1103-1120 | A call on the device changes just the one reference a membership means: its address for kind 0, a mode for kinds 1 and 2, nothing otherwise |
| `McList.McSocket.McAdd` | kernel-user-space/ana_packet.c:1130-1178 | Errors in order; count or new entry; one reference per new entry |
| `McList.McSocket.McDrop` | kernel-user-space/ana_packet.c:1180-1207 | Count or removal; the reference goes with the entry |
| `McList.McSocket.FlushMclist` | kernel-user-space/ana_packet.c:1209-1229 | Empties the list and gives each entry's reference back |
| `Snull.EveryRunConserves` | ldd4/snull/snull.c:132-186 | In every interleaving a device's packets are partitioned among its pool, its peer's queue and packets in hand |
| `Snull.DryIsStoppedIff` | ldd4/snull/snull.c:132-161 | An empty pool means a stopped queue throughout a run exactly when no look at a released packet comes after the pool has been emptied with the packet last linked in front of an empty list |
| `Snull.OvertakenPacketWasTaken` | ldd4/snull/snull.c:150-161 | The packet of such a look has left the pool again since it was put back |
| `Snull.NeverDry` | ldd4/snull/snull.c:132-147 | Without such a look, allocation never finds the pool empty |
| `Snull.WholeReleasesAreSafe` | ldd4/snull/snull.c:150-161 | If nothing runs between the two halves of a release, the pool is never found empty |
| `Snull.PoolFoundEmpty` | ldd4/snull/snull.c:158-160 | A run in which it is |
| `Snull.Priv.GetTxBuffer` | ldd4/snull/snull.c:132-147 | Takes the first packet and stops the queue on the last |
| `Snull.Priv.ReleaseBuffer` | ldd4/snull/snull.c:150-161 | Puts the packet first and wakes the queue exactly if the pool was empty |
| `Snull.Priv.DequeueBuf` | ldd4/snull/snull.c:173-186 | Takes the first packet, or null |
| `Snull.Priv.RegularInterrupt` | ldd4/snull/snull.c:333-376 | One packet at most goes from the queue to its owner's pool, counted as received or dropped as its allocation went; conservation and the stopped-queue rule are kept |
| `Snull.Priv.NapiInterrupt` | ldd4/snull/snull.c:381-418 | Turns receive interrupts off and schedules a poll; moves no packet |
| `Snull.Priv.Poll` | ldd4/snull/snull.c:287-327 | Ends at the quota of packets received or with an empty queue and interrupts on; packets are counted as received or dropped as their allocation went, and all go back to their owner's pool |
| `Snull.Priv.HwTx` | ldd4/snull/snull.c:425-504 | Both directions conserved and the stopped-queue rule kept, in both modes; the packet is delivered at once, or queued and the poll scheduled |
| `SinglyLinked.InsertSingle` | c/linklist/linklist.c:24-49 | One new node at the value's place in the same nodes |
| `SinglyLinked.ReverseSingle` | c/linklist/linklist.c:59-80 | The same nodes linked in reverse |
| `SinglyLinked.InsertSingleCircular` | c/linklist/linklist.c:85-140 | The ring shows the value inserted, also when it goes into the old head and the old head's value into the new node |
| `SinglyLinked.ReverseSingleCircular` | c/linklist/linklist.c:151-170 | The same ring linked in reverse |
| `DoublyLinked.InsertDouble` | c/linklist/linklist.c:177-232 | One new node at the value's place, next and prev inverse |
| `DoublyLinked.ReverseDouble` | c/linklist/linklist.c:234-255 | The same nodes in reverse, next and prev inverse |
| `DoublyLinked.InsertDoubleCircular` | c/linklist/linklist.c:269-310 | One new node in the ring at the value's place, next and prev inverse |
| `DoublyLinked.ReverseDoubleCircular` | c/linklist/linklist.c:326-346 | The same ring in reverse, next and prev inverse |
| `SortedLists.InsertKeepsSorted` | c/linklist/linklist.c:24-49 | The insertion of all four shapes keeps a sorted list sorted and adds exactly the value |
| `SortedLists.InsertAllSorts` | c/linklist/linklist.c:24-49 | Inserting any values one by one gives a sorted permutation of them |
| `SortedLists.ReversedTwice` | c/linklist/linklist.c:59-80 | Reversing twice is the identity |
| `AccessControl.AtMostOneHolder` | ldd4/scull/access.c:54-74 | However many openers race and fail, at most one holds scullsingle and the counter is exact |
| `AccessControl.OpenSucceedsIff` | ldd4/scull/access.c:54-68 | An open succeeds exactly when nobody holds the device or is backing out |
| `AccessControl.FreeDeviceRefused` | ldd4/scull/access.c:54-68 | A run in which a free device is refused |
| `AccessControl.EveryHandleEntitled` | ldd4/scull/access.c:102-135 | In every run the count is the number of open handles, and each was opened by the owner or a capable process |
| `AccessControl.OwnerFixedWhileOpen` | ldd4/scull/access.c:102-135 | The owner does not change while the device stays open |
| `AccessControl.WhoGetsIn` | ldd4/scull/access.c:102-188 | In every run an open gets in at once exactly on a closed device, whose owner it becomes, or as the owner, its effective user or a capable process; any other waits or is sent away |
| `AccessControl.NoWakeupMissed` | ldd4/scull/access.c:173-209 | In every run, with releases that wake the queue only after giving up the lock, a sleeper that has not been woken may not open the device or a wake-up is to come |
| `AccessControl.Owned.OpenU` | ldd4/scull/access.c:102-127 | Succeeds exactly on a closed device, for the owner's real or effective user, or for a capable process; a closed device gets its owner |
| `AccessControl.Owned.OpenW` | ldd4/scull/access.c:173-188 | The same, or makes the caller wait |
| `AccessControl.SameDeviceForever` | ldd4/scull/access.c:248-272 | Once a terminal has a device, it gets the same one after any further opens by anybody |
| `AccessControl.NewDevice` | ldd4/scull/access.c:255-271 | A new terminal's device is none of those there were |
| `AccessControl.Opens` | ldd4/scull/access.c:248-272 | After any opens, keys and devices in the list are unique |
| `AccessControl.Clones.LookforDevice` | ldd4/scull/access.c:248-272 | Finds the key's device and changes nothing, or puts a new one first, or fails without memory |

## Left out

- kernel-user-space/shm.c: hugetlb segments, namespace teardown, security and audit hooks, user-copy formats and the proc file; `shmat` address checks before the segment is looked up.
- kernel-user-space/ana_packet.c: sending, receiving through the socket queue other than its counters, the proc interface, fanout of ANA_PACKET_READY and USER_PID; `packet_mmap`'s size test is taken as passed.
- PacketRing.PacketSock.SetRing: detaching and re-attaching the protocol hook around the exchange is not modelled.
- ldd4/shortprint: reading the port, real delays and I/O; the port is a trace of bytes.
- ldd4/scull: ioctl decoding, poll and fasync; the FIFO result for the pipe is between opens, since every open empties it.
- ScullDevice.Scull.Write: works by the device's geometry at the time of the lock; what geometries copied earlier do is the subject of `ScullProtocol`.
- ScullDevice.Scull.Read: likewise.
- ScullDevice.Scull.Trim: starts from arrays of the device's set size; `ScullProtocol` says when trims meet others.
- ScullDevice.Scull.FreeQuanta: list items, arrays and quanta are blocks of an explicit heap map rather than Dafny objects, so aliasing of raw pointers is captured by block numbers.
- ScullpMmap.Scullp.Write: is modelled at order 0 only, because new list items carry order 0 and the store does not match its own geometry otherwise. Its order and set size are those under the lock, not a copy made before.
- ScullpMmap.Scullp.Read: likewise; `ScullpProtocol` treats copies of the set size.
- ldd4/scull/access.c: the write-only opens call `scull_trim` without the device mutex, so two of them by one user can free the same blocks; trims are modelled under the mutex only.
- scullc, sculld and scullv: the first two repeat scullp; the fault path of the third agrees with reads only at order 0.
- Snull.Priv.HwTx: lockup simulation, watchdog, re-open, short packets, skb handling and address rewriting; the gap in `snull_poll` between its test and the re-enabling of interrupts.
- c/thread: the condition-variable variant and even_odd.c, which promise no order or progress that holds.
- Module set-up and clean-up, device registration, printk output, embedded register code, I2C, SPI and DMA drivers, framebuffer, netlink, configfs and sysfs examples and the user-space test programs.
