# The aesdchar device and its socket server, in Dafny

The character driver keeps the last ten newline-terminated commands written to it and shows them as one file. Inside it
has a ring of ten entries, buffers obtained from the kernel allocator, one unterminated pending command, one mutex, and
a byte position per open file. A socket server shares a single open file of the device among all its connection
threads: under a mutex each packet is written, the file is measured, rewound, read to its end, and sent back.

This project models both and proves what they are for.

* `Bytes` has byte strings, concatenation, and C strings.
* `CircularBuffer` has the ring, as a value and as the class `Buffer` that updates it in place, with the lookup by flat
  position.
* `Driver` is the driver as a step function on values: what each file operation does to ring, allocations, lock and
  positions, with interruptions, copy faults and the allocator's choices as inputs. `CharDevice.Aesd` is the same
  device as an object with in-place methods, each proved against its step.
* `FileSpec` is the file the device is meant to be. It knows only the list of all commands ever completed, the pending
  bytes, the lock and the positions.
* `Refinement` proves that driver and file cannot be told apart by any run. `Ownership`, `Seeking`, `Readers`,
  `Chunking`, `Locking` and `Errors` prove the other properties of the driver.
* `FileClient` has the server's helpers over the device (measure, drain, write), as methods.
* `Server` is the session loop of any number of threads, one library or system call per step, in any interleaving.
  `Silence` says when it stops answering for good. `Service` says which packets are answered when nothing fails, and
  `Session` proves that serving any list of packets is then a plain function of the commands so far. `Progress` proves
  that a thread left alone gives the mutex back, unless the server is silent.
* `Threads` is the list of threads: the reaping loops on a linked list in place, and their interleaving with the threads.

Results where the code falls short of what it sets out to do keep the code as it is, and state exactly when it succeeds:

* A copy fault after the allocator moved the pending buffer strands the new block (`Ownership.OwnershipStep`,
  `Ownership.LeakWitness`), and loses the pending command if there was one (`Refinement.LosesPendingIff`,
  `Ownership.DanglingWitness`). No other operation harms ownership or content, and the harm is never undone: at the end of
  a run ownership is exact exactly when no write dropped a block (`Ownership.OwnershipOfAnyRun`), and the device stands for
  a file exactly when none lost a pending command (`Ownership.KeepsIff`).
* The seek ioctl counts storage slots. `aesd_ioctl.h` documents a zero-referenced command, which reading counts from the
  oldest. An accepted seek is found again by the lookup exactly while the oldest command is in slot 0
  (`Seeking.SeekRoundTripIff`, `Seeking.RotatedSeekWitness`), and it agrees with the documented one on all requests
  exactly when the slot sizes read the same from slot 0 as from the oldest slot (`Seeking.SeekAsDocumentedIff`).
* Several error returns keep the driver mutex (`Locking.LockedIff`), after which the device is frozen for every user
  (`Locking.HeldForEver`). The server loop has exits that keep its own mutex as well. Either way it never stores or
  answers another packet (`Silence.SilentForEver`), and it gets there exactly when some call meets one of the guards listed
  in `Silence.Silences` (`Silence.SilentIff`): a packet without a newline, a failed write, measurement, read or send, a
  chunk that does not fit, another process's seek that keeps the driver lock, or a refused seek packet. So one seek packet
  sent to a fresh server silences it (`Service.FirstSeekSilences`).
* The server appends with C string functions: a reply is the file exactly when the file holds no NUL, and it is sent
  exactly when everything fits the two buffers (`Server.EchoesAreAtomic`, `FileClient.FileRead`,
  `Service.PacketAnsweredIff`, `Service.SeekAnsweredIff`).

Conventions. A theorem about runs quantifies over every finite list of operations. Theorems about the device ask of the
run only that the allocator hands out what it can (`Refinement.Possible`) and that the one harmful fault does not occur
(`Refinement.Keeps` for content, `Ownership.Clean` for ownership); the server theorems need neither, because with
terminated packets nothing is ever pending, nor any bound on the file, because ten packets cannot fill an `int`. Operations are atomic: the driver's mutex makes them so, except for the
returns that keep it, which are modelled. Where a result is cut to an `int` or wraps in `loff_t`, the model writes it out
(`Bytes.Signed`, `FileClient.CInt`), and theorems of the driver that need a small file say so. In `Server`, fields such as `Job.hist`
record history for the statements; no step depends on them.

## Model

| member | source | states |
|---|---|---|
| `CircularBuffer.Buffer.FindEntryOffset` | aesd-char-driver/aesd-circular-buffer.c:30-54 | the lookup loop fails exactly past the last byte, and otherwise returns a slot and an offset inside it whose wrapped distance from the oldest entry is the requested position; the unsigned subtraction never underflows |
| `CircularBuffer.FindIff` | aesd-char-driver/aesd-circular-buffer.c:36-53 | a given slot and offset are the answer for one position only: the bytes read before the slot plus the offset |
| `CircularBuffer.LocationUnique` | aesd-char-driver/aesd-circular-buffer.c:36-53 | no two slot-and-offset pairs denote the same flat position, so the answer of the lookup is the only one |
| `CircularBuffer.Buffer.AddEntry` | aesd-char-driver/aesd-circular-buffer.c:62-84 | storing an entry in place yields the ring that `Refinement.CommitRefines` proves to be the ten latest commands, and hands back the displaced address |
| `CircularBuffer.Buffer.SumOfSizes` | aesd-char-driver/aesd-circular-buffer.h:77-80 | the storage-order walk adds up the sizes of the slots it passes |
| `CircularBuffer.RotationKeepsSum` | aesd-char-driver/aesd-circular-buffer.h:77-80 | storage order and oldest-first order hold the same number of bytes for every rotation |
| `CharDevice.Aesd.Read` | aesd-char-driver/main.c:54-108 | the in-place read refines one step of the driver machine, in every environment |
| `CharDevice.Aesd.Write` | aesd-char-driver/main.c:110-180 | the in-place write (reallocate, copy, look for the newline, hand over, free) refines one step of the driver machine, whatever the allocator and the copy do |
| `CharDevice.Aesd.Llseek` | aesd-char-driver/main.c:182-231 | the in-place seek refines one step, including the returns that keep the lock |
| `CharDevice.Aesd.Ioctl` | aesd-char-driver/main.c:266-314 | the in-place ioctl refines one step, including the returns that keep the lock |
| `CharDevice.Aesd.Cleanup` | aesd-char-driver/main.c:385-388 | the freeing loop frees exactly what `FreeSlots` says, or reports a block that was not live |
| `Refinement.StepRefines` | aesd-char-driver/main.c:54-314 | every operation answers as the abstract file of the last ten commands answers, and leaves the device standing for the abstract file's next state |
| `Refinement.RunRefines` | aesd-char-driver/main.c:54-314 | over any run, driver and abstract file give the same list of answers and stay related |
| `Refinement.CommitRefines` | aesd-char-driver/main.c:161-172 | handing over the pending buffer makes it the latest command of the history, drops the oldest readable one once ten are stored, and frees exactly the displaced block |
| `Refinement.LosesPendingIff` | aesd-char-driver/main.c:142-155 | after a possible operation the device stands for no file at all exactly when a write that moved the buffer of an unterminated command failed to copy |
| `Refinement.HistoryOfAnyRun` | aesd-char-driver/main.c:140-175 | over any run since loading, all completed commands followed by the pending bytes are the bytes of the successful writes in order, every command is terminated, pending holds no newline, and no dead memory is touched |
| `Refinement.RingOfFile` | aesd-char-driver/aesd-circular-buffer.c:62-84 | with n commands, the input index is n mod 10, full means n at least 10, the output index is 0 and then n mod 10, and every slot stores its history entry |
| `Refinement.SlotsHoldLatest` | aesd-char-driver/aesd-circular-buffer.c:62-84 | each of the last ten commands sits in the slot of its number mod 10; slots not reached yet are empty |
| `Refinement.LookupIsFlatIndexing` | aesd-char-driver/aesd-circular-buffer.c:36-53 | the lookup fails exactly past the end of the content, and otherwise the stored byte it points to is that byte of the content |
| `Refinement.TotalIsLength` | aesd-char-driver/main.c:194-213 | the storage-order sum that SEEK_END uses is the length of the oldest-first content |
| `Refinement.NothingWrittenIsLost` | aesd-char-driver/main.c:140-175 | from any state, history and pending grow by exactly the bytes of the writes that reported success |
| `FileSpec.ReadIsSlice` | aesd-char-driver/main.c:84-103 | a read returns the slice of the content at the position, moves past it, and returns nothing only for a zero count or at the end |
| `Ownership.OwnershipStep` | aesd-char-driver/main.c:142-171 | live allocations remain exactly the stored and pending buffers, unless the operation drops a moved buffer, which always breaks this |
| `Ownership.StraysStep` | aesd-char-driver/main.c:142-171 | while no pending command is lost, an operation adds to the live blocks nobody owns exactly the block it drops |
| `Ownership.OwnershipOfAnyRun` | aesd-char-driver/main.c:142-171 | over any run since loading, the live blocks are exactly those of the ten slots and the pending entry if and only if no write dropped a moved buffer; and then eleven owners hold pairwise different blocks, and nothing is freed twice or used after being freed |
| `Ownership.KeepsIff` | aesd-char-driver/main.c:142-155 | over any run the device still stands for a file at the end exactly when no write of the run lost a pending command |
| `Ownership.CleanupAfterAnyRun` | aesd-char-driver/main.c:385-388 | after any run that lost no pending command, removal frees every stored command once; what stays allocated is the unterminated command and the blocks dropped on the way, so nothing leaks exactly when nothing is pending and nothing was dropped |
| `Ownership.CleanupLeaves` | aesd-char-driver/main.c:385-388 | from any related state, removal leaves allocated exactly the pending buffer and the blocks nobody owns |
| `Ownership.LeakWitness` | aesd-char-driver/main.c:142-155 | a first write that faults after its allocation reports an error, stores nothing and leaves a block nobody owns |
| `Ownership.DanglingWitness` | aesd-char-driver/main.c:142-155 | an unterminated write, a faulting one that moved the buffer, and a third write: the third uses freed memory |
| `Seeking.SeekRoundTripIff` | aesd-char-driver/main.c:287-306 | a seek is accepted exactly when its slot stores that byte, and the lookup of the resulting position returns that slot and offset exactly when the ring is not rotated |
| `Seeking.SeekStaysInside` | aesd-char-driver/main.c:287-306 | in every reachable state an accepted seek lands strictly inside the content and the next read of at least one byte delivers something |
| `Seeking.OldestFirstRoundTrip` | aesd-char-driver/aesd_ioctl.h:25-34 | with the command counted oldest first, as documented, every accepted seek is found again by the lookup at the named command and offset, rotated or not |
| `Seeking.SeekAsDocumentedIff` | aesd-char-driver/main.c:290-306 | the shipped seek equals the documented one on all requests exactly when slot sizes in storage order equal command sizes in reading order |
| `Seeking.UnrotatedSeekIsDocumented` | aesd-char-driver/main.c:290-306 | while the oldest command is in slot 0 the two seeks agree on every request |
| `Seeking.RotatedSeekWitness` | aesd-char-driver/main.c:290-306 | eleven commands that can be written from loading on, after which an accepted seek to slot 1 byte 0 lands on byte 1 of slot 1, not where the documented seek lands |
| `Seeking.EndIsWhereReadsStop` | aesd-char-driver/main.c:194-230 | SEEK_END answers the content length, which is the first position where a read of at least one byte returns nothing |
| `Seeking.SeekMovesIff` | aesd-char-driver/main.c:200-230 | for each whence, a seek moves the handle to exactly base plus offset, answers that position and leaves the lock free and everything else alone; one that would land before the start or wrap around, or has an unknown whence, answers -22, moves nothing and keeps the lock |
| `Errors.ErrorsIff` | aesd-char-driver/main.c:79-306 | an interrupted call answers -512, a call to a locked driver waits, a failed allocation or copy answers -14, an invalid seek -22, each exactly when its cause is there, and every other call succeeds |
| `Errors.DeadMemoryIsNoticed` | aesd-char-driver/main.c:92-171 | in any state whatever, reallocating a freed pending buffer, reading from a freed slot and freeing a displaced slot again count as uses of dead memory, so runs without such an answer have none |
| `Readers.ReadersInOrder` | aesd-char-driver/main.c:84-103 | while other files are read, written and sought at will, a handle that does not seek, but may read and write, receives slices of the full history, strictly forward, each starting at the end of the one before plus exactly the bytes evicted and the bytes it wrote itself in between |
| `Readers.ReadersContiguous` | aesd-char-driver/main.c:84-103 | while nothing is evicted, the reads of a handle that only reads concatenate to one slice of the history, from where it stood to where it stands |
| `Readers.NewReaderFromStart` | aesd-char-driver/main.c:84-103 | an open file not used before is read from the first byte of the file: as long as nothing is evicted, its reads concatenate to a beginning of the content |
| `Chunking.ChunkingIff` | aesd-char-driver/main.c:142-174 | writing in chunks ends in the state of one whole write exactly when no byte comes in a later chunk than the one holding the first newline |
| `Chunking.CuttingDoesNotMatter` | aesd-char-driver/main.c:142-174 | on the device, any two such ways of cutting the same bytes give the same ring, bytes, pending state and positions, whatever the allocator did |
| `Locking.LockedIff` | aesd-char-driver/main.c:182-314 | after any run the mutex is held exactly when it was at the start or some operation met the guard of a return that skips the unlock |
| `Locking.HeldForEver` | aesd-char-driver/main.c:79-269 | with the mutex kept, no run by any users changes the device, and every uninterrupted call waits for ever |
| `FileClient.FileSize` | server/manipulate_file.c:20-28 | in every environment the result is the difference of the two answers as ints, errors counting -1; undisturbed it is the content length, whatever the rotation, and the position is left at 0 |
| `FileClient.FileRead` | server/manipulate_file.c:31-61 | the read loop, with any size, appends the C strings of the chunks of the content from the position on, moves by exactly their length, terminates, and undisturbed overruns a buffer exactly when these strings do not fit; a size that is not positive is refused, and a kept driver lock hangs it exactly when the first read is not interrupted |
| `FileClient.DrainedIff` | server/manipulate_file.c:44-58 | with any interruptions and faults, the read loop fails exactly when some read fails before a chunk has overrun a buffer, and otherwise finishes exactly when everything fits |
| `FileClient.FitsIff` | server/manipulate_file.c:32-49 | what is read fits exactly when every chunk is shorter than 1024 bytes, or has exactly 1024 and a NUL among them, and all strings together are shorter than 30720 bytes |
| `FileClient.DrainingIff` | server/manipulate_file.c:44-57 | with a size of at least what remains, the loop appends exactly the rest of the content, whatever the command boundaries, exactly when no byte of it is NUL |
| `FileClient.ReadTakesChunk` | server/manipulate_file.c:45-57 | each turn consumes exactly the first chunk ahead, never more than the size left, and leaves the other chunks ahead |
| `FileClient.FileWrite` | server/manipulate_file.c:4-18 | one write stores all bytes and returns their number exactly when it is not interrupted, the driver is not locked, no copy fails and no needed memory is refused; otherwise it reports -1 or hangs and leaves the file as it was |
| `Server.RunInv` | server/aesdsocket.c:292-364 | any interleaving of the calls of any threads, in every environment, keeps the server invariant: device and file related, nothing pending, one thread inside, replies matched with the history |
| `Server.MutualExclusion` | server/aesdsocket.c:294-358 | in any interleaving at most one thread is between taking and releasing the mutex |
| `Server.HangUpReleases` | server/aesdsocket.c:350-357 | in every reachable state, a receive that ends or fails the connection frees the mutex and ends that thread, and leaves the device, the file, the replies and all other threads as they are |
| `Server.HolderHasNotEnded` | server/aesdsocket.c:294-362 | in any interleaving, a thread that holds the mutex has not ended |
| `Server.ArrivalIff` | server/aesdsocket.c:296-318 | what the thread does with a packet, byte by byte: 30720 bytes without NUL are searched past the buffer's end; without a newline before the first NUL the mutex is asked for again; otherwise the first 18 bytes decide between a seek and a write; nothing else changes |
| `Server.EchoesAreAtomic` | server/aesdsocket.c:292-347 | in any interleaving of any number of threads, packets become commands one to one in reply order, and the k-th reply is the last ten packets up to its own, the whole file right after its own write, exactly when that file holds no NUL |
| `Server.FileEndsWithPacket` | server/aesdsocket.c:320-334 | the file such a reply carries ends with the packet it answers |
| `Server.SeekRepliesAreTheRest` | server/aesdsocket.c:302-316 | a reply to a seek packet is the file of one moment from one position to its end exactly when that rest holds no NUL; for an accepted seek the position is the named offset behind all lower slots, and in an unrotated ring the reply is the named command from the named byte on and all later commands |
| `Silence.SilentForEver` | server/aesdsocket.c:294-358 | once a thread keeps the server mutex, or the driver is locked and no thread is past its last call to it, no packet is stored and no reply is sent by any thread again, whatever anybody does |
| `Silence.LockedDriverWaits` | aesd-char-driver/main.c:79-269 | a thread that calls the locked driver and is not interrupted stays in that call, and nothing of the server changes |
| `Silence.StepSilentIff` | server/aesdsocket.c:294-358 | in a reachable state a call leaves the server silent exactly when it was so before or the call meets the guard of its kind: on the packet received, the interruption or fault, the allocation, the measured size, the requested byte, the chunk read, or what is sent |
| `Silence.SilentIff` | server/aesdsocket.c:294-358 | after any interleaving since the start the server is silent exactly when some call of it met one of these guards |
| `Silence.RefusedSeekSilences` | server/aesdsocket.c:310-316 | in any reachable state, a thread about to ask for a byte no slot stores leads into that state, through the lock the driver keeps |
| `Silence.Measured` | server/manipulate_file.c:20-28 | the size a thread goes on with and where it will read from, for each of the four ways in which the two seeks may be interrupted |
| `Progress.MutexComesBack` | server/aesdsocket.c:294-358 | in every reachable state the mutex and the driver are free, or the server is silent for good, or the thread that holds the mutex, left alone, reaches one of these after finitely many calls |
| `Service.PacketAnsweredIff` | server/aesdsocket.c:292-347 | from any reachable free state, an ordinary packet none of whose calls fails is stored as one command; if all readable commands fit the buffers as strings they are the reply and mutex and driver are free again, otherwise the server is silent for good |
| `Service.PlainPacketIff` | server/aesdsocket.c:320-341 | as long as no readable byte is NUL, the reply is the whole file, byte for byte, exactly when each of its commands is shorter than 1024 bytes and all together are shorter than 30720; otherwise the server is silent for good |
| `Service.SeekAnsweredIff` | server/aesdsocket.c:302-339 | from any reachable free state, a seek packet none of whose calls fails is answered with the strings of the file from the position of the named slot and offset, mutex and driver free again, exactly when that slot stores that byte and the strings fit the buffers and are not all empty; otherwise the server is silent for good |
| `Service.FirstSeekSilences` | server/aesdsocket.c:302-316 | on a fresh server every seek packet reaches the ioctl with a measured size of 0 while the server is not silent yet, and the ioctl silences it for every continuation |
| `Service.FirstPacketComesBackIff` | server/manipulate_file.c:31-49 | the first ordinary packet of a fresh server, without NUL, comes back unchanged exactly when it is shorter than 1024 bytes; a longer one silences the server |
| `Session.SessionIsServed` | server/aesdsocket.c:292-347 | from any reachable state, the calls of any list of packets, ordinary or seeking, by any threads, none failing, do to the server exactly what a plain function of the commands so far says: commands stored, who is sent what, in order, up to the first packet that cannot be answered, and silence from there on |
| `Session.OrdinarySessionIff` | server/aesdsocket.c:292-347 | from the start, any list of ordinary packets is answered one by one, each with the file right after it, exactly when each of these files fits the buffers; otherwise the server ends silent |
| `Threads.ThreadList.Add` | server/aesdsocket.c:466-482 | a new entry is the head, the others follow unchanged |
| `Threads.ThreadList.CheckForCompleted` | server/aesdsocket.c:484-501 | the loop joins exactly the completed threads, in list order, clears their flags and keeps every entry |
| `Threads.ThreadList.Remove` | server/aesdsocket.c:446 | unlinking keeps all other entries chained in their order |
| `Threads.ThreadList.ProcessKill` | server/aesdsocket.c:433-449 | removing while traversing joins exactly the completed threads and leaves exactly the others, in their original order |
| `Threads.JoinedOnceAfterCompletion` | server/aesdsocket.c:433-449 | over any interleaving of creation, completion, checks and kill, no thread is joined twice and none before it set its flag |
| `Threads.FinishedIsNoticed` | server/aesdsocket.c:362-501 | over any interleaving, a thread that finished has its completion flag set or was joined |
| `Threads.LifeOfThread` | server/aesdsocket.c:466-482 | from any reachable idle pool, a new thread becomes the head of the list; whatever happens then, it is listed until it is joined, runs exactly until it finishes, and is joined only afterwards |
| `Threads.KillReapsFinished` | server/aesdsocket.c:433-449 | even when threads complete during the kill, the list is at every point the one it began with, in order, without exactly the threads it has joined; when all entries are visited, every thread that had finished and was not joined when the kill began is joined and removed, and every one a check had joined before, or that is still running, stays |
| `Threads.LoopsAreVisits` | server/aesdsocket.c:433-501 | the two loops on the linked list join the same threads in the same order, and leave the same entries and flags, as the visits of the interleaved model when no thread completes meanwhile, and the check then ends |

## Left out

- Registration of the module and its device, opening and closing, `access_ok`, null-argument checks and decoding of the ioctl command bits: kernel calls with no property of their own.
- The kernel's own bound on positions (a read or write whose end would exceed `loff_t` is refused before the driver is called): not part of the repository, so a write advances an unbounded position.
- A real allocator: it answers null, the same block, or any address that is not live; fresh bytes hold an arbitrary fill.
- Preemption inside one driver operation: each is one step under the driver's mutex.
- `Server.SysStep`: the session loop is modelled on values, call by call, because the property is about interleavings; its in-place updates of the two stack buffers are not modelled beyond their contents and their overrun.
- Other processes that write to the device while the server runs: other open files may read, seek and be controlled.
- Sockets, signals, logging, `sscanf`: a receive delivers any packet, a close or an error, with any two numbers for the scan to find; a send takes the whole reply or fails.
- `Threads.Node`: the list entry and the thread record it points to are one object; freeing and closing are not modelled.
- Opening and closing of the shared stream in `main`: it stays open.
- The timestamp timer, compiled out in the shipped configuration, and the repository's other directories.
- Nothing was executed.
