# Models of six groups of kernel modules

A set of Dafny modules that follow the code of six groups of small Linux kernel modules and prove what each group
is for. `dafny verify dfyconfig.toml` checks all of it.

| group | files | the central results |
|---|---|---|
| Morse transmitter | `MorseCode.dfy`, `MorseDriver.dfy`, `MorseReception.dfy` | what is heard decodes to the letters of the text from 17 ticks a second on, and below that no receiver could do it; a text is received exactly when the gate was not found half open |
| RAM block device | `BlockDisk.dfy`, `BlockDriver.dfy`, `BlockBytes.dfy` | serving a queue segment by segment is serving its requests whole and in order on a flat disk, as far as each fits; the loop ends exactly on queues of file-system requests |
| Interrupt, tasklet, work item | `DeferredIrq.dfy` | no deferred work is lost, runs never outnumber interrupts, every schedule without interrupts runs out in quiescence |
| Semaphore and spinlock | `SharedSemaphore.dfy`, `SpinDead.dfy` | a conservation law over every interleaving, and the exact bounds on holders and refusals for any number of opens in flight; the deliberate deadlock, its exact shape, and that it comes about exactly when nobody wakes the sleeper |
| Printers and probes | `Hex.dfy`, `HexDump.dfy`, `Guid.dfy`, `Probes.dfy` | both printers read back; registration of two probe lists is all or nothing |
| Character devices | `FixedFile.dfy`, `UserMemory.dfy`, `CharDevice.dfy`, `SeekDevice.dfy`, `CaseDevice.dfy` | chunks do not matter, what is written comes back, where seeking clamps |

`Bytes.dfy`, `Options.dfy` and `Sequences.dfy` hold what they share.

Code that works by changing things in place is modelled by classes, arrays and loops. Each such method is proved to
do what a function on values does, and the lemmas speak of that function. The three protocols with several actors
are state machines over single steps, with runs as sequences of actions; every step is one access to shared state,
and steps are sequentially consistent.

## How the code was read

- **Morse.** The guard at `io_port/morse_io.c:93` drops every byte below `A`, so space, digits and punctuation are
  never sent, though the table has codes for them. The table's space entry, and with it `word_space`, is unreachable.
  Whether plain `char` is signed is a parameter; it makes no difference. Sleeps are not cut short by signals, and the
  frequency multiplier (`minor + 1`) is positive. Port 0x61 is its two gate bits and the other six. The first tone
  takes the timer as it is found: if one gate bit was left on by somebody else, the set-up command is skipped and
  that tone is mute; if both were on, the timer takes the two bytes without a new command, so that tone may have
  another pitch, which a receiver that goes by lengths does not mind.
- **Block device.** Memory is a map from addresses to bytes, so buffers may overlap. An overrunning segment is skipped
  in silence and its request still completes with success. A request that is not a file-system request is ended with
  -EIO, but the loop goes round without fetching another one, so it never ends. Completion errors are as the code
  passes them. Byte addresses of a request are assumed to fit in `unsigned long`.
- **Deferred work.** A handler does not overlap itself, nor does a tasklet; runs of the work item may overlap. The
  pending bit is cleared before the body runs. Totals at exit are three separate reads after `free_irq`.
- **Semaphore.** `up` hands the semaphore to a sleeper when there is one. The first module cannot be unloaded while an
  open is going on or while the second module, which uses its symbol, is loading or loaded.
- **Probes.** Probes of the two lists are distinct. A probe that is refused may still have been given its address. The
  rollback loop of `register_jprobe_list`, unlike its forward loop, does not skip NULL entries: with NULL entries
  only at the end it is safe, and otherwise some refusal makes it pass NULL.
- **Character devices.** The uncopied tail of a `copy_from_user` may be overwritten with anything. The machine is a
  64-bit one, so the size is an unsigned 64-bit number and `char_dev/mydynamic.c:84` compares unsigned: a position
  below zero goes to the end, and the clamp to zero on the next line never applies. (With a 32-bit `size_t` the
  comparison would be signed, and both clamps would work.) The case-mapping device answers -ENOSPC also when nothing
  was asked for.

## Model

| member | source | states |
|---|---|---|
| `MorseCode.TableIsItu` | io_port/morse_io.c:82-91 | for each letter the table's entry, unpacked from its lowest bit up, is the code of Recommendation ITU-R M.1677-1, Annex 1, Part I, section 1.1 |
| `MorseCode.UnpackPack` | io_port/morse_io.c:105-111 | repacking the bits that any code of at least 1 unpacks to gives the code back |
| `MorseCode.PackUnpack` | io_port/morse_io.c:105-111 | unpacking a packed string of dots and dashes gives the string back |
| `MorseCode.ItuDistinct` | io_port/morse_io.c:82-91 | different letters have different codes, in the table and on the air |
| `MorseCode.LettersOfOne` | io_port/morse_io.c:93-99 | a capital stands for itself, a small letter for its capital, any other byte for nothing |
| `MorseCode.LettersAppend` | io_port/morse_io.c:92-99 | the letters of a text are those of its parts, in order |
| `MorseCode.LetterOnAir` | io_port/morse_io.c:53-72 | one letter in ticks: each of its symbols in order, 60 ms of tone for a dot and 180 for a dash, 60 ms of silence after each, and 120 more at the end, each rounded down |
| `MorseCode.TransmissionIsHomomorphic` | io_port/morse_io.c:92-113 | sending s and then t is sending s followed by t |
| `MorseCode.AudibleExactlyFrom17` | io_port/morse_io.c:47-72 | sleeps rounded down to ticks keep a dot, a gap and a longer dash exactly from 17 ticks a second on; below that a unit is no tick at all |
| `MorseCode.HeardIsIdeal` | io_port/morse_io.c:53-72 | with adjacent sleeps run together, what is heard is one tone per symbol, one gap between the symbols of a letter and one longer gap after a letter |
| `MorseCode.IdealIsSpaced` | io_port/morse_io.c:53-72 | tone and silence alternate; each tone lasts a unit or a dash, each silence a unit or a unit and a pause, in ticks, at any tick rate |
| `MorseCode.UnitLengths` | io_port/morse_io.c:53-77 | when a unit is a whole number of ticks every tone and every silence is 1 or 3 units (section 2 of the Recommendation); the gap of 7 never occurs |
| `MorseCode.RoundTrip` | io_port/morse_io.c:79-114 | for every text and every rate of at least 17 ticks a second, a decoder that sees only lengths in ticks recovers exactly the letters, upper-cased and in order |
| `MorseCode.DistinguishableExactlyFrom17` | io_port/morse_io.c:47-77 | texts with different letters sound different if and only if there are at least 17 ticks a second |
| `MorseCode.TooFastToTell` | io_port/morse_io.c:47-59 | below that E and I sound alike |
| `MorseDriver.DivisorIsFloor` | io_port/morse_io.c:26 | divisor times frequency is at most 1193180, and one more would be too much |
| `MorseDriver.DivisorFits` | io_port/morse_io.c:26-55 | a minor number sounds at as many times 2000 Hz, and its divisor fits the timer's two bytes |
| `MorseDriver.Machine.Sound` | io_port/morse_io.c:23-33 | set-up command only when both gate bits are clear, then low byte and high byte of the divisor; gate bits set, the other six untouched |
| `MorseDriver.Machine.NoSound` | io_port/morse_io.c:35-40 | clears the gate bits and nothing else |
| `MorseDriver.SoundProgramsTimer` | io_port/morse_io.c:23-33 | with the gate closed the latched value is the divisor and only the gate bits change |
| `MorseDriver.Machine.SendDot` | io_port/morse_io.c:53-59 | a unit of tone, gate off, a unit of silence |
| `MorseDriver.Machine.SendDash` | io_port/morse_io.c:61-67 | three units of tone, gate off, a unit of silence |
| `MorseDriver.Machine.SendCode` | io_port/morse_io.c:105-112 | for every code in a byte the shifting loop plays exactly the bits below the leading one, lowest first, and the pause |
| `MorseDriver.Machine.SendByte` | io_port/morse_io.c:93-112 | a letter is sent, any other byte is dropped, whichever way plain char widens |
| `MorseDriver.Machine.Morse` | io_port/morse_io.c:79-114 | from any state of gate and timer, what is played is the letters before the first NUL; only the first tone depends on that state |
| `MorseReception.ReadyMeansToneSounds` | io_port/morse_io.c:23-33 | a tone sounds at its pitch exactly in the listed states of gate and timer |
| `MorseReception.RightExactlyWhenReady` | io_port/morse_io.c:25-32 | a transmission is right if and only if it is empty or the machine is ready for its first tone; all after that tone is right always |
| `MorseDriver.EachToneReprograms` | io_port/morse_io.c:23-40 | on a tape at one pitch that starts with the gate closed, each tone puts five bytes on the bus, in order: gate on, set-up command, low byte, high byte, gate off; nothing else is put there |
| `MorseDriver.TransmissionReprograms` | io_port/morse_io.c:23-114 | so over any text, in every run that finds the gate closed, each tone reprograms the timer this way and the upper six bits of the gate port never change |
| `MorseReception.DecodeNeedsSymbols` | io_port/morse_io.c:105-112 | whatever is heard, a decoder that goes by lengths gets no more dots and dashes from it than half as many as it has spans |
| `MorseReception.MutedToneIsMissed` | io_port/morse_io.c:25-32 | a text with its first tone muted does not decode to its letters, even by a receiver that waits for the first tone |
| `MorseReception.ReceivedExactlyWhenNotHalfOpen` | io_port/morse_io.c:23-114 | for every text and every state of gate and timer, reception succeeds if and only if the text has no letters or the gate's two bits were found equal |
| `MorseReception.TransmissionIsReceived` | io_port/morse_io.c:23-114 | end to end: what the driver played decodes to the letters exactly under that condition; the upper six bits are unchanged and the speaker is off |
| `BlockDisk.FitsIsLongest` | block_dev/sbd.c:65-68 | a prefix of the segments ends on the disk exactly when it is no longer than the one that is kept |
| `BlockDisk.WritesAreWhole` | block_dev/sbd.c:69-70 | segments written one by one are one write of the kept prefix |
| `BlockDisk.ReadsTakeSlice` | block_dev/sbd.c:71-72 | segments read one by one take one slice of the disk |
| `BlockDisk.SegmentsAreWhole` | block_dev/sbd.c:60-73 | for every request, any cut into segments: serving them in turn is serving the longest prefix that fits in one go |
| `BlockDriver.SbdTransfer` | block_dev/sbd.c:60-73 | one segment: copied whole if it ends on the disk, ignored otherwise |
| `BlockDriver.ServeOne` | block_dev/sbd.c:83-92 | one round of the loop, for either kind of request |
| `BlockDriver.StepKeepsOutcome` | block_dev/sbd.c:88-92 | a round on a file-system request leaves the whole queue's outcome as it was |
| `BlockDriver.StepAdvances` | block_dev/sbd.c:79-93 | and makes the requests and segments left strictly fewer |
| `BlockDriver.SbdRequest` | block_dev/sbd.c:75-94 | device bytes and memory are those of the requests served whole and in order on a flat disk; the queue is empty and each request completed once, in order, without error |
| `BlockDriver.CompletionsAt` | block_dev/sbd.c:90 | one completion for each request, in order, with error 0 |
| `BlockDriver.OtherRunGoesOn` | block_dev/sbd.c:83-87 | with a request of another kind in the queue no number of rounds ends the loop |
| `BlockDriver.OtherRequestSpins` | block_dev/sbd.c:83-87 | with such a request in hand each round ends it with -EIO once more and changes nothing else |
| `BlockDriver.HaltsExactlyOnFsRequests` | block_dev/sbd.c:78-93 | the loop ends if and only if all requests are file-system requests, and then in the outcome above |
| `BlockDriver.GatherScattered` | block_dev/sbd.c:71-72 | bytes dealt out to buffers that share no byte are all there afterwards |
| `BlockDriver.FittingRequestIsKept` | block_dev/sbd.c:65-68 | of a request that ends on the disk every segment is kept |
| `BlockDriver.ReadBack` | block_dev/sbd.c:60-73 | what one request writes another one at the same place reads back, however either is cut into segments and even if either overruns the end, as far as what is kept of both goes |
| `BlockBytes.WriteReaches` | block_dev/sbd.c:62-70 | byte i of a kept segment of a write lands 512 bytes a sector from the request's start, after the segments before it; memory stays |
| `BlockBytes.ReadReaches` | block_dev/sbd.c:62-72 | byte i of a kept segment of a read comes from there, if the buffers share no byte |
| `BlockBytes.DiskStays` | block_dev/sbd.c:65-72 | a request leaves every byte of the disk outside the stretch it writes as it was |
| `BlockBytes.MemoryStays` | block_dev/sbd.c:65-72 | and every byte of memory outside the buffers it fills |
| `BlockBytes.QueueLeavesAlone` | block_dev/sbd.c:75-94 | a whole queue leaves alone every byte of the disk that none of its writes reaches, and every byte of memory that none of its reads does |
| `BlockBytes.QueueInOrder` | block_dev/sbd.c:78-93 | requests take effect in the order of the queue |
| `DeferredIrq.StepKeepsInv` | irq/irq_delayed.c:19-50 | every micro-step keeps the ledger of interrupts, schedule calls, pending bits, runs and timestamps |
| `DeferredIrq.RunAddsUp` | irq/irq_delayed.c:19-50 | clock, counters, schedule calls and runs of every state are the numbers of ticks, interrupts, counting steps, schedule calls and starts in the run that led to it |
| `DeferredIrq.StampIsTime` | irq/irq_delayed.c:43 | what an interrupt writes is its time: the number of ticks before the write |
| `DeferredIrq.EveryInterruptStamped` | irq/irq_delayed.c:40-50 | at rest every interrupt of the run has written its time |
| `DeferredIrq.NoLostWork` | irq/irq_delayed.c:40-50 | in every run that comes to rest, the last run of tasklet and of work item began after all schedule calls, saw all interrupts, and read the time at which the last of them wrote |
| `DeferredIrq.CoalescingAccount` | irq/irq_delayed.c:19-50 | in every reachable state counter, uncounted runs and pending bit together never exceed the interrupts counted |
| `DeferredIrq.TotalsAtExit` | irq/irq_delayed.c:64-69 | bh and wq printed at exit never exceed th, whatever still runs between the three reads |
| `DeferredIrq.InternalStepsRunOut` | irq/irq_delayed.c:19-50 | carrying on what has begun makes a measure fall |
| `DeferredIrq.QuiescenceIsReached` | irq/irq_delayed.c:19-50 | from every state some run without a further interrupt reaches quiescence |
| `DeferredIrq.QuiescentExactlyWhenNothingLeft` | irq/irq_delayed.c:19-50 | a state is quiescent if and only if nothing that has begun can be carried on |
| `DeferredIrq.EveryScheduleRunsOut` | irq/irq_delayed.c:19-50 | every run without interrupts, in whatever order, takes no more internal steps than its start has left to do, and can only come to rest in quiescence |
| `SharedSemaphore.StepKeepsLedger` | synchronization/sema_mod1.c:11-21 | each step of opens, load, unload and exit keeps the conservation law |
| `SharedSemaphore.LedgerHolds` | synchronization/sema_mod1.c:11-51 | in every interleaving: count, opens holding it and the second module's hold add up to refused opens past their `up`, and one after exit |
| `SharedSemaphore.LoadNeedsRefusedOpen` | synchronization/sema_mod2.c:10-20 | the second module holds the semaphore only after some refused open has raised it |
| `SharedSemaphore.LoadHoldsExactlyWhenServed` | synchronization/sema_mod2.c:13-20 | a load that goes on has the semaphore if and only if it found one available or some open has called `up` since; otherwise it still waits |
| `SharedSemaphore.UpServesLoad` | synchronization/sema_mod2.c:13-20 | the next `up` of an open serves a waiting load |
| `SharedSemaphore.InterruptedLoadLeavesNothing` | synchronization/sema_mod2.c:13-17 | a waiting load that a signal interrupts leaves everything as it was |
| `SharedSemaphore.RefusalsAreBounded` | synchronization/sema_mod1.c:11-21 | with at most k opens in flight at most k hold the semaphore, at most k + 1 are ever refused (none for k = 0), and count stays within that while the first module is loaded |
| `SharedSemaphore.AtMostTwoRefusals` | synchronization/sema_mod1.c:11-21 | if opens do not overlap at most two are ever refused, and count stays at most 2 while the first module is loaded |
| `SharedSemaphore.HoldersBoundIsExact` | synchronization/sema_mod1.c:11-21 | with at most k opens in flight, m bounds the opens holding it at once in every run if and only if k <= m |
| `SharedSemaphore.ExcludesExactlyOneAtATime` | synchronization/sema_mod1.c:11-21 | so the semaphore excludes exactly when at most one open is in flight |
| `SharedSemaphore.RefusalBoundIsExact` | synchronization/sema_mod1.c:11-21 | and m bounds the refusals in every such run if and only if k + 1 <= m (or k = 0) |
| `SharedSemaphore.NoMutualExclusion` | synchronization/sema_mod1.c:11-21 | without a limit on opens in flight there is no bound: for every n some run has n opens holding it at once |
| `SpinDead.StepKeepsInv` | synchronization/spindead.c:47-60 | every step keeps: exactly the lock's holder is inside, and count is the number past the increment |
| `SpinDead.MutualExclusion` | synchronization/spindead.c:50-57 | in every run, with whatever wake-ups, at most one thread is inside and count is the number that entered |
| `SpinDead.NobodyReturns` | synchronization/spindead.c:47-78 | without a wake-up after the start no thread returns and at most one enters |
| `SpinDead.DeadlockShape` | synchronization/spindead.c:47-78 | such a run can only come to rest with one thread asleep holding the lock and all others waiting for it |
| `SpinDead.EverybodyReturns` | synchronization/spindead.c:47-60 | a run has at most seven steps a thread, and when no step is left every thread has returned with count N |
| `SpinDead.ReturnExactlyWhenWoken` | synchronization/spindead.c:47-60 | a run that could go on only by a wake-up has every thread returned if and only if there was a wake-up in it: a single one decides |
| `Hex.ParsePrint` | memory/kmalloc_rand.c:20-25 | zero-padded hexadecimal of any width reads back |
| `Hex.ByteText` | memory/kmalloc_rand.c:25 | a byte prints as its high and its low digit, in small letters |
| `Hex.PrintDigit` | memory/kmalloc_rand.c:20 | digit j from the right has place value 16 to the power j |
| `HexDump.Snprintf` | memory/kmalloc_rand.c:20 | what is kept, where the NUL goes and what is reported, truncation included |
| `HexDump.FillCells` | memory/kmalloc_rand.c:23-28 | sixteen columns appended, blank past the end of the data |
| `HexDump.FillAscii` | memory/kmalloc_rand.c:32-35 | one character a byte appended, dots for what does not print |
| `HexDump.FillLine` | memory/kmalloc_rand.c:17-38 | what is printed of the 128-byte buffer is the full line: nothing is cut short or left from the line before |
| `HexDump.Dump` | memory/kmalloc_rand.c:10-40 | the lines printed, in order, for every length for which the loop ends |
| `HexDump.DumpReadsBack` | memory/kmalloc_rand.c:10-40 | for every buffer the hex columns give its bytes back, in ceil(len/16) lines with offsets 0, 16, 32 and so on |
| `HexDump.LineFrame` | memory/kmalloc_rand.c:20-36 | a line is the offset, two spaces, 48 characters of hex columns, a space, and between bars a character for each byte |
| `HexDump.LineCell` | memory/kmalloc_rand.c:23-28 | hex column j: the two digits of the byte and a space, blank past the data |
| `HexDump.LineChar` | memory/kmalloc_rand.c:32-35 | character j: the byte if it prints, a dot otherwise |
| `HexDump.EndsExactlyBelowTop` | memory/kmalloc_rand.c:16 | with a 64-bit index the loop ends if and only if the length is at least 16 below the range of `size_t` |
| `Guid.SprintByte` | kprobes/efi_reboot_monitor.c:119 | two digits and a NUL, the rest of the buffer untouched |
| `Guid.CountDown` | kprobes/efi_reboot_monitor.c:118-121 | bytes from the highest index down, two digits each, after what the buffer held |
| `Guid.CountUp` | kprobes/efi_reboot_monitor.c:133-136 | bytes from the lowest index up |
| `Guid.SetGuid` | kprobes/efi_reboot_monitor.c:114-142 | the 37-byte buffer holds the 36 characters of the UEFI Specification, Appendix A: three little-endian fields, then bytes in order, and a NUL |
| `Guid.TextIsBytewise` | kprobes/efi_reboot_monitor.c:118-141 | that form, defined by numbers, is the byte order the loops print |
| `Guid.TextSpelled` | kprobes/efi_reboot_monitor.c:118-141 | the text spelled out: bytes 3 to 0, 5 and 4, 7 and 6, 8 and 9, 10 to 15, two digits each, with dashes between |
| `Guid.TextReadsBack` | kprobes/efi_reboot_monitor.c:114-142 | for all 16 bytes the text reads back |
| `Probes.Kernel.Undo` | kprobes/efi_reboot_monitor.c:310-311 | takes out what was registered, last first, and meets a fault exactly if a NULL is among it |
| `Probes.Kernel.RegisterJprobeList` | kprobes/efi_reboot_monitor.c:301-323 | the whole list registered, or nothing of it left, exactly by whether the kernel accepts all |
| `Probes.Kernel.RegisterKprobeList` | kprobes/efi_reboot_monitor.c:341-361 | the same for the kprobes |
| `Probes.Kernel.UnregisterList` | kprobes/efi_reboot_monitor.c:325-339 | exactly the probes of the list that have an address are taken out, in order, without a fault |
| `Probes.Kernel.Init` | kprobes/efi_reboot_monitor.c:377-393 | fails exactly when some probe is refused, then leaves registered what was before, and says which probes were taken out in which order |
| `Probes.Kernel.Exit` | kprobes/efi_reboot_monitor.c:395-400 | after a successful start takes out every probe, the kprobes first |
| `Probes.EachOnce` | kprobes/efi_reboot_monitor.c:363-375 | array order names each probe exactly once |
| `Probes.ForwardInOrder` | kprobes/efi_reboot_monitor.c:329-338 | of two probes of a list the one with the lower index goes first, with those between them between |
| `Probes.RollbackReverses` | kprobes/efi_reboot_monitor.c:310-311 | a rollback goes through what was registered in the opposite order |
| `Probes.TrailingNullsAreSafe` | kprobes/efi_reboot_monitor.c:285-299 | with NULL entries only at the end no refusal makes the rollback pass NULL |
| `Probes.InnerNullIsUnsafe` | kprobes/efi_reboot_monitor.c:305-311 | with a NULL before some probe, the refusal of that probe does |
| `Probes.SafeExactlyWhenNullsLast` | kprobes/efi_reboot_monitor.c:305-311 | the rollback never passes NULL, whatever is refused, if and only if all NULL entries are at the end |
| `UserMemory.CopyFromUser` | char_dev/mydynamic.c:61 | a prefix arrives, its uncopied tail is anything, the rest of the buffer stays |
| `FixedFile.WritesKeepStream` | char_dev/mydynamic_udev.c:80-99 | any run of writes, cut short anywhere: before the position stands what the accepted bytes, joined in order, map to |
| `FixedFile.ReadsReturnData` | char_dev/mydynamic.c:37-50 | any run of reads returns the bytes it passes over |
| `FixedFile.WritesJoin` | char_dev/mydynamic_udev.c:80-99 | a run of writes without faults is one write of the joined bytes, up to the end |
| `FixedFile.ChunksDoNotMatter` | char_dev/mydynamic_udev.c:80-99 | so runs that accept the same bytes, however chunked and cut short, agree on the position and all before it, and runs without faults that offer the same bytes leave the same file |
| `FixedFile.WriteThenRead` | char_dev/mydynamic.c:37-66 | from where writes began, reads return what the accepted bytes map to, as far as both go |
| `SeekDevice.Read` | char_dev/mydynamic.c:37-50 | the step of the fixed-size file, within bounds |
| `SeekDevice.Write` | char_dev/mydynamic.c:52-66 | the step of the fixed-size file, within bounds |
| `SeekDevice.Lseek` | char_dev/mydynamic.c:68-89 | the new position or -EINVAL, with C's unsigned comparison and wrapped sums |
| `SeekDevice.SeekReaches` | char_dev/mydynamic.c:71-85 | origin 0 counts from the start, 1 from the position, 2 from the end; a place outside the file becomes the end; no other origin is known |
| `SeekDevice.ClampsExactlyFromZeroUp` | char_dev/mydynamic.c:84-85 | the clamping to both ends that the code spells out happens if and only if the position asked for is not negative; a negative one goes to the end |
| `SeekDevice.SeekBelowZeroGoesToTheEnd` | char_dev/mydynamic.c:84-85 | a concrete such call |
| `SeekDevice.RunKeepsFile` | char_dev/mydynamic.c:37-89 | in every run the position stays in the file and bytes no write tried to replace stay |
| `SeekDevice.WrittenComesBack` | char_dev/mydynamic.c:37-89 | writes in any chunks, a seek back, reads in any chunks: the same bytes |
| `CaseDevice.CaseOfIs` | char_dev/mydynamic_udev.c:59-75 | minor 1 turns A to Z into a to z, minor 2 the other way round, any other minor changes nothing |
| `CaseDevice.Convert` | char_dev/mydynamic_udev.c:67-79 | the given stretch is mapped in place, the rest untouched |
| `CaseDevice.MyRead` | char_dev/mydynamic_udev.c:43-58 | the step of the fixed-size file, and -ENOSPC when there is nothing to copy |
| `CaseDevice.MyWrite` | char_dev/mydynamic_udev.c:80-99 | the step of the fixed-size file with the minor's mapping: copy, convert what was copied, advance |
| `CaseDevice.WritesKeepCase` | char_dev/mydynamic_udev.c:59-99 | after any run of writes the bytes before the position are the accepted ones in the minor's case, and the position is their number |

## Left out

- HexDump.Dump: lengths less than 16 below the range of `size_t` are excluded, because there the loop does not end (`EndsExactlyBelowTop`).
- BlockDriver.SbdRequest: is stated for file-system requests whose byte addresses fit `unsigned long` and for a logical block size of 512, the driver's default; `HaltsExactlyOnFsRequests` says what happens with other requests.
- BlockDriver.ServeOne: a request that is not a file-system request is ended once a round, as the code does; what the block layer does when a request is ended twice is not modelled.
- Probes.Kernel.RegisterKprobeList: an array of kprobes with NULL entries is excluded, because the code reads through every entry.
- MorseDriver.Machine.Morse: sleeps that a signal cuts short are not modelled.
- SharedSemaphore, SpinDead and DeferredIrq are state machines over values, not classes: their point is interleaving, which one method body cannot express. They assume sequential consistency.
- SharedSemaphore models the load, the load interrupted by a signal, and the unload of the second module; a first-module start interrupted by a signal ends the story and is not modelled.
- Counters and the semaphore count are unbounded; wrap-around of an `int` is not modelled.
- Interleaved calls through several open files on one shared buffer of the character devices, and calls with positions that do not come from the module's own operations.
- The counters that tasklet and work function read only to print them.
- `m_write` in `io_port/morse_io.c`: its allocation and terminator; the transmitter starts from a terminated string.
- `sbd_init`, `sbd_exit`, `sbd_getgeo`, and the registration of devices, classes and drivers everywhere.
- `set_efi_name` in `kprobes/efi_reboot_monitor.c`, and what the probes do when they fire.
- Log text other than the lines of the dump; `isprint` is the kernel's Latin-1 table.
- The failure path of `kthread_create` in `synchronization/spindead.c`: the model starts from the threads that were created.
- The remaining modules (procfs, timers, networking, PCI, sysrq, slab and module basics): thin use of library calls.
