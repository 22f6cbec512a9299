# Verified model of iotrace

iotrace follows every thread of a program with ptrace. For each tracee thread a tracer thread
of its own sees the system calls at their start and at their end, keeps a table of the open
file descriptors, and charges time and bytes to file names. When a tracee exits, its tracer
merges what it collected into the main tables, which become the report.

This project models that logic below the ptrace calls and proves what the report and the
descriptor tables are worth:

- **Statistics** (`file_stat*.dfy`, `syscall_stat.dfy`). The records and tables are heap objects
  that are updated in place; their methods are specified by functions on values. Merging is a
  homomorphism from sequences of charges to tables, so a merged table is the table of all
  charges, and the bounds that are proved of every table hold of merged ones too. Counters
  wrap around at 2^64. Histogram keys are `ssize_t` but are hashed and compared as `int`, so
  sizes with equal low 32 bits share a slot; where that matters the exact condition is stated.
- **Descriptor tables** (`fd_table.dfy`, `fd_history.dfy`). A table is an index over the history
  of its edits; a walk back through the history, which keeps no table, gives the same answers.
- **Handlers** (`read_string.dfy`, `syscalls.dfy`, `handlers.dfy`, `handler_laws.dfy`,
  `tracer.dfy`). The call handlers write a thread's temporaries, the return handlers read them
  and edit the tables. They are proved against the meaning of a system call in terms of its
  registers alone, then chained into the trace loop and the final merge. `numbers.dfy` spells
  that meaning out by system call number, register and flag bit.
- **Sharing** (`thread_temporaries.dfy`, `sharing*.dfy`). Descriptor tables, reference counts and
  mutexes are shared by tracer threads whose tracees share theirs. `thread_temporaries.dfy` is
  the code with one operation at a time. `sharing.dfy` is a state machine in which every access
  to shared memory is a step, with a program counter per thread, over a heap of cells that are
  allocated or freed. The code has a window: a child's pointers are copied before its thread
  raises the count. The guard that closes the window is proved to be the weakest one that keeps
  the invariant, and runs that crash without it are given from every state in the window.
  `sharing_progress.dfy` proves that the guard never deadlocks.
  `sharing_history.dfy` carries history and name lengths over to shared and copied tables.
- **Refinement** (`kernel.dfy`, `atomic_events.dfy`, `refinement.dfy`, `disagreements.dfy`). A
  reference kernel has open file descriptions, descriptors that refer to them, and file tables
  that processes share. For every event it is proved exactly when the tracer, run on the state
  machine of `sharing.dfy`, still agrees with it afterwards. The cases in which it does not are
  shown by concrete system calls. It is also proved exactly when a call crashes the tracer.
- **Fork, merge and join** (`fork_join*.dfy`, `traces.dfy`). The main thread polls a count of
  active threads and joins those in a list. In every interleaving, when it has read zero all
  threads are done for good and the report is that of one collector that saw all events; and
  every run can get there.

`words.dfy`, `maps.dfy`, `hash_iter.dfy`, `arrangements.dfy` and `options.dfy` hold machine
integers, facts about maps and sequences, and iteration in any order.

Times, registers, results and the readable memory of the tracee are parameters. Rates are exact
reals; a call that took no time at all has an infinite rate, as in IEEE arithmetic.

What the code does differently from what its report suggests, as proved here: the shortest
duration and the lowest rate start from a finite value and are wrong exactly if all calls
exceed it (`MinimumIsExact`, `MinimumRateIsExact`); calls that move nothing count towards the
time but not towards the minimum rate, which can end up above the mean
(`MeanAboveMinimumExactly`); a `dup`, `fcntl` or `TIOCGPTPEER` of a descriptor that is not
open, though harmless to the tracee, takes the tracer down (`CrashesExactly`); close-on-exec is
missed in `dup3`, `socketpair`, `TIOCGPTPEER` and `FIOCLEX`; a path of 256 or more characters is cut
to 255, so files whose paths begin alike share their statistics, and so is the name of a
pseudoterminal's peer if it has no room for its suffix; the second of a pair of descriptors
is missed at the end of a mapping, because it is read as a whole word; an `execve` or `F_SETFD`
that fails is taken for one that succeeded; `fork`, `vfork` and `clone3` are read as if they had
flags in a register (`AgreementKeptExactly`).

## Model

| member | source | states |
|---|---|---|
| ReadStrings.ReadString | src/syscall_handler.c:70-89 | Succeeds exactly if every word up to the one with the first NUL, or up to the limit, is readable; then the buffer is the words read followed by what was there, cut at the last character if no NUL came; never writes past the words that cover the limit. |
| ReadStrings.SucceedsExactly | src/syscall_handler.c:70-89 | A read of up to a multiple of eight bytes succeeds if and only if all of them are readable, or some NUL is among them and everything up to the end of its word is readable: nothing after the word with the NUL matters. |
| ReadStrings.FilledHoldsString | src/syscall_handler.c:70-89 | For a limit that is a multiple of the word size, the buffer holds as a C string exactly the tracee's string cut to one character less than the limit, whatever was in the buffer. |
| Syscalls.ElapsedIsDifference | src/syscall_handler.c:99-111 | The unsigned difference of two clock readings is the true elapsed time even if one of the 64-bit nanosecond counts wraps around. |
| Syscalls.Low32KeepsFlags | src/syscall_handler.c:118-148 | Truncating a flags register to an int keeps the close-on-exec bits and CLONE_FILES. |
| Handlers.ThreadTmps.HandleSyscallCall | src/syscall_handler.c:490-563 | The call side: writes exactly the temporaries that the kind of call needs, and gives up only on an open whose name cannot be read. |
| Handlers.ThreadTmps.HandleSyscallReturn | src/syscall_handler.c:565-642 | The return side: the descriptor table goes through the edits of the call, the files are charged by name as of before the edits, and other calls are counted, each with the elapsed time. |
| Handlers.ThreadTmps.HandleFileReturn | src/syscall_handler.c:139-379 | The same for the calls that file statistics are kept of. |
| Handlers.ThreadTmps.HandleUnconsideredReturn | src/syscall_handler.c:392-473 | The same for dup, fcntl, ioctl and execve; all but execve leave table and count where they are. |
| Handlers.ThreadTmps.HandleExecveReturn | src/syscall_handler.c:431-453 | Undisturbed: a shared table is left behind unchanged with a count lower by one, the thread gets a copy of its own with count one, and in any case its close-on-exec entries are gone. |
| HandlerLaws.HandlersFollowRegisters | src/syscall_handler.c:118-487 | Edits, charges and elapsed time are determined by the call's own registers, memory and clock readings, whatever was saved before. |
| HandlerLaws.NoStaleTemporaries | src/syscall_handler.c:118-487 | Two threads that differ in nothing but their saved temporaries handle every call alike. |
| Numbers.OpensByNumber | src/syscall_handler.c:118-379 | By number: open has name and flags in its first and second register, openat in its second and third; an open succeeds in being handled if and only if the name can be read within 256 bytes, is charged under the name as an open in any case, and enters the descriptor with its close-on-exec flag if the result is not negative; likewise for socket, accept, accept4 and the epoll and eventfd calls, each under its fixed name and with its own flags register. |
| Numbers.TransfersByNumber | src/syscall_handler.c:490-642 | By number: the five reading and five writing calls are charged as reads and writes of their result, close as a close that drops its descriptor, each with the whole elapsed time and to the descriptor in the first register. |
| Numbers.PairsByNumber | src/syscall_handler.c:225-299 | By number: pipe, pipe2 and socketpair that return 0 enter the two descriptors found in memory and charge an open of half the time to each end; otherwise they do nothing. |
| Numbers.DupsByNumber | src/syscall_handler.c:384-399 | By number: dup, dup2 and dup3 duplicate without the flag, unless onto themselves or from a negative descriptor, even if they fail. |
| Numbers.FcntlByNumber | src/syscall_handler.c:402-425 | By number and command: fcntl duplicates for commands 0 and 1030, the latter with the flag, and sets the flag for command 2, unless the result is -1. |
| Numbers.OthersByNumber | src/syscall_handler.c:431-473 | By number: ioctl makes a peer for request 0x5441, execve drops what is flagged, and no other number edits the table or charges a file. |
| Numbers.CountersOfTrace | src/unconsidered_syscall_stat.c:56-65 | After any trace, the counters of a number that is not one of the listed file calls are the number of its calls and the time they took, modulo 2^64; the file calls have no counters. |
| Numbers.BitsMeanFlags | src/syscall_handler.c:148-158 | The flags that are tested are the lowest, the eleventh and the twentieth bit. |
| HandlerLaws.ChargedAsWhatItIs | src/syscall_handler.c:139-379 | A charge is an open exactly for the calls that open something and a close exactly for close; a call's charges share its time evenly, so each end of a pipe or socketpair gets half; and only those are charged differently if they fail. |
| HandlerLaws.ChargedByHistory | src/syscall_handler.c:160-218 | A close, read or write is charged once, as what it is and with its result, under the name that a walk back through the history of the table finds for its descriptor, whoever made the edits in it, and under "NULL" if it finds none. |
| HandlerLaws.CollectedStatistics | src/syscall_handler.c:565-642 | What a thread collects over a trace are the tables of the sequence of its charges and of the sequence of its unconsidered calls. |
| HandlerLaws.TimeIsConserved | src/syscall_handler.c:232-299 | Over any trace all charged time adds up to all elapsed time less the odd nanosecond of successful pipes and socketpairs and all of failed ones, modulo 2^64. |
| HandlerLaws.CallsAreConserved | src/syscall_handler.c:565-642 | Over any trace charges and unconsidered calls together are as many as the calls, but for one more for every pipe or socketpair that succeeds and one less for every one that fails. |
| Tracers.HandleSyscall | src/main.c:178-185 | Calling the two dispatchers one after the other performs one step of the register-level meaning. |
| Tracers.Trace | src/main.c:173-186 | The trace loop collects exactly what the trace means, or stops at the first unreadable name; a last call that is entered and never returns adds nothing. |
| Tracers.StartTracer | src/main.c:170-197 | The tracer's main tables end combined with the tables of its trace; if it gives up, they are untouched. |
| FdTables.SlaveNameFits | src/fd_table.c:83-92 | A slave name fits the buffer again and is the source name followed by " slave", or, if that has more than 248 characters, the source name less its last ten followed by "... slave". |
| FdTables.MakeSlaveName | src/fd_table.c:83-92 | The strcpy sequence on a fixed buffer stays in bounds and builds that name. |
| FdTables.FdTable.constructor | src/fd_table.c:61-69 | A created table holds stdin, stdout and stderr. |
| FdTables.FdTable.InsertDup | src/fd_table.c:78-96 | The duplicate gets the original's name, or the slave name of it, and the given flag; nothing else changes. |
| FdTables.FdTable.SetCloexec | src/fd_table.c:98-104 | Sets the flag of the one entry in place. |
| FdTables.FdTable.Remove | src/fd_table.c:106-111 | Removes the one entry and tells whether it was there. |
| FdTables.FdTable.RemoveCloexec | src/fd_table.c:113-126 | Whatever the iteration order, exactly the entries without close-on-exec are left. |
| FdTables.FdTable.DeepCopy | src/fd_table.c:128-145 | Whatever the iteration order, the copy shows the same and shares no entry with the original. |
| FdHistory.TableIndexesHistory | src/fd_table.c:43-154 | On every descriptor the table agrees, in name and flag, with a resolver that only walks back through the history. |
| FdHistory.DuplicateOutlivesOriginal | src/fd_table.c:78-111 | Closing, reopening or anything else done to the original never changes what a duplicate of any kind stands for; a close-on-exec one lasts exactly until the next exec. |
| ThreadTemporaries.ThreadTmpsTable.StartData | src/main.c:98-114 | A new thread is given its parent's table and count if CLONE_FILES is set, and otherwise a copy that shares nothing and no count. |
| ThreadTemporaries.ThreadTmpsTable.Insert | src/thread_temporaries.c:53-74 | Raises the given count, or makes one of one; afterwards every count is again the number of threads that point to it. |
| ThreadTemporaries.ThreadTmpsTable.Remove | src/thread_temporaries.c:37-46 | Frees exactly if no thread is left that shares the count; every other count stays right. |
| ThreadTemporaries.ThreadTmpsTable.HandleExecveReturn | src/syscall_handler.c:431-453 | Afterwards the thread has count one and shares its table with nobody, all counts are right, and all other threads see what they saw. |
| FileStats.IncrRw | src/file_stat.c:130-154 | The step-by-step update of a read or write record gives the specified record. |
| FileStats.FileStatTable.IncrOpen | src/file_stat.c:104-115 | Charges an open to the file's record, made first if need be; no other file's record changes. |
| FileStats.FileStatTable.IncrRead | src/file_stat.c:156-161 | Charges a read likewise. |
| FileStats.MergeBlocks | src/file_stat.c:192-211 | Whatever the iteration order, the histogram becomes the slotwise sum, each slot keeping the size it stored first. |
| FileStats.FileStatTable.Merge | src/file_stat.c:213-238 | Whatever the iteration order, the table becomes the combination of the two and the other table stays apart. |
| FileStatLaws.MergeIsHomomorphism | src/file_stat.c:213-238 | Merging table(ys) into table(xs) gives table(xs + ys), sentinels and wrap-around included. |
| FileStatLaws.FreshIsUnit | src/file_stat.c:36-84 | A fresh table is a unit of merging on both sides. |
| FileStatLaws.MergeAssociates | src/file_stat.c:170-238 | Merging is associative. |
| FileStatLaws.MergeCommutesExactly | src/file_stat.c:192-238 | Merging commutes if and only if histogram slots that both tables have store the same size in both. |
| FileStatLaws.OrderIndependent | src/file_stat.c:104-238 | Tables of the same charges in different orders differ at most in which of several sizes with equal low 32 bits a slot stores. |
| FileStatOrder.OrderIndependentExactly | src/file_stat.c:104-238 | All orders of the same charges give the same table if and only if no two reads, and no two writes, of one file have different sizes with equal low 32 bits. |
| FileStatOrder.FittingSizesOrderIndependent | src/file_stat.c:144-153 | If all sizes fit in an int, the order does not matter. |
| FileStatBounds.RecordOfFile | src/file_stat.c:104-168 | A file's four records depend on the calls of their own kind on that file alone. |
| FileStatBounds.RecordedNames | src/file_stat.c:78-102 | A file has a record if and only if it was charged with a call, but for "NULL", which always has one. |
| FileStatBounds.CountersWrap | src/file_stat.c:104-128 | Count and total of opens or closes are their number and the sum of their durations, modulo 2^64. |
| FileStatBounds.TotalsWrap | src/file_stat.c:130-154 | Total time and total bytes of reads or writes are the sum of all durations and of all positive results, modulo 2^64. |
| FileStatBounds.Extremes | src/file_stat.c:104-128 | Every charged duration lies between minimum and maximum, which are durations that occurred, but for the sentinel. |
| FileStatBounds.MinimumIsExact | src/file_stat.c:32-40 | The minimum is a duration that occurred if and only if some call took at most 9999999999999 ns. |
| FileStatBounds.MeanBetweenExtremes | src/file_stat.c:104-128 | Absent overflow, count times minimum <= total <= count times maximum, and minimum <= maximum once there is a call. |
| FileStatBounds.RateExtremes | src/file_stat.c:130-143 | The rate of every call that moved bytes lies between minimum and maximum, which are such rates or still initial values. |
| FileStatBounds.MinimumRateIsExact | src/file_stat.c:32-47 | The minimum rate is that of a call that moved bytes if and only if some such call moved at most 9999999999999 bytes per second. |
| FileStatBounds.OverallRateBetweenExtremes | src/file_stat.c:130-143 | Absent overflow, total bytes over total time is at most the maximum rate, although failed calls count towards the time, and at least the minimum rate if every call moved bytes. |
| FileStatBounds.MeanAboveMinimumExactly | src/file_stat.c:130-143 | Absent overflow, total bytes over total time is at least the minimum rate throughout a sequence of calls if and only if every call moves bytes or takes no more time than the record before it leaves room for. |
| FileStatBounds.FailedCallBreaksMinimum | src/file_stat.c:130-143 | A concrete case: ten bytes in a second, then a failed call of a second. |
| FileStatBounds.HistogramCountsCalls | src/file_stat.c:144-153 | The slot counts add up to the number of completed calls. |
| FileStatBounds.SlotsAreExact | src/file_stat.c:144-153 | There is a slot for the low 32 bits of every size that occurred and for no others; it counts the calls that fall into it, modulo 2^64, and stores the size of the first of them. |
| FileStatBounds.HistogramAgreesExactly | src/file_stat.c:130-154 | Total bytes equal the sum of size times count over positive sizes, throughout, if and only if no call lands in a slot whose stored size moves a different number of bytes. |
| FileStatBounds.FittingSizesAgree | src/file_stat.c:144-153 | If sizes fit in an int, keys are the sizes and total and histogram agree. |
| FileStatBounds.AliasedSizesDisagree | src/file_stat.c:51-52 | Sizes 1 and 2^32 + 1 share a slot and make them disagree. |
| SyscallStats.SyscallStatTable.Incr | src/unconsidered_syscall_stat.c:56-65 | Counts a call in its record, made first if need be. |
| SyscallStats.SyscallStatTable.Merge | src/unconsidered_syscall_stat.c:67-85 | Whatever the iteration order, the table becomes the combination of the two. |
| SyscallStats.MergeIsHomomorphism | src/unconsidered_syscall_stat.c:56-85 | Merging table(ys) into table(xs) gives table(xs + ys). |
| SyscallStats.OrderIndependent | src/unconsidered_syscall_stat.c:56-85 | The counters do not depend on the order of the calls. |
| SyscallStats.CountersExact | src/unconsidered_syscall_stat.c:56-85 | The counters of a system call are the number of its calls and the sum of their durations, modulo 2^64, and there is an entry if and only if it was called; with MergeIsHomomorphism this holds of merged tables too. |
| SharingSafety.InitInv | src/main.c:218-219 | The state after the main table is created meets the invariant. |
| SharingSafety.StepKeepsInv | src/thread_temporaries.c:37-74 | Every guarded step keeps the invariant: counts are exact, threads that share share everything, what one owns nobody else uses, nothing is orphaned. |
| SharingSafety.GuardedRunsAreSafe | src/thread_temporaries.c:37-74 | In no guarded interleaving of any length is a table, count or mutex used after it was freed, and every live count is the number of threads that hold it. |
| SharingSafety.NothingLeaks | src/thread_temporaries.c:37-46 | Nothing is freed twice, and when all threads are done all that was ever allocated has been freed once, including on the exec path that frees the table and reuses count and mutex. |
| SharingProgress.UnwindingEnds | src/thread_temporaries.c:37-46 | Under the guard, however the threads are scheduled, execs, registrations and exits come to an end after a bounded number of steps, and can stop only when all threads are gone: waiting for pending children never holds all of them up. |
| SharingProgress.EverythingCanBeFreed | src/thread_temporaries.c:37-46 | Every guarded run can be continued to one after which all threads are gone, nothing has crashed and all that was ever allocated has been freed once. |
| SharingRaces.GuardIsExact | src/main.c:98-114 | From a good state a step leads to a good state if and only if it respects the guard: no count of one is given up, or taken for sole ownership by an exec, while a child for it is pending. |
| SharingRaces.UnguardedExitCrashes | src/thread_temporaries.c:37-74 | From every good state in the window, the exit of the last holder makes the child raise a freed count. |
| SharingRaces.UnguardedExecCrashes | src/syscall_handler.c:437-453 | From every good state in the window, the exec path that frees the old table makes the child work on a freed table. |
| SharingRaces.UnguardedExecKeepsSharing | src/syscall_handler.c:433-453 | From every good state in the window, an exec that reads a count of one strips the table for both of its close-on-exec entries and leaves it shared. |
| SharingRaces.RaceFromTheStart | src/main.c:98-114 | The shortest crashing run: one clone, and the parent exits first. |
| SharingRaces.ExecWindowIsReached | src/main.c:98-114 | A guarded run from the start reaches the window of an exec: of two sharers one has copied the table, the other has cloned and exited. |
| SharingExec.TakesOver | src/syscall_handler.c:433-436 | A sole holder takes over its table as it is, a sharer as it is when copied. |
| SharingExec.StaysMidExec | src/syscall_handler.c:431-453 | Whatever other threads do meanwhile, an exec keeps what it took over. |
| SharingExec.ExecUnshares | src/syscall_handler.c:431-453 | When the exec ends its caller holds, with count one and shared with nobody, exactly the entries it took over that are not close-on-exec, in every race with clones, exits and other execs. |
| SharingExec.OthersKeepTheirTables | src/syscall_handler.c:431-453 | No step of an exec changes a table that another thread uses. |
| SharingExec.LateOpenIsTakenOver | src/syscall_handler.c:433-436 | What a sharer opens between the exec and its copying is copied too, and outlasts the exec if and only if it is not close-on-exec. |
| SharingHistory.TablesFollowLineages | src/fd_table.c:43-154 | In any run and interleaving, guarded or not, a table holds for every descriptor what a walk back through its lineage finds: the edits of all its sharers, and before those the edits its original had seen when it was copied at a clone or an exec. |
| SharingHistory.ChargedByLineage | src/syscall_handler.c:160-218 | In any run and interleaving, a close, read or write is charged under the name that a walk back through the lineage of its thread's table finds, and under "NULL" if it finds none. |
| SharingHistory.NamesFitInAllTables | src/fd_table.c:78-96 | In any run that enters files under names that fit the buffer, every name in every table fits it, so the copying of a name into 256 bytes is in bounds, whether tables are shared, inherited or copied. |
| AtomicEvents.EditsPerformed | src/syscall_handler.c:139-473 | On the shared tables, a handler's edits take the table of all its sharers through exactly the history they make up, or crash if that looks up a missing entry. |
| AtomicEvents.ExecPerformed | src/syscall_handler.c:431-453 | The whole exec sequence, undisturbed, leaves the caller alone with its stripped table and everybody else as before. |
| AtomicEvents.ClonePerformed | src/main.c:98-114 | A clone and its registration, undisturbed, give the child its parent's table or a copy that is its alone. |
| AtomicEvents.ExitPerformed | src/thread_temporaries.c:37-46 | An undisturbed exit is seen by nobody else. |
| Kernels.OpenedNameIsCut | src/syscall_handler.c:118-137 | The name the tracer has for an open is the whole path if that has fewer than 256 characters, and otherwise its first 255. |
| Refinement.CallKeptExactly | src/syscall_handler.c:118-473 | For every system call but execve, after the tracer's edits the table shows the caller's descriptors, names and flags as the kernel has them if and only if the call is one the tracer gets right. |
| Refinement.CrashesExactly | src/fd_table.c:80-103 | A system call takes the tracer down if and only if it is an open whose name cannot be read, or a dup, fcntl or TIOCGPTPEER, successful or not, that is looked up and not in the table. |
| Refinement.AgreementKeptExactly | src/syscall_handler.c:118-487 | For any system call, clone, clone3, fork, vfork or exit in an agreeing state: all threads agree again on all non-negative descriptors, in name and flag, share exactly what their processes share, and the tracer is alive, if and only if the event is one the tracer gets right. |
| Refinement.BootedAgrees | src/fd_table.c:61-69 | At the start tracer and kernel agree. |
| Refinement.TracerRefinesKernel | src/main.c:98-199 | From the start and over runs of any length, tracer and kernel agree at every point if and only if every event is one the tracer gets right. |
| Refinement.ChargedUnderKernelName | src/syscall_handler.c:160-218 | While they agree, a descriptor is charged under the whole name its open file description was opened as, however it was duplicated or inherited, and under "NULL" if it is not open. |
| Refinement.ChargedAsOpened | src/syscall_handler.c:139-379 | A successful call that opens files is charged under the very names that the kernel's new open file descriptions get, if and only if it is not an open of a path of 256 or more characters; one that fails opens nothing. |
| Disagreements.DupOfClosedDescriptor | src/syscall_handler.c:392-399 | dup(99) with 99 not open: harmless to the tracee, but not to the tracer. |
| Disagreements.OpenOfLongPath | src/syscall_handler.c:118-137 | A path of 300 characters is recorded under its first 255. |
| Disagreements.Dup3WithFlag | src/syscall_handler.c:392-399 | dup3 with O_CLOEXEC: the flag is lost. |
| Disagreements.IoctlSetsFlag | src/syscall_handler.c:464-472 | FIOCLEX: the flag is not noticed. |
| Disagreements.ForkTakenForSharing | src/main.c:127-136 | fork with a register that happens to hold CLONE_FILES is taken for sharing. |
| Disagreements.Clone3TakenForSharing | src/main.c:127-136 | clone3 without flags, whose argument lies at an address that has the CLONE_FILES bit, is taken for sharing. |
| Disagreements.PipeAtEndOfMapping | src/syscall_handler.c:237-239 | A pipe written to the last eight bytes of a page with nothing mapped after it: the second descriptor is missed. |
| Disagreements.FailedExecve | src/syscall_handler.c:431-453 | An execve that fails makes the tracer forget close-on-exec descriptors that stay open. |
| Disagreements.OvertakenClose | src/syscall_handler.c:160-172 | If the handler of a close is overtaken by that of an open by a sharer, tracer and kernel agree afterwards if and only if the open did not get the closed descriptor again; if it did, the tracer takes it for closed. |
| ForkJoinSafety.InitInv | src/main.c:213-220 | The state in which only the main thread traces meets the invariant. |
| ForkJoinSafety.StepKeepsInv | src/main.c:86-120 | Every step of announcing, creating, listing, tracing, merging, leaving, polling and joining keeps the protocol's invariant. |
| ForkJoinSafety.AllDone | src/main.c:222-239 | When the count is zero and main no longer traces, all threads have merged, removed their temporaries and counted themselves out, and the join list has each of them once, even those that finished before they were listed. |
| ForkJoinSafety.NobodyElseMoves | src/main.c:222-239 | From then on only the main thread can move, so nothing is spawned any more. |
| ForkJoinSafety.TerminationIsDetected | src/main.c:86-239 | In every run the count is the number of threads that were spawned less those that have left; reading zero means that all of them are done for good, and the join list has those that were spawned, each once. |
| ForkJoinSafety.ReportIsScheduleIndependent | src/main.c:159-239 | For any number of threads and any interleaving, the main tables at the end are those that one collector builds from all that was charged and counted in the run, each once and in any order. |
| ForkJoinProgress.EveryThreadGetsOn | src/main.c:159-239 | In every good state a thread can take its next step at once and is then in the phase after it, unless it is a child that is not created yet, the main thread waiting for a count that is not zero, or done; at zero, polling ends the wait. |
| ForkJoinProgress.TracingIsNeverHeldUp | src/main.c:86-120 | A tracing thread can always charge, count and spawn; a spawn raises the count by one and ends with the child in front of the list, whether or not the child has started. |
| ForkJoinProgress.WindingDownEnds | src/main.c:86-239 | Once nothing new is traced or spawned, every schedule takes a bounded number of steps, not counting polls of a count that is not zero, and can stop only at the report. |
| ForkJoinProgress.EveryRunCanReport | src/main.c:159-239 | Every run can be continued without new events to the report, which is then that of one collector that saw all that was charged and counted in the run. |
| Traces.GroupingRearranges | src/main.c:192-198 | Grouping a trace by thread, in any order of merging, loses and repeats nothing. |

## Left out

- ptrace, waitpid, signals and the clock: register values, results, memory contents and clock readings are parameters, and a stop of the tracee is an event.
- Tracers.Trace: does not model clone stops between the calls, because they act on other threads; Sharing and ForkJoin have them as steps.
- Tracers.StartTracer: does not model the removal of the thread's temporaries at the end, which is ThreadTemporaries.ThreadTmpsTable.Remove.
- JSON output, printing, option parsing, MPI ranks and the table of system call names: input and output, and a constant table.
- Records inside the records: `open_close_stat` and `read_write_stat` are embedded structs, so they are values in the fields of a file's record; histogram counters are values in a map rather than cells of their own.
- The interleavings of `main.c`, `thread_temporaries.c` and `handle_execve_return` are state machines on values, because their theorems are about steps of other threads in between; the class methods beside them are the code with one operation at a time.
- Locking: accesses under a mutex are single steps. Which thread holds the mutex is not part of the state, only that the mutex is still there when it is locked.
- ThreadTemporaries.ThreadTmpsTable.Insert: does not model a thread id that is inserted twice, because process ids are assumed not to be reused while their temporaries exist.
- FileStats.FileStatTable.Merge: does not model merging a table into itself, which no caller does.
- FdTables.FdTable.InsertDup: does not model a lookup that finds nothing, which the code dereferences; at the level of traces and events this is a crash and is not left out.
- Refinement.AgreementKeptExactly: does not model interleavings of a handler with other events, because the kernel's effect and the handler are one event there; OvertakenClose and LateOpenIsTakenOver show that this matters.
- Refinement.AgreementKeptExactly: does not model memory that another thread changes between its use by the kernel and by the tracer (a path, or a pair of descriptors), nor system calls made through the 32-bit interface, whose numbers mean something else.
- Refinement.AgreementKeptExactly: does not model descriptors that come and go by system calls that the code does not handle (creat, memfd_create, close_range, execveat, received descriptors and so on), nor the end of a process's other threads at an execve.
- SharingSafety.StepKeepsInv: does not model overflow of a reference count or a failing malloc.
- ForkJoinProgress.WindingDownEnds: does not model that a thread with a step to take is scheduled at some time; that is up to the operating system.
- Rates are reals, so the rounding of IEEE doubles is not modelled.
