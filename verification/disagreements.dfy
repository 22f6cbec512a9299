/** System calls and schedules after which the tracer no longer knows what is open. */
module Disagreements {
  import opened AtomicEvents
  import opened FdTables
  import opened HandlerLaws
  import opened Kernels
  import opened ReadStrings
  import opened Refinement
  import opened Sharing
  import opened SharingSafety
  import opened Syscalls
  import opened Words

  function Call(sc: int, rdi: int, rsi: int, rdx: int, rax: S64): Completed {
    Completed(sc, Regs(rdi, rsi, rdx, 0), map[], Time(0, 0), rax, map[], Time(0, 0))
  }

  /** From the start: an event that can happen and that the tracer gets wrong. */
  ghost predicate GoesWrong(e: Event) {
    Possible(BOOTED, INIT, e) && !Agrees(KernelAfter(BOOTED, e), TracerAfter(INIT, e))
  }

  lemma Unfaithful(e: Event)
    requires Possible(BOOTED, INIT, e) && !Faithful(BOOTED, INIT, e)
    ensures GoesWrong(e)
  {
    hide Agrees, Possible, Faithful, KernelAfter, TracerAfter;
    BootedAgrees();
    AgreementKeptExactly(BOOTED, INIT, e);
  }

  const EBADF := -9
  const ENOENT := -2

  /** dup(99) of a descriptor that is not open fails, harmlessly but for the tracer. */
  lemma DupOfClosedDescriptor()
    ensures GoesWrong(Sys(0, Call(32, 99, 0, 0, EBADF)))
  {
    hide Agrees, KernelAfter, TracerAfter, GoesWrong;
    Unfaithful(Sys(0, Call(32, 99, 0, 0, EBADF)));
  }

  /** dup3(0, 5, O_CLOEXEC): the flag is not noticed. */
  lemma Dup3WithFlag()
    ensures GoesWrong(Sys(0, Call(292, 0, 5, CLOEXEC, 5)))
  {
    hide Agrees, KernelAfter, TracerAfter, GoesWrong;
    Unfaithful(Sys(0, Call(292, 0, 5, CLOEXEC, 5)));
  }

  /** ioctl(0, FIOCLEX): the flag is not noticed either. */
  lemma IoctlSetsFlag()
    ensures GoesWrong(Sys(0, Call(16, 0, FIOCLEX, 0, 0)))
  {
    hide Agrees, KernelAfter, TracerAfter, GoesWrong;
    Unfaithful(Sys(0, Call(16, 0, FIOCLEX, 0, 0)));
  }

  /** fork() with a leftover argument register that looks like CLONE_FILES. */
  lemma ForkTakenForSharing(child: nat)
    requires child != 0
    ensures GoesWrong(Spawn(0, child, ForkCall, CLONE_FILES))
  {
    hide Agrees, KernelAfter, TracerAfter, GoesWrong;
    Unfaithful(Spawn(0, child, ForkCall, CLONE_FILES));
  }

  /** open of a path of 300 characters. */
  const LONG_OPEN := Completed(
    2, Regs(0x1000, 0, 0, 0),
    map a: int | 0x1000 <= a < 0x2000 :: if a < 0x1000 + 300 then 'a' else '\0',
    Time(0, 0), 3, map[], Time(0, 0))

  /** The file is recorded under the first 255 characters of its path. */
  lemma OpenOfLongPath()
    ensures GoesWrong(Sys(0, LONG_OPEN))
    ensures NameReadable(LONG_OPEN) && |PathName(LONG_OPEN)| == 300 && |OpenedName(LONG_OPEN)| == 255
  {
    hide Agrees, KernelAfter, TracerAfter, GoesWrong;
    LongPath();
    Unfaithful(Sys(0, LONG_OPEN));
    OpenedNameIsCut(LONG_OPEN);
  }

  lemma LongPath()
    ensures HasPath(LONG_OPEN) && NameReadable(LONG_OPEN) && |PathName(LONG_OPEN)| == 300
  {
    var mem, p := LONG_OPEN.memAtCall, FirstNul(LONG_OPEN.memAtCall, 0x1000, PATH_MAX);
    assert NulAt(mem, 0x1000 + 300);
    assert p == 300 by {
      assert p < 300 ==> NulAt(mem, 0x1000 + p);
    }
    FirstNulWithin(mem, 0x1000, FILENAME_BUFF_SIZE, PATH_MAX);
    assert WordsNeeded(mem, 0x1000, FILENAME_BUFF_SIZE) <= 32;
  }

  /** The pair 3, 4 in the last eight bytes of a page with nothing mapped after it. */
  const PIPE_AT_END := Completed(
    22, Regs(0x1ff8, 0, 0, 0), map[], Time(0, 0), 0,
    map a: int | 0x1ff8 <= a < 0x2000 :: if a == 0x1ff8 then 3 as char else if a == 0x1ffc then 4 as char else '\0',
    Time(0, 0))

  /** clone3(0x7fff_0000_0400, ..) with no flags: the address is taken for flags. */
  lemma Clone3TakenForSharing(child: nat)
    requires child != 0
    ensures GoesWrong(Spawn(0, child, Clone3Call(0), 0x7fff_0000_0400))
  {
    hide Agrees, KernelAfter, TracerAfter, GoesWrong;
    Unfaithful(Spawn(0, child, Clone3Call(0), 0x7fff_0000_0400));
  }

  /** pipe(..) into the last eight bytes of a mapping: the second descriptor is not read. */
  lemma PipeAtEndOfMapping()
    ensures GoesWrong(Sys(0, PIPE_AT_END))
  {
    hide Agrees, KernelAfter, TracerAfter, GoesWrong;
    var mem := PIPE_AT_END.memAtReturn;
    assert Readable(mem, 0x1ff8, 4) && Readable(mem, 0x1ffc, 4);
    assert PairAt(mem, 0x1ff8) == (3, 4);
    assert 0x2000 !in mem;
    Unfaithful(Sys(0, PIPE_AT_END));
  }

  const SET_FLAG := Sys(0, Call(72, 0, F_SETFD, FD_CLOEXEC, 0))
  const FAIL_EXEC := Sys(0, Call(59, 0, 0, 0, ENOENT))

  /** fcntl(0, F_SETFD, FD_CLOEXEC) followed by an execve of a program that does not exist:
      the tracer forgets that descriptor 0 is open. */
  lemma FailedExecve()
    ensures AllPossible(BOOTED, INIT, [SET_FLAG, FAIL_EXEC])
    ensures !AgreeThroughout(BOOTED, INIT, [SET_FLAG, FAIL_EXEC])
  {
    hide Agrees, AgreeThroughout, TracerAfter, KernelAfter, Faithful, Possible;
    var es := [SET_FLAG, FAIL_EXEC];
    var k, s := KernelAfter(BOOTED, SET_FLAG), TracerAfter(INIT, SET_FLAG);
    assert es[1..] == [FAIL_EXEC] && [FAIL_EXEC][1..] == [];
    FlagSet(s);
    assert AllPossible(KernelAfter(k, FAIL_EXEC), TracerAfter(s, FAIL_EXEC), []);
    assert AllPossible(k, s, [FAIL_EXEC]);
    TracerRefinesKernel(es);
    assert !AllFaithful(k, s, [FAIL_EXEC]);
  }

  lemma FlagSet(s: State)
    ensures Possible(BOOTED, INIT, SET_FLAG)
    ensures Possible(KernelAfter(BOOTED, SET_FLAG), s, FAIL_EXEC)
    ensures !Faithful(KernelAfter(BOOTED, SET_FLAG), s, FAIL_EXEC)
  {
    hide Low32, HasBit, SharesFiles, NewOrError, Served, FaithfulCall, TableOf;
    FlagServed();
    SmallFitsInt(0);
    SmallFitsInt(F_SETFD);
    assert FilesOf(Flagged(BOOTED, 0, 0, true), 0)[0].cloexec;
  }

  lemma FlagServed()
    ensures Served(BOOTED, 0, SET_FLAG.c) == Flagged(BOOTED, 0, 0, true)
  {
    hide Low32, HasBit, Flagged, Duplicated;
    SmallFitsInt(0);
    SmallFitsInt(F_SETFD);
    FlagIsSet();
  }

  lemma FlagIsSet()
    ensures HasBit(FD_CLOEXEC, FD_CLOEXEC)
  {}

  /** The handler of a close of fd is overtaken by that of an open in another thread, to which the
      kernel gave fd': that does no harm exactly if fd' is not the closed descriptor again,
      which the tracer would then take for closed. */
  lemma OvertakenClose(k: Kernel, s: State, p: nat, q: nat, fd: int, fd': nat, name: CString, cloexec: bool)
    requires Agrees(k, s) && p in k.procs && q in k.procs && k.procs[p] == k.procs[q]
    ensures var k' := Opened(Closed(k, p, fd), q, fd', name, cloexec);
            var s' := Perform(s, [Action.Edit(q, Put(fd', name, cloexec)), Action.Edit(p, Drop(fd))]);
            && (Agrees(k', s') <==> fd != fd')
            && Live(s', p) && fd' in FilesOf(k', p) && (fd == fd' ==> fd' !in TableOf(s', p))
  {
    hide Inv, SameView, Perform, Opened, Closed, Kernels.WellFormed, FilesOf;
    var k1 := Closed(k, p, fd);
    var k' := Opened(k1, q, fd', name, cloexec);
    var s' := OvertakenEdits(s, p, q, fd, fd', name, cloexec);
    ClosedOnly(k, p, fd);
    OpenedOnly(k1, q, fd', name, cloexec);
    var t' := TableOf(s, p)[fd' := Entry(name, cloexec)] - {fd};
    OnlyOneTable(k, k1, k', p, q);
    OneTableChanged(k, s, k', s', p, t');
    OvertakenFiles(k, p, q, fd, fd', name, cloexec);
    OvertakenSeen(k.names, FilesOf(k, p), TableOf(s, p), fd, fd', name, cloexec);
  }

  lemma OnlyOneTable(k: Kernel, k1: Kernel, k': Kernel, p: nat, q: nat)
    requires p in k.procs && q in k.procs && k.procs[p] == k.procs[q]
    requires OnlyFilesOf(k, k1, p) && OnlyFilesOf(k1, k', q)
    ensures OnlyFilesOf(k, k', p)
  {
    hide Kernels.WellFormed;
  }

  lemma OvertakenFiles(k: Kernel, p: nat, q: nat, fd: int, fd': nat, name: CString, cloexec: bool)
    requires Kernels.WellFormed(k) && p in k.procs && q in k.procs && k.procs[p] == k.procs[q]
    ensures var k' := Opened(Closed(k, p, fd), q, fd', name, cloexec);
            && k'.names == k.names + [name]
            && FilesOf(k', p) == (FilesOf(k, p) - {fd})[fd' := Slot(|k.names|, cloexec)]
  {}

  lemma OvertakenSeen(names: seq<CString>, fs: Kernels.Files, t: Table, fd: int, fd': nat, name: CString, cloexec: bool)
    requires SameView(names, fs, t)
    ensures SameView(names + [name], (fs - {fd})[fd' := Slot(|names|, cloexec)], t[fd' := Entry(name, cloexec)] - {fd})
       <==> fd != fd'
  {
    var fs', t' := (fs - {fd})[fd' := Slot(|names|, cloexec)], t[fd' := Entry(name, cloexec)] - {fd};
    if fd != fd' {
      hide SameView, SameEntry;
      CloseSeen(names, fs, t, fd);
      OpenSeen(names, fs - {fd}, t - {fd}, fd', name, name, cloexec, cloexec);
      assert t' == (t - {fd})[fd' := Entry(name, cloexec)];
    } else {
      assert !SameEntry(names + [name], fs', t', fd');
    }
  }

  /** Two edits of one table by two of its sharers. */
  lemma OvertakenEdits(s: State, p: nat, q: nat, fd: int, fd': nat, name: CString, cloexec: bool) returns (s': State)
    requires Settled(s) && Live(s, p) && Live(s, q) && SameTable(s, p, q)
    ensures s' == Perform(s, [Action.Edit(q, Put(fd', name, cloexec)), Action.Edit(p, Drop(fd))])
    ensures Settled(s')
    ensures var t' := TableOf(s, p)[fd' := Entry(name, cloexec)] - {fd};
            s' == s.(heap := s.heap[s.threads[p].table := TableCell(t')])
  {
    hide Inv, Perform;
    SettledRelies(s, p);
    SettledRelies(s, q);
    var e, e' := Action.Edit(q, Put(fd', name, cloexec)), Action.Edit(p, Drop(fd));
    StepKeepsInv(s, e);
    StepKeepsInv(Next(s, e), e');
    s' := Next(Next(s, e), e');
    PerformNext(s, [e, e'], [e']);
    PerformNext(Next(s, e), [e'], []);
    PerformNothing(s');
  }
}
