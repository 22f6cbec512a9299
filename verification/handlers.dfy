/** The call and return handlers: what they save at the call, and what they do with it at
    the return, as values and as the code that works on a thread's temporaries in place. */
module Handlers {
  import opened FdHistory
  import opened FdTables
  import opened Options
  import opened ReadStrings
  import opened Syscalls
  import opened Words
  import Calls = SyscallStats
  import Files = FileStats

  /** What a thread remembers between the call and the return of a system call. */
  datatype Saved = Saved(start: Time, ptr: int, intA: int, intB: int, intC: int, buffer: seq<char>)

  predicate BufferSized(sv: Saved) {
    |sv.buffer| == FILENAME_BUFF_SIZE
  }

  const PIPE_R := "pipe_r"
  const PIPE_W := "pipe_w"
  const SOCKET := "socket"
  const EVENTFD := "eventfd"
  const EPOLL := "epoll"
  const ACCEPT := "accept"

  function NameRegister(at: bool, r: Regs): int { if at then r.rsi else r.rdi }

  function FlagsRegister(at: bool, r: Regs): int { if at then r.rdx else r.rsi }

  /** What is saved at the call, or None if the tracer gives up because the filename
      of an open cannot be read. */
  function AfterCall(sv: Saved, k: Kind, r: Regs, mem: Memory, now: Time): Option<Saved>
    requires BufferSized(sv)
  {
    match k
    case OpenKind(at) =>
      if Succeeds(mem, NameRegister(at, r), FILENAME_BUFF_SIZE) then
        Some(sv.(intA := Low32(FlagsRegister(at, r)),
                 buffer := Filled(mem, NameRegister(at, r), sv.buffer, FILENAME_BUFF_SIZE),
                 start := now))
      else None
    case CloseKind => Some(sv.(intA := Low32(r.rdi), start := now))
    case ReadKind => Some(sv.(intA := Low32(r.rdi), start := now))
    case WriteKind => Some(sv.(intA := Low32(r.rdi), start := now))
    case PipeKind(pipe2) => Some(sv.(ptr := r.rdi, intA := if pipe2 then Low32(r.rsi) else sv.intA, start := now))
    case SocketKind => Some(sv.(intA := Low32(r.rsi), start := now))
    case SocketPairKind => Some(sv.(ptr := r.r10, start := now))
    case EventFdKind(eventfd2) => Some(sv.(intA := if eventfd2 then Low32(r.rsi) else sv.intA, start := now))
    case EpollKind(create1) => Some(sv.(intA := if create1 then Low32(r.rdi) else sv.intA, start := now))
    case AcceptKind(accept4) => Some(sv.(intA := if accept4 then Low32(r.r10) else sv.intA, start := now))
    case DupKind(_) => Some(sv.(intA := Low32(r.rdi), start := now))
    case FcntlKind => Some(sv.(intA := Low32(r.rdi), intB := Low32(r.rsi), intC := Low32(r.rdx), start := now))
    case IoctlKind => Some(sv.(intA := Low32(r.rdi), intB := Low32(r.rsi), start := now))
    case ExecveKind => Some(sv.(start := now))
    case OtherKind => Some(sv.(start := now))
  }

  function NewFd(rax: S64, name: CString, cloexec: bool): seq<Edit> {
    if rax >= 0 then [Put(Low32(rax), name, cloexec)] else []
  }

  function NewPair(rax: S64, mem: Memory, addr: int, first: CString, second: CString, cloexec: bool): seq<Edit> {
    if rax == 0 then [Put(PeekInt(mem, addr), first, cloexec), Put(PeekInt(mem, addr + 4), second, cloexec)] else []
  }

  /** The edits of the descriptor table at the return. */
  function EditsAfter(sv: Saved, k: Kind, rax: S64, mem: Memory): seq<Edit> {
    var flagged := HasBit(sv.intA, CLOEXEC);
    match k
    case OpenKind(_) => NewFd(rax, CStr(sv.buffer), flagged)
    case CloseKind => [Drop(sv.intA)]
    case ReadKind => []
    case WriteKind => []
    case PipeKind(pipe2) => NewPair(rax, mem, sv.ptr, PIPE_R, PIPE_W, pipe2 && flagged)
    case SocketKind => NewFd(rax, SOCKET, flagged)
    case SocketPairKind => NewPair(rax, mem, sv.ptr, SOCKET, SOCKET, false)
    case EventFdKind(eventfd2) => NewFd(rax, EVENTFD, eventfd2 && flagged)
    case EpollKind(create1) => NewFd(rax, EPOLL, create1 && flagged)
    case AcceptKind(accept4) => NewFd(rax, ACCEPT, accept4 && flagged)
    case DupKind(_) =>
      if sv.intA >= 0 && sv.intA != Low32(rax) then [Dup(sv.intA, Low32(rax), false, false)] else []
    case FcntlKind =>
      if Low32(rax) == -1 then []
      else if sv.intB == F_DUPFD then [Dup(sv.intA, Low32(rax), false, false)]
      else if sv.intB == F_DUPFD_CLOEXEC then [Dup(sv.intA, Low32(rax), true, false)]
      else if sv.intB == F_SETFD then [SetFlag(sv.intA, HasBit(sv.intC, FD_CLOEXEC))]
      else []
    case IoctlKind =>
      if sv.intB == TIOCGPTPEER then [Dup(sv.intA, Low32(rax), false, true)] else []
    case ExecveKind => [Strip]
    case OtherKind => []
  }

  /** The name a descriptor is charged under. */
  function NameFor(t: Table, fd: int): CString {
    if fd in t then t[fd].filename else Files.NULL_NAME
  }

  function PairCharges(rax: S64, first: CString, second: CString, ns: U64): seq<Files.Charge> {
    if rax == 0 then [Files.Charge(first, Files.Opened(ns / 2)), Files.Charge(second, Files.Opened(ns / 2))] else []
  }

  /** What is charged to files at the return; the table is as it was before the edits. */
  function ChargesAfter(sv: Saved, k: Kind, t: Table, rax: S64, ns: U64): seq<Files.Charge> {
    match k
    case OpenKind(_) => [Files.Charge(CStr(sv.buffer), Files.Opened(ns))]
    case CloseKind => [Files.Charge(NameFor(t, sv.intA), Files.Closed(ns))]
    case ReadKind => [Files.Charge(NameFor(t, sv.intA), Files.Read(ns, rax))]
    case WriteKind => [Files.Charge(NameFor(t, sv.intA), Files.Written(ns, rax))]
    case PipeKind(_) => PairCharges(rax, PIPE_R, PIPE_W, ns)
    case SocketKind => [Files.Charge(SOCKET, Files.Opened(ns))]
    case SocketPairKind => PairCharges(rax, SOCKET, SOCKET, ns)
    case EventFdKind(_) => [Files.Charge(EVENTFD, Files.Opened(ns))]
    case EpollKind(_) => [Files.Charge(EPOLL, Files.Opened(ns))]
    case AcceptKind(_) => [Files.Charge(ACCEPT, Files.Opened(ns))]
    case _ => []
  }

  /** System calls that are not part of the file statistics. */
  predicate Unconsidered(k: Kind) {
    k.DupKind? || k.FcntlKind? || k.IoctlKind? || k.ExecveKind? || k.OtherKind?
  }

  function ChargedAll(t: Files.FileTable, cs: seq<Files.Charge>): Files.FileTable {
    if cs == [] then t
    else Files.Charged(ChargedAll(t, cs[..|cs| - 1]), cs[|cs| - 1])
  }

  function CountedIf(t: Calls.SyscallTable, k: Kind, sc: int, ns: U64): Calls.SyscallTable {
    if Unconsidered(k) then Calls.Counted(t, Calls.Call(sc, ns)) else t
  }

  lemma NoEdits(t: Table, stats: Files.FileTable)
    ensures After(t, []) == Some(t) && ChargedAll(stats, []) == stats
  {}

  /** Unconsidered system calls charge nothing to files and read no memory. */
  lemma ByConsideration(sv: Saved, k: Kind, t: Table, rax: S64, mem: Memory, ns: U64, stats: Files.FileTable)
    ensures Unconsidered(k) ==>
      && EditsAfter(sv, k, rax, mem) == EditsAfter(sv, k, rax, map[])
      && ChargedAll(stats, ChargesAfter(sv, k, t, rax, ns)) == stats
    ensures k.ExecveKind? ==> Unconsidered(k)
  {}

  lemma TwoPuts(t: Table, fd: int, name: CString, fd': int, name': CString, cloexec: bool)
    ensures After(t, [Put(fd, name, cloexec), Put(fd', name', cloexec)])
         == Some(t[fd := Entry(name, cloexec)][fd' := Entry(name', cloexec)])
  {
    var es := [Put(fd, name, cloexec), Put(fd', name', cloexec)];
    assert [es[0]][..0] == [];
    assert After(t, [es[0]]) == Some(t[fd := Entry(name, cloexec)]);
    assert es[..1] == [es[0]];
  }

  lemma OneCharge(t: Files.FileTable, c: Files.Charge)
    ensures ChargedAll(t, [c]) == Files.Charged(t, c)
  {
    hide Files.Charged;
    assert [c][..0] == [];
  }

  lemma TwoCharges(t: Files.FileTable, c: Files.Charge, c': Files.Charge)
    ensures ChargedAll(t, [c, c']) == Files.Charged(Files.Charged(t, c), c')
  {
    hide Files.Charged;
    var cs := [c, c'];
    assert [c][..0] == [];
    assert ChargedAll(t, [c]) == Files.Charged(t, c);
    assert cs[..1] == [c];
  }

  // ---- the code ----

  /** The number of threads that share a descriptor table. */
  class ShareCount {
    var n: int

    constructor (n: int)
      ensures this.n == n
    {
      this.n := n;
    }
  }

  class ThreadTmps {
    var startTime: Time
    var ptr: int
    var intA: int
    var intB: int
    var intC: int
    const filenameBuffer: array<char>
    var fdTable: FdTable
    var shareCount: ShareCount

    ghost predicate Valid()
      reads this, fdTable
    {
      filenameBuffer.Length == FILENAME_BUFF_SIZE && fdTable.Valid()
    }

    function State(): Saved
      reads this, filenameBuffer
    {
      Saved(startTime, ptr, intA, intB, intC, filenameBuffer[..])
    }

    /** The table, its entries and the count are new or were this thread's before. */
    twostate predicate KeepsToItself()
      reads this, fdTable
    {
      && (fdTable == old(fdTable) || fresh(fdTable))
      && (shareCount == old(shareCount) || fresh(shareCount))
      && forall fd :: fd in fdTable.entries ==>
           fresh(fdTable.entries[fd]) || fdTable.entries[fd] in old(fdTable.Owned())
    }

    constructor (fdTable: FdTable, shareCount: ShareCount)
      requires fdTable.Valid()
      ensures Valid() && fresh(filenameBuffer)
      ensures this.fdTable == fdTable && this.shareCount == shareCount
    {
      startTime, ptr, intA, intB, intC := Time(0, 0), 0, 0, 0, 0;
      filenameBuffer := new char[FILENAME_BUFF_SIZE];
      this.fdTable, this.shareCount := fdTable, shareCount;
    }

    /** Dispatches on the system call number; not ok means that the tracer exits. */
    method HandleSyscallCall(sc: int, r: Regs, mem: Memory, now: Time) returns (ok: bool)
      requires Valid()
      modifies this`startTime, this`ptr, this`intA, this`intB, this`intC, filenameBuffer
      ensures Valid()
      ensures ok <==> AfterCall(old(State()), Classify(sc), r, mem, now).Some?
      ensures ok ==> Some(State()) == AfterCall(old(State()), Classify(sc), r, mem, now)
    {
      ok := true;
      match Classify(sc)
      case OpenKind(at) =>
        ok := HandleOpenCall(at, r, mem, now);
      case CloseKind =>
        intA, startTime := Low32(r.rdi), now;
      case ReadKind =>
        intA, startTime := Low32(r.rdi), now;
      case WriteKind =>
        intA, startTime := Low32(r.rdi), now;
      case PipeKind(pipe2) =>
        ptr := r.rdi;
        if pipe2 {
          intA := Low32(r.rsi);
        }
        startTime := now;
      case SocketKind =>
        intA, startTime := Low32(r.rsi), now;
      case SocketPairKind =>
        ptr, startTime := r.r10, now;
      case EventFdKind(eventfd2) =>
        if eventfd2 {
          intA := Low32(r.rsi);
        }
        startTime := now;
      case EpollKind(create1) =>
        if create1 {
          intA := Low32(r.rdi);
        }
        startTime := now;
      case AcceptKind(accept4) =>
        if accept4 {
          intA := Low32(r.r10);
        }
        startTime := now;
      case DupKind(_) =>
        intA := Low32(r.rdi);
        startTime := now;
      case FcntlKind =>
        intA, intB, intC := Low32(r.rdi), Low32(r.rsi), Low32(r.rdx);
        startTime := now;
      case IoctlKind =>
        intA, intB := Low32(r.rdi), Low32(r.rsi);
        startTime := now;
      case ExecveKind =>
        startTime := now;
      case OtherKind =>
        startTime := now;
    }

    method HandleOpenCall(at: bool, r: Regs, mem: Memory, now: Time) returns (ok: bool)
      requires Valid()
      modifies this`startTime, this`intA, filenameBuffer
      ensures Valid()
      ensures ok <==> AfterCall(old(State()), OpenKind(at), r, mem, now).Some?
      ensures ok ==> Some(State()) == AfterCall(old(State()), OpenKind(at), r, mem, now)
    {
      var nameReg, flagsReg;
      if at {
        nameReg, flagsReg := r.rsi, r.rdx;
      } else {
        nameReg, flagsReg := r.rdi, r.rsi;
      }
      intA := Low32(flagsReg);
      var ret := ReadString(mem, nameReg, filenameBuffer, FILENAME_BUFF_SIZE);
      if ret != 0 {
        return false;
      }
      startTime := now;
      return true;
    }

    /** The handlers of the system calls that file statistics are kept of. */
    method HandleFileReturn(k: Kind, rax: S64, mem: Memory, ns: U64, files: Files.FileStatTable)
      requires Valid() && files.Valid() && !Unconsidered(k)
      modifies fdTable, files, files.Owned()
      ensures Valid() && files.Valid() && files.OnlyNewRecords() && KeepsToItself()
      ensures Some(fdTable.View()) == After(old(fdTable.View()), EditsAfter(State(), k, rax, mem))
      ensures files.View() == ChargedAll(old(files.View()), ChargesAfter(State(), k, old(fdTable.View()), rax, ns))
    {
      hide After, ChargedAll, Edited, Files.Charged, Files.WellFormed, Files.Updated, Low32, HasBit, CStr;
      hide NewFd, NewPair, PairCharges, NameFor, FdTable.View, Files.FileStatTable.View;
      match k
      case OpenKind(_) =>
        HandleNewFd(CStr(filenameBuffer[..]), HasBit(intA, CLOEXEC), rax, ns, files);
      case CloseKind =>
        HandleClose(ns, files);
      case ReadKind =>
        NoEdits(fdTable.View(), files.View());
        HandleRead(rax, ns, files);
      case WriteKind =>
        NoEdits(fdTable.View(), files.View());
        HandleWrite(rax, ns, files);
      case PipeKind(pipe2) =>
        HandleNewPair(PIPE_R, PIPE_W, pipe2 && HasBit(intA, CLOEXEC), rax, mem, ns, files);
      case SocketKind =>
        HandleNewFd(SOCKET, HasBit(intA, CLOEXEC), rax, ns, files);
      case SocketPairKind =>
        HandleNewPair(SOCKET, SOCKET, false, rax, mem, ns, files);
      case EventFdKind(eventfd2) =>
        HandleNewFd(EVENTFD, eventfd2 && HasBit(intA, CLOEXEC), rax, ns, files);
      case EpollKind(create1) =>
        HandleNewFd(EPOLL, create1 && HasBit(intA, CLOEXEC), rax, ns, files);
      case AcceptKind(accept4) =>
        HandleNewFd(ACCEPT, accept4 && HasBit(intA, CLOEXEC), rax, ns, files);
    }

    method LookupOrNull(fd: int) returns (filename: CString)
      ensures filename == NameFor(fdTable.View(), fd)
    {
      var found := fdTable.Lookup(fd);
      filename := if found == None then Files.NULL_NAME else found.value;
    }

    method HandleClose(ns: U64, files: Files.FileStatTable)
      requires Valid() && files.Valid()
      modifies fdTable, files, files.Owned()
      ensures Valid() && files.Valid() && files.OnlyNewRecords() && KeepsToItself()
      ensures Some(fdTable.View()) == After(old(fdTable.View()), [Drop(intA)])
      ensures files.View() == ChargedAll(old(files.View()),
        [Files.Charge(NameFor(old(fdTable.View()), intA), Files.Closed(ns))])
    {
      hide After, ChargedAll, NameFor, Files.Charged, Files.WellFormed, Files.Updated;
      hide FdTable.View, Files.FileStatTable.View;
      var filename := LookupOrNull(intA);
      AfterOne(fdTable.View(), Drop(intA));
      OneCharge(files.View(), Files.Charge(filename, Files.Closed(ns)));
      files.IncrClose(filename, ns);
      var found := fdTable.Remove(intA);
    }

    method HandleRead(rax: S64, ns: U64, files: Files.FileStatTable)
      requires files.Valid()
      modifies files, files.Owned()
      ensures files.Valid() && files.OnlyNewRecords()
      ensures files.View() == ChargedAll(old(files.View()),
        [Files.Charge(NameFor(fdTable.View(), intA), Files.Read(ns, rax))])
    {
      hide ChargedAll, NameFor, Files.Charged, Files.WellFormed, Files.Updated, FdTable.View, Files.FileStatTable.View;
      var filename := LookupOrNull(intA);
      OneCharge(files.View(), Files.Charge(filename, Files.Read(ns, rax)));
      files.IncrRead(filename, ns, rax);
    }

    method HandleWrite(rax: S64, ns: U64, files: Files.FileStatTable)
      requires files.Valid()
      modifies files, files.Owned()
      ensures files.Valid() && files.OnlyNewRecords()
      ensures files.View() == ChargedAll(old(files.View()),
        [Files.Charge(NameFor(fdTable.View(), intA), Files.Written(ns, rax))])
    {
      hide ChargedAll, NameFor, Files.Charged, Files.WellFormed, Files.Updated, FdTable.View, Files.FileStatTable.View;
      var filename := LookupOrNull(intA);
      OneCharge(files.View(), Files.Charge(filename, Files.Written(ns, rax)));
      files.IncrWrite(filename, ns, rax);
    }

    method HandleNewFd(name: CString, cloexec: bool, rax: S64, ns: U64, files: Files.FileStatTable)
      requires Valid() && files.Valid()
      modifies fdTable, files, files.Owned()
      ensures Valid() && files.Valid() && files.OnlyNewRecords() && KeepsToItself()
      ensures Some(fdTable.View()) == After(old(fdTable.View()), NewFd(rax, name, cloexec))
      ensures files.View() == ChargedAll(old(files.View()), [Files.Charge(name, Files.Opened(ns))])
    {
      hide After, Files.Charged, Files.WellFormed, Files.Updated, ChargedAll, Low32, FdTable.View;
      hide Files.FileStatTable.View;
      AfterOne(fdTable.View(), Put(Low32(rax), name, cloexec));
      OneCharge(files.View(), Files.Charge(name, Files.Opened(ns)));
      if rax >= 0 {
        fdTable.Insert(Low32(rax), name, cloexec);
      }
      files.IncrOpen(name, ns);
    }

    method HandleNewPair(first: CString, second: CString, cloexec: bool, rax: S64, mem: Memory, ns: U64,
                         files: Files.FileStatTable)
      requires Valid() && files.Valid()
      modifies fdTable, files, files.Owned()
      ensures Valid() && files.Valid() && files.OnlyNewRecords() && KeepsToItself()
      ensures Some(fdTable.View()) == After(old(fdTable.View()), NewPair(rax, mem, ptr, first, second, cloexec))
      ensures files.View() == ChargedAll(old(files.View()), PairCharges(rax, first, second, ns))
    {
      hide ChargedAll, After, Files.Charged, Files.WellFormed, Files.Updated, PeekInt, FdTable.View;
      hide Files.FileStatTable.View;
      NoEdits(fdTable.View(), files.View());
      if rax == 0 {
        TwoPuts(fdTable.View(), PeekInt(mem, ptr), first, PeekInt(mem, ptr + 4), second, cloexec);
        TwoCharges(files.View(), Files.Charge(first, Files.Opened(ns / 2)), Files.Charge(second, Files.Opened(ns / 2)));
        fdTable.Insert(PeekInt(mem, ptr), first, cloexec);
        fdTable.Insert(PeekInt(mem, ptr + 4), second, cloexec);
        files.IncrOpen(first, ns / 2);
        files.IncrOpen(second, ns / 2);
      }
    }

    /** The handlers of the other system calls that change the descriptor table. */
    method HandleUnconsideredReturn(k: Kind, rax: S64)
      requires Valid() && Unconsidered(k) && NamesFit(fdTable.View())
      requires After(fdTable.View(), EditsAfter(State(), k, rax, map[])).Some?
      modifies this`fdTable, this`shareCount, fdTable, fdTable.Owned(), shareCount
      ensures Valid() && KeepsToItself()
      ensures Some(fdTable.View()) == After(old(fdTable.View()), old(EditsAfter(State(), k, rax, map[])))
      ensures k != ExecveKind ==>
        fdTable == old(fdTable) && shareCount == old(shareCount) && shareCount.n == old(shareCount.n)
    {
      match k
      case DupKind(_) =>
        var retFd := Low32(rax);
        if intA >= 0 && intA != retFd {
          fdTable.InsertDup(intA, retFd, false, false);
        }
      case FcntlKind =>
        var retFd := Low32(rax);
        if retFd != -1 {
          if intB == F_DUPFD {
            fdTable.InsertDup(intA, retFd, false, false);
          } else if intB == F_DUPFD_CLOEXEC {
            fdTable.InsertDup(intA, retFd, true, false);
          } else if intB == F_SETFD {
            fdTable.SetCloexec(intA, HasBit(intC, FD_CLOEXEC));
          }
        }
      case IoctlKind =>
        if intB == TIOCGPTPEER {
          fdTable.InsertDup(intA, Low32(rax), false, true);
        }
      case ExecveKind =>
        HandleExecveReturn();
      case OtherKind =>
    }

    /** Unshares the table if it is shared, then removes the close-on-exec entries. Nobody
        else runs in between here; that others do is the subject of module Sharing. */
    method HandleExecveReturn()
      requires Valid()
      modifies this`fdTable, this`shareCount, fdTable, shareCount
      ensures Valid() && KeepsToItself() && fdTable.View() == Stripped(old(fdTable.View()))
      ensures old(shareCount.n) > 1 ==>
        && fresh(fdTable) && fresh(shareCount) && shareCount.n == 1
        && old(fdTable).Valid() && old(fdTable).View() == old(fdTable.View())
        && old(shareCount).n == old(shareCount.n) - 1
      ensures old(shareCount.n) <= 1 ==>
        fdTable == old(fdTable) && shareCount == old(shareCount) && shareCount.n == old(shareCount.n)
    {
      hide Stripped, FdTable.View;
      if shareCount.n > 1 {
        var fdCopy := fdTable.DeepCopy();
        assert forall fd :: fd in fdCopy.entries ==> fdCopy.entries[fd] in fdCopy.Owned();
        shareCount.n := shareCount.n - 1;
        if shareCount.n != 0 {
          shareCount := new ShareCount(0);
        }
        fdTable := fdCopy;
        shareCount.n := shareCount.n + 1;
      }
      assert forall fd :: fd in fdTable.entries ==>
        fresh(fdTable.entries[fd]) || fdTable.entries[fd] in old(fdTable.Owned());
      fdTable.RemoveCloexec();
    }

    /** Dispatches on the system call number. */
    method HandleSyscallReturn(sc: int, rax: S64, mem: Memory, now: Time,
                               files: Files.FileStatTable, calls: Calls.SyscallStatTable)
      requires Valid() && files.Valid() && calls.Valid() && NamesFit(fdTable.View())
      requires After(fdTable.View(), EditsAfter(State(), Classify(sc), rax, mem)).Some?
      modifies this`fdTable, this`shareCount, fdTable, fdTable.Owned(), shareCount
      modifies files, files.Owned(), calls, calls.Owned()
      ensures Valid() && files.Valid() && calls.Valid()
      ensures KeepsToItself() && files.OnlyNewRecords() && calls.OnlyNewRecords()
      ensures Some(fdTable.View()) == After(old(fdTable.View()), old(EditsAfter(State(), Classify(sc), rax, mem)))
      ensures files.View() == ChargedAll(old(files.View()),
        old(ChargesAfter(State(), Classify(sc), fdTable.View(), rax, Elapsed(startTime, now))))
      ensures calls.View() == CountedIf(old(calls.View()), Classify(sc), sc, Elapsed(old(startTime), now))
    {
      hide EditsAfter, ChargesAfter, After, ChargedAll, Classify, Unconsidered, Files.WellFormed, Calls.Counted;
      hide Elapsed;
      hide NamesFit, FdTable.View, Files.FileStatTable.View, Calls.SyscallStatTable.View;
      var k := Classify(sc);
      var ns := Elapsed(startTime, now);
      ByConsideration(State(), k, fdTable.View(), rax, mem, ns, files.View());
      if Unconsidered(k) {
        calls.Incr(sc, ns);
        HandleUnconsideredReturn(k, rax);
      } else {
        HandleFileReturn(k, rax, mem, ns, files);
      }
    }
  }
}
